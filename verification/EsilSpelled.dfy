/** The interpreter over radare2's registers runs as the one over placed operands, on
    every token stream; so what a stream is lifted to does what the stream says. */
module EsilSpelled {
  import opened Bits
  import opened Common
  import opened Ir
  import opened RegView
  import opened EsilMachine
  import opened EsilTyping
  import opened EsilNumbers
  import opened EsilAgree
  import EsilSync
  import EsilTheorem
  import EsilValues
  import R = EsilResolved
  import I = EsilInterp

  // ---- Two runs alike ----

  predicate EntryAlike(a: EsilArch, e: R.Entry, e': I.Entry) {
    match e
    case Lazy(r) => e'.Named? && !e'.x.Temp? && r == OperandRef(a, e'.x)
    case Known(v, bits, literal) => e' == I.Known(v, bits, literal)
  }

  predicate StacksAlike(a: EsilArch, es: seq<R.Entry>, es': seq<I.Entry>) {
    |es| == |es'| && forall k :: 0 <= k < |es| ==> EntryAlike(a, es[k], es'[k])
  }

  ghost predicate Alike(a: EsilArch, i: R.Run, j: I.Run) {
    && Holds(a, i.env, j.regs) && i.mem == j.mem && i.ctx == j.ctx && i.depth == j.depth && i.skip == j.skip
    && StacksAlike(a, i.stack, j.stack)
  }

  ghost predicate BothOrNeither(a: EsilArch, i: Option<R.Run>, j: Option<I.Run>) {
    (i.Some? <==> j.Some?) && (i.Some? ==> Alike(a, i.value, j.value))
  }

  /** No register is named like a temporary of the machine. */
  predicate Nameable(t: Token) {
    t.Operand? ==> !t.name.Temp?
  }

  // ---- Entries ----

  lemma EntryAgrees(a: EsilArch, e: R.Entry, e': I.Entry, env: Env, regs: Env)
    requires LawfulEsil(a) && FlagsApart(a) && Holds(a, env, regs) && EntryAlike(a, e, e')
    ensures R.EntryValue(e, env) == I.ValueOf(a, regs, e') && R.EntryBits(e) == I.BitsOf(a, e') && R.EntryArchBits(e) == I.OwnBits(a, e')
  {
    hide LawfulEsil, FlagsApart, Holds, OperandRef, ReadNum, Val, RegBits, I.Look, I.WidthOf;
    if e.Lazy? { ReadsAgree(a, env, regs, e'.x); }
  }

  /** The `k`-th entry from the top. */
  function From(i: R.Run, k: nat): R.Entry
    requires k < |i.stack|
  {
    i.stack[|i.stack| - 1 - k]
  }

  lemma AtAgrees(a: EsilArch, i: R.Run, j: I.Run, k: nat)
    requires LawfulEsil(a) && FlagsApart(a) && Alike(a, i, j) && k < |i.stack|
    ensures k < |j.stack| && EntryAlike(a, From(i, k), I.At(j, k)) && From(i, k).Known? == I.At(j, k).Known?
    ensures R.EntryValue(From(i, k), i.env) == I.ValueOf(a, j.regs, I.At(j, k))
    ensures R.EntryBits(From(i, k)) == I.BitsOf(a, I.At(j, k)) && R.EntryArchBits(From(i, k)) == I.OwnBits(a, I.At(j, k))
  {
    hide LawfulEsil, FlagsApart, Holds, R.EntryValue, R.EntryBits, R.EntryArchBits, I.ValueOf, I.BitsOf, I.OwnBits;
    EntryAgrees(a, From(i, k), I.At(j, k), i.env, j.regs);
  }

  lemma Shape(a: EsilArch, i: R.Run, j: I.Run)
    requires Alike(a, i, j)
    ensures |i.stack| == |j.stack| && i.mem == j.mem && i.ctx == j.ctx && i.depth == j.depth && i.skip == j.skip
  {
    hide Holds, EntryAlike;
  }

  lemma BothStuck(a: EsilArch)
    ensures BothOrNeither(a, None, None)
  {
  }

  lemma BothRun(a: EsilArch, i: R.Run, j: I.Run)
    requires Alike(a, i, j)
    ensures BothOrNeither(a, Some(i), Some(j))
  {
    hide Alike;
  }

  lemma DropAlike(a: EsilArch, i: R.Run, j: I.Run, n: nat)
    requires Alike(a, i, j) && n <= |i.stack|
    ensures n <= |j.stack| && Alike(a, R.Dropped(i, n), I.Dropped(j, n))
  {
    hide Holds, EntryAlike;
  }

  lemma PushAlike(a: EsilArch, i: R.Run, j: I.Run, e: R.Entry, e': I.Entry)
    requires Alike(a, i, j) && EntryAlike(a, e, e')
    ensures Alike(a, R.Pushed(i, e), I.Pushed(j, e'))
  {
    hide Holds, EntryAlike;
  }

  /** Numbers put on both stacks in place of `n` entries. */
  lemma PutNumber(a: EsilArch, i: R.Run, j: I.Run, n: nat, v: nat, bits: nat, literal: bool)
    requires Alike(a, i, j) && n <= |i.stack|
    ensures n <= |j.stack| && Alike(a, R.Pushed(R.Dropped(i, n), R.Known(v, bits, literal)), I.Pushed(I.Dropped(j, n), I.Known(v, bits, literal)))
  {
    hide Alike;
    DropAlike(a, i, j, n);
    PushAlike(a, R.Dropped(i, n), I.Dropped(j, n), R.Known(v, bits, literal), I.Known(v, bits, literal));
  }

  lemma WriteAlike(a: EsilArch, i: R.Run, j: I.Run, x: Name, v: nat)
    requires LawfulEsil(a) && FlagsApart(a) && Alike(a, i, j) && !x.Temp?
    ensures Alike(a, R.Written(i, OperandRef(a, x), v), j.(regs := I.Put(a, j.regs, x, v)))
  {
    hide LawfulEsil, FlagsApart, Holds, StacksAlike, OperandRef, WriteNum, Val, I.Put;
    WritesAgree(a, i.env, j.regs, x, v);
  }

  // ---- One step of each interpreter ----

  lemma ArithIs(a: EsilArch, i: R.Run, j: I.Run, op: EsilOp)
    requires i.skip == 0
    ensures R.RunToken(i, Arith(op), a) ==
      if |i.stack| < 2 then None
      else
        var v := ArithNum(op, R.EntryValue(From(i, 0), i.env), R.EntryBits(From(i, 0)), R.EntryValue(From(i, 1), i.env), R.EntryBits(From(i, 1)));
        Some(R.Pushed(R.Dropped(i, 2), R.Known(v, if I.Answers(op) then 1 else Max(R.EntryBits(From(i, 0)), R.EntryBits(From(i, 1))), false)))
    ensures I.RunArith(j, op, a) ==
      if |j.stack| < 2 then None
      else
        var l, r := I.At(j, 0), I.At(j, 1);
        var v := ArithNum(op, I.ValueOf(a, j.regs, l), I.BitsOf(a, l), I.ValueOf(a, j.regs, r), I.BitsOf(a, r));
        Some(I.Pushed(I.Dropped(j, 2), I.Known(v, if I.Answers(op) then 1 else Max(I.BitsOf(a, l), I.BitsOf(a, r)), false)))
  {
    assert IsCompare(op) == I.Answers(op);
    hide ArithNum, R.EntryValue, R.EntryBits, I.ValueOf, I.BitsOf, IsCompare, I.Answers, R.Dropped, R.Pushed, I.Dropped, I.Pushed, Max, I.At;
  }

  lemma NegIs(a: EsilArch, i: R.Run, j: I.Run)
    requires i.skip == 0 && j.skip == 0
    ensures R.RunToken(i, NegAssign, a) ==
      if i.stack == [] || From(i, 0).Known? then None
      else Some(R.Written(R.Dropped(i, 1), From(i, 0).r, Bit(ReadNum(From(i, 0).r, Val(i.env, From(i, 0).r.variable)) == 0)))
    ensures I.RunToken(j, NegAssign, a) ==
      if j.stack == [] || I.At(j, 0).Known? then None
      else Some(I.Dropped(j, 1).(regs := I.Put(a, j.regs, I.At(j, 0).x, Bit(I.Look(a, j.regs, I.At(j, 0).x) == 0))))
  {
    hide ReadNum, Val, R.Written, R.Dropped, I.Dropped, I.Look, I.Put, I.At;
  }

  lemma NotIs(a: EsilArch, i: R.Run, j: I.Run)
    requires i.skip == 0 && j.skip == 0
    ensures R.RunToken(i, Not, a) ==
      if i.stack == [] then None else Some(R.Pushed(R.Dropped(i, 1), R.Known(Bit(R.EntryValue(From(i, 0), i.env) == 0), 1, false)))
    ensures I.RunToken(j, Not, a) ==
      if j.stack == [] then None else Some(I.Pushed(I.Dropped(j, 1), I.Known(Bit(I.ValueOf(a, j.regs, I.At(j, 0)) == 0), 1, false)))
  {
    hide R.EntryValue, I.ValueOf, R.Dropped, R.Pushed, I.Dropped, I.Pushed, I.At;
  }

  lemma OpenIs(a: EsilArch, i: R.Run, j: I.Run)
    requires i.skip == 0 && j.skip == 0
    ensures R.RunToken(i, Open, a) ==
      if i.stack == [] then None
      else if R.EntryValue(From(i, 0), i.env) != 0 then Some(R.Dropped(i, 1).(depth := i.depth + 1, skip := 0))
      else Some(R.Dropped(i, 1).(depth := i.depth, skip := 1))
    ensures I.RunToken(j, Open, a) ==
      if j.stack == [] then None
      else if I.ValueOf(a, j.regs, I.At(j, 0)) != 0 then Some(I.Dropped(j, 1).(depth := j.depth + 1, skip := 0))
      else Some(I.Dropped(j, 1).(depth := j.depth, skip := 1))
  {
    hide R.EntryValue, I.ValueOf, I.At;
  }

  lemma CompareIs(a: EsilArch, i: R.Run, j: I.Run)
    ensures R.RunCompare(i) ==
      if |i.stack| < 2 then None
      else
        var l, r := From(i, 0), From(i, 1);
        var bits := Widest(R.EntryArchBits(l), R.EntryArchBits(r), R.EntryBits(l), R.EntryBits(r));
        Some(R.Dropped(i, 2).(ctx := Some(Compared(R.EntryValue(l, i.env), R.EntryBits(l), R.EntryValue(r, i.env), R.EntryBits(r), bits))))
    ensures I.RunCompare(j, a) ==
      if |j.stack| < 2 then None
      else
        var l, r := I.At(j, 0), I.At(j, 1);
        var bits := Widest(I.OwnBits(a, l), I.OwnBits(a, r), I.BitsOf(a, l), I.BitsOf(a, r));
        Some(I.Dropped(j, 2).(ctx := Some(Compared(I.ValueOf(a, j.regs, l), I.BitsOf(a, l), I.ValueOf(a, j.regs, r), I.BitsOf(a, r), bits))))
  {
    hide R.EntryValue, R.EntryBits, R.EntryArchBits, I.ValueOf, I.BitsOf, I.OwnBits, FitNum, Wrap, Max, R.Dropped, I.Dropped, I.At;
  }

  function Widest(x: Option<nat>, y: Option<nat>, xb: nat, yb: nat): nat {
    if x.Some? then x.value else if y.Some? then y.value else Max(xb, yb)
  }

  function Compared(x: nat, xb: nat, y: nat, yb: nat, bits: nat): Ctx {
    Ctx(FitNum(x, xb, bits), Wrap(FitNum(x, xb, bits) - FitNum(y, yb, bits), bits), bits)
  }

  lemma MemoryIs(a: EsilArch, i: R.Run, j: I.Run, size: nat)
    ensures R.RunLoad(i, size, a.arch.ptr) ==
      if i.stack == [] then None
      else Some(R.Pushed(R.Dropped(i, 1), R.Known(LoadValue(i.mem, Cut(R.EntryValue(From(i, 0), i.env), a.arch.ptr), size, a.arch.ptr), 8 * size, false)))
    ensures I.RunLoad(j, size, a) ==
      if j.stack == [] then None
      else Some(I.Pushed(I.Dropped(j, 1), I.Known(LoadValue(j.mem, Cut(I.ValueOf(a, j.regs, I.At(j, 0)), a.arch.ptr), size, a.arch.ptr), 8 * size, false)))
    ensures R.RunStore(i, size, a.arch.ptr) ==
      if |i.stack| < 2 then None
      else Some(R.Dropped(i, 2).(mem := StoreValue(i.mem, Cut(R.EntryValue(From(i, 0), i.env), a.arch.ptr),
        FitNum(R.EntryValue(From(i, 1), i.env), R.EntryBits(From(i, 1)), 8 * size), size, a.arch.ptr)))
    ensures I.RunStore(j, size, a) ==
      if |j.stack| < 2 then None
      else Some(I.Dropped(j, 2).(mem := StoreValue(j.mem, Cut(I.ValueOf(a, j.regs, I.At(j, 0)), a.arch.ptr),
        FitNum(I.ValueOf(a, j.regs, I.At(j, 1)), I.BitsOf(a, I.At(j, 1)), 8 * size), size, a.arch.ptr)))
  {
    hide R.EntryValue, R.EntryBits, I.ValueOf, I.BitsOf, FitNum, R.Dropped, I.Dropped, I.At, LoadValue, StoreValue, Pow2;
  }

  lemma SetIs(a: EsilArch, i: R.Run, j: I.Run, compound: Option<EsilOp>, seeds: bool)
    ensures R.RunSet(i, compound, seeds) ==
      if |i.stack| < 2 || From(i, 0).Known? || (compound.Some? && !I.Assigns(compound.value)) then None
      else
        var r := From(i, 0).r;
        var was := ReadNum(r, Val(i.env, r.variable));
        var now := Assigned(compound, was, FitNum(R.EntryValue(From(i, 1), i.env), R.EntryBits(From(i, 1)), RegBits(r)), RegBits(r));
        var k := R.Dropped(i, 2).(ctx := if seeds then Some(Ctx(was, now, RegBits(r))) else i.ctx);
        Some(if r.zero then k else R.Written(k, r, now))
    ensures I.RunSet(j, compound, seeds, a) ==
      if |j.stack| < 2 || I.At(j, 0).Known? || (compound.Some? && !I.Assigns(compound.value)) then None
      else
        var x, bits := I.At(j, 0).x, I.WidthOf(a, I.At(j, 0).x);
        var was := I.Look(a, j.regs, x);
        var now := Assigned(compound, was, FitNum(I.ValueOf(a, j.regs, I.At(j, 1)), I.BitsOf(a, I.At(j, 1)), bits), bits);
        var k := I.Dropped(j, 2).(ctx := if seeds then Some(Ctx(was, now, bits)) else j.ctx);
        Some(if I.ReadsZero(a, x) then k else k.(regs := I.Put(a, k.regs, x, now)))
  {
    if compound.Some? { AssignsIs(compound.value); }
    hide ReadNum, Val, FitNum, R.EntryValue, R.EntryBits, ArithNum, CompoundOp, R.Written, RegBits, I.Look, I.ValueOf, I.BitsOf, I.WidthOf, I.Put, I.ReadsZero,
         I.Assigns, R.Dropped, I.Dropped, I.At;
  }

  function Assigned(compound: Option<EsilOp>, was: nat, y: nat, bits: nat): nat {
    if compound.None? then y else ArithNum(compound.value, was, bits, y, bits)
  }

  lemma AssignsIs(op: EsilOp)
    ensures CompoundOp(op).Some? <==> I.Assigns(op)
  {
  }

  // ---- Tokens ----

  lemma ArithAlike(a: EsilArch, i: R.Run, j: I.Run, op: EsilOp)
    requires LawfulEsil(a) && FlagsApart(a) && Alike(a, i, j) && i.skip == 0
    ensures BothOrNeither(a, R.RunToken(i, Arith(op), a), I.RunArith(j, op, a))
  {
    hide *;
    Shape(a, i, j);
    ArithIs(a, i, j, op);
    BothStuck(a);
    if |i.stack| >= 2 {
      AtAgrees(a, i, j, 0);
      AtAgrees(a, i, j, 1);
      var l, r := I.At(j, 0), I.At(j, 1);
      var v := ArithNum(op, I.ValueOf(a, j.regs, l), I.BitsOf(a, l), I.ValueOf(a, j.regs, r), I.BitsOf(a, r));
      var bits := if I.Answers(op) then 1 else Max(I.BitsOf(a, l), I.BitsOf(a, r));
      PutNumber(a, i, j, 2, v, bits, false);
      BothRun(a, R.Pushed(R.Dropped(i, 2), R.Known(v, bits, false)), I.Pushed(I.Dropped(j, 2), I.Known(v, bits, false)));
    }
  }

  lemma IndexedIs(suffix: string)
    ensures IsIndexed(suffix) ==> suffix != "z" && suffix != "p"
    ensures !IsIndexed(suffix) && suffix != "z" && suffix != "p" ==> forall c, n :: FlagNum(suffix, c, n).None?
  {
    assert "z"[0] == 'z' && "p"[0] == 'p' && "s"[0] == 's' && "c"[0] == 'c' && "b"[0] == 'b' && "o"[0] == 'o';
    hide Pow2;
  }

  lemma FlagAlike(a: EsilArch, i: R.Run, j: I.Run, suffix: string)
    requires Alike(a, i, j)
    ensures BothOrNeither(a, R.RunFlag(i, suffix), I.RunFlag(j, suffix))
  {
    assert |i.stack| == |j.stack| && i.ctx == j.ctx;
    IndexedIs(suffix);
    if i.stack != [] { assert EntryAlike(a, i.stack[|i.stack| - 1], I.At(j, 0)); }
    hide Alike, FlagNum, IsIndexed;
    if i.ctx.Some? {
      var c := i.ctx.value;
      if !IsIndexed(suffix) {
        if FlagNum(suffix, c, 0).Some? { PushAlike(a, i, j, R.Known(FlagNum(suffix, c, 0).value, 1, false), I.Known(FlagNum(suffix, c, 0).value, 1, false)); }
      } else if i.stack != [] && I.At(j, 0).Known? {
        var f := FlagNum(suffix, c, I.At(j, 0).value);
        if f.Some? { PutNumber(a, i, j, 1, f.value, 1, false); }
      }
    }
  }

  lemma CtxAlike(a: EsilArch, i: R.Run, j: I.Run, c: Option<Ctx>)
    requires Alike(a, i, j)
    ensures Alike(a, i.(ctx := c), j.(ctx := c))
  {
    hide Holds, StacksAlike;
  }

  lemma CompareAlike(a: EsilArch, i: R.Run, j: I.Run)
    requires LawfulEsil(a) && FlagsApart(a) && Alike(a, i, j)
    ensures BothOrNeither(a, R.RunCompare(i), I.RunCompare(j, a))
  {
    hide *;
    Shape(a, i, j);
    CompareIs(a, i, j);
    BothStuck(a);
    if |i.stack| >= 2 {
      AtAgrees(a, i, j, 0);
      AtAgrees(a, i, j, 1);
      DropAlike(a, i, j, 2);
      var l, r := I.At(j, 0), I.At(j, 1);
      var bits := Widest(I.OwnBits(a, l), I.OwnBits(a, r), I.BitsOf(a, l), I.BitsOf(a, r));
      var c := Some(Compared(I.ValueOf(a, j.regs, l), I.BitsOf(a, l), I.ValueOf(a, j.regs, r), I.BitsOf(a, r), bits));
      CtxAlike(a, R.Dropped(i, 2), I.Dropped(j, 2), c);
      BothRun(a, R.Dropped(i, 2).(ctx := c), I.Dropped(j, 2).(ctx := c));
    }
  }

  lemma SetAlike(a: EsilArch, i: R.Run, j: I.Run, compound: Option<EsilOp>, seeds: bool)
    requires LawfulEsil(a) && FlagsApart(a) && Alike(a, i, j)
    ensures BothOrNeither(a, R.RunSet(i, compound, seeds), I.RunSet(j, compound, seeds, a))
  {
    hide *;
    Shape(a, i, j);
    SetIs(a, i, j, compound, seeds);
    BothStuck(a);
    if |i.stack| >= 2 {
      AtAgrees(a, i, j, 0);
      AtAgrees(a, i, j, 1);
      if I.At(j, 0).Named? && (compound.Some? ==> I.Assigns(compound.value)) {
        var x := I.At(j, 0).x;
        AlikeHolds(a, i, j);
        OperandAlike(a, From(i, 0), I.At(j, 0), i.env, j.regs);
        DropAlike(a, i, j, 2);
        var bits, was := I.WidthOf(a, x), I.Look(a, j.regs, x);
        var now := Assigned(compound, was, FitNum(I.ValueOf(a, j.regs, I.At(j, 1)), I.BitsOf(a, I.At(j, 1)), bits), bits);
        var c := if seeds then Some(Ctx(was, now, bits)) else i.ctx;
        var p, q := R.Dropped(i, 2).(ctx := c), I.Dropped(j, 2).(ctx := c);
        CtxAlike(a, R.Dropped(i, 2), I.Dropped(j, 2), c);
        WriteAlike(a, p, q, x, now);
        BothRun(a, p, q);
        BothRun(a, R.Written(p, OperandRef(a, x), now), q.(regs := I.Put(a, q.regs, x, now)));
      }
    }
  }

  /** A register on both stacks. */
  lemma OperandAlike(a: EsilArch, e: R.Entry, e': I.Entry, env: Env, regs: Env)
    requires LawfulEsil(a) && FlagsApart(a) && EntryAlike(a, e, e') && e'.Named?
    ensures e == R.Lazy(OperandRef(a, e'.x)) && !e'.x.Temp? && e.r.zero == I.ReadsZero(a, e'.x)
    ensures Holds(a, env, regs) ==> ReadNum(e.r, Val(env, e.r.variable)) == I.Look(a, regs, e'.x) && RegBits(e.r) == I.WidthOf(a, e'.x)
  {
    hide LawfulEsil, FlagsApart, Holds, OperandRef, ReadNum, Val, RegBits, I.Look, I.WidthOf, I.ReadsZero;
    ZeroAgrees(a, e'.x);
    if Holds(a, env, regs) { ReadsAgree(a, env, regs, e'.x); }
  }

  lemma NegAlike(a: EsilArch, i: R.Run, j: I.Run)
    requires LawfulEsil(a) && FlagsApart(a) && Alike(a, i, j) && i.skip == 0
    ensures BothOrNeither(a, R.RunToken(i, NegAssign, a), I.RunToken(j, NegAssign, a))
  {
    hide *;
    Shape(a, i, j);
    NegIs(a, i, j);
    BothStuck(a);
    if i.stack != [] {
      AtAgrees(a, i, j, 0);
      DropAlike(a, i, j, 1);
      if I.At(j, 0).Named? {
        var x := I.At(j, 0).x;
        AlikeHolds(a, i, j);
        OperandAlike(a, From(i, 0), I.At(j, 0), i.env, j.regs);
        var v := Bit(I.Look(a, j.regs, x) == 0);
        WriteAlike(a, R.Dropped(i, 1), I.Dropped(j, 1), x, v);
        DropRegs(j, 1);
        BothRun(a, R.Written(R.Dropped(i, 1), OperandRef(a, x), v), I.Dropped(j, 1).(regs := I.Put(a, I.Dropped(j, 1).regs, x, v)));
      }
    }
  }

  lemma AlikeHolds(a: EsilArch, i: R.Run, j: I.Run)
    requires Alike(a, i, j)
    ensures Holds(a, i.env, j.regs)
  {
    hide Holds, StacksAlike;
  }

  lemma DropRegs(j: I.Run, n: nat)
    requires n <= |j.stack|
    ensures I.Dropped(j, n).regs == j.regs
  {
  }

  lemma MemAlike(a: EsilArch, i: R.Run, j: I.Run, mem: Mem)
    requires Alike(a, i, j)
    ensures Alike(a, i.(mem := mem), j.(mem := mem))
  {
    hide Holds, StacksAlike;
  }

  lemma MemoryAlike(a: EsilArch, i: R.Run, j: I.Run, size: nat)
    requires LawfulEsil(a) && FlagsApart(a) && Alike(a, i, j)
    ensures BothOrNeither(a, R.RunLoad(i, size, a.arch.ptr), I.RunLoad(j, size, a))
    ensures BothOrNeither(a, R.RunStore(i, size, a.arch.ptr), I.RunStore(j, size, a))
  {
    hide *;
    Shape(a, i, j);
    MemoryIs(a, i, j, size);
    BothStuck(a);
    if i.stack != [] {
      AtAgrees(a, i, j, 0);
      var at := Cut(I.ValueOf(a, j.regs, I.At(j, 0)), a.arch.ptr);
      var v := LoadValue(i.mem, at, size, a.arch.ptr);
      PutNumber(a, i, j, 1, v, 8 * size, false);
      BothRun(a, R.Pushed(R.Dropped(i, 1), R.Known(v, 8 * size, false)), I.Pushed(I.Dropped(j, 1), I.Known(v, 8 * size, false)));
      if |i.stack| >= 2 {
        AtAgrees(a, i, j, 1);
        DropAlike(a, i, j, 2);
        var mem := StoreValue(i.mem, at, FitNum(I.ValueOf(a, j.regs, I.At(j, 1)), I.BitsOf(a, I.At(j, 1)), 8 * size), size, a.arch.ptr);
        MemAlike(a, R.Dropped(i, 2), I.Dropped(j, 2), mem);
        BothRun(a, R.Dropped(i, 2).(mem := mem), I.Dropped(j, 2).(mem := mem));
      }
    }
  }

  lemma NotAlike(a: EsilArch, i: R.Run, j: I.Run)
    requires LawfulEsil(a) && FlagsApart(a) && Alike(a, i, j) && i.skip == 0
    ensures BothOrNeither(a, R.RunToken(i, Not, a), I.RunToken(j, Not, a))
  {
    hide *;
    Shape(a, i, j);
    NotIs(a, i, j);
    BothStuck(a);
    if i.stack != [] {
      AtAgrees(a, i, j, 0);
      var v := Bit(I.ValueOf(a, j.regs, I.At(j, 0)) == 0);
      PutNumber(a, i, j, 1, v, 1, false);
      BothRun(a, R.Pushed(R.Dropped(i, 1), R.Known(v, 1, false)), I.Pushed(I.Dropped(j, 1), I.Known(v, 1, false)));
    }
  }

  lemma DepthAlike(a: EsilArch, i: R.Run, j: I.Run, depth: nat, skip: nat)
    requires Alike(a, i, j)
    ensures BothOrNeither(a, Some(i.(depth := depth, skip := skip)), Some(j.(depth := depth, skip := skip)))
  {
    hide Holds, StacksAlike;
  }

  lemma OpenAlike(a: EsilArch, i: R.Run, j: I.Run)
    requires LawfulEsil(a) && FlagsApart(a) && Alike(a, i, j) && i.skip == 0
    ensures BothOrNeither(a, R.RunToken(i, Open, a), I.RunToken(j, Open, a))
  {
    hide *;
    Shape(a, i, j);
    OpenIs(a, i, j);
    BothStuck(a);
    if i.stack != [] {
      AtAgrees(a, i, j, 0);
      DropAlike(a, i, j, 1);
      DepthAlike(a, R.Dropped(i, 1), I.Dropped(j, 1), i.depth + 1, 0);
      DepthAlike(a, R.Dropped(i, 1), I.Dropped(j, 1), i.depth, 1);
    }
  }

  lemma PushesAlike(a: EsilArch, i: R.Run, j: I.Run, t: Token)
    requires Alike(a, i, j) && i.skip == 0 && Nameable(t) && (t.Literal? || t.Operand?)
    ensures BothOrNeither(a, R.RunToken(i, t, a), I.RunToken(j, t, a))
  {
    Shape(a, i, j);
    hide Alike, OperandRef, Pow2, R.Pushed, I.Pushed;
    if t.Literal? {
      PushAlike(a, i, j, R.Known(Cut(t.value, a.arch.ptr), a.arch.ptr, true), I.Known(Cut(t.value, a.arch.ptr), a.arch.ptr, true));
    } else {
      PushAlike(a, i, j, R.Lazy(OperandRef(a, t.name)), I.Named(t.name));
    }
  }

  lemma CloseAlike(a: EsilArch, i: R.Run, j: I.Run, t: Token)
    requires Alike(a, i, j) && i.skip == 0 && (t.Close? || t.Junk?)
    ensures BothOrNeither(a, R.RunToken(i, t, a), I.RunToken(j, t, a))
  {
    Shape(a, i, j);
    hide Alike;
    if t.Close? && i.depth > 0 {
      DepthAlike(a, i, j, i.depth - 1, 0);
      assert i.(depth := i.depth - 1) == i.(depth := i.depth - 1, skip := 0) && j.(depth := j.depth - 1) == j.(depth := j.depth - 1, skip := 0);
    }
  }

  lemma SkippedAlike(a: EsilArch, i: R.Run, j: I.Run, t: Token)
    requires Alike(a, i, j) && i.skip > 0
    ensures BothOrNeither(a, R.RunToken(i, t, a), I.RunToken(j, t, a))
  {
    Shape(a, i, j);
    hide Holds, StacksAlike;
  }

  /** One token on both. */
  lemma TokenAlike(a: EsilArch, i: R.Run, j: I.Run, t: Token)
    requires LawfulEsil(a) && FlagsApart(a) && Alike(a, i, j) && Nameable(t)
    ensures BothOrNeither(a, R.RunToken(i, t, a), I.RunToken(j, t, a))
  {
    hide LawfulEsil, FlagsApart, Alike, R.RunFlag, R.RunSet, R.RunCompare, R.RunLoad, R.RunStore, I.RunFlag, I.RunSet, I.RunCompare, I.RunLoad, I.RunStore,
         I.RunArith, BothOrNeither;
    Shape(a, i, j);
    if i.skip > 0 {
      SkippedAlike(a, i, j, t);
    } else {
      match t
      case Flag(suffix) => FlagAlike(a, i, j, suffix);
      case Arith(op) => ArithAlike(a, i, j, op);
      case Compare => CompareAlike(a, i, j);
      case NegAssign => NegAlike(a, i, j);
      case Set(compound, seeds) => SetAlike(a, i, j, compound, seeds);
      case Load(size) => MemoryAlike(a, i, j, size);
      case Store(size) => MemoryAlike(a, i, j, size);
      case Not => NotAlike(a, i, j);
      case Open => OpenAlike(a, i, j);
      case Close => CloseAlike(a, i, j, t);
      case Junk(_) => CloseAlike(a, i, j, t);
      case _ => PushesAlike(a, i, j, t);
    }
  }

  /** The two interpreters run every stream alike. */
  lemma {:induction false} RunsAlike(ts: seq<Token>, a: EsilArch, env: Env, regs: Env, mem: Mem)
    requires LawfulEsil(a) && FlagsApart(a) && Holds(a, env, regs) && forall k :: 0 <= k < |ts| ==> Nameable(ts[k])
    ensures BothOrNeither(a, R.RunTokens(R.StartRun(env, mem), ts, a), I.RunTokens(I.StartRun(regs, mem), ts, a))
    decreases |ts|
  {
    hide LawfulEsil, FlagsApart, Holds, R.RunToken, I.RunToken;
    if ts != [] {
      var p, t := ts[..|ts| - 1], ts[|ts| - 1];
      RunsAlike(p, a, env, regs, mem);
      var i, j := R.RunTokens(R.StartRun(env, mem), p, a), I.RunTokens(I.StartRun(regs, mem), p, a);
      if i.Some? { TokenAlike(a, i.value, j.value, t); }
    }
  }

  // ---- The lift ----

  /** The program's variables are radare2's registers and flags; `CF` is the
      complement of radare2's carry where the program stores it so. */
  ghost predicate Mirrors(a: EsilArch, env: Env, regs: Env) {
    && (forall x: Name {:trigger Get(env, x)} :: !x.Temp? && I.FlagOf(x).None? ==> Get(env, x) == Get(regs, x))
    && Get(env, Plain("ZF")) == Get(regs, Plain("zf"))
    && Get(env, Plain("SF")) == Get(regs, Plain("sf"))
    && Get(env, Plain("OF")) == Get(regs, Plain("of"))
    && Get(env, Plain("PF")) == Get(regs, Plain("pf"))
    && Get(env, Plain("CF")) == if a.complement then 1 - Get(regs, Plain("cf")) else Get(regs, Plain("cf"))
  }

  lemma MirrorsHolds(a: EsilArch, env: Env, regs: Env)
    ensures Mirrors(a, env, regs) ==> Holds(a, env, regs)
    ensures Holds(a, env, regs) && Get(env, Plain("CF")) < 2 ==> Mirrors(a, env, regs)
  {
    TurnedIsFlip(Get(regs, Plain("cf")));
    hide I.FlagOf;
  }

  lemma CarryFits(a: EsilArch, env: Env)
    requires FlagsApart(a) && EsilSync.Fits(a, env)
    ensures Get(env, Plain("CF")) < 2
  {
    assert Plain("CF") !in a.arch.layouts && a.widths[Plain("CF")] == 1;
    assert RegisterRef(a, Plain("CF")).variable == Var(Plain("CF"), 1);
    assert Pow2(1) == 2;
  }

  lemma HoldsMoves(a: EsilArch, env: Env, env': Env, regs: Env)
    requires Holds(a, env', regs) && EsilValues.SameRegs(env, env')
    ensures Holds(a, env, regs)
  {
    hide I.FlagOf, Turned;
    forall x: Name | !x.Temp? && I.FlagOf(x).None? ensures Get(env, x) == Get(regs, x) {
      assert Get(env, x) == Get(env', x);
    }
    var zf, sf, of, pf, cf := Plain("ZF"), Plain("SF"), Plain("OF"), Plain("PF"), Plain("CF");
    assert Get(env, zf) == Get(env', zf) && Get(env, sf) == Get(env', sf) && Get(env, of) == Get(env', of);
    assert Get(env, pf) == Get(env', pf) && Get(env, cf) == Get(env', cf);
  }

  lemma {:induction false} HazardFreeNames(ts: seq<Token>, a: EsilArch)
    requires EsilTheorem.HazardFree(ts, a)
    ensures forall k :: 0 <= k < |ts| ==> Nameable(ts[k])
    decreases |ts|
  {
    hide StepToken;
    if ts != [] { HazardFreeNames(ts[..|ts| - 1], a); }
  }

  /** Executing what a hazard-free stream lifts to, from a state that mirrors radare2's
      registers and flags, ends in one that mirrors what the stream leaves there, and
      with the same memory. */
  lemma LiftRefines(ts: seq<Token>, a: EsilArch, ss: seq<Stmt>, env: Env, regs: Env, mem: Mem, sem: Sem)
    requires LawfulEsil(a) && FlagsApart(a) && EsilTheorem.HazardFree(ts, a) && LiftEsil(ts, a) == Ok(ss)
    requires EsilSync.Fits(a, env) && Mirrors(a, env, regs) && sem.ptr == a.arch.ptr
    ensures
      var i := I.RunTokens(I.StartRun(regs, mem), ts, a);
      var end := Exec(ss, State(env, mem), sem, 0);
      && i.Some? && i.value.skip == 0 && i.value.depth == 0
      && Mirrors(a, end.env, i.value.regs) && end.mem == i.value.mem && EsilSync.Fits(a, end.env)
  {
    hide *;
    HazardFreeNames(ts, a);
    MirrorsHolds(a, env, regs);
    EsilTheorem.LiftFollows(ts, a, ss, env, mem, sem);
    RunsAlike(ts, a, env, regs, mem);
    var placed, i := R.RunTokens(R.StartRun(env, mem), ts, a).value, I.RunTokens(I.StartRun(regs, mem), ts, a);
    var end := Exec(ss, State(env, mem), sem, 0);
    SomeAlike(a, placed, i);
    Shape(a, placed, i.value);
    AlikeHolds(a, placed, i.value);
    HoldsMoves(a, end.env, placed.env, i.value.regs);
    CarryFits(a, end.env);
    MirrorsHolds(a, end.env, i.value.regs);
  }

  lemma SomeAlike(a: EsilArch, i: R.Run, j: Option<I.Run>)
    requires BothOrNeither(a, Some(i), j)
    ensures j.Some? && Alike(a, i, j.value)
  {
    hide Alike;
  }
}
