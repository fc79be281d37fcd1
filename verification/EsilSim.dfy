/** Token by token, the machine's statements and the interpreter stay together. */
module EsilSim {
  import opened Bits
  import opened Common
  import opened Ir
  import opened SsaForm
  import opened RegView
  import opened Flags
  import opened EsilMachine
  import opened EsilTyping
  import opened EsilExec
  import opened EsilFresh
  import opened EsilSteps
  import opened EsilNumbers
  import opened EsilResolved
  import opened EsilValues
  import opened EsilSync
  import MemRefine

  // ---- The stack ----

  /** Only the stack changes, and the new one stands for the interpreter's. */
  lemma RestackSynced(a: EsilArch, m: Machine, w: Watch, i: Run, vs: seq<StackValue>, es: seq<Entry>, st: State, sem: Sem)
    requires Synced(a, m, w, i, st, sem) && i.skip == 0 && StackStands(vs, es, Go(m.statements, st, sem).env, sem)
    ensures Synced(a, m.(stack := vs), w, i.(stack := es), st, sem)
  {
    hide Go, SameRegs, Fits, StackStands, Eval, HalfWorth;
    assert Live(m, i) == m.statements;
  }

  lemma SkipRestack(a: EsilArch, m: Machine, w: Watch, i: Run, vs: seq<StackValue>, st: State, sem: Sem)
    requires Synced(a, m, w, i, st, sem) && i.skip > 0
    ensures Synced(a, m.(stack := vs), w, i, st, sem)
  {
    hide Go, SameRegs, Fits, StackStands, Eval, HalfWorth, EarlyHalf;
    assert Live(m.(stack := vs), i) == Live(m, i);
  }

  lemma LiveNow(a: EsilArch, m: Machine, w: Watch, i: Run, st: State, sem: Sem)
    requires Synced(a, m, w, i, st, sem) && i.skip == 0
    ensures
      var now := Go(m.statements, st, sem);
      && SameRegs(now.env, i.env) && now.mem == i.mem && Fits(a, now.env) && StackStands(m.stack, i.stack, now.env, sem)
      && |m.stack| == |i.stack| && (!w.dirty ==> CtxWorth(m, m.statements, i.ctx, st, sem))
  {
    hide Go, SameRegs, Fits, CtxWorth, Stands;
    assert Live(m, i) == m.statements;
  }

  lemma DropSynced(a: EsilArch, m: Machine, w: Watch, i: Run, k: nat, st: State, sem: Sem)
    requires Synced(a, m, w, i, st, sem) && i.skip == 0 && k <= |m.stack|
    ensures |i.stack| == |m.stack| && Synced(a, Drop(m, k), w, Dropped(i, k), st, sem)
  {
    LiveNow(a, m, w, i, st, sem);
    hide Synced, Go, Stands;
    RestackSynced(a, m, w, i, m.stack[..|m.stack| - k], i.stack[..|m.stack| - k], st, sem);
  }

  lemma PushSynced(a: EsilArch, m: Machine, w: Watch, i: Run, v: StackValue, e: Entry, st: State, sem: Sem)
    requires Synced(a, m, w, i, st, sem) && i.skip == 0 && Stands(v, e, Go(m.statements, st, sem).env, sem)
    ensures Synced(a, PushTo(m, v), w, Pushed(i, e), st, sem)
  {
    LiveNow(a, m, w, i, st, sem);
    hide Synced, Go, Stands;
    RestackSynced(a, m, w, i, m.stack + [v], i.stack + [e], st, sem);
  }

  /** The `k`-th value from the top agrees on both sides. */
  lemma EntryAgrees(a: EsilArch, m: Machine, w: Watch, i: Run, k: nat, st: State, sem: Sem)
    requires MachineTyped(a, m) && Synced(a, m, w, i, st, sem) && i.skip == 0 && 0 < k <= |m.stack|
    ensures |i.stack| == |m.stack|
    ensures Agrees(m.stack[|m.stack| - k], i.stack[|m.stack| - k], Go(m.statements, st, sem).env, i.env, sem)
    ensures Stands(m.stack[|m.stack| - k], i.stack[|m.stack| - k], Go(m.statements, st, sem).env, sem)
    ensures ValueTyped(a, m.stack[|m.stack| - k])
  {
    LiveNow(a, m, w, i, st, sem);
    hide Synced, Go, Stands, Agrees, ValueTyped, AllStmtsTyped, BlocksTyped, CtxTyped, HalfTyped, SameRegs;
    StandsAgrees(a, m.stack[|m.stack| - k], i.stack[|m.stack| - k], Go(m.statements, st, sem).env, i.env, sem);
  }

  // ---- Tokens that only compute ----

  lemma LiteralSim(a: EsilArch, m: Machine, w: Watch, i: Run, value: nat, st: State, sem: Sem)
    requires Synced(a, m, w, i, st, sem) && i.skip == 0
    ensures Synced(a, PushTo(m, Computed(Const(value, a.arch.ptr), a.arch.ptr)), w, Pushed(i, Known(Cut(value, a.arch.ptr), a.arch.ptr, true)), st, sem)
  {
    hide Synced, Go, Pow2;
    PushSynced(a, m, w, i, Computed(Const(value, a.arch.ptr), a.arch.ptr), Known(Cut(value, a.arch.ptr), a.arch.ptr, true), st, sem);
  }

  lemma ArithSim(a: EsilArch, m: Machine, w: Watch, i: Run, op: EsilOp, st: State, sem: Sem)
    requires MachineTyped(a, m) && Synced(a, m, w, i, st, sem) && i.skip == 0 && ApplyArith(m, op).Ok?
    ensures RunToken(i, Arith(op), a).Some? && Synced(a, ApplyArith(m, op).value, w, RunToken(i, Arith(op), a).value, st, sem)
  {
    hide Synced, Go, MachineTyped, Agrees, ArithExpr, ArithNum, EntryValue, Eval, EntryBits, ValueBits, Stands, ValueTyped;
    EntryAgrees(a, m, w, i, 1, st, sem);
    EntryAgrees(a, m, w, i, 2, st, sem);
    var env := Go(m.statements, st, sem).env;
    var l, r, le, re := Top(m), Second(m), i.stack[|m.stack| - 1], i.stack[|m.stack| - 2];
    AgreeBits(l, le, env, i.env, sem);
    AgreeBits(r, re, env, i.env, sem);
    ArithAgrees(op, l, r, le, re, env, i.env, sem);
    DropSynced(a, m, w, i, 2, st, sem);
    var bits := if IsCompare(op) then 1 else Max(ValueBits(l), ValueBits(r));
    var v := ArithNum(op, EntryValue(le, i.env), EntryBits(le), EntryValue(re, i.env), EntryBits(re));
    assert Stands(Computed(ArithExpr(op, l, r), bits), Known(v, bits, false), env, sem) by { ArithStands(op, l, r, bits, v, env, sem); }
    PushSynced(a, Drop(m, 2), w, Dropped(i, 2), Computed(ArithExpr(op, l, r), bits), Known(v, bits, false), st, sem);
  }

  lemma ArithStands(op: EsilOp, l: StackValue, r: StackValue, bits: nat, v: nat, env: Env, sem: Sem)
    requires Eval(ArithExpr(op, l, r), env, sem, 0) == v
    ensures Stands(Computed(ArithExpr(op, l, r), bits), Known(v, bits, false), env, sem)
  {
    hide Eval, Widen, WidenSigned, ValueBits;
  }

  lemma AgreeBits(v: StackValue, e: Entry, env: Env, ienv: Env, sem: Sem)
    requires Agrees(v, e, env, ienv, sem)
    ensures EntryBits(e) == ValueBits(v) && EntryArchBits(e) == ArchitecturalBits(v) && 0 < ValueBits(v) <= U16
  {
    hide Eval, EntryBits, ValueBits, EntryArchBits, ArchitecturalBits, Pow2, EntryValue;
  }

  lemma NotSim(a: EsilArch, m: Machine, w: Watch, i: Run, st: State, sem: Sem)
    requires MachineTyped(a, m) && Synced(a, m, w, i, st, sem) && i.skip == 0 && ApplyNot(m).Ok?
    ensures RunToken(i, Not, a).Some? && Synced(a, ApplyNot(m).value, w, RunToken(i, Not, a).value, st, sem)
  {
    hide Synced, Go, MachineTyped, Agrees, EntryValue, Eval, ValueExpr, Stands, ValueTyped, ValueBits;
    EntryAgrees(a, m, w, i, 1, st, sem);
    var v, e := Top(m), i.stack[|m.stack| - 1];
    NotAgrees(v, e, Go(m.statements, st, sem).env, i.env, sem);
    DropSynced(a, m, w, i, 1, st, sem);
    NotStands(v, EntryValue(e, i.env), Go(m.statements, st, sem).env, sem);
    PushSynced(a, Drop(m, 1), w, Dropped(i, 1), Computed(AsBit(Bin(Eq, ValueExpr(v), Const(0, ValueBits(v)))), 1),
      Known(Bit(EntryValue(e, i.env) == 0), 1, false), st, sem);
  }

  lemma NotStands(v: StackValue, x: nat, env: Env, sem: Sem)
    requires Eval(AsBit(Bin(Eq, ValueExpr(v), Const(0, ValueBits(v)))), env, sem, 0) == Bit(x == 0)
    ensures Stands(Computed(AsBit(Bin(Eq, ValueExpr(v), Const(0, ValueBits(v)))), 1), Known(Bit(x == 0), 1, false), env, sem)
  {
    hide Eval, ValueExpr, ValueBits;
  }

  // ---- Writes ----

  /** The live context does not read `x`. */
  predicate CtxIgnores(m: Machine, x: Name) {
    m.ctx.Some? ==>
      ((PendingWas(m).Some? && m.ctx.value.was == Ref(PendingWas(m).value.0)) || x !in Reads(m.ctx.value.was))
      && ((PendingCur(m).Some? && m.ctx.value.cur == Ref(PendingCur(m).value.0)) || x !in Reads(m.ctx.value.cur))
  }

  predicate StackIgnores(vs: seq<StackValue>, x: Name) {
    forall k :: 0 <= k < |vs| && vs[k].Computed? ==> x !in Reads(vs[k].expr)
  }

  predicate GuardsIgnore(bs: seq<Block>, x: Name) {
    forall b :: 0 <= b < |bs| ==> x !in Reads(bs[b].cond)
  }

  lemma HalfAfterWrite(x: Expr, h: Option<(Var, Expr)>, at: nat, ss: seq<Stmt>, s: Stmt, v: nat, y: Name, n: nat, st: State, sem: Sem)
    requires HalfWorth(x, h, at, ss, v, st, sem) && ((h.Some? && x == Ref(h.value.0)) || y !in Reads(x))
    requires Go(ss + [s], st, sem).env == Go(ss, st, sem).env[y := n]
    ensures HalfWorth(x, h, at, ss + [s], v, st, sem)
  {
    hide Go, Eval, Reads;
    if h.Some? && x == Ref(h.value.0) {
      assert (ss + [s])[..at] == ss[..at];
    } else {
      EvalFrame(x, Go(ss, st, sem).env, Go(ss, st, sem).env[y := n], sem, 0);
    }
  }

  lemma StackAfterWrite(vs: seq<StackValue>, es: seq<Entry>, env: Env, x: Name, n: nat, sem: Sem)
    requires StackStands(vs, es, env, sem) && StackIgnores(vs, x) && !x.Temp?
    ensures StackStands(vs, es, env[x := n], sem)
  {
    hide Stands, Reads, Pow2;
    forall k | 0 <= k < |vs| ensures Stands(vs[k], es[k], env[x := n], sem) { StandsUpdate(vs[k], es[k], env, x, n, sem); }
  }

  lemma GuardsAfterWrite(m: Machine, m': Machine, i: Run, env: Env, x: Name, n: nat, sem: Sem)
    requires i.skip <= |m.blocks| && m'.blocks == m.blocks && GuardsHold(m, i, env, sem) && GuardsIgnore(m.blocks, x)
    ensures GuardsHold(m', i, env[x := n], sem)
  {
    hide Eval, Reads;
    forall b | 0 <= b < |m.blocks| ensures Eval(m.blocks[b].cond, env[x := n], sem, 0) == Eval(m.blocks[b].cond, env, sem, 0) {
      EvalFrame(m.blocks[b].cond, env, env[x := n], sem, 0);
    }
  }

  lemma RegisterWrite(a: EsilArch, env: Env, ienv: Env, v: Var, n: nat)
    requires LawfulEsil(a) && SameRegs(env, ienv) && Fits(a, env) && IsRegister(a, v) && n < Pow2(v.bits)
    ensures SameRegs(env[v.name := n], ienv[v.name := n]) && Fits(a, env[v.name := n])
  {
    hide Pow2, Placed;
    forall y: Name | !y.Temp? ensures Get(env[v.name := n], y) == Get(ienv[v.name := n], y) { assert Get(env, y) == Get(ienv, y); }
    var x :| RegisterRef(a, x).variable == v;
    hide RegisterRef;
    forall y: Name | !RegisterRef(a, y).variable.name.Temp?
      ensures Get(env[v.name := n], RegisterRef(a, y).variable.name) < Pow2(RegisterRef(a, y).variable.bits)
    {
      if RegisterRef(a, y).variable.name == v.name { assert RegisterRef(a, y).variable == RegisterRef(a, x).variable; }
    }
  }

  /** What executing the write does. */
  lemma WriteRun(a: EsilArch, m: Machine, r: RegRef, e: Expr, x: nat, st: State, sem: Sem)
    requires MachineTyped(a, m) && ValidRef(r) && Typed(e, RegBits(r)) && Eval(e, Go(m.statements, st, sem).env, sem, 0) == x
    ensures
      var now := Go(m.statements, st, sem);
      var n := WriteNum(r, Val(now.env, r.variable), x);
      && n < Pow2(r.variable.bits)
      && Go(m.statements + [Assign(r.variable, WriteExpr(r, e))], st, sem) == now.(env := now.env[r.variable.name := n])
  {
    var now := Go(m.statements, st, sem);
    var n := WriteNum(r, Val(now.env, r.variable), x);
    LiveIsQuiet(a, m, 0);
    GoSnoc(m.statements, Assign(r.variable, WriteExpr(r, e)), st, sem);
    AssignStep(r.variable, WriteExpr(r, e), now, sem);
    WidthOf(e, RegBits(r));
    StrictFits(e, RegBits(r), now.env, sem);
    WriteValue(r, e, now.env, sem, 0);
    WriteBound(r, Val(now.env, r.variable), x);
    hide MachineTyped, Go, Eval, Width, Count, Pow2, WriteExpr, WriteNum, Typed, Ir.Step;
    WrapSmall(n, r.variable.bits);
  }

  lemma WriteBound(r: RegRef, p: nat, x: nat)
    requires ValidRef(r) && x < Pow2(RegBits(r))
    ensures WriteNum(r, p, x) < Pow2(r.variable.bits)
  {
    var v := if r.invert then Flip(x) else x;
    if r.invert { FlipBound(x, RegBits(r)); }
    hide Pow2;
    if CoversWhole(r) || r.zeroExtends { Pow2Mono(RegBits(r), r.variable.bits); }
    else { PutIsLawful2(p, r.lo, r.hi, r.variable.bits, v); }
  }

  lemma PutIsLawful2(p: nat, lo: nat, hi: nat, bits: nat, v: nat)
    requires lo <= hi < bits && v < Pow2(hi - lo + 1)
    ensures Layouts.Put(p, lo, hi, bits, v) < Pow2(bits)
  {
    Layouts.PutIsLawful(p, lo, hi, bits, v);
  }

  /** A register write nothing live depends on. */
  lemma WriteSynced(a: EsilArch, m: Machine, w: Watch, i: Run, r: RegRef, e: Expr, x: nat, st: State, sem: Sem)
    requires LawfulEsil(a) && MachineTyped(a, m) && Synced(a, m, w, i, st, sem) && i.skip == 0
    requires ValidRef(r) && IsRegister(a, r.variable) && Typed(e, RegBits(r)) && Eval(e, Go(m.statements, st, sem).env, sem, 0) == x
    requires StackIgnores(m.stack, r.variable.name) && GuardsIgnore(m.blocks, r.variable.name) && (w.dirty || CtxIgnores(m, r.variable.name))
    ensures Synced(a, Emit(m, Assign(r.variable, WriteExpr(r, e))), w, Written(i, r, x), st, sem)
  {
    LiveNow(a, m, w, i, st, sem);
    WriteRun(a, m, r, e, x, st, sem);
    var now, y, s := Go(m.statements, st, sem), r.variable.name, Assign(r.variable, WriteExpr(r, e));
    var n, m' := WriteNum(r, Val(now.env, r.variable), x), Emit(m, s);
    assert !y.Temp?;
    EsilValues.SameVal(r.variable, now.env, i.env);
    assert GuardsHold(m, i, now.env, sem) by { assert Live(m, i) == m.statements; }
    assert |w.frames| == |m.blocks| && i.depth == |m.blocks|;
    assert Live(m', i) == m.statements + [s];
    hide Go, MachineTyped, Eval, WriteNum, WriteExpr, Typed, LawfulEsil, IsRegister, Reads, Pow2, ValidRef, Live, Synced;
    RegisterWrite(a, now.env, i.env, r.variable, n);
    GuardsAfterWrite(m, m', i, now.env, y, n, sem);
    StackAfterWrite(m.stack, i.stack, now.env, y, n, sem);
    if !w.dirty && m.ctx.Some? {
      HalfAfterWrite(m.ctx.value.was, PendingWas(m), PendingAt(m), m.statements, s, i.ctx.value.was, y, n, st, sem);
      HalfAfterWrite(m.ctx.value.cur, PendingCur(m), PendingAt(m), m.statements, s, i.ctx.value.cur, y, n, st, sem);
    }
    hide HalfWorth, SameRegs, Fits, GuardsHold, StackStands;
    assert !w.dirty ==> CtxWorth(m', m.statements + [s], i.ctx, st, sem);
    hide CtxWorth;
    SyncedIntro(a, m', w, Written(i, r, x), st, sem);
  }

  /** The pieces of an agreement while nothing is skipped. */
  lemma SyncedIntro(a: EsilArch, m: Machine, w: Watch, i: Run, st: State, sem: Sem)
    requires |w.frames| == |m.blocks| && i.skip == 0 && i.depth == |m.blocks|
    requires var now := Go(m.statements, st, sem);
      && SameRegs(now.env, i.env) && now.mem == i.mem && Fits(a, now.env)
      && GuardsHold(m, i, now.env, sem) && StackStands(m.stack, i.stack, now.env, sem)
    requires !w.dirty ==> CtxWorth(m, m.statements, i.ctx, st, sem)
    ensures Synced(a, m, w, i, st, sem)
  {
    hide Go, SameRegs, Fits, GuardsHold, StackStands, CtxWorth;
    assert Live(m, i) == m.statements;
  }

  // ---- Seeding ----

  function Reseeded(w: Watch): Watch {
    Watch(TaintAll(w.frames), false)
  }

  lemma SeedSynced(a: EsilArch, m: Machine, w: Watch, i: Run, r: RegRef, e: Expr, was: nat, cur: nat, st: State, sem: Sem)
    requires Synced(a, m, w, i, st, sem) && i.skip == 0
    requires var env := Go(m.statements, st, sem).env;
      Eval(ReadExpr(r), env, sem, 0) == was && Eval(e, env, sem, 0) == cur && was < Pow2(RegBits(r)) && cur < Pow2(RegBits(r))
    ensures Synced(a, Seed(m, r, e), Reseeded(w), i.(ctx := Some(Ctx(was, cur, RegBits(r)))), st, sem)
  {
    LiveNow(a, m, w, i, st, sem);
    var now := Go(m.statements, st, sem);
    assert GuardsHold(m, i, now.env, sem) by { assert Live(m, i) == m.statements; }
    assert |w.frames| == |m.blocks| && i.depth == |m.blocks|;
    assert m.statements[..|m.statements|] == m.statements;
    var m', i' := Seed(m, r, e), i.(ctx := Some(Ctx(was, cur, RegBits(r))));
    hide Go, Eval, ReadExpr, SameRegs, Fits, StackStands, Pow2, Synced;
    assert CtxWorth(m', m.statements, i'.ctx, st, sem);
    hide CtxWorth;
    assert GuardsHold(m', i', now.env, sem);
    SyncedIntro(a, m', Reseeded(w), i', st, sem);
  }

  lemma SafeIgnores(m: Machine, w: Watch, r: RegRef, k: nat, seeds: bool)
    requires k <= |m.stack| && WriteIsSafe(m, w, r, m.stack[..|m.stack| - k], seeds)
    ensures StackIgnores(Drop(m, k).stack, r.variable.name) && GuardsIgnore(m.blocks, r.variable.name)
    ensures !seeds ==> w.dirty || CtxIgnores(m, r.variable.name)
  {
    hide Reads;
  }

  /** The operands of an assignment: its target, the value there, the value written. */
  lemma SetOperands(a: EsilArch, m: Machine, w: Watch, i: Run, compound: Option<EsilOp>, seeds: bool, st: State, sem: Sem)
    requires MachineTyped(a, m) && Synced(a, m, w, i, st, sem) && i.skip == 0
    requires ApplySet(m, compound, seeds).Ok? && Safe(m, w, Set(compound, seeds))
    ensures |i.stack| == |m.stack|
    ensures
      var env, r, v := Go(m.statements, st, sem).env, Top(m).r, i.stack[|m.stack| - 2];
      var value := Widen(Second(m), RegBits(r));
      var e := AssignedExpr(r, value, compound).value;
      var was, x := ReadNum(r, Val(i.env, r.variable)), FitNum(EntryValue(v, i.env), EntryBits(v), RegBits(r));
      && i.stack[|m.stack| - 1] == Lazy(r) && ValidRef(r) && IsRegister(a, r.variable) && Typed(e, RegBits(r))
      && Eval(ReadExpr(r), env, sem, 0) == was && was < Pow2(RegBits(r))
      && Eval(e, env, sem, 0) == (if compound.None? then x else CompoundNum(compound.value, was, x, RegBits(r)))
      && Eval(e, env, sem, 0) < Pow2(RegBits(r))
  {
    hide Go, MachineTyped, Synced, Agrees, Widen, ReadExpr, ReadNum, Typed, IsRegister, EntryValue, EntryBits, Eval, ArithNum, Pow2, FitNum, Val, CtxWorth, Fits,
         StackStands, WriteIsSafe;
    var env, r := Go(m.statements, st, sem).env, Top(m).r;
    EntryAgrees(a, m, w, i, 1, st, sem);
    EntryAgrees(a, m, w, i, 2, st, sem);
    LiveNow(a, m, w, i, st, sem);
    TargetIsRef(m, w, compound, seeds);
    assert ValidRef(r) && IsRegister(a, r.variable) && i.stack[|m.stack| - 1] == Lazy(r);
    hide Stands;
    RefBits(r);
    WidenTyped(a, Second(m), RegBits(r));
    hide ValueTyped;
    WidenAgrees(Second(m), i.stack[|m.stack| - 2], env, i.env, sem, RegBits(r));
    EsilValues.SameVal(r.variable, env, i.env);
    ReadValue(r, env, sem, 0);
    ReadBound(r, Val(env, r.variable));
    ReadTyped(r);
    hide ValidRef, SameRegs;
    var value := Widen(Second(m), RegBits(r));
    if compound.Some? { TypedArith(CompoundOp(compound.value).value, ReadExpr(r), value, RegBits(r)); }
    AssignedAgrees(r, value, compound, Eval(value, env, sem, 0), env, sem);
    StrictFits(AssignedExpr(r, value, compound).value, RegBits(r), env, sem);
  }

  lemma TargetIsRef(m: Machine, w: Watch, compound: Option<EsilOp>, seeds: bool)
    requires ApplySet(m, compound, seeds).Ok? && Safe(m, w, Set(compound, seeds))
    ensures |m.stack| >= 2 && Top(m).InRegister? && !Top(m).r.variable.name.Temp?
  {
  }

  function Seeding(m: Machine, r: RegRef, e: Expr, seeds: bool): Machine {
    if seeds then Seed(m, r, e) else m
  }

  function SeedingRun(i: Run, r: RegRef, was: nat, cur: nat, seeds: bool): Run {
    if seeds then i.(ctx := Some(Ctx(was, cur, RegBits(r)))) else i
  }

  /** A seed if there is one, then a write unless the register is hardwired to zero. */
  lemma SeedAndWrite(a: EsilArch, m: Machine, w: Watch, i: Run, r: RegRef, e: Expr, was: nat, cur: nat, seeds: bool, st: State, sem: Sem)
    requires LawfulEsil(a) && MachineTyped(a, m) && Synced(a, m, w, i, st, sem) && i.skip == 0
    requires ValidRef(r) && IsRegister(a, r.variable) && Typed(e, RegBits(r))
    requires Eval(ReadExpr(r), Go(m.statements, st, sem).env, sem, 0) == was && was < Pow2(RegBits(r))
    requires Eval(e, Go(m.statements, st, sem).env, sem, 0) == cur && cur < Pow2(RegBits(r))
    requires StackIgnores(m.stack, r.variable.name) && GuardsIgnore(m.blocks, r.variable.name)
    requires !seeds ==> w.dirty || CtxIgnores(m, r.variable.name)
    ensures Synced(a, if r.zero then Seeding(m, r, e, seeds) else Emit(Seeding(m, r, e, seeds), Assign(r.variable, WriteExpr(r, e))),
                   if seeds then Reseeded(w) else w,
                   if r.zero then SeedingRun(i, r, was, cur, seeds) else Written(SeedingRun(i, r, was, cur, seeds), r, cur), st, sem)
  {
    hide Go, MachineTyped, Synced, ReadExpr, Typed, IsRegister, Eval, ValidRef, Pow2, StackIgnores, GuardsIgnore, CtxIgnores, WriteExpr, LawfulEsil, Reads, Written, Emit,
         Seed, Reseeded;
    if seeds {
      SeedSynced(a, m, w, i, r, e, was, cur, st, sem);
      if !r.zero { SeededSim(a, m, w, i, r, e, was, cur, st, sem); }
    } else if !r.zero {
      WriteSynced(a, m, w, i, r, e, cur, st, sem);
    }
  }

  lemma SetUnfolds(m: Machine, compound: Option<EsilOp>, seeds: bool)
    requires ApplySet(m, compound, seeds).Ok?
    ensures |m.stack| >= 2 && Top(m).InRegister? && AssignedExpr(Top(m).r, Widen(Second(m), RegBits(Top(m).r)), compound).Some?
    ensures var r := Top(m).r;
            var e := AssignedExpr(r, Widen(Second(m), RegBits(r)), compound).value;
            var seeded := Seeding(Drop(m, 2), r, e, seeds);
            ApplySet(m, compound, seeds).value == if r.zero then seeded else Emit(seeded, Assign(r.variable, WriteExpr(r, e)))
    ensures compound.Some? ==> CompoundOp(compound.value).Some?
  {
    hide Widen, ReadExpr, WriteExpr, Seed, Emit;
  }

  lemma RunSetUnfolds(i: Run, compound: Option<EsilOp>, seeds: bool)
    requires |i.stack| >= 2 && i.stack[|i.stack| - 1].Lazy? && (compound.Some? ==> CompoundOp(compound.value).Some?)
    ensures var r, v := i.stack[|i.stack| - 1].r, i.stack[|i.stack| - 2];
            var was := ReadNum(r, Val(i.env, r.variable));
            var x := FitNum(EntryValue(v, i.env), EntryBits(v), RegBits(r));
            var cur := if compound.None? then x else CompoundNum(compound.value, was, x, RegBits(r));
            var j := SeedingRun(Dropped(i, 2), r, was, cur, seeds);
            RunSet(i, compound, seeds) == Some(if r.zero then j else Written(j, r, cur))
  {
    hide ReadNum, Val, FitNum, EntryValue, EntryBits, CompoundNum, CompoundOp, Written;
    assert Dropped(i, 2).(ctx := i.ctx) == Dropped(i, 2);
  }

  lemma SetSim(a: EsilArch, m: Machine, w: Watch, i: Run, compound: Option<EsilOp>, seeds: bool, st: State, sem: Sem)
    requires LawfulEsil(a) && MachineTyped(a, m) && Synced(a, m, w, i, st, sem) && i.skip == 0
    requires ApplySet(m, compound, seeds).Ok? && Safe(m, w, Set(compound, seeds))
    ensures RunSet(i, compound, seeds).Some?
    ensures Synced(a, ApplySet(m, compound, seeds).value, if seeds then Reseeded(w) else w, RunSet(i, compound, seeds).value, st, sem)
  {
    hide *;
    SetUnfolds(m, compound, seeds);
    SafeSet(m, w, compound, seeds);
    var r := Top(m).r;
    SetOperands(a, m, w, i, compound, seeds, st, sem);
    RunSetUnfolds(i, compound, seeds);
    var e := AssignedExpr(r, Widen(Second(m), RegBits(r)), compound).value;
    var was, v := ReadNum(r, Val(i.env, r.variable)), i.stack[|m.stack| - 2];
    var x := FitNum(EntryValue(v, i.env), EntryBits(v), RegBits(r));
    var cur := if compound.None? then x else CompoundNum(compound.value, was, x, RegBits(r));
    DropTyped(a, m, 2);
    DropSynced(a, m, w, i, 2, st, sem);
    SafeIgnores(m, w, r, 2, seeds);
    DropKeeps(m, i, 2, r.variable.name);
    SeedAndWrite(a, Drop(m, 2), w, Dropped(i, 2), r, e, was, cur, seeds, st, sem);
  }

  lemma SafeSet(m: Machine, w: Watch, compound: Option<EsilOp>, seeds: bool)
    requires |m.stack| >= 2 && Top(m).InRegister? && Safe(m, w, Set(compound, seeds))
    ensures WriteIsSafe(m, w, Top(m).r, m.stack[..|m.stack| - 2], seeds)
  {
    hide WriteIsSafe;
  }

  lemma DropKeeps(m: Machine, i: Run, n: nat, x: Name)
    requires n <= |m.stack| && n <= |i.stack|
    ensures CtxIgnores(Drop(m, n), x) == CtxIgnores(m, x)
    ensures Drop(m, n).statements == m.statements && Drop(m, n).blocks == m.blocks && Dropped(i, n).skip == i.skip && Dropped(i, n).env == i.env
  {
  }

  /** A write right after its own seed. */
  lemma SeededSim(a: EsilArch, m: Machine, w: Watch, i: Run, r: RegRef, e: Expr, was: nat, cur: nat, st: State, sem: Sem)
    requires LawfulEsil(a) && MachineTyped(a, m) && Synced(a, Seed(m, r, e), Reseeded(w), i.(ctx := Some(Ctx(was, cur, RegBits(r)))), st, sem)
    requires i.skip == 0 && ValidRef(r) && IsRegister(a, r.variable) && Typed(e, RegBits(r)) && Eval(e, Go(m.statements, st, sem).env, sem, 0) == cur
    requires StackIgnores(m.stack, r.variable.name) && GuardsIgnore(m.blocks, r.variable.name)
    ensures Synced(a, Emit(Seed(m, r, e), Assign(r.variable, WriteExpr(r, e))), Reseeded(w),
      Written(i.(ctx := Some(Ctx(was, cur, RegBits(r)))), r, cur), st, sem)
  {
    var m' := Seed(m, r, e);
    assert RefTyped(a, r);
    SeedTyped(a, m, r, e);
    assert CtxIgnores(m', r.variable.name) && m'.statements == m.statements && m'.stack == m.stack && m'.blocks == m.blocks;
    hide Go, MachineTyped, Synced, Typed, IsRegister, Eval, ValidRef, StackIgnores, GuardsIgnore, CtxIgnores, WriteExpr, LawfulEsil, Seed, RefTyped;
    WriteSynced(a, m', Reseeded(w), i.(ctx := Some(Ctx(was, cur, RegBits(r)))), r, e, cur, st, sem);
  }

  lemma NegSim(a: EsilArch, m: Machine, w: Watch, i: Run, st: State, sem: Sem)
    requires LawfulEsil(a) && MachineTyped(a, m) && Synced(a, m, w, i, st, sem) && i.skip == 0
    requires ApplyNegAssign(m).Ok? && Safe(m, w, NegAssign)
    ensures RunToken(i, NegAssign, a).Some? && Synced(a, ApplyNegAssign(m).value, w, RunToken(i, NegAssign, a).value, st, sem)
  {
    hide *;
    NegUnfolds(m, w);
    var r := Top(m).r;
    NegOperand(a, m, w, i, st, sem);
    RunNegUnfolds(a, i);
    DropTyped(a, m, 1);
    DropSynced(a, m, w, i, 1, st, sem);
    SafeIgnores(m, w, r, 1, false);
    DropKeeps(m, i, 1, r.variable.name);
    WriteSynced(a, Drop(m, 1), w, Dropped(i, 1), r, NegatedExpr(r), Bit(ReadNum(r, Val(i.env, r.variable)) == 0), st, sem);
  }

  lemma NegUnfolds(m: Machine, w: Watch)
    requires ApplyNegAssign(m).Ok? && Safe(m, w, NegAssign)
    ensures m.stack != [] && Top(m).InRegister? && !Top(m).r.variable.name.Temp?
    ensures WriteIsSafe(m, w, Top(m).r, m.stack[..|m.stack| - 1], false)
    ensures ApplyNegAssign(m).value == Emit(Drop(m, 1), Assign(Top(m).r.variable, WriteExpr(Top(m).r, NegatedExpr(Top(m).r))))
  {
    hide NegatedExpr, WriteExpr, Emit, Reads;
  }

  lemma RunNegUnfolds(a: EsilArch, i: Run)
    requires i.stack != [] && i.stack[|i.stack| - 1].Lazy? && i.skip == 0
    ensures var r := i.stack[|i.stack| - 1].r;
            RunToken(i, NegAssign, a) == Some(Written(Dropped(i, 1), r, Bit(ReadNum(r, Val(i.env, r.variable)) == 0)))
  {
    hide ReadNum, Val, Written;
  }

  lemma NegOperand(a: EsilArch, m: Machine, w: Watch, i: Run, st: State, sem: Sem)
    requires MachineTyped(a, m) && Synced(a, m, w, i, st, sem) && i.skip == 0
    requires m.stack != [] && Top(m).InRegister? && !Top(m).r.variable.name.Temp?
    ensures |i.stack| == |m.stack|
    ensures var r := Top(m).r;
            && i.stack[|m.stack| - 1] == Lazy(r) && ValidRef(r) && IsRegister(a, r.variable) && Typed(NegatedExpr(r), RegBits(r))
            && Eval(NegatedExpr(r), Go(m.statements, st, sem).env, sem, 0) == Bit(ReadNum(r, Val(i.env, r.variable)) == 0)
  {
    var env, r := Go(m.statements, st, sem).env, Top(m).r;
    hide Synced, MachineTyped, Go;
    EntryAgrees(a, m, w, i, 1, st, sem);
    LiveNow(a, m, w, i, st, sem);
    assert ValidRef(r) && IsRegister(a, r.variable) && i.stack[|m.stack| - 1] == Lazy(r);
    hide Agrees, Stands, IsRegister, Fits, StackStands, ValueTyped;
    EsilValues.SameVal(r.variable, env, i.env);
    hide SameRegs, Val;
    NegatedAgrees(r, env, sem);
    NegatedTyped(r);
  }

  lemma NegatedTyped(r: RegRef)
    requires ValidRef(r)
    ensures Typed(NegatedExpr(r), RegBits(r))
  {
    RefBits(r);
    ReadTyped(r);
    hide Typed, ReadExpr;
    IsZeroTyped(ReadExpr(r), RegBits(r));
    TypedSmall(0, RegBits(r));
    TypedSmall(1, RegBits(r));
    TypedIte(Bin(Eq, ReadExpr(r), Const(0, RegBits(r))), Const(1, RegBits(r)), Const(0, RegBits(r)), RegBits(r));
  }

  lemma CompareSim(a: EsilArch, m: Machine, w: Watch, i: Run, st: State, sem: Sem)
    requires MachineTyped(a, m) && Fresh(m, w) && Synced(a, m, w, i, st, sem) && i.skip == 0 && ApplyCompare(m).Ok?
    ensures RunCompare(i).Some? && Synced(a, ApplyCompare(m).value, Reseeded(w), RunCompare(i).value, st, sem)
  {
    hide Go, MachineTyped, Fresh, Synced, Agrees, Widen, Eval, EntryValue, EntryBits, ValueBits, Pow2, FitNum, Wrap, EntryArchBits, ArchitecturalBits,
         Stands, Width, Count, ValueTyped, Calm, Reads, Deferred;
    EntryAgrees(a, m, w, i, 1, st, sem);
    EntryAgrees(a, m, w, i, 2, st, sem);
    var env, l, r, le, re := Go(m.statements, st, sem).env, Top(m), Second(m), i.stack[|m.stack| - 1], i.stack[|m.stack| - 2];
    AgreeBits(l, le, env, i.env, sem);
    AgreeBits(r, re, env, i.env, sem);
    var bits := CompareBits(l, r);
    assert bits > 0 by { ArchBits(l); ArchBits(r); }
    WidenAgrees(l, le, env, i.env, sem, bits);
    WidenAgrees(r, re, env, i.env, sem, bits);
    var c := FlagCtx(Widen(l, bits), Bin(Sub, Widen(l, bits), Widen(r, bits)), bits);
    var x, y := FitNum(EntryValue(le, i.env), EntryBits(le), bits), FitNum(EntryValue(re, i.env), EntryBits(re), bits);
    SubEval(Widen(l, bits), Widen(r, bits), bits, env, sem);
    var diff := (x as int) - (y as int);
    WrapBound(diff, bits);
    CompareCalm(m, w);
    DropSynced(a, m, w, i, 2, st, sem);
    assert Deferred(Drop(m, 2)) == Deferred(m) by { DropDeferred(m, 2); }
    InlineSynced(a, Drop(m, 2), w, Dropped(i, 2), c, x, Wrap(diff, bits), st, sem);
  }

  lemma ArchBits(v: StackValue)
    ensures ArchitecturalBits(v).Some? ==> ArchitecturalBits(v).value == ValueBits(v)
  {
  }

  lemma DropDeferred(m: Machine, k: nat)
    requires k <= |m.stack|
    ensures Deferred(Drop(m, k)) == Deferred(m)
  {
  }

  lemma SubEval(x: Expr, y: Expr, bits: nat, env: Env, sem: Sem)
    requires Width(x) == bits && Width(y) == bits && Count(x) == 0
    ensures Eval(Bin(Sub, x, y), env, sem, 0) == Wrap(Eval(x, env, sem, 0) - Eval(y, env, sem, 0), bits)
  {
    BinEval(Sub, x, y, bits, env, sem);
    hide Eval, Width, Count, Wrap;
  }

  /** A compare's own expressions mention nothing deferred. */
  lemma CompareCalm(m: Machine, w: Watch)
    requires Fresh(m, w) && |m.stack| >= 2
    ensures
      var c := ApplyCompare(m).value.ctx.value;
      Calm(Reads(c.was), |m.statements|, Deferred(m)) && Calm(Reads(c.cur), |m.statements|, Deferred(m))
  {
    var l, r, n, d := Top(m), Second(m), |m.statements|, Deferred(m);
    var bits := CompareBits(l, r);
    StackIsCalm(m, w, |m.stack| - 1);
    StackIsCalm(m, w, |m.stack| - 2);
    WidenNames(l, bits);
    WidenNames(r, bits);
    BinNames(Sub, Widen(l, bits), Widen(r, bits));
    hide Fresh, Widen, Reads, ValueNames, CompareBits, Deferred;
  }

  /** A context seeded in place, whatever is still deferred. */
  lemma InlineSynced(a: EsilArch, m: Machine, w: Watch, i: Run, c: FlagCtx, was: nat, cur: nat, st: State, sem: Sem)
    requires Synced(a, m, w, i, st, sem) && i.skip == 0
    requires Calm(Reads(c.was), |m.statements|, Deferred(m)) && Calm(Reads(c.cur), |m.statements|, Deferred(m))
    requires var env := Go(m.statements, st, sem).env;
      Eval(c.was, env, sem, 0) == was && Eval(c.cur, env, sem, 0) == cur && was < Pow2(c.bits) && cur < Pow2(c.bits)
    ensures Synced(a, m.(ctx := Some(c)), Reseeded(w), i.(ctx := Some(Ctx(was, cur, c.bits))), st, sem)
  {
    LiveNow(a, m, w, i, st, sem);
    var now := Go(m.statements, st, sem);
    assert GuardsHold(m, i, now.env, sem) by { assert Live(m, i) == m.statements; }
    assert |w.frames| == |m.blocks| && i.depth == |m.blocks|;
    var m', i' := m.(ctx := Some(c)), i.(ctx := Some(Ctx(was, cur, c.bits)));
    hide Go, Eval, SameRegs, Fits, StackStands, Pow2, Synced;
    NotDeferred(c.was, PendingWas(m), m);
    NotDeferred(c.cur, PendingCur(m), m);
    hide Reads, Calm;
    assert CtxWorth(m', m.statements, i'.ctx, st, sem);
    hide CtxWorth;
    assert GuardsHold(m', i', now.env, sem);
    SyncedIntro(a, m', Reseeded(w), i', st, sem);
  }

  lemma NotDeferred(x: Expr, h: Option<(Var, Expr)>, m: Machine)
    requires Calm(Reads(x), |m.statements|, Deferred(m)) && (h == PendingWas(m) || h == PendingCur(m))
    ensures h.Some? ==> x != Ref(h.value.0)
  {
    if h.Some? {
      OneRead(h.value.0);
      assert h.value.0.name in Deferred(m);
      assert h.value.0.name in Reads(Ref(h.value.0));
    }
  }
}
