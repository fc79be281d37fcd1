/** Which token streams the lift accepts, from the kinds and widths on the stack alone. */
module EsilAccept {
  import opened Bits
  import opened Common
  import opened Ir
  import opened RegView
  import opened Flags
  import opened EsilMachine
  import opened EsilTyping
  import opened EsilAgree
  import I = EsilInterp

  // ---- The kinds ----

  /** A place that can be written, a number written out, or the result of an operator. */
  datatype Kind = Place(bits: nat) | Number(value: nat, bits: nat) | Outcome(bits: nat)

  /** `ctx` is the width the flags were last seeded at; a block remembers whether
      memory was touched in it. */
  datatype Shape = Shape(stack: seq<Kind>, ctx: Option<nat>, blocks: seq<bool>)

  function Nth(s: Shape, k: nat): Kind
    requires k < |s.stack|
  {
    s.stack[|s.stack| - 1 - k]
  }

  function Less(s: Shape, n: nat): Shape
    requires n <= |s.stack|
  {
    s.(stack := s.stack[..|s.stack| - n])
  }

  function More(s: Shape, k: Kind): Shape {
    s.(stack := s.stack + [k])
  }

  /** The flag exists at that bit of a value that wide. */
  predicate FlagExists(suffix: string, n: nat, bits: nat) {
    if suffix == "s" then n < bits
    else if suffix == "c" || suffix == "b" then 0 < bits <= 128 && n < 65535
    else suffix == "o" && 0 < bits <= 128 && 0 < n < 65535
  }

  /** The innermost block touched memory. */
  function Touched(s: Shape): Shape {
    if s.blocks == [] then s else s.(blocks := s.blocks[..|s.blocks| - 1] + [true])
  }

  function AfterFlag(s: Shape, suffix: string): Option<Shape> {
    if s.ctx.None? then None
    else if suffix == "z" || (suffix == "p" && s.ctx.value > 0) then Some(More(s, Outcome(1)))
    else if s.stack == [] || suffix == "p" || !Nth(s, 0).Number? || Nth(s, 0).value > 65535 then None
    else if FlagExists(suffix, Nth(s, 0).value, s.ctx.value) then Some(More(Less(s, 1), Outcome(1)))
    else None
  }

  /** A number written out lends its width to nothing. */
  function ComparedAt(l: Kind, r: Kind): nat {
    if !l.Number? then l.bits else if !r.Number? then r.bits else Max(l.bits, r.bits)
  }

  /** What the stack needs for a token, and what it is left as. */
  function After(s: Shape, t: Token, a: EsilArch): Option<Shape> {
    match t
    case Literal(value) => Some(More(s, Number(value, a.arch.ptr)))
    case Operand(name) => Some(More(s, Place(I.WidthOf(a, name))))
    case Flag(suffix) => AfterFlag(s, suffix)
    case Arith(op) =>
      if |s.stack| < 2 then None
      else Some(More(Less(s, 2), Outcome(if I.Answers(op) then 1 else Max(Nth(s, 0).bits, Nth(s, 1).bits))))
    case Not => if s.stack == [] then None else Some(More(Less(s, 1), Outcome(1)))
    case Compare => if |s.stack| < 2 then None else Some(Less(s, 2).(ctx := Some(ComparedAt(Nth(s, 0), Nth(s, 1)))))
    case NegAssign => if s.stack == [] || !Nth(s, 0).Place? then None else Some(Less(s, 1))
    case Set(compound, seeds) =>
      if |s.stack| < 2 || !Nth(s, 0).Place? || (compound.Some? && !I.Assigns(compound.value)) then None
      else Some(Less(s, 2).(ctx := if seeds then Some(Nth(s, 0).bits) else s.ctx))
    case Load(size) => if s.stack == [] then None else Some(More(Touched(Less(s, 1)), Place(8 * size)))
    case Store(size) => if |s.stack| < 2 then None else Some(Touched(Less(s, 2)))
    case Open => if s.stack == [] then None else Some(Less(s, 1).(blocks := s.blocks + [false]))
    case Close => if s.blocks == [] || s.blocks[|s.blocks| - 1] then None else Some(s.(blocks := s.blocks[..|s.blocks| - 1]))
    case Junk(_) => None
  }

  function ShapeOf(ts: seq<Token>, a: EsilArch): Option<Shape> {
    if ts == [] then Some(Shape([], None, [])) else
    match ShapeOf(ts[..|ts| - 1], a)
    case None => None
    case Some(s) => After(s, ts[|ts| - 1], a)
  }

  // ---- The machine has that shape ----

  function KindOf(v: StackValue): Kind {
    match v
    case InRegister(r) => Place(RegBits(r))
    case Computed(e, bits) => if e.Const? then Number(e.value, bits) else Outcome(bits)
  }

  predicate Shaped(m: Machine, s: Shape) {
    && |m.stack| == |s.stack| && (forall k :: 0 <= k < |m.stack| ==> KindOf(m.stack[k]) == s.stack[k])
    && (m.ctx.Some? <==> s.ctx.Some?) && (m.ctx.Some? ==> m.ctx.value.bits == s.ctx.value)
    && |m.blocks| == |s.blocks| && (forall k :: 0 <= k < |m.blocks| ==> m.blocks[k].memOp == s.blocks[k])
  }

  ghost predicate SameOutcome(m: Result<Machine, EsilError>, s: Option<Shape>) {
    (m.Ok? <==> s.Some?) && (m.Ok? ==> Shaped(m.value, s.value))
  }

  lemma NthIs(m: Machine, s: Shape, k: nat)
    requires Shaped(m, s) && k < |m.stack|
    ensures k < |s.stack| && Nth(s, k) == KindOf(m.stack[|m.stack| - 1 - k])
  {
    hide KindOf;
  }

  lemma LessShaped(m: Machine, s: Shape, n: nat)
    requires Shaped(m, s) && n <= |m.stack|
    ensures n <= |s.stack| && Shaped(Drop(m, n), Less(s, n))
  {
    hide KindOf;
  }

  lemma MoreShaped(m: Machine, s: Shape, v: StackValue)
    requires Shaped(m, s)
    ensures Shaped(PushTo(m, v), More(s, KindOf(v)))
  {
    hide KindOf;
  }

  /** Only the stack, the width of the context and the blocks matter. */
  lemma SameShape(m: Machine, n: Machine, s: Shape)
    requires Shaped(m, s) && n.stack == m.stack && n.ctx == m.ctx && |n.blocks| == |m.blocks|
    requires forall k :: 0 <= k < |m.blocks| ==> n.blocks[k].memOp == m.blocks[k].memOp
    ensures Shaped(n, s)
  {
    hide KindOf;
  }

  lemma CtxShaped(m: Machine, s: Shape, c: FlagCtx)
    requires Shaped(m, s)
    ensures Shaped(m.(ctx := Some(c)), s.(ctx := Some(c.bits)))
  {
    hide KindOf;
  }

  lemma TouchedShaped(m: Machine, s: Shape)
    requires Shaped(m, s)
    ensures Shaped(MarkMemOp(m), Touched(s))
  {
    hide KindOf;
  }

  // ---- Flags ----

  lemma {:induction false} ShiftedBlocks(blocks: seq<Block>, at: nat)
    ensures |Shifted(blocks, at)| == |blocks|
    ensures forall k :: 0 <= k < |blocks| ==> Shifted(blocks, at)[k].memOp == blocks[k].memOp
    decreases |blocks|
  {
    if blocks != [] { ShiftedBlocks(blocks[..|blocks| - 1], at); }
  }

  lemma SplicedShaped(m: Machine, s: Shape)
    requires Shaped(m, s)
    ensures Shaped(MaterialiseCur(m), s) && Shaped(MaterialiseWas(m), s)
    ensures MaterialiseCur(m).stack == m.stack && MaterialiseWas(m).stack == m.stack
  {
    hide Shaped;
    if m.pending.Some? { ShiftedBlocks(m.blocks, m.pending.value.at); }
    SameShape(m, MaterialiseCur(m), s);
    SameShape(m, MaterialiseWas(m), s);
  }

  lemma FlagExistsIff(suffix: string, c: FlagCtx, n: nat)
    ensures IsIndexed(suffix) && n <= 65535 ==> (FlagExpr(suffix, c, n).Some? <==> FlagExists(suffix, n, c.bits))
    ensures suffix == "z" ==> FlagExpr(suffix, c, 0).Some? && !FlagExpr(suffix, c, 0).value.Const?
    ensures suffix == "p" ==> (FlagExpr(suffix, c, 0).Some? <==> c.bits > 0)
    ensures FlagExpr(suffix, c, n).Some? ==> !FlagExpr(suffix, c, n).value.Const?
    ensures !IsIndexed(suffix) && suffix != "z" && suffix != "p" ==> FlagExpr(suffix, c, n).None? && forall k :: !FlagExists(suffix, k, c.bits)
    ensures IsIndexed(suffix) ==> suffix != "z" && suffix != "p"
  {
    assert "z"[0] == 'z' && "p"[0] == 'p' && "s"[0] == 's' && "c"[0] == 'c' && "b"[0] == 'b' && "o"[0] == 'o';
    hide XorBits, Ones;
  }

  lemma FlagStep(m: Machine, s: Shape, suffix: string)
    requires Shaped(m, s)
    ensures SameOutcome(ApplyFlag(m, suffix), AfterFlag(s, suffix))
  {
    hide *;
    ShapeParts(m, s);
    ApplyFlagIs(m, suffix);
    AfterFlagIs(s, suffix);
    Declined();
    if m.ctx.Some? {
      var c := m.ctx.value;
      SplicedShaped(m, s);
      if !IsIndexed(suffix) {
        FlagExistsIff(suffix, c, 0);
        var e := FlagExpr(suffix, c, 0);
        if e.Some? { Pushes(MaterialiseCur(m), s, e.value); }
      } else if m.stack != [] {
        NthIs(m, s, 0);
        IndexIs(Top(m), m);
        var n := FlagIndex(Top(m));
        if n.Some? {
          FlagExistsIff(suffix, c, n.value);
          var e := FlagExpr(suffix, c, n.value);
          LessShaped(MaterialiseCur(m), s, 1);
          SplicedShaped(Drop(MaterialiseCur(m), 1), Less(s, 1));
          if e.Some? {
            Pushes(MaterialiseWas(Drop(MaterialiseCur(m), 1)), Less(s, 1), e.value);
            Pushes(Drop(MaterialiseCur(m), 1), Less(s, 1), e.value);
          }
        } else {
          FlagExistsIff(suffix, c, 0);
        }
      } else {
        FlagExistsIff(suffix, c, 0);
      }
    }
  }

  lemma ShapeParts(m: Machine, s: Shape)
    requires Shaped(m, s)
    ensures |m.stack| == |s.stack| && |m.blocks| == |s.blocks| && (m.ctx.Some? <==> s.ctx.Some?)
    ensures m.ctx.Some? ==> m.ctx.value.bits == s.ctx.value
  {
    hide KindOf;
  }

  lemma Declined()
    ensures forall e :: SameOutcome(Err(e), None)
  {
  }

  lemma Pushes(m: Machine, s: Shape, e: Expr)
    requires Shaped(m, s) && !e.Const?
    ensures SameOutcome(Ok(PushTo(m, Computed(e, 1))), Some(More(s, Outcome(1))))
  {
    hide Shaped;
    MoreShaped(m, s, Computed(e, 1));
  }

  lemma ApplyFlagIs(m: Machine, suffix: string)
    ensures ApplyFlag(m, suffix) ==
      if m.ctx.None? then Err(UnsupportedFlag)
      else if !IsIndexed(suffix) then
        var e := FlagExpr(suffix, m.ctx.value, 0);
        if e.None? then Err(UnsupportedFlag) else Ok(PushTo(MaterialiseCur(m), Computed(e.value, 1)))
      else if m.stack == [] then Err(StackUnderflow)
      else if FlagIndex(Top(m)).None? then Err(UnsupportedFlag)
      else
        var e := FlagExpr(suffix, m.ctx.value, FlagIndex(Top(m)).value);
        if e.None? then Err(UnsupportedFlag)
        else Ok(PushTo(if NeedsWas(suffix) then MaterialiseWas(Drop(MaterialiseCur(m), 1)) else Drop(MaterialiseCur(m), 1), Computed(e.value, 1)))
  {
    hide FlagExpr, MaterialiseWas, InsertSnapshot, FlagIndex, IsIndexed, NeedsWas;
  }

  lemma AfterFlagIs(s: Shape, suffix: string)
    ensures AfterFlag(s, suffix) ==
      if s.ctx.None? then None
      else if suffix == "z" || (suffix == "p" && s.ctx.value > 0) then Some(More(s, Outcome(1)))
      else if s.stack == [] || suffix == "p" || !Nth(s, 0).Number? || Nth(s, 0).value > 65535 then None
      else if FlagExists(suffix, Nth(s, 0).value, s.ctx.value) then Some(More(Less(s, 1), Outcome(1)))
      else None
  {
  }

  lemma IndexIs(v: StackValue, m: Machine)
    requires m.stack != [] && v == Top(m)
    ensures v == m.stack[|m.stack| - 1 - 0]
    ensures FlagIndex(v) == if KindOf(v).Number? && KindOf(v).value <= 65535 then Some(KindOf(v).value) else None
  {
  }

  // ---- The other tokens ----

  lemma ArithKind(op: EsilOp, l: StackValue, r: StackValue)
    ensures !ArithExpr(op, l, r).Const? && IsCompare(op) == I.Answers(op)
    ensures KindOf(l).bits == ValueBits(l) && KindOf(r).bits == ValueBits(r)
  {
    hide Widen, WidenSigned, Max, RegBits;
  }

  lemma ArithStep(m: Machine, s: Shape, op: EsilOp, a: EsilArch)
    requires Shaped(m, s)
    ensures SameOutcome(ApplyArith(m, op), After(s, Arith(op), a))
  {
    hide Shaped, ArithExpr, Max, IsCompare, I.Answers, KindOf, Nth, Less, More, Drop, PushTo;
    ShapeParts(m, s);
    if |m.stack| >= 2 {
      NthIs(m, s, 0);
      NthIs(m, s, 1);
      LessShaped(m, s, 2);
      ArithKind(op, Top(m), Second(m));
      var v := Computed(ArithExpr(op, Top(m), Second(m)), if IsCompare(op) then 1 else Max(ValueBits(Top(m)), ValueBits(Second(m))));
      MoreShaped(Drop(m, 2), Less(s, 2), v);
      ComputedKind(v);
    }
  }

  lemma ComputedKind(v: StackValue)
    ensures v.Computed? && !v.expr.Const? ==> KindOf(v) == Outcome(v.bits)
  {
  }

  lemma CompareStep(m: Machine, s: Shape, a: EsilArch)
    requires Shaped(m, s)
    ensures SameOutcome(ApplyCompare(m), After(s, Compare, a))
  {
    hide Shaped, Max, KindOf, Nth, Less, Drop, Widen, CompareBits;
    ShapeParts(m, s);
    if |m.stack| >= 2 {
      NthIs(m, s, 0);
      NthIs(m, s, 1);
      LessShaped(m, s, 2);
      var l, r := Top(m), Second(m);
      var bits := CompareBits(l, r);
      CompareWidth(l, r);
      CtxShaped(Drop(m, 2), Less(s, 2), FlagCtx(Widen(l, bits), Bin(Sub, Widen(l, bits), Widen(r, bits)), bits));
    }
  }

  lemma CompareWidth(l: StackValue, r: StackValue)
    ensures CompareBits(l, r) == ComparedAt(KindOf(l), KindOf(r))
  {
    hide Max, RegBits;
  }

  lemma WriteStep(m: Machine, s: Shape, a: EsilArch)
    requires Shaped(m, s)
    ensures SameOutcome(ApplyNegAssign(m), After(s, NegAssign, a))
  {
    hide Shaped, KindOf, Nth, Less, Drop, NegatedExpr, WriteExpr;
    ShapeParts(m, s);
    if m.stack != [] {
      NthIs(m, s, 0);
      LessShaped(m, s, 1);
      PlaceIs(Top(m));
      if Top(m).InRegister? {
        SameShape(Drop(m, 1), Emit(Drop(m, 1), Assign(Top(m).r.variable, WriteExpr(Top(m).r, NegatedExpr(Top(m).r)))), Less(s, 1));
      }
    }
  }

  lemma PlaceIs(v: StackValue)
    ensures KindOf(v).Place? == v.InRegister? && (v.InRegister? ==> KindOf(v).bits == RegBits(v.r))
  {
  }

  lemma AssignsIff(r: RegRef, value: Expr, compound: Option<EsilOp>)
    ensures AssignedExpr(r, value, compound).Some? <==> (compound.Some? ==> I.Assigns(compound.value))
  {
    hide ReadExpr;
  }

  /** The context a seeding write leaves, and the statements it does or does not add. */
  lemma SeededShape(m: Machine, s: Shape, r: RegRef, e: Expr, seeds: bool)
    requires Shaped(m, s)
    ensures
      var seeded := if seeds then Seed(m, r, e) else m;
      var t := s.(ctx := if seeds then Some(RegBits(r)) else s.ctx);
      Shaped(seeded, t) && Shaped(Emit(seeded, Assign(r.variable, WriteExpr(r, e))), t)
  {
    hide KindOf, RegBits, WriteExpr, ReadExpr;
    var seeded := if seeds then Seed(m, r, e) else m;
    var t := s.(ctx := if seeds then Some(RegBits(r)) else s.ctx);
    assert Shaped(seeded, t);
    SameShape(seeded, Emit(seeded, Assign(r.variable, WriteExpr(r, e))), t);
  }

  lemma SetStep(m: Machine, s: Shape, compound: Option<EsilOp>, seeds: bool, a: EsilArch)
    requires Shaped(m, s)
    ensures SameOutcome(ApplySet(m, compound, seeds), After(s, Set(compound, seeds), a))
  {
    hide Shaped, KindOf, Nth, Less, Drop, WriteExpr, ReadExpr, AssignedExpr, Seed, Emit, I.Assigns, RegBits, Widen;
    ShapeParts(m, s);
    if |m.stack| >= 2 {
      NthIs(m, s, 0);
      LessShaped(m, s, 2);
      LessKeeps(s, 2);
      PlaceIs(Top(m));
      if Top(m).InRegister? {
        var r := Top(m).r;
        var value := Widen(Second(m), RegBits(r));
        AssignsIff(r, value, compound);
        var e := AssignedExpr(r, value, compound);
        if e.Some? { SeededShape(Drop(m, 2), Less(s, 2), r, e.value, seeds); }
      }
    }
  }

  lemma LessKeeps(s: Shape, n: nat)
    requires n <= |s.stack|
    ensures Less(s, n).ctx == s.ctx && Less(s, n).blocks == s.blocks
  {
  }

  lemma MemoryStep(m: Machine, s: Shape, size: nat, a: EsilArch)
    requires Shaped(m, s) && 0 < size < 256
    ensures SameOutcome(ApplyLoad(m, size), After(s, Load(size), a)) && SameOutcome(ApplyStore(m, size), After(s, Store(size), a))
  {
    hide Shaped, KindOf, Nth, Less, More, Drop, PushTo, ValueExpr, Widen, MarkMemOp, Touched;
    ShapeParts(m, s);
    if m.stack != [] {
      LessShaped(m, s, 1);
      var dst := TempVar("ld", m, 8 * size);
      var n := Emit(Drop(m, 1), LoadMem(dst, ValueExpr(Top(m)), 8 * size));
      SameShape(Drop(m, 1), n, Less(s, 1));
      TouchedShaped(n, Less(s, 1));
      MoreShaped(MarkMemOp(n), Touched(Less(s, 1)), InRegister(WholeRef(dst)));
      LoadedKind(dst);
      if |m.stack| >= 2 {
        LessShaped(m, s, 2);
        var n' := Emit(Drop(m, 2), StoreMem(ValueExpr(Top(m)), Widen(Second(m), 8 * size), 8 * size));
        SameShape(Drop(m, 2), n', Less(s, 2));
        TouchedShaped(n', Less(s, 2));
      }
    }
  }

  lemma LoadedKind(v: Var)
    ensures 0 < v.bits <= U16 ==> KindOf(InRegister(WholeRef(v))) == Place(v.bits)
  {
  }

  lemma BlockStep(m: Machine, s: Shape, a: EsilArch)
    requires Shaped(m, s)
    ensures SameOutcome(OpenBlock(m), After(s, Open, a)) && SameOutcome(CloseBlock(m), After(s, Close, a))
  {
    hide KindOf, ToBit, GuardFrom;
    if m.stack != [] { LessShaped(m, s, 1); }
  }

  lemma NotStep(m: Machine, s: Shape, a: EsilArch)
    requires Shaped(m, s)
    ensures SameOutcome(ApplyNot(m), After(s, Not, a))
  {
    hide Shaped, KindOf, Less, More, Drop, PushTo, ValueExpr, ValueBits;
    ShapeParts(m, s);
    if m.stack != [] {
      LessShaped(m, s, 1);
      var v := Computed(AsBit(Bin(Eq, ValueExpr(Top(m)), Const(0, ValueBits(Top(m))))), 1);
      MoreShaped(Drop(m, 1), Less(s, 1), v);
      ComputedKind(v);
    }
  }

  lemma OperandWidth(a: EsilArch, x: Name)
    requires LawfulEsil(a) && FlagsApart(a)
    ensures KindOf(InRegister(OperandRef(a, x))) == Place(I.WidthOf(a, x))
  {
    if I.FlagOf(x).Some? {
      FlagRef(a, x);
    } else if I.IsPart(a, x) {
      PartOperand(a, x);
    } else {
      WholeOperand(a, x);
    }
    hide LawfulEsil, FlagsApart, OperandRef, I.FlagOf;
  }

  /** One token is taken exactly when the stack has what it needs. */
  lemma TokenStep(m: Machine, s: Shape, t: Token, a: EsilArch)
    requires LawfulEsil(a) && FlagsApart(a) && Shaped(m, s) && TokenFits(t)
    ensures SameOutcome(StepToken(m, t, a), After(s, t, a))
  {
    hide LawfulEsil, FlagsApart, Shaped, ApplyFlag, AfterFlag, ApplyArith, ApplyNot, ApplyCompare, ApplyNegAssign, ApplySet, ApplyLoad, ApplyStore, OpenBlock, CloseBlock,
         OperandRef, After, PushTo, More, KindOf, I.WidthOf;
    AfterIs(s, t, a);
    match t
    case Literal(value) =>
      MoreShaped(m, s, Computed(Const(value, a.arch.ptr), a.arch.ptr));
      LiteralKind(value, a.arch.ptr);
    case Operand(name) =>
      OperandWidth(a, name);
      MoreShaped(m, s, InRegister(OperandRef(a, name)));
    case Flag(suffix) => FlagStep(m, s, suffix);
    case Arith(op) => ArithStep(m, s, op, a);
    case Not => NotStep(m, s, a);
    case Compare => CompareStep(m, s, a);
    case NegAssign => WriteStep(m, s, a);
    case Set(compound, seeds) => SetStep(m, s, compound, seeds, a);
    case Load(size) => MemoryStep(m, s, size, a);
    case Store(size) => MemoryStep(m, s, size, a);
    case Open => BlockStep(m, s, a);
    case Close => BlockStep(m, s, a);
    case Junk(_) =>
  }

  lemma AfterIs(s: Shape, t: Token, a: EsilArch)
    ensures t.Literal? ==> After(s, t, a) == Some(More(s, Number(t.value, a.arch.ptr)))
    ensures t.Operand? ==> After(s, t, a) == Some(More(s, Place(I.WidthOf(a, t.name))))
    ensures t.Flag? ==> After(s, t, a) == AfterFlag(s, t.suffix)
    ensures t.Junk? ==> After(s, t, a) == None
  {
    hide AfterFlag, More, I.WidthOf;
  }

  lemma LiteralKind(value: nat, bits: nat)
    ensures KindOf(Computed(Const(value, bits), bits)) == Number(value, bits)
  {
  }

  /** The lift takes a stream exactly when every token finds what it needs on the
      stack and every block is closed, none of them around a memory access. */
  lemma AcceptsIff(ts: seq<Token>, a: EsilArch)
    requires LawfulEsil(a) && FlagsApart(a) && forall k :: 0 <= k < |ts| ==> TokenFits(ts[k])
    ensures LiftEsil(ts, a).Ok? <==> ShapeOf(ts, a).Some? && ShapeOf(ts, a).value.blocks == []
  {
    hide LawfulEsil, FlagsApart, Steps, ShapeOf, TokenFits;
    StepsShaped(ts, a);
    if ShapeOf(ts, a).Some? { ShapeParts(Steps(ts, a).value, ShapeOf(ts, a).value); }
    hide Shaped;
  }

  lemma {:induction false} StepsShaped(ts: seq<Token>, a: EsilArch)
    requires LawfulEsil(a) && FlagsApart(a) && forall k :: 0 <= k < |ts| ==> TokenFits(ts[k])
    ensures SameOutcome(Steps(ts, a), ShapeOf(ts, a))
    decreases |ts|
  {
    hide LawfulEsil, FlagsApart, StepToken, After, TokenFits;
    if ts != [] {
      var p, t := ts[..|ts| - 1], ts[|ts| - 1];
      StepsShaped(p, a);
      hide Shaped;
      if ShapeOf(p, a).Some? { TokenStep(Steps(p, a).value, ShapeOf(p, a).value, t, a); }
    }
  }
}
