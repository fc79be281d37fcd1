/** Where the P-code lift parts from the interpreter: the side conditions of the
    refinement are not idle. */
module PcodeLimits {
  import opened Bits
  import opened Common
  import opened Ir
  import opened Pcode
  import opened PcodeCodes
  import opened PcodeProof
  import I = PcodeInterp
  import D = PcodeDecode

  // ---- Flipping every bit beyond 128 ----

  lemma {:induction false} XorHigh(x: nat, n: nat)
    ensures Halved(BitXor(x, Ones(n)), n) == Halved(x, n)
    decreases n
  {
    if n == 0 {
      assert BitXor(x, 0) == x;
    } else {
      var o, h := Ones(n), BitXor(x, Ones(n));
      assert o % 2 == 1 && o / 2 == Ones(n - 1);
      XorHigh(x / 2, n - 1);
      HalfDiv(x, Pow2(n - 1));
      HalfDiv(h, Pow2(n - 1));
      XorHalf(x, o);
    }
  }

  lemma HalfDiv(x: nat, m: nat)
    requires m > 0
    ensures x / (2 * m) == x / 2 / m
  {
    var q, r := x / 2 / m, x / 2 % m;
    assert x / 2 == q * m + r;
    assert x == q * (2 * m) + (2 * r + x % 2);
    DivModUnique(x, 2 * m, q, 2 * r + x % 2);
  }

  lemma XorHalf(x: nat, y: nat)
    ensures BitXor(x, y) / 2 == BitXor(x / 2, y / 2)
  {
    if x == 0 || y == 0 {
      assert BitXor(x / 2, y / 2) == if x == 0 then y / 2 else x / 2;
    }
  }

  /** The value the lift gives `INT_NEGATE` at width `w`. */
  function NegateAsLifted(v: nat, w: nat): nat {
    Cut(BitXor(v, Cut(AllOnes(w), w)), w)
  }

  /** Its mask is a 128-bit constant, so beyond that the high bits stay as they were. */
  lemma FlipIff(v: nat, w: nat)
    requires v < Pow2(w) && w >= 1
    ensures NegateAsLifted(v, w) == UnaryNum(IntNegate, v, w, w) <==> w <= 128
  {
    hide Pow2, BitXor;
    if w <= 128 {
      NegateNum(v, w);
      WrapCut(-1 - v, w);
      assert AllOnes(w) == Ones(w);
    } else {
      NegateNum(v, w);
      XorOnes(v, w);
      HighHalfStays(v, w);
    }
  }

  lemma HighHalfStays(v: nat, w: nat)
    requires v < Pow2(w) && w > 128
    ensures NegateAsLifted(v, w) != Ones(w) - v
  {
    hide Pow2, BitXor;
    Pow2Mono(128, w);
    SmallMod(Ones(128), Pow2(w));
    XorBound(v, Ones(128), w);
    var x := BitXor(v, Ones(128));
    SmallMod(x, Pow2(w));
    assert AllOnes(w) == Ones(128) && NegateAsLifted(v, w) == x;
    XorHigh(v, 128);
    Complements(v, w, 128);
    OddHigh(w - 128);
  }

  lemma OddHigh(n: nat)
    requires n >= 1
    ensures Ones(n) % 2 == 1
  {
  }

  /** The high part of a complement is the complement of the high part. */
  lemma Complements(v: nat, w: nat, n: nat)
    requires v < Pow2(w) && n <= w
    ensures Halved(Ones(w) - v, n) == Ones(w - n) - Halved(v, n)
  {
    hide Pow2;
    var d := Pow2(n);
    Pow2Add(w - n, n);
    var q, r := v / d, v % d;
    DivNat(v, d);
    assert v == q * d + r;
    assert Ones(w) - v == (Pow2(w - n) - 1 - q) * d + (d - 1 - r);
    DivModUnique(Ones(w) - v, d, Pow2(w - n) - 1 - q, d - 1 - r);
  }

  // ---- One operation at a time ----

  /** A defining operation, lifted. */
  lemma LiftsTo(a: Arch, m: Machine, op: PcodeOp, out: Varnode, e: Expr)
    requires var c := OpcodeOf(op.opcode); !c.Store? && !c.Flow? && !c.Load? && op.out == Some(out)
    requires EvalOp(a, m.widths, OpcodeOf(op.opcode), op.inputs, Natural(out, a)) == Ok(e)
    ensures var bits := ExprBits(e, Natural(out, a));
            LiftOp(a, m, op) == Ok(Machine(m.widths[VarName(out) := bits], m.statements + [Assign(Var(VarName(out), bits), e)]))
  {
    hide OpcodeOf, EvalOp, ExprBits, Natural, VarName;
  }

  lemma RunsTo(a: Arch, op: PcodeOp, out: Varnode, st: State, ptr: nat)
    requires var c := OpcodeOf(op.opcode); !c.Store? && !c.Flow? && !c.Load? && op.out == Some(out) && IsVar(out) && Supplied(c, op.inputs)
    ensures CodeRun(a, op, st, ptr) == st.(env := st.env[VarName(out) := ResultNum(a, OpcodeOf(op.opcode), op.inputs, Natural(out, a), st.env)])
  {
    hide OpcodeOf, ResultNum, Natural, VarName, Supplied;
  }

  lemma LastOp(a: Arch, ops: seq<PcodeOp>, op: PcodeOp, st: State, ptr: nat)
    ensures CodeRuns(a, ops + [op], st, ptr) == CodeRun(a, op, CodeRuns(a, ops, st, ptr), ptr)
    ensures LiftOps(a, ops).Ok? ==> LiftOps(a, ops + [op]) == LiftOp(a, LiftOps(a, ops).value, op)
    ensures CodesTyped(a, ops + [op]) <==> CodesTyped(a, ops) && LiftOps(a, ops).Ok? && OpTyped(a, LiftOps(a, ops).value.widths, Bools(a, ops), op)
  {
    hide CodeRun, LiftOp, OpTyped;
    assert (ops + [op])[..|ops|] == ops;
  }

  lemma NoOps(a: Arch, st: State, ptr: nat)
    ensures CodeRuns(a, [], st, ptr) == st && LiftOps(a, []) == Ok(START) && CodesTyped(a, []) && Bools(a, []) == {}
  {
  }

  /** The lift takes the list and leaves in `x` what the interpreter leaves there. */
  ghost predicate AgreeOn(a: Arch, ops: seq<PcodeOp>, x: Name, st: State, sem: Sem) {
    LiftOps(a, ops).Ok? && Get(Exec(LiftOps(a, ops).value.statements, st, sem, 0).env, x) == Get(I.RunOps(a, ops, st, sem.ptr).env, x)
  }

  lemma AgreeIs(a: Arch, ops: seq<PcodeOp>, x: Name, st: State, sem: Sem)
    requires LiftOps(a, ops).Ok?
    ensures AgreeOn(a, ops, x, st, sem) <==> Get(Exec(LiftOps(a, ops).value.statements, st, sem, 0).env, x) == Get(CodeRuns(a, ops, st, sem.ptr).env, x)
  {
    hide LiftOps, Exec, CodeRuns, I.RunOps;
    D.RunsAre(a, ops, st, sem.ptr);
  }

  /** A list that goes wrong is not one the refinement covers. */
  lemma Untyped(a: Arch, ops: seq<PcodeOp>, x: Name, st: State, sem: Sem)
    requires LiftOps(a, ops).Ok? && !AgreeOn(a, ops, x, st, sem)
    ensures !I.Typed(a, ops)
  {
    hide LiftOps, Exec, I.RunOps, CodeRuns, I.Typed, CodesTyped;
    if I.Typed(a, ops) {
      D.TypedIs(a, ops);
      D.RunsAre(a, ops, st, sem.ptr);
      TypedRuns(a, ops, st, sem);
    }
  }

  lemma Opcodes()
    ensures OpcodeOf("COPY") == Copy && OpcodeOf("INT_SLESS") == IntSless && OpcodeOf("INT_EQUAL") == IntEqual
  {
  }

  // ---- Bitwise negation ----

  function NegateOp(n: nat): PcodeOp {
    PcodeOp(Some(UniqueSpace(0, n)), "INT_NEGATE", [UniqueSpace(1, n)])
  }

  /** The bitwise negation of `n` bytes. */
  function Negated(n: nat): seq<PcodeOp> {
    [] + [NegateOp(n)]
  }

  function NegateExpr(n: nat, w: nat): Expr {
    Bin(Xor, Ref(Var(Unique(1, n), w)), Const(AllOnes(w), w))
  }

  lemma NegateParts(a: Arch, n: nat)
    ensures NegateOp(n).out == Some(UniqueSpace(0, n)) && NegateOp(n).inputs == [UniqueSpace(1, n)] && OpcodeOf(NegateOp(n).opcode) == IntNegate
    ensures Supplied(IntNegate, NegateOp(n).inputs) && IsVar(UniqueSpace(0, n))
    ensures VarName(UniqueSpace(0, n)) == Unique(0, n) && Negated(n) == [] + [NegateOp(n)]
  {
  }

  lemma NegateReads(a: Arch, n: nat)
    ensures
      var w := Natural(UniqueSpace(0, n), a);
      EvalOp(a, map[], IntNegate, [UniqueSpace(1, n)], w) == Ok(NegateExpr(n, w)) && ExprBits(NegateExpr(n, w), w) == w
  {
    hide Ones;
  }

  lemma NegateEval(n: nat, w: nat, env: Env, sem: Sem)
    ensures
      var v := Cut(Get(env, Unique(1, n)), w);
      Cut(Eval(NegateExpr(n, w), env, sem, 0), w) == NegateAsLifted(v, w) && Count(NegateExpr(n, w)) == 0
  {
    hide BitXor, Cut, AllOnes;
  }

  lemma NegateResult(a: Arch, n: nat, env: Env)
    ensures
      var w := Natural(UniqueSpace(0, n), a);
      ResultNum(a, IntNegate, [UniqueSpace(1, n)], w, env) == UnaryNum(IntNegate, Cut(Get(env, Unique(1, n)), w), w, w)
  {
    hide UnaryNum, Cut;
  }

  lemma OneAssign(x: Name, w: nat, e: Expr, st: State, sem: Sem)
    requires Count(e) == 0
    ensures Get(Exec([] + [Assign(Var(x, w), e)], st, sem, 0).env, x) == Cut(Eval(e, st.env, sem, 0), w)
  {
    hide Eval, Cut, Count;
    ExecAppend([], Assign(Var(x, w), e), st, sem, 0);
  }

  /** What either leaves in the output. */
  lemma NegateEnds(a: Arch, n: nat, st: State, sem: Sem)
    ensures
      var w := Natural(UniqueSpace(0, n), a);
      var v := Cut(Get(st.env, Unique(1, n)), w);
      LiftOps(a, Negated(n)).Ok?
      && Get(Exec(LiftOps(a, Negated(n)).value.statements, st, sem, 0).env, Unique(0, n)) == NegateAsLifted(v, w)
      && Get(CodeRuns(a, Negated(n), st, sem.ptr).env, Unique(0, n)) == UnaryNum(IntNegate, v, w, w)
  {
    hide *;
    var out, w := UniqueSpace(0, n), Natural(UniqueSpace(0, n), a);
    StartIs();
    NoOps(a, st, sem.ptr);
    NegateParts(a, n);
    LastOp(a, [], NegateOp(n), st, sem.ptr);
    NegateReads(a, n);
    LiftsTo(a, START, NegateOp(n), out, NegateExpr(n, w));
    RunsTo(a, NegateOp(n), out, st, sem.ptr);
    NegateEval(n, w, st.env, sem);
    OneAssign(Unique(0, n), w, NegateExpr(n, w), st, sem);
    NegateResult(a, n, st.env);
    GetSet(st.env, Unique(0, n), UnaryNum(IntNegate, Cut(Get(st.env, Unique(1, n)), w), w, w));
  }

  lemma NegateBits(a: Arch, n: nat)
    ensures var w := Natural(UniqueSpace(0, n), a); w >= 1 && (w <= 128 <==> 8 * n <= 128)
  {
  }

  /** A bitwise negation is lifted to the same number, whatever the operand holds, exactly when
      it is of at most 128 bits. */
  lemma NegateExactlyUpTo128(a: Arch, n: nat, st: State, sem: Sem)
    ensures LiftOps(a, Negated(n)).Ok? && (AgreeOn(a, Negated(n), Unique(0, n), st, sem) <==> 8 * n <= 128)
  {
    hide LiftOps, CodeRuns, Exec, NegateAsLifted, UnaryNum, Negated, Natural, Cut, Pow2, AgreeOn;
    var w := Natural(UniqueSpace(0, n), a);
    NegateEnds(a, n, st, sem);
    AgreeIs(a, Negated(n), Unique(0, n), st, sem);
    NegateBits(a, n);
    CutBound(Get(st.env, Unique(1, n)), w);
    FlipIff(Cut(Get(st.env, Unique(1, n)), w), w);
  }

  /** Seventeen zero bytes negated: the lift leaves the top byte zero, where the machine sets it. */
  lemma WideNegationMisread(a: Arch, st: State, sem: Sem)
    requires Get(st.env, Unique(1, 17)) == 0
    ensures LiftOps(a, Negated(17)).Ok? && !I.Typed(a, Negated(17))
    ensures Get(Exec(LiftOps(a, Negated(17)).value.statements, st, sem, 0).env, Unique(0, 17)) == Ones(128)
    ensures Get(I.RunOps(a, Negated(17), st, sem.ptr).env, Unique(0, 17)) == Ones(136)
  {
    hide LiftOps, CodeRuns, I.RunOps, Exec, NegateAsLifted, UnaryNum, Negated, Cut, Pow2, Ones, I.Typed, AgreeOn;
    assert Natural(UniqueSpace(0, 17), a) == 136;
    NegateEnds(a, 17, st, sem);
    ZeroNegated();
    D.RunsAre(a, Negated(17), st, sem.ptr);
    NegateExactlyUpTo128(a, 17, st, sem);
    Untyped(a, Negated(17), Unique(0, 17), st, sem);
  }

  lemma NothingXor(x: nat)
    ensures BitXor(0, x) == x
  {
  }

  lemma ZeroNegated()
    ensures Cut(0, 136) == 0 && NegateAsLifted(0, 136) == Ones(128) && UnaryNum(IntNegate, 0, 136, 136) == Ones(136)
  {
    hide Pow2;
    NothingXor(Ones(128));
    hide BitXor;
    SmallMod(0, Pow2(136));
    NegateNum(0, 136);
    Pow2Mono(128, 136);
    SmallMod(Ones(128), Pow2(136));
    assert AllOnes(136) == Ones(128);
  }

  // ---- A lone bare constant ----

  const T0 := UniqueSpace(0, 1)
  const T1 := UniqueSpace(1, 1)
  const T2 := UniqueSpace(2, 1)

  function CopyOp(r: string, v: nat): PcodeOp {
    PcodeOp(Some(Register(r)), "COPY", [Constant(v, None)])
  }

  function LessOp(r: string, s: string): PcodeOp {
    PcodeOp(Some(T0), "INT_SLESS", [Register(r), Register(s)])
  }

  /** `r` is given a bare constant and compared, signed, with `s`. */
  function Lone(r: string, s: string, v: nat): seq<PcodeOp> {
    [] + [CopyOp(r, v)] + [LessOp(r, s)]
  }

  /** Two registers of one width and different variables. */
  predicate Pair(a: Arch, r: string, s: string) {
    VarName(Register(r)) != VarName(Register(s)) && RegisterBits(r, a) == RegisterBits(s, a)
  }

  lemma CopyReads(a: Arch, widths: map<Name, nat>, v: nat, out: nat)
    ensures EvalOp(a, widths, Copy, [Constant(v, None)], out) == Ok(Const(v, PtrBits(a))) && ExprBits(Const(v, PtrBits(a)), out) == PtrBits(a)
  {
  }

  lemma CopyParts(r: string, v: nat)
    ensures CopyOp(r, v).out == Some(Register(r)) && CopyOp(r, v).inputs == [Constant(v, None)] && OpcodeOf(CopyOp(r, v).opcode) == Copy
    ensures Supplied(Copy, CopyOp(r, v).inputs) && IsVar(Register(r))
  {
  }

  lemma CopyLifts(a: Arch, r: string, v: nat)
    ensures LiftOps(a, [] + [CopyOp(r, v)]) ==
      Ok(Machine(map[VarName(Register(r)) := PtrBits(a)], [Assign(Var(VarName(Register(r)), PtrBits(a)), Const(v, PtrBits(a)))]))
  {
    hide *;
    NoOps(a, State(map[], map[]), 0);
    CopyParts(r, v);
    LastOp(a, [], CopyOp(r, v), State(map[], map[]), 0);
    var e, out := Const(v, PtrBits(a)), Register(r);
    StartIs();
    CopyReads(a, START.widths, v, Natural(out, a));
    LiftsTo(a, START, CopyOp(r, v), out, e);
    assert map[][VarName(out) := PtrBits(a)] == map[VarName(out) := PtrBits(a)];
    assert [] + [Assign(Var(VarName(out), PtrBits(a)), e)] == [Assign(Var(VarName(out), PtrBits(a)), e)];
  }

  lemma StartIs()
    ensures START == Machine(map[], [])
  {
  }

  function LessExpr(a: Arch, r: string, s: string): Expr {
    Bin(Slt, Ref(Var(VarName(Register(r)), PtrBits(a))), Ref(Var(VarName(Register(s)), RegisterBits(s, a))))
  }

  lemma LessReads(a: Arch, r: string, s: string)
    requires Pair(a, r, s)
    ensures EvalOp(a, map[VarName(Register(r)) := PtrBits(a)], IntSless, [Register(r), Register(s)], Natural(T0, a)) == Ok(LessExpr(a, r, s))
    ensures ExprBits(LessExpr(a, r, s), Natural(T0, a)) == 1
  {
    hide RegisterBits, MapRegister;
    var widths := map[VarName(Register(r)) := PtrBits(a)];
    var x, y := Ref(Var(VarName(Register(r)), PtrBits(a))), Ref(Var(VarName(Register(s)), RegisterBits(s, a)));
    assert Read(a, widths, Register(r)) == Ok(x) && Read(a, widths, Register(s)) == Ok(y);
  }

  lemma LessParts(r: string, s: string)
    ensures LessOp(r, s).out == Some(T0) && LessOp(r, s).inputs == [Register(r), Register(s)] && OpcodeOf(LessOp(r, s).opcode) == IntSless
    ensures Supplied(IntSless, LessOp(r, s).inputs) && IsVar(T0)
  {
  }

  lemma LoneIs(r: string, s: string, v: nat)
    ensures Lone(r, s, v) == [] + [CopyOp(r, v)] + [LessOp(r, s)]
  {
  }

  lemma LoneLifts(a: Arch, r: string, s: string, v: nat)
    requires Pair(a, r, s)
    ensures LiftOps(a, Lone(r, s, v)).Ok?
    ensures LiftOps(a, Lone(r, s, v)).value.statements ==
      [Assign(Var(VarName(Register(r)), PtrBits(a)), Const(v, PtrBits(a)))] + [Assign(Var(Unique(0, 1), 1), LessExpr(a, r, s))]
  {
    hide *;
    CopyLifts(a, r, v);
    LoneIs(r, s, v);
    LessParts(r, s);
    TempNames();
    LastOp(a, [] + [CopyOp(r, v)], LessOp(r, s), State(map[], map[]), 0);
    var m := LiftOps(a, [] + [CopyOp(r, v)]).value;
    LessReads(a, r, s);
    LiftsTo(a, m, LessOp(r, s), T0, LessExpr(a, r, s));
  }

  lemma CopyTyped(a: Arch, r: string, v: nat)
    requires RegisterBits(r, a) == PtrBits(a)
    ensures OpTyped(a, map[], {}, CopyOp(r, v))
  {
    CopyParts(r, v);
    hide OpcodeOf, RegisterBits, Cut;
    assert Natural(Register(r), a) == PtrBits(a);
    assert DefinesTyped(a, map[], {}, Copy, [Constant(v, None)], PtrBits(a));
  }

  lemma LessTyped(a: Arch, r: string, s: string, bools: set<Name>)
    requires Pair(a, r, s) && RegisterBits(r, a) == PtrBits(a)
    ensures OpTyped(a, map[VarName(Register(r)) := PtrBits(a)], bools, LessOp(r, s))
  {
    Opcodes();
    hide OpcodeOf, RegisterBits, MapRegister;
    var widths := map[VarName(Register(r)) := PtrBits(a)];
    assert VarWidth(a, widths, Register(r)) == PtrBits(a) && VarWidth(a, widths, Register(s)) == RegisterBits(s, a);
    assert Exact(a, widths, Register(r)) && Exact(a, widths, Register(s));
    assert BinaryTyped(a, widths, bools, IntSless, Register(r), Register(s), 8);
  }

  lemma LoneCodesTyped(a: Arch, r: string, s: string, v: nat)
    requires Pair(a, r, s) && RegisterBits(r, a) == PtrBits(a)
    ensures CodesTyped(a, Lone(r, s, v))
  {
    NoOps(a, State(map[], map[]), 0);
    StartIs();
    CopyLifts(a, r, v);
    hide OpcodeOf, RegisterBits, LiftOp, LiftOps, CodesTyped, Bools, Cut, OpTyped, VarName, CopyOp, LessOp;
    CopyTyped(a, r, v);
    LastOp(a, [], CopyOp(r, v), State(map[], map[]), 0);
    LastOp(a, [] + [CopyOp(r, v)], LessOp(r, s), State(map[], map[]), 0);
    LessTyped(a, r, s, Bools(a, [] + [CopyOp(r, v)]));
  }

  lemma TwoAssigns(x: Name, p: nat, v: nat, y: Name, e: Expr, st: State, sem: Sem)
    requires Count(e) == 0
    ensures Exec([Assign(Var(x, p), Const(v, p))] + [Assign(Var(y, 1), e)], st, sem, 0).env ==
      st.env[x := Cut(Cut(v, p), p)][y := Cut(Eval(e, st.env[x := Cut(Cut(v, p), p)], sem, 0), 1)]
  {
    hide Eval, Cut;
    var s, t := Assign(Var(x, p), Const(v, p)), Assign(Var(y, 1), e);
    assert [] + [s] == [s];
    ExecAppend([], s, st, sem, 0);
    ExecAppend([s], t, st, sem, 0);
    assert Eval(Const(v, p), st.env, sem, 0) == Cut(v, p) by { ConstValue(v, p, st.env, sem); }
  }

  lemma ConstValue(v: nat, p: nat, env: Env, sem: Sem)
    ensures Eval(Const(v, p), env, sem, 0) == Cut(v, p)
  {
  }

  /** What either leaves in the comparison: the lift compares at the width of a pointer. */
  lemma LoneEnds(a: Arch, r: string, s: string, v: nat, st: State, sem: Sem)
    requires Pair(a, r, s)
    ensures
      var p, w, y := PtrBits(a), RegisterBits(r, a), Cut(Get(st.env, VarName(Register(s))), RegisterBits(r, a));
      LiftOps(a, Lone(r, s, v)).Ok?
      && Get(Exec(LiftOps(a, Lone(r, s, v)).value.statements, st, sem, 0).env, Unique(0, 1)) == Bit(ToSigned(Cut(v, p), p) < ToSigned(y, w))
      && Get(CodeRuns(a, Lone(r, s, v), st, sem.ptr).env, Unique(0, 1)) == Bit(ToSigned(Cut(v, w), w) < ToSigned(y, w))
  {
    LoneLifts(a, r, s, v);
    LoneExec(a, r, s, v, st, sem);
    LoneRun(a, r, s, v, st, sem.ptr);
    hide LiftOps, CodeRuns, Exec, Lone, ToSigned, Cut;
  }

  lemma LoneExec(a: Arch, r: string, s: string, v: nat, st: State, sem: Sem)
    requires Pair(a, r, s)
    ensures
      var p, w := PtrBits(a), RegisterBits(r, a);
      Get(Exec([Assign(Var(VarName(Register(r)), p), Const(v, p))] + [Assign(Var(Unique(0, 1), 1), LessExpr(a, r, s))], st, sem, 0).env, Unique(0, 1))
        == Bit(ToSigned(Cut(v, p), p) < ToSigned(Cut(Get(st.env, VarName(Register(s))), w), w))
  {
    hide ToSigned, Exec, Pow2, RegisterBits, VarName, Eval;
    var p, w, x, y := PtrBits(a), RegisterBits(r, a), VarName(Register(r)), VarName(Register(s));
    CutCut(v, p, p);
    LessValue(Var(x, p), Var(y, w), map[], sem);
    TwoAssigns(x, p, v, Unique(0, 1), LessExpr(a, r, s), st, sem);
    var env := st.env[x := Cut(v, p)];
    assert Val(env, Var(x, p)) == Cut(v, p) && Val(env, Var(y, w)) == Cut(Get(st.env, y), w);
    hide Cut;
    var b := ToSigned(Cut(v, p), p) < ToSigned(Cut(Get(st.env, y), w), w);
    LessValue(Var(x, p), Var(y, w), env, sem);
    BitCut(b, 1);
  }

  lemma LessValue(x: Var, y: Var, env: Env, sem: Sem)
    ensures Eval(Bin(Slt, Ref(x), Ref(y)), env, sem, 0) == Bit(ToSigned(Val(env, x), x.bits) < ToSigned(Val(env, y), y.bits))
    ensures Count(Bin(Slt, Ref(x), Ref(y))) == 0
  {
    hide Val, ToSigned;
  }

  lemma CopyRuns(a: Arch, r: string, v: nat, st: State, ptr: nat)
    ensures CodeRuns(a, [] + [CopyOp(r, v)], st, ptr) == st.(env := st.env[VarName(Register(r)) := Cut(v, RegisterBits(r, a))])
  {
    NoOps(a, st, ptr);
    CopyParts(r, v);
    hide OpcodeOf, RegisterBits, CodeRun, CodeRuns, Pow2, VarName, Cut;
    LastOp(a, [], CopyOp(r, v), st, ptr);
    RunsTo(a, CopyOp(r, v), Register(r), st, ptr);
    assert Natural(Register(r), a) == RegisterBits(r, a);
    assert ResultNum(a, Copy, [Constant(v, None)], RegisterBits(r, a), st.env) == Cut(v, RegisterBits(r, a));
  }

  lemma LessResult(a: Arch, r: string, s: string, env: Env)
    requires Pair(a, r, s)
    ensures
      var w := RegisterBits(r, a);
      ResultNum(a, IntSless, [Register(r), Register(s)], Natural(T0, a), env)
        == Bit(ToSigned(Cut(Get(env, VarName(Register(r))), w), w) < ToSigned(Cut(Get(env, VarName(Register(s))), w), w))
  {
    hide RegisterBits, Cut, ToSigned, Pow2, VarName;
  }

  lemma LoneRun(a: Arch, r: string, s: string, v: nat, st: State, ptr: nat)
    requires Pair(a, r, s)
    ensures
      var w := RegisterBits(r, a);
      Get(CodeRuns(a, Lone(r, s, v), st, ptr).env, Unique(0, 1)) == Bit(ToSigned(Cut(v, w), w) < ToSigned(Cut(Get(st.env, VarName(Register(s))), w), w))
  {
    LoneIs(r, s, v);
    LessParts(r, s);
    TempNames();
    CutCut(v, RegisterBits(r, a), RegisterBits(r, a));
    hide OpcodeOf, RegisterBits, CodeRun, CodeRuns, ToSigned, Pow2, VarName, ResultNum, Lone, LessOp, CopyOp;
    LastOp(a, [] + [CopyOp(r, v)], LessOp(r, s), st, ptr);
    CopyRuns(a, r, v, st, ptr);
    var mid := st.(env := st.env[VarName(Register(r)) := Cut(v, RegisterBits(r, a))]);
    RunsTo(a, LessOp(r, s), T0, mid, ptr);
    LessResult(a, r, s, mid.env);
  }

  lemma TempNames()
    ensures VarName(T0) == Unique(0, 1) && VarName(T1) == Unique(1, 1) && VarName(T2) == Unique(2, 1)
  {
  }

  /** Two registers of one width and different variables. */
  predicate TwoAlike(a: Arch, r: string, s: string) {
    I.Cell(Register(r)) != I.Cell(Register(s)) && I.RegisterWidth(a, r) == I.RegisterWidth(a, s)
  }

  lemma PairIs(a: Arch, r: string, s: string)
    ensures TwoAlike(a, r, s) <==> Pair(a, r, s)
    ensures RegisterBits(r, a) == I.RegisterWidth(a, r) && PtrBits(a) == I.PointerWidth(a)
  {
    D.WidthIs(a, Register(r));
    D.WidthIs(a, Register(s));
    D.NameIs(Register(r));
    D.NameIs(Register(s));
    D.RegisterIs(a, r);
    D.RegisterIs(a, s);
    hide RegisterBits, I.RegisterWidth, VarName, I.Cell, PtrBits, I.PointerWidth;
  }

  /** Where the constant is the width of a pointer the list is typed. */
  lemma LoneIsTyped(a: Arch, r: string, s: string, v: nat)
    requires TwoAlike(a, r, s) && I.RegisterWidth(a, r) == I.PointerWidth(a)
    ensures I.Typed(a, Lone(r, s, v))
  {
    hide *;
    PairIs(a, r, s);
    LoneCodesTyped(a, r, s, v);
    D.TypedIs(a, Lone(r, s, v));
  }

  /** A bare constant copied to a register is a number of the pointer's width to the lift and of
      the register's to the machine: whatever it is and whatever it is compared with, the two
      agree on a signed comparison exactly when those widths are one. */
  lemma LoneConstantIff(a: Arch, r: string, s: string)
    requires TwoAlike(a, r, s)
    ensures (forall v, st, sem :: AgreeOn(a, Lone(r, s, v), Unique(0, 1), st, sem)) <==> I.RegisterWidth(a, r) == I.PointerWidth(a)
  {
    hide *;
    PairIs(a, r, s);
    if RegisterBits(r, a) == PtrBits(a) {
      forall v, st, sem ensures AgreeOn(a, Lone(r, s, v), Unique(0, 1), st, sem) { LoneAgrees(a, r, s, v, st, sem); }
    } else {
      var v, st, sem := LoneParts(a, r, s);
    }
  }

  lemma LoneAgrees(a: Arch, r: string, s: string, v: nat, st: State, sem: Sem)
    requires Pair(a, r, s) && RegisterBits(r, a) == PtrBits(a)
    ensures AgreeOn(a, Lone(r, s, v), Unique(0, 1), st, sem)
  {
    hide LiftOps, CodeRuns, Exec, Lone, VarName, RegisterBits, ToSigned, Cut, AgreeOn;
    LoneEnds(a, r, s, v, st, sem);
    AgreeIs(a, Lone(r, s, v), Unique(0, 1), st, sem);
  }

  lemma LoneParts(a: Arch, r: string, s: string) returns (v: nat, st: State, sem: Sem)
    requires Pair(a, r, s) && RegisterBits(r, a) != PtrBits(a)
    ensures !AgreeOn(a, Lone(r, s, v), Unique(0, 1), st, sem)
  {
    hide LiftOps, CodeRuns, Exec, Lone, VarName, RegisterBits, ToSigned, Cut, Pow2, Ones, AgreeOn;
    var p, w := PtrBits(a), RegisterBits(r, a);
    v := if w < p then Ones(w) else Pow2(w - 1);
    st, sem := State(map[], map[]), Sem([], FpModel((_, _, _) => 0, (_, _, _, _) => 0), p);
    LoneEnds(a, r, s, v, st, sem);
    AgreeIs(a, Lone(r, s, v), Unique(0, 1), st, sem);
    WidthsPart(w, p);
    assert Get(st.env, VarName(Register(s))) == 0;
  }

  /** A number that is negative at `w` bits and not at `p`. */
  lemma WidthsPart(w: nat, p: nat)
    requires w != p && w >= 1 && p >= 1
    ensures
      var v := if w < p then Ones(w) else Pow2(w - 1);
      ToSigned(Cut(v, w), w) < 0 && ToSigned(Cut(v, p), p) >= 0 && ToSigned(Cut(0, w), w) == 0
  {
    assert Pow2(w) == 2 * Pow2(w - 1) && Pow2(p) == 2 * Pow2(p - 1);
    if w < p { Pow2Mono(w, p - 1); } else { Pow2Add(w - 1 - p, p); }
    hide Pow2;
    SmallMod(0, Pow2(w));
    SmallMod(Ones(w), Pow2(w));
    SmallMod(Pow2(w - 1), Pow2(w));
    if w < p {
      SmallMod(Ones(w), Pow2(p));
    } else {
      DivModUnique(Pow2(w - 1), Pow2(p), Pow2(w - 1 - p), 0);
    }
  }

  const BARE := Lone("w8", "w9", 0xffff_ffff)

  /** `w8 = COPY 0xffffffff` leaves `w8` 64 bits wide, so the signed comparison after it reads
      a large positive number where the machine holds minus one. */
  lemma BareConstantMisread(st: State, sem: Sem)
    requires Get(st.env, Plain("w9")) == 0
    ensures LiftOps(Aarch64, BARE).Ok? && !I.Typed(Aarch64, BARE)
    ensures Get(Exec(LiftOps(Aarch64, BARE).value.statements, st, sem, 0).env, Unique(0, 1)) == 0
    ensures Get(I.RunOps(Aarch64, BARE, st, sem.ptr).env, Unique(0, 1)) == 1
  {
    Widths();
    Spellings();
    hide MapRegister, RegisterBits, Pow2, LiftOps, CodeRuns, Exec;
    assert Pair(Aarch64, "w8", "w9") && VarName(Register("w9")) == Plain("w9");
    LoneEnds(Aarch64, "w8", "w9", 0xffff_ffff, st, sem);
    assert Cut(0, 32) == 0 && Cut(0xffff_ffff, 32) == 0xffff_ffff == Cut(0xffff_ffff, 64);
    D.RunsAre(Aarch64, BARE, st, sem.ptr);
    hide I.Typed, I.RunOps;
    Untyped(Aarch64, BARE, Unique(0, 1), st, sem);
  }

  lemma Widths()
    ensures Pow2(32) == 0x1_0000_0000 && Pow2(31) == 0x8000_0000 && Pow2(64) == 0x1_0000_0000_0000_0000 && Pow2(63) == 0x8000_0000_0000_0000
    ensures Pow2(1) == 2 && Pow2(8) == 256
  {
    assert Pow2(1) == 2 && Pow2(8) == 256;
    HalfOf(31);
    HalfOf(63);
    hide Pow2;
    Pow2Add(8, 8);
    Pow2Add(16, 16);
    Pow2Add(32, 32);
  }

  lemma HalfOf(n: nat)
    ensures Pow2(n + 1) == 2 * Pow2(n)
  {
  }

  lemma Spellings()
    ensures MapRegister("w8") == "w8" && MapRegister("w9") == "w9"
    ensures RegisterBits("w8", Aarch64) == 32 && RegisterBits("w9", Aarch64) == 32
  {
    assert "w8"[1..] == "8" && "w9"[1..] == "9";
  }

  // ---- Truth values as numbers ----

  function EqualOp(out: Varnode, r: string, s: string): PcodeOp {
    PcodeOp(Some(out), "INT_EQUAL", [Register(r), Register(s)])
  }

  function SumOp(opcode: string): PcodeOp {
    PcodeOp(Some(T2), opcode, [T0, T1])
  }

  /** Two comparisons, and an operation on their answers, each a byte wide. */
  function Truths(r: string, s: string, t: string, opcode: string): seq<PcodeOp> {
    [] + [EqualOp(T0, r, s)] + [EqualOp(T1, r, t)] + [SumOp(opcode)]
  }

  function RegVar(a: Arch, r: string): Var {
    Var(VarName(Register(r)), RegisterBits(r, a))
  }

  function EqualExpr(a: Arch, r: string, s: string): Expr {
    Bin(Eq, Ref(RegVar(a, r)), Ref(RegVar(a, s)))
  }

  /** Whether two registers hold one number, as a number. */
  function SameNum(a: Arch, r: string, s: string, env: Env): nat {
    Bit(Val(env, RegVar(a, r)) == Val(env, RegVar(a, s)))
  }

  predicate IsTemp(vn: Varnode) {
    vn == T0 || vn == T1
  }

  /** Only the temporaries of the list have been defined so far. */
  predicate OnlyTemps(widths: map<Name, nat>) {
    forall x :: x in widths ==> x.Unique?
  }

  lemma RegisterReads(a: Arch, widths: map<Name, nat>, r: string)
    requires OnlyTemps(widths)
    ensures Read(a, widths, Register(r)) == Ok(Ref(RegVar(a, r))) && VarWidth(a, widths, Register(r)) == Natural(Register(r), a)
    ensures Natural(Register(r), a) == RegisterBits(r, a) && IsVar(Register(r)) && !Sizeless(Register(r))
  {
    hide MapRegister, RegisterBits;
  }

  lemma EqualReads(a: Arch, widths: map<Name, nat>, bools: set<Name>, out: Varnode, r: string, s: string)
    requires OnlyTemps(widths) && IsTemp(out)
    ensures EvalOp(a, widths, IntEqual, [Register(r), Register(s)], Natural(out, a)) == Ok(EqualExpr(a, r, s))
    ensures ExprBits(EqualExpr(a, r, s), Natural(out, a)) == 1
    ensures OpTyped(a, widths, bools, EqualOp(out, r, s))
  {
    EqualParts(out, r, s);
    hide RegisterBits, MapRegister, OpcodeOf, RegVar;
    RegisterReads(a, widths, r);
    RegisterReads(a, widths, s);
    hide Read, VarWidth;
    assert BinaryTyped(a, widths, bools, IntEqual, Register(r), Register(s), 8);
  }

  lemma EqualParts(out: Varnode, r: string, s: string)
    ensures EqualOp(out, r, s).out == Some(out) && EqualOp(out, r, s).inputs == [Register(r), Register(s)] && OpcodeOf(EqualOp(out, r, s).opcode) == IntEqual
    ensures Supplied(IntEqual, EqualOp(out, r, s).inputs) && IsVar(T0) && IsVar(T1)
  {
  }

  lemma EqualResult(a: Arch, out: nat, r: string, s: string, env: Env)
    ensures ResultNum(a, IntEqual, [Register(r), Register(s)], out, env) == SameNum(a, r, s, env)
  {
    hide RegisterBits, MapRegister, Cut;
  }

  /** What the two comparisons are lifted to and leave behind. */
  lemma EqualsLift(a: Arch, r: string, s: string, t: string, st: State, ptr: nat)
    ensures
      var ops, st' := [] + [EqualOp(T0, r, s)] + [EqualOp(T1, r, t)], CodeRuns(a, [] + [EqualOp(T0, r, s)] + [EqualOp(T1, r, t)], st, ptr);
      LiftOps(a, ops).Ok? && CodesTyped(a, ops) && LiftOps(a, ops).value.widths == map[][Unique(0, 1) := 1][Unique(1, 1) := 1]
      && st'.env == st.env[Unique(0, 1) := SameNum(a, r, s, st.env)][Unique(1, 1) := SameNum(a, r, t, st.env)]
  {
    hide *;
    NoOps(a, st, ptr);
    StartIs();
    TempNames();
    Temps();
    EqualParts(T0, r, s);
    EqualParts(T1, r, t);
    LastOp(a, [], EqualOp(T0, r, s), st, ptr);
    LastOp(a, [] + [EqualOp(T0, r, s)], EqualOp(T1, r, t), st, ptr);
    EqualReads(a, START.widths, Bools(a, []), T0, r, s);
    LiftsTo(a, START, EqualOp(T0, r, s), T0, EqualExpr(a, r, s));
    var one := LiftOps(a, [] + [EqualOp(T0, r, s)]).value;
    EqualReads(a, one.widths, Bools(a, [] + [EqualOp(T0, r, s)]), T1, r, t);
    LiftsTo(a, one, EqualOp(T1, r, t), T1, EqualExpr(a, r, t));
    RunsTo(a, EqualOp(T0, r, s), T0, st, ptr);
    EqualResult(a, Natural(T0, a), r, s, st.env);
    var mid := st.(env := st.env[Unique(0, 1) := SameNum(a, r, s, st.env)]);
    RunsTo(a, EqualOp(T1, r, t), T1, mid, ptr);
    EqualResult(a, Natural(T1, a), r, t, mid.env);
    SameNumKeeps(a, r, t, st.env, SameNum(a, r, s, st.env));
  }

  lemma Temps()
    ensures OnlyTemps(map[]) && OnlyTemps(map[][Unique(0, 1) := 1]) && IsTemp(T0) && IsTemp(T1)
  {
  }

  lemma SameNumKeeps(a: Arch, r: string, t: string, env: Env, v: nat)
    ensures SameNum(a, r, t, env[Unique(0, 1) := v]) == SameNum(a, r, t, env)
  {
    hide MapRegister, RegisterBits, Cut;
  }

  function SumExpr(code: Opcode): Expr
    requires Modular(code)
  {
    Bin(IrOp(code).value, Ref(Var(Unique(0, 1), 1)), Ref(Var(Unique(1, 1), 1)))
  }

  lemma SumReads(a: Arch, widths: map<Name, nat>, code: Opcode)
    requires Modular(code) && widths == map[][Unique(0, 1) := 1][Unique(1, 1) := 1]
    ensures EvalOp(a, widths, code, [T0, T1], Natural(T2, a)) == Ok(SumExpr(code)) && ExprBits(SumExpr(code), Natural(T2, a)) == 8
    ensures Count(SumExpr(code)) == 0
  {
    assert Read(a, widths, T0) == Ok(Ref(Var(Unique(0, 1), 1))) && Read(a, widths, T1) == Ok(Ref(Var(Unique(1, 1), 1)));
  }

  /** The truth values `x` and `y`, combined as bits or as bytes. */
  predicate SumAgrees(code: Opcode, x: nat, y: nat, fp: FpModel)
    requires Modular(code)
  {
    Cut(BinValue(IrOp(code).value, 1, 1, x, y, fp), 8) == BinaryNum(code, x, 8, y, 8, 8)
  }

  /** Only a carry out of the bit, or a borrow into it, tells the two apart. */
  lemma SumAgreesIff(code: Opcode, x: nat, y: nat, fp: FpModel)
    requires Modular(code) && x <= 1 && y <= 1
    ensures SumAgrees(code, x, y, fp) <==> !(code.IntAdd? && x == 1 && y == 1) && !(code.IntSub? && x == 0 && y == 1)
  {
    hide Pow2, BitAnd, BitOr, BitXor;
    BitAndByte();
    if code.IntAdd? || code.IntSub? {
      CarryAgrees(code, x, y, fp);
    } else {
      TruthBits(x, y);
      TruthFits(x * y);
      TruthFits(BitAnd(x, y));
      TruthFits(BitOr(x, y));
      TruthFits(BitXor(x, y));
      hide Wrap, Cut;
      NoCarryAgrees(code, x, y, fp);
    }
  }

  lemma BitAndByte()
    ensures Pow2(1) == 2 && Pow2(8) == 256
  {
  }

  lemma CarryAgrees(code: Opcode, x: nat, y: nat, fp: FpModel)
    requires (code.IntAdd? || code.IntSub?) && x <= 1 && y <= 1
    ensures SumAgrees(code, x, y, fp) <==> !(code.IntAdd? && x == 1 && y == 1) && !(code.IntSub? && x == 0 && y == 1)
  {
    BitAndByte();
    hide Pow2;
    if code.IntAdd? { SmallMod(x + y, 256); } else if x >= y { SmallMod(x - y, 256); } else { BorrowAtTwo(); }
  }

  lemma TruthFits(z: nat)
    requires z <= 1
    ensures Wrap(z, 1) == z && Wrap(z, 8) == z && Cut(z, 8) == z
  {
    BitAndByte();
    hide Pow2;
    SmallMod(z, 2);
    SmallMod(z, 256);
  }

  lemma NoCarryAgrees(code: Opcode, x: nat, y: nat, fp: FpModel)
    requires Modular(code) && !code.IntAdd? && !code.IntSub? && Wrap(x * y, 1) == x * y && Wrap(x * y, 8) == x * y && Cut(x * y, 8) == x * y
    requires Cut(BitAnd(x, y), 8) == BitAnd(x, y) && Cut(BitOr(x, y), 8) == BitOr(x, y) && Cut(BitXor(x, y), 8) == BitXor(x, y)
    ensures SumAgrees(code, x, y, fp)
  {
    hide Wrap, Cut, Pow2, BitAnd, BitOr, BitXor;
  }

  lemma BorrowAtTwo()
    ensures (0 - 1) % 2 == 1 && (0 - 1) % 256 == 255 && 1 % 256 == 1
  {
  }

  lemma TruthBits(x: nat, y: nat)
    requires x <= 1 && y <= 1
    ensures BitAnd(x, y) <= 1 && BitOr(x, y) <= 1 && BitXor(x, y) <= 1 && x * y <= 1
  {
  }

  lemma SumEval(code: Opcode, env: Env, sem: Sem)
    requires Modular(code) && Get(env, Unique(0, 1)) <= 1 && Get(env, Unique(1, 1)) <= 1
    ensures Eval(SumExpr(code), env, sem, 0) == BinValue(IrOp(code).value, 1, 1, Get(env, Unique(0, 1)), Get(env, Unique(1, 1)), sem.fp)
  {
    SmallFits(Get(env, Unique(0, 1)), 1);
    SmallFits(Get(env, Unique(1, 1)), 1);
    hide BinValue, Cut;
  }

  lemma SumResult(a: Arch, code: Opcode, env: Env)
    requires Modular(code) && Get(env, Unique(0, 1)) <= 1 && Get(env, Unique(1, 1)) <= 1
    ensures ResultNum(a, code, [T0, T1], Natural(T2, a), env) == BinaryNum(code, Get(env, Unique(0, 1)), 8, Get(env, Unique(1, 1)), 8, 8)
  {
    SmallFits(Get(env, Unique(0, 1)), 8);
    SmallFits(Get(env, Unique(1, 1)), 8);
    hide BinaryNum, Cut;
  }

  /** The states the lifted statements and the interpreter end in, `env` the registers before
      the last operation. */
  lemma SumEnds(a: Arch, r: string, s: string, t: string, opcode: string, st: State, sem: Sem)
    requires Modular(OpcodeOf(opcode))
    ensures
      var code, ops := OpcodeOf(opcode), [] + [EqualOp(T0, r, s)] + [EqualOp(T1, r, t)];
      var env := CodeRuns(a, ops, st, sem.ptr).env;
      LiftOps(a, ops + [SumOp(opcode)]).Ok?
      && Get(Exec(LiftOps(a, ops + [SumOp(opcode)]).value.statements, st, sem, 0).env, Unique(2, 1)) == Cut(Eval(SumExpr(code), env, sem, 0), 8)
      && Get(CodeRuns(a, ops + [SumOp(opcode)], st, sem.ptr).env, Unique(2, 1)) == ResultNum(a, code, [T0, T1], Natural(T2, a), env)
  {
    hide *;
    var code, ops := OpcodeOf(opcode), [] + [EqualOp(T0, r, s)] + [EqualOp(T1, r, t)];
    EqualsLift(a, r, s, t, st, sem.ptr);
    TypedRuns(a, ops, st, sem);
    var m, mid := LiftOps(a, ops).value, CodeRuns(a, ops, st, sem.ptr);
    LastOp(a, ops, SumOp(opcode), st, sem.ptr);
    SumParts(opcode);
    SumReads(a, m.widths, code);
    TempNames();
    LiftsTo(a, m, SumOp(opcode), T2, SumExpr(code));
    RunsTo(a, SumOp(opcode), T2, mid, sem.ptr);
    LastStatement(m, st, sem, mid, Unique(2, 1), SumExpr(code));
    GetSet(mid.env, Unique(2, 1), ResultNum(a, code, [T0, T1], Natural(T2, a), mid.env));
  }

  lemma GetSet(env: Env, x: Name, v: nat)
    ensures Get(env[x := v], x) == v
  {
  }

  lemma SumParts(opcode: string)
    requires Modular(OpcodeOf(opcode))
    ensures SumOp(opcode).out == Some(T2) && SumOp(opcode).inputs == [T0, T1] && SumOp(opcode).opcode == opcode
    ensures var c := OpcodeOf(opcode); !c.Store? && !c.Flow? && !c.Load? && Supplied(c, SumOp(opcode).inputs) && IsVar(T2)
  {
    hide OpcodeOf;
  }

  lemma LastStatement(m: Machine, st: State, sem: Sem, mid: State, x: Name, e: Expr)
    requires Follows(m, st, sem, mid) && Count(e) == 0
    ensures Get(Exec(m.statements + [Assign(Var(x, 8), e)], st, sem, 0).env, x) == Cut(Eval(e, mid.env, sem, 0), 8)
  {
    hide Exec, CountStmts, Eval, Cut, Count;
    ExecAppend(m.statements, Assign(Var(x, 8), e), st, sem, 0);
  }

  /** A comparison defines one bit, which an arithmetic operation on its answer then reads where
      the machine reads a byte: the two agree exactly when the addition does not carry out of
      that bit and the subtraction does not borrow into it. */
  lemma TruthAsNumberIff(a: Arch, r: string, s: string, t: string, opcode: string, st: State, sem: Sem)
    requires I.IsModular(opcode)
    ensures
      var p, q := SameContents(a, r, s, st.env), SameContents(a, r, t, st.env);
      LiftOps(a, Truths(r, s, t, opcode)).Ok?
      && (AgreeOn(a, Truths(r, s, t, opcode), Unique(2, 1), st, sem) <==> !(opcode == "INT_ADD" && p && q) && !(opcode == "INT_SUB" && !p && q))
  {
    hide *;
    D.EachIs(opcode);
    D.KindsAre(opcode);
    SameIs(a, r, s, st.env);
    SameIs(a, r, t, st.env);
    TruthCodes(a, r, s, t, opcode, st, sem);
  }

  predicate SameContents(a: Arch, r: string, s: string, env: Env) {
    I.Contents(a, Register(r), env) == I.Contents(a, Register(s), env)
  }

  lemma SameIs(a: Arch, r: string, s: string, env: Env)
    ensures SameNum(a, r, s, env) == (if SameContents(a, r, s, env) then 1 else 0)
  {
    D.ContentsAre(a, Register(r), env);
    D.ContentsAre(a, Register(s), env);
    hide RegisterBits, MapRegister, I.Contents, Pow2;
  }

  lemma TruthCodes(a: Arch, r: string, s: string, t: string, opcode: string, st: State, sem: Sem)
    requires Modular(OpcodeOf(opcode))
    ensures
      var code, p, q := OpcodeOf(opcode), SameNum(a, r, s, st.env), SameNum(a, r, t, st.env);
      LiftOps(a, Truths(r, s, t, opcode)).Ok?
      && (AgreeOn(a, Truths(r, s, t, opcode), Unique(2, 1), st, sem) <==> !(code.IntAdd? && p == 1 && q == 1) && !(code.IntSub? && p == 0 && q == 1))
  {
    var code, env := OpcodeOf(opcode), CodeRuns(a, [] + [EqualOp(T0, r, s)] + [EqualOp(T1, r, t)], st, sem.ptr).env;
    hide OpcodeOf, SameNum, LiftOps, CodeRuns, Exec, BinaryNum, BinValue, ResultNum, Natural, SumExpr, Eval, CodesTyped, Cut, SumOp, EqualOp, AgreeOn;
    EqualsLift(a, r, s, t, st, sem.ptr);
    SumEnds(a, r, s, t, opcode, st, sem);
    AgreeIs(a, Truths(r, s, t, opcode), Unique(2, 1), st, sem);
    SameNumIsBit(a, r, s, st.env);
    SameNumIsBit(a, r, t, st.env);
    SumResult(a, code, env);
    SumEval(code, env, sem);
    SumAgreesIff(code, Get(env, Unique(0, 1)), Get(env, Unique(1, 1)), sem.fp);
  }

  lemma SameNumIsBit(a: Arch, r: string, s: string, env: Env)
    ensures SameNum(a, r, s, env) <= 1
  {
    hide RegVar;
  }

  const SUM: seq<PcodeOp> := Truths("w8", "w8", "w8", "INT_ADD")

  /** Two comparisons that hold, added: the machine has two, the lifted byte none. */
  lemma BooleanSumMisread(st: State, sem: Sem)
    ensures LiftOps(Aarch64, SUM).Ok? && !I.Typed(Aarch64, SUM)
    ensures Get(Exec(LiftOps(Aarch64, SUM).value.statements, st, sem, 0).env, Unique(2, 1)) != Get(I.RunOps(Aarch64, SUM, st, sem.ptr).env, Unique(2, 1))
  {
    hide OpcodeOf, LiftOps, CodeRuns, I.RunOps, Exec, I.Typed, I.Contents, Truths;
    TruthAsNumberIff(Aarch64, "w8", "w8", "w8", "INT_ADD", st, sem);
    Untyped(Aarch64, SUM, Unique(2, 1), st, sem);
  }
}
