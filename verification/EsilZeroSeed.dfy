/** A stream the lift accepts and misreads: a flag context seeded through the zero
    register is first read inside a block, and read again after it. */
module EsilZeroSeed {
  import opened Bits
  import opened Common
  import opened Ir
  import opened Layouts
  import opened RegView
  import opened Flags
  import opened EsilMachine
  import opened EsilExec
  import opened EsilFresh
  import opened EsilNumbers
  import opened EsilResolved
  import opened EsilTheorem
  import opened EsilHazards
  import EsilSync
  import EsilTyping

  /** `v` goes to the zero register `z`, seeding the flags; under the condition `g` the
      zero flag goes to `y`; after the block the zero flag goes to `y` again. */
  function SeedStream(z: Name, g: Name, y: Name, v: nat): seq<Token> {
    [Literal(v), Operand(z), Set(None, true), Operand(g), Open, Flag("z"), Operand(y), Set(None, false), Close,
     Flag("z"), Operand(y), Set(None, false)]
  }

  function ZeroRef(z: Name): RegRef {
    WholeRef(Var(z, 64)).(zero := true)
  }

  /** `z` is hardwired to zero; the other two are whole 64-bit registers of their own. */
  predicate SeedRegisters(a: EsilArch, z: Name, g: Name, y: Name) {
    a.arch.ptr == 64 && g != y && !g.Temp? && !y.Temp?
    && OperandRef(a, z) == ZeroRef(z) && OperandRef(a, g) == WholeRef(Var(g, 64)) && OperandRef(a, y) == WholeRef(Var(y, 64))
  }

  // ---- The lift, token by token ----

  const WAS := Var(Temp("old", 0), 64)
  const CUR := Var(Temp("cur", 0), 64)
  const SEEDED := Some(FlagCtx(Ref(WAS), Ref(CUR), 64))
  const ZERO := AsBit(Bin(Eq, Ref(CUR), Const(0, 64)))
  const ZERO64 := Un(ZeroExtend(64), ZERO)

  function Value(v: nat): StackValue {
    Computed(Const(v, 64), 64)
  }

  function Whole(x: Name): StackValue {
    InRegister(WholeRef(Var(x, 64)))
  }

  /** The snapshots still to be emitted, the current value's when `cur` says so. */
  function Waiting(z: Name, v: nat, cur: bool): Option<Pending> {
    Some(Pending(0, Some((WAS, ReadExpr(ZeroRef(z)))), if cur then Some((CUR, Const(v, 64))) else None))
  }

  function Guard(g: Name): Block {
    Block(ToBit(Whole(g)), 0, false)
  }

  /** The two assignments of the block: the snapshot of the value written is one of them. */
  function GuardedPair(g: Name, y: Name, v: nat): seq<Stmt> {
    [Guarded(Assign(CUR, Const(v, 64)), ToBit(Whole(g))), Guarded(Assign(Var(y, 64), ZERO64), ToBit(Whole(g)))]
  }

  function SeedStatements(g: Name, y: Name, v: nat): seq<Stmt> {
    GuardedPair(g, y, v) + [Assign(Var(y, 64), ZERO64)]
  }

  lemma RefFacts(x: Name)
    ensures RegBits(WholeRef(Var(x, 64))) == 64 && !WholeRef(Var(x, 64)).zero && WholeRef(Var(x, 64)).variable == Var(x, 64)
    ensures forall e :: WriteExpr(WholeRef(Var(x, 64)), e) == e
    ensures ReadExpr(WholeRef(Var(x, 64))) == Ref(Var(x, 64))
    ensures RegBits(ZeroRef(x)) == 64 && ZeroRef(x).zero && ReadExpr(ZeroRef(x)) == Const(0, 64)
  {
  }

  lemma SeedStep(a: EsilArch, z: Name, v: nat)
    ensures StepToken(Machine([Value(v), InRegister(ZeroRef(z))], [], None, [], None), Set(None, true), a)
      == Ok(Machine([], [], SEEDED, [], Waiting(z, v, true)))
  {
    RefFacts(z);
    hide WholeRef, ZeroRef, RegBits, ReadExpr, WriteExpr;
    var m := Machine([Value(v), InRegister(ZeroRef(z))], [], None, [], None);
    assert Widen(Second(m), 64) == Const(v, 64);
    assert Drop(m, 2) == Machine([], [], None, [], None);
  }

  lemma OpenStep(a: EsilArch, z: Name, g: Name, v: nat)
    ensures StepToken(Machine([Whole(g)], [], SEEDED, [], Waiting(z, v, true)), Open, a)
      == Ok(Machine([], [], SEEDED, [Guard(g)], Waiting(z, v, true)))
  {
    hide ToBit, ReadExpr;
    var m := Machine([Whole(g)], [], SEEDED, [], Waiting(z, v, true));
    assert Drop(m, 1).stack == [] && [] + [Guard(g)] == [Guard(g)];
  }

  lemma FirstFlagStep(a: EsilArch, z: Name, g: Name, v: nat)
    ensures StepToken(Machine([], [], SEEDED, [Guard(g)], Waiting(z, v, true)), Flag("z"), a)
      == Ok(Machine([Computed(ZERO, 1)], [Assign(CUR, Const(v, 64))], SEEDED, [Guard(g)], Waiting(z, v, false)))
  {
    hide ToBit, ReadExpr, AsBit;
    var m := Machine([], [], SEEDED, [Guard(g)], Waiting(z, v, true));
    assert [Guard(g)][..0] == [];
    assert Shifted([Guard(g)], 0) == [Guard(g)];
    assert MaterialiseCur(m).statements == [Assign(CUR, Const(v, 64))];
    assert [] + [Computed(ZERO, 1)] == [Computed(ZERO, 1)];
  }

  lemma PutStep(a: EsilArch, y: Name, m: Machine)
    requires m.stack == [Computed(ZERO, 1), Whole(y)]
    ensures StepToken(m, Set(None, false), a) == Ok(m.(stack := [], statements := m.statements + [Assign(Var(y, 64), ZERO64)]))
  {
    RefFacts(y);
    hide WholeRef, RegBits, ReadExpr, WriteExpr, AsBit;
    assert Widen(Second(m), 64) == ZERO64;
    assert Drop(m, 2) == m.(stack := []);
  }

  lemma CloseStep(a: EsilArch, z: Name, g: Name, y: Name, v: nat)
    ensures StepToken(Machine([], [Assign(CUR, Const(v, 64)), Assign(Var(y, 64), ZERO64)], SEEDED, [Guard(g)], Waiting(z, v, false)), Close, a)
      == Ok(Machine([], GuardedPair(g, y, v), SEEDED, [], Waiting(z, v, false)))
  {
    hide ToBit, ReadExpr, AsBit, Guarded;
    var s, t, c := Assign(CUR, Const(v, 64)), Assign(Var(y, 64), ZERO64), ToBit(Whole(g));
    assert [s, t][..1] == [s] && [s][..0] == [];
    assert GuardFrom([], 0, c) == [] && [] + [Guarded(s, c)] == [Guarded(s, c)];
    assert GuardFrom([s], 0, c) == [Guarded(s, c)];
    assert GuardFrom([s, t], 0, c) == [Guarded(s, c)] + [Guarded(t, c)] == [Guarded(s, c), Guarded(t, c)];
    assert [Guard(g)][..0] == [];
  }

  lemma LastFlagStep(a: EsilArch, z: Name, v: nat, ss: seq<Stmt>)
    ensures StepToken(Machine([], ss, SEEDED, [], Waiting(z, v, false)), Flag("z"), a)
      == Ok(Machine([Computed(ZERO, 1)], ss, SEEDED, [], Waiting(z, v, false)))
  {
    hide ReadExpr, AsBit;
    assert [] + [Computed(ZERO, 1)] == [Computed(ZERO, 1)];
  }

  lemma OperandStep(a: EsilArch, x: Name, r: RegRef, m: Machine)
    requires OperandRef(a, x) == r
    ensures StepToken(m, Operand(x), a) == Ok(m.(stack := m.stack + [InRegister(r)]))
  {
    hide OperandRef;
  }

  lemma StreamTokens(z: Name, g: Name, y: Name, v: nat)
    ensures var ts := SeedStream(z, g, y, v);
      |ts| == 12 && ts[0] == Literal(v) && ts[1] == Operand(z) && ts[2] == Set(None, true) && ts[3] == Operand(g) && ts[4] == Open
      && ts[5] == Flag("z") && ts[6] == Operand(y) && ts[7] == Set(None, false) && ts[8] == Close && ts[9] == Flag("z")
      && ts[10] == Operand(y) && ts[11] == Set(None, false)
  {
  }

  /** One more token of a prefix. */
  lemma Next(a: EsilArch, ts: seq<Token>, k: nat, m: Machine, n: Machine)
    requires k < |ts| && Steps(ts[..k], a) == Ok(m) && StepToken(m, ts[k], a) == Ok(n)
    ensures Steps(ts[..k + 1], a) == Ok(n)
  {
    hide StepToken;
    FirstStep(a, ts, k, m);
  }

  lemma LiteralStep(a: EsilArch, v: nat)
    requires a.arch.ptr == 64
    ensures StepToken(FRESH, Literal(v), a) == Ok(Machine([Value(v)], [], None, [], None))
  {
    assert [] + [Value(v)] == [Value(v)];
  }

  /** Up to the first flag read, inside the block. */
  lemma LiftToFlag(a: EsilArch, z: Name, g: Name, y: Name, v: nat)
    requires SeedRegisters(a, z, g, y)
    ensures Steps(SeedStream(z, g, y, v)[..6], a)
      == Ok(Machine([Computed(ZERO, 1)], [Assign(CUR, Const(v, 64))], SEEDED, [Guard(g)], Waiting(z, v, false)))
  {
    var ts := SeedStream(z, g, y, v);
    StreamTokens(z, g, y, v);
    assert Steps(ts[..0], a) == Ok(FRESH);
    SeedOperands(a, z, g, y);
    LiteralStep(a, v);
    hide *;
    var waiting := Waiting(z, v, true);
    Next(a, ts, 0, FRESH, Machine([Value(v)], [], None, [], None));
    OperandStep(a, z, ZeroRef(z), Machine([Value(v)], [], None, [], None));
    assert [Value(v)] + [InRegister(ZeroRef(z))] == [Value(v), InRegister(ZeroRef(z))];
    Next(a, ts, 1, Machine([Value(v)], [], None, [], None), Machine([Value(v), InRegister(ZeroRef(z))], [], None, [], None));
    SeedStep(a, z, v);
    Next(a, ts, 2, Machine([Value(v), InRegister(ZeroRef(z))], [], None, [], None), Machine([], [], SEEDED, [], waiting));
    OperandStep(a, g, WholeRef(Var(g, 64)), Machine([], [], SEEDED, [], waiting));
    WholeIs(g);
    assert [] + [Whole(g)] == [Whole(g)];
    Next(a, ts, 3, Machine([], [], SEEDED, [], waiting), Machine([Whole(g)], [], SEEDED, [], waiting));
    OpenStep(a, z, g, v);
    Next(a, ts, 4, Machine([Whole(g)], [], SEEDED, [], waiting), Machine([], [], SEEDED, [Guard(g)], waiting));
    FirstFlagStep(a, z, g, v);
    Next(a, ts, 5, Machine([], [], SEEDED, [Guard(g)], waiting),
      Machine([Computed(ZERO, 1)], [Assign(CUR, Const(v, 64))], SEEDED, [Guard(g)], Waiting(z, v, false)));
  }

  lemma SeedOperands(a: EsilArch, z: Name, g: Name, y: Name)
    requires SeedRegisters(a, z, g, y)
    ensures a.arch.ptr == 64 && OperandRef(a, z) == ZeroRef(z) && OperandRef(a, g) == WholeRef(Var(g, 64)) && OperandRef(a, y) == WholeRef(Var(y, 64))
  {
    hide OperandRef, WholeRef;
  }

  lemma WholeIs(x: Name)
    ensures InRegister(WholeRef(Var(x, 64))) == Whole(x)
  {
  }

  lemma SeedLift(a: EsilArch, z: Name, g: Name, y: Name, v: nat)
    requires SeedRegisters(a, z, g, y)
    ensures LiftEsil(SeedStream(z, g, y, v), a) == Ok(SeedStatements(g, y, v))
  {
    hide *;
    var ts := SeedStream(z, g, y, v);
    StreamTokens(z, g, y, v);
    SeedOperands(a, z, g, y);
    LiftToFlag(a, z, g, y, v);
    WholeIs(y);
    var flag, put := Computed(ZERO, 1), Assign(Var(y, 64), ZERO64);
    var snapshot, waiting := Assign(CUR, Const(v, 64)), Waiting(z, v, false);
    assert [flag] + [Whole(y)] == [flag, Whole(y)] && [snapshot] + [put] == [snapshot, put];
    var m6 := Machine([flag], [snapshot], SEEDED, [Guard(g)], waiting);
    var m7 := Machine([flag, Whole(y)], [snapshot], SEEDED, [Guard(g)], waiting);
    var m8 := Machine([], [snapshot, put], SEEDED, [Guard(g)], waiting);
    var m9 := Machine([], GuardedPair(g, y, v), SEEDED, [], waiting);
    var m10, m11 := m9.(stack := [flag]), m9.(stack := [flag, Whole(y)]);
    OperandStep(a, y, WholeRef(Var(y, 64)), m6);
    Next(a, ts, 6, m6, m7);
    PutStep(a, y, m7);
    Next(a, ts, 7, m7, m8);
    CloseStep(a, z, g, y, v);
    Next(a, ts, 8, m8, m9);
    LastFlagStep(a, z, v, m9.statements);
    Next(a, ts, 9, m9, m10);
    OperandStep(a, y, WholeRef(Var(y, 64)), m10);
    Next(a, ts, 10, m10, m11);
    PutStep(a, y, m11);
    Next(a, ts, 11, m11, m9.(statements := m9.statements + [put]));
    assert ts[..12] == ts;
    LiftOfSteps(ts, a, m9.(statements := m9.statements + [put]));
    SeedStatementsAre(g, y, v);
  }

  lemma LiftOfSteps(ts: seq<Token>, a: EsilArch, m: Machine)
    requires Steps(ts, a) == Ok(m) && m.blocks == []
    ensures LiftEsil(ts, a) == Ok(m.statements)
  {
    hide Steps;
  }

  lemma SeedStatementsAre(g: Name, y: Name, v: nat)
    ensures SeedStatements(g, y, v) == GuardedPair(g, y, v) + [Assign(Var(y, 64), ZERO64)]
  {
    hide GuardedPair;
  }

  // ---- What the lifted statements leave in `y` ----

  /** The snapshot's value after the block: the value written, or what was there before. */
  function SnapshotNum(g: Name, v: nat, env: Env): nat {
    if Val(env, Var(g, 64)) != 0 then Cut(v, 64) else Val(env, CUR)
  }

  lemma CondValue(g: Name, env: Env, sem: Sem)
    ensures Eval(ToBit(Whole(g)), env, sem, 0) == Bit(Val(env, Var(g, 64)) != 0) && Count(ToBit(Whole(g))) == 0
  {
    RefFacts(g);
    SmallWord(0);
    assert Pow2(1) == 2;
    hide WholeRef, RegBits, ReadExpr, Pow2;
    var r, c := Ref(Var(g, 64)), Bin(Eq, Ref(Var(g, 64)), Const(0, 64));
    assert ToBit(Whole(g)) == Ite(c, Const(0, 1), Const(1, 1));
    assert Count(r) == 0 && Count(c) == 0;
    assert Eval(c, env, sem, 0) == Bit(Val(env, Var(g, 64)) == 0);
    assert Eval(Const(0, 1), env, sem, 0) == 0 && Eval(Const(1, 1), env, sem, 0) == 1;
  }

  lemma ZeroFlagValue(env: Env, sem: Sem)
    ensures Cut(Eval(ZERO64, env, sem, 0), 64) == Bit(Val(env, CUR) == 0)
  {
    SmallWord(0);
    SmallWord(1);
    hide Pow2, Cut;
    var c := Bin(Eq, Ref(CUR), Const(0, 64));
    assert Eval(c, env, sem, 0) == Bit(Val(env, CUR) == 0) && Count(c) == 0;
    AsBitValue(c, env, sem, 0);
    hide AsBit, Eval, Width;
    assert Eval(ZERO64, env, sem, 0) == Cut(Eval(ZERO, env, sem, 0), 64) by { ExtendValue(ZERO, env, sem); }
  }

  lemma ExtendValue(e: Expr, env: Env, sem: Sem)
    ensures Eval(Un(ZeroExtend(64), e), env, sem, 0) == Cut(Eval(e, env, sem, 0), 64)
  {
    hide Pow2;
  }

  lemma GuardedStep(s: Stmt, g: Name, env: Env, mem: Mem, sem: Sem)
    requires s.Assign? && Count(s.rhs) == 0
    ensures
      var t := Guarded(s, ToBit(Whole(g)));
      CountStmt(t) == 0 && Step(t, State(env, mem), sem, 0)
        == State(env[s.dst.name := Cut(if Val(env, Var(g, 64)) != 0 then Eval(s.rhs, env, sem, 0) else Val(env, s.dst), s.dst.bits)], mem)
  {
    CondValue(g, env, sem);
    hide ToBit, Cut, Val;
    ChooseValue(ToBit(Whole(g)), s.rhs, s.dst, env, sem);
    assert Count(Ref(s.dst)) == 0;
    assert Count(Ite(ToBit(Whole(g)), s.rhs, Ref(s.dst))) == 0;
    hide Eval;
  }

  lemma ThreeSteps(p: Stmt, q: Stmt, r: Stmt, st: State, sem: Sem)
    requires CountStmt(p) == 0 && CountStmt(q) == 0
    ensures Exec([p, q] + [r], st, sem, 0) == Step(r, Step(q, Step(p, st, sem, 0), sem, 0), sem, 0)
  {
    hide Step, CountStmt;
    assert [] + [p] == [p] && [p] + [q] == [p, q];
    assert Exec([], st, sem, 0) == st && CountStmts([]) == 0;
    ExecAppend([], p, st, sem, 0);
    ExecAppend([p], q, st, sem, 0);
    ExecAppend([p, q], r, st, sem, 0);
  }

  lemma SeedExec(g: Name, y: Name, v: nat, env: Env, mem: Mem, sem: Sem)
    requires g != y && !g.Temp? && !y.Temp?
    ensures Get(Exec(SeedStatements(g, y, v), State(env, mem), sem, 0).env, y) == Bit(SnapshotNum(g, v, env) == 0)
  {
    hide ToBit, AsBit, Cut, Eval, Exec, Guarded, WholeRef;
    var s, t, u := Assign(CUR, Const(v, 64)), Assign(Var(y, 64), ZERO64), Assign(Var(y, 64), ZERO64);
    var n := SnapshotNum(g, v, env);
    ZeroCount();
    GuardedStep(s, g, env, mem, sem);
    SnapshotStored(g, v, env, sem);
    var e1 := env[CUR.name := n];
    GuardedStep(t, g, e1, mem, sem);
    ThreeSteps(Guarded(s, ToBit(Whole(g))), Guarded(t, ToBit(Whole(g))), u, State(env, mem), sem);
    var e2 := Step(Guarded(t, ToBit(Whole(g))), State(e1, mem), sem, 0).env;
    ZeroFlagValue(e2, sem);
    assert Get(e2, CUR.name) == n;
    SnapshotFits(g, v, env);
  }

  lemma ZeroCount()
    ensures Count(ZERO64) == 0
  {
  }

  lemma SnapshotStored(g: Name, v: nat, env: Env, sem: Sem)
    ensures Cut(if Val(env, Var(g, 64)) != 0 then Eval(Const(v, 64), env, sem, 0) else Val(env, CUR), 64) == SnapshotNum(g, v, env)
  {
    CutTwice(v, 64);
    CutTwice(Get(env, CUR.name), 64);
    hide Pow2, Cut;
  }

  lemma SnapshotFits(g: Name, v: nat, env: Env)
    ensures Cut(SnapshotNum(g, v, env), 64) == SnapshotNum(g, v, env)
  {
    CutTwice(v, 64);
    CutTwice(Get(env, CUR.name), 64);
    hide Pow2, Cut;
  }

  // ---- What the interpreter leaves there ----

  lemma NextRun(a: EsilArch, i: Run, ts: seq<Token>, k: nat, j: Run, j': Run)
    requires k < |ts| && RunTokens(i, ts[..k], a) == Some(j) && RunToken(j, ts[k], a) == Some(j')
    ensures RunTokens(i, ts[..k + 1], a) == Some(j')
  {
    hide RunToken;
    NextToken(a, i, ts, k, j);
  }

  /** Between tokens: the flag context is the seeded one, or not yet there. */
  function Mid(env: Env, mem: Mem, stack: seq<Entry>, v: nat, depth: nat, skip: nat): Run {
    Run(env, mem, stack, Some(Ctx(0, Cut(v, 64), 64)), depth, skip)
  }

  lemma RunSeed(a: EsilArch, z: Name, v: nat, env: Env, mem: Mem)
    ensures RunToken(RunAt(env, mem, [Known(Cut(v, 64), 64, true), Lazy(ZeroRef(z))]), Set(None, true), a) == Some(Mid(env, mem, [], v, 0, 0))
  {
    RefFacts(z);
    hide WholeRef, RegBits, Cut;
    var i := RunAt(env, mem, [Known(Cut(v, 64), 64, true), Lazy(ZeroRef(z))]);
    assert Dropped(i, 2).stack == [];
  }

  lemma RunOpen(a: EsilArch, g: Name, v: nat, env: Env, mem: Mem)
    ensures RunToken(Mid(env, mem, [Lazy(WholeRef(Var(g, 64)))], v, 0, 0), Open, a)
      == Some(if Val(env, Var(g, 64)) != 0 then Mid(env, mem, [], v, 1, 0) else Mid(env, mem, [], v, 0, 1))
  {
    WholeNums(g);
    hide WholeRef, RegBits, Cut, ReadNum;
    var i := Mid(env, mem, [Lazy(WholeRef(Var(g, 64)))], v, 0, 0);
    assert Dropped(i, 1).stack == [];
  }

  lemma RunZero(a: EsilArch, v: nat, env: Env, mem: Mem, depth: nat)
    ensures RunToken(Mid(env, mem, [], v, depth, 0), Flag("z"), a) == Some(Mid(env, mem, [Known(Bit(Cut(v, 64) == 0), 1, false)], v, depth, 0))
  {
    hide Cut;
    assert [] + [Known(Bit(Cut(v, 64) == 0), 1, false)] == [Known(Bit(Cut(v, 64) == 0), 1, false)];
  }

  lemma RunName(a: EsilArch, x: Name, r: RegRef, i: Run)
    requires OperandRef(a, x) == r && i.skip == 0
    ensures RunToken(i, Operand(x), a) == Some(i.(stack := i.stack + [Lazy(r)]))
  {
    hide OperandRef;
  }

  lemma RunPut(a: EsilArch, y: Name, b: nat, v: nat, env: Env, mem: Mem, depth: nat)
    ensures RunToken(Mid(env, mem, [Known(b, 1, false), Lazy(WholeRef(Var(y, 64)))], v, depth, 0), Set(None, false), a)
      == Some(Mid(env[y := b], mem, [], v, depth, 0))
  {
    WholeNums(y);
    hide WholeRef, RegBits, Cut, ReadNum, WriteNum;
    var i := Mid(env, mem, [Known(b, 1, false), Lazy(WholeRef(Var(y, 64)))], v, depth, 0);
    assert Dropped(i, 2).stack == [];
  }

  lemma RunSkipped(a: EsilArch, v: nat, env: Env, mem: Mem, t: Token)
    requires !t.Open? && !t.Close?
    ensures RunToken(Mid(env, mem, [], v, 0, 1), t, a) == Some(Mid(env, mem, [], v, 0, 1))
  {
  }

  lemma RunClose(a: EsilArch, v: nat, env: Env, mem: Mem)
    ensures RunToken(Mid(env, mem, [], v, 1, 0), Close, a) == Some(Mid(env, mem, [], v, 0, 0))
    ensures RunToken(Mid(env, mem, [], v, 0, 1), Close, a) == Some(Mid(env, mem, [], v, 0, 0))
  {
  }

  lemma RunToOpen(a: EsilArch, z: Name, g: Name, y: Name, v: nat, env: Env, mem: Mem)
    requires SeedRegisters(a, z, g, y)
    ensures RunTokens(StartRun(env, mem), SeedStream(z, g, y, v)[..5], a)
      == Some(if Val(env, Var(g, 64)) != 0 then Mid(env, mem, [], v, 1, 0) else Mid(env, mem, [], v, 0, 1))
  {
    var ts, i := SeedStream(z, g, y, v), StartRun(env, mem);
    StreamTokens(z, g, y, v);
    SeedOperands(a, z, g, y);
    RunFirst(a, v, env, mem);
    StartsEmpty(env, mem, ts[..0], a);
    var cv := Cut(v, 64);
    hide *;
    NextRun(a, i, ts, 0, RunAt(env, mem, []), RunAt(env, mem, [Known(cv, 64, true)]));
    RunAtStack(env, mem, [Known(cv, 64, true)], Lazy(ZeroRef(z)));
    RunName(a, z, ZeroRef(z), RunAt(env, mem, [Known(cv, 64, true)]));
    assert [Known(cv, 64, true)] + [Lazy(ZeroRef(z))] == [Known(cv, 64, true), Lazy(ZeroRef(z))];
    NextRun(a, i, ts, 1, RunAt(env, mem, [Known(cv, 64, true)]), RunAt(env, mem, [Known(cv, 64, true), Lazy(ZeroRef(z))]));
    RunSeed(a, z, v, env, mem);
    NextRun(a, i, ts, 2, RunAt(env, mem, [Known(cv, 64, true), Lazy(ZeroRef(z))]), Mid(env, mem, [], v, 0, 0));
    var lazy := Lazy(WholeRef(Var(g, 64)));
    MidStack(env, mem, [], lazy, v, 0);
    RunName(a, g, WholeRef(Var(g, 64)), Mid(env, mem, [], v, 0, 0));
    assert [] + [lazy] == [lazy];
    NextRun(a, i, ts, 3, Mid(env, mem, [], v, 0, 0), Mid(env, mem, [lazy], v, 0, 0));
    RunOpen(a, g, v, env, mem);
    NextRun(a, i, ts, 4, Mid(env, mem, [lazy], v, 0, 0), if Val(env, Var(g, 64)) != 0 then Mid(env, mem, [], v, 1, 0) else Mid(env, mem, [], v, 0, 1));
  }

  lemma RunFirst(a: EsilArch, v: nat, env: Env, mem: Mem)
    requires a.arch.ptr == 64
    ensures RunToken(RunAt(env, mem, []), Literal(v), a) == Some(RunAt(env, mem, [Known(Cut(v, 64), 64, true)]))
  {
    hide Cut;
    assert [] + [Known(Cut(v, 64), 64, true)] == [Known(Cut(v, 64), 64, true)];
  }

  lemma RunAtStack(env: Env, mem: Mem, stack: seq<Entry>, e: Entry)
    ensures RunAt(env, mem, stack).skip == 0 && RunAt(env, mem, stack).(stack := RunAt(env, mem, stack).stack + [e]) == RunAt(env, mem, stack + [e])
  {
  }

  lemma MidStack(env: Env, mem: Mem, stack: seq<Entry>, e: Entry, v: nat, depth: nat)
    ensures Mid(env, mem, stack, v, depth, 0).skip == 0
    ensures Mid(env, mem, stack, v, depth, 0).(stack := Mid(env, mem, stack, v, depth, 0).stack + [e]) == Mid(env, mem, stack + [e], v, depth, 0)
  {
  }

  /** The zero flag read and written to `y`, at token `k`. */
  lemma RunFlagWrite(a: EsilArch, i: Run, ts: seq<Token>, k: nat, y: Name, v: nat, env: Env, mem: Mem, depth: nat)
    requires k + 3 <= |ts| && ts[k] == Flag("z") && ts[k + 1] == Operand(y) && ts[k + 2] == Set(None, false)
    requires OperandRef(a, y) == WholeRef(Var(y, 64)) && RunTokens(i, ts[..k], a) == Some(Mid(env, mem, [], v, depth, 0))
    ensures RunTokens(i, ts[..k + 3], a) == Some(Mid(env[y := Bit(Cut(v, 64) == 0)], mem, [], v, depth, 0))
  {
    hide *;
    var flag, lazy := Known(Bit(Cut(v, 64) == 0), 1, false), Lazy(WholeRef(Var(y, 64)));
    RunZero(a, v, env, mem, depth);
    NextRun(a, i, ts, k, Mid(env, mem, [], v, depth, 0), Mid(env, mem, [flag], v, depth, 0));
    MidStack(env, mem, [flag], lazy, v, depth);
    RunName(a, y, WholeRef(Var(y, 64)), Mid(env, mem, [flag], v, depth, 0));
    assert [flag] + [lazy] == [flag, lazy];
    NextRun(a, i, ts, k + 1, Mid(env, mem, [flag], v, depth, 0), Mid(env, mem, [flag, lazy], v, depth, 0));
    RunPut(a, y, Bit(Cut(v, 64) == 0), v, env, mem, depth);
    NextRun(a, i, ts, k + 2, Mid(env, mem, [flag, lazy], v, depth, 0), Mid(env[y := Bit(Cut(v, 64) == 0)], mem, [], v, depth, 0));
  }

  lemma RunTaken(a: EsilArch, i: Run, ts: seq<Token>, y: Name, v: nat, env: Env, mem: Mem)
    requires |ts| == 12 && ts[5] == Flag("z") && ts[6] == Operand(y) && ts[7] == Set(None, false) && ts[8] == Close
    requires OperandRef(a, y) == WholeRef(Var(y, 64)) && RunTokens(i, ts[..5], a) == Some(Mid(env, mem, [], v, 1, 0))
    ensures RunTokens(i, ts[..9], a) == Some(Mid(env[y := Bit(Cut(v, 64) == 0)], mem, [], v, 0, 0))
  {
    hide *;
    var after := env[y := Bit(Cut(v, 64) == 0)];
    RunFlagWrite(a, i, ts, 5, y, v, env, mem, 1);
    RunClose(a, v, after, mem);
    NextRun(a, i, ts, 8, Mid(after, mem, [], v, 1, 0), Mid(after, mem, [], v, 0, 0));
  }

  lemma RunPassed(a: EsilArch, i: Run, ts: seq<Token>, y: Name, v: nat, env: Env, mem: Mem)
    requires |ts| == 12 && ts[5] == Flag("z") && ts[6] == Operand(y) && ts[7] == Set(None, false) && ts[8] == Close
    requires RunTokens(i, ts[..5], a) == Some(Mid(env, mem, [], v, 0, 1))
    ensures RunTokens(i, ts[..9], a) == Some(Mid(env, mem, [], v, 0, 0))
  {
    hide *;
    var skipping := Mid(env, mem, [], v, 0, 1);
    RunSkipped(a, v, env, mem, ts[5]);
    NextRun(a, i, ts, 5, skipping, skipping);
    RunSkipped(a, v, env, mem, ts[6]);
    NextRun(a, i, ts, 6, skipping, skipping);
    RunSkipped(a, v, env, mem, ts[7]);
    NextRun(a, i, ts, 7, skipping, skipping);
    RunClose(a, v, env, mem);
    NextRun(a, i, ts, 8, skipping, Mid(env, mem, [], v, 0, 0));
  }

  lemma SeedRun(a: EsilArch, z: Name, g: Name, y: Name, v: nat, env: Env, mem: Mem)
    requires SeedRegisters(a, z, g, y)
    ensures var i := RunTokens(StartRun(env, mem), SeedStream(z, g, y, v), a); i.Some? && Get(i.value.env, y) == Bit(Cut(v, 64) == 0)
  {
    hide *;
    var ts, i := SeedStream(z, g, y, v), StartRun(env, mem);
    StreamTokens(z, g, y, v);
    SeedOperands(a, z, g, y);
    RunToOpen(a, z, g, y, v, env, mem);
    var taken := Val(env, Var(g, 64)) != 0;
    if taken { RunTaken(a, i, ts, y, v, env, mem); } else { RunPassed(a, i, ts, y, v, env, mem); }
    var after := if taken then env[y := Bit(Cut(v, 64) == 0)] else env;
    RunFlagWrite(a, i, ts, 9, y, v, after, mem, 0);
    assert ts[..12] == ts;
    MidHolds(after, mem, v, y);
  }

  lemma MidHolds(env: Env, mem: Mem, v: nat, y: Name)
    ensures Get(Mid(env[y := Bit(Cut(v, 64) == 0)], mem, [], v, 0, 0).env, y) == Bit(Cut(v, 64) == 0)
  {
    hide Cut;
  }

  // ---- Where the two part ----

  /** The lift takes the stream; after it the lifted statements and the interpreter agree
      on `y` exactly when the condition held, or the snapshot's temporary happened to be
      zero just as the value written is. */
  lemma ZeroSeedMisread(a: EsilArch, z: Name, g: Name, y: Name, v: nat, env: Env, mem: Mem, sem: Sem)
    requires SeedRegisters(a, z, g, y)
    ensures LiftEsil(SeedStream(z, g, y, v), a).Ok?
    ensures
      var ss, i := LiftEsil(SeedStream(z, g, y, v), a).value, RunTokens(StartRun(env, mem), SeedStream(z, g, y, v), a);
      && i.Some?
      && (Get(Exec(ss, State(env, mem), sem, 0).env, y) == Get(i.value.env, y) <==>
          Val(env, Var(g, 64)) != 0 || (Val(env, CUR) == 0 <==> Cut(v, 64) == 0))
  {
    SeedLift(a, z, g, y, v);
    SeedRun(a, z, g, y, v, env, mem);
    SeedExec(g, y, v, env, mem, sem);
    hide LiftEsil, SeedStream, RunTokens, Exec, SeedStatements, OperandRef, Cut;
  }

  /** From a state of zeros a value of one is reported as zero. */
  lemma ZeroSeedCounterexample(a: EsilArch, z: Name, g: Name, y: Name, mem: Mem, sem: Sem)
    requires SeedRegisters(a, z, g, y)
    ensures
      var lift, i := LiftEsil(SeedStream(z, g, y, 1), a), RunTokens(StartRun(map[], mem), SeedStream(z, g, y, 1), a);
      lift.Ok? && i.Some? && Get(Exec(lift.value, State(map[], mem), sem, 0).env, y) == 1 && Get(i.value.env, y) == 0
  {
    SeedLift(a, z, g, y, 1);
    SeedRun(a, z, g, y, 1, map[], mem);
    SeedExec(g, y, 1, map[], mem, sem);
    SmallWord(0);
    SmallWord(1);
    hide LiftEsil, SeedStream, RunTokens, Exec, SeedStatements, OperandRef, Cut;
  }

  /** The stream is not free of hazards. */
  lemma ZeroSeedIsHazard(a: EsilArch, z: Name, g: Name, y: Name)
    requires EsilTyping.LawfulEsil(a) && SeedRegisters(a, z, g, y)
    ensures !HazardFree(SeedStream(z, g, y, 1), a)
  {
    if HazardFree(SeedStream(z, g, y, 1), a) {
      ZeroSeedCounterexample(a, z, g, y, map[], Sem([], NOTHING, 64));
      hide HazardFree, LiftEsil, RunTokens, Exec, EsilTyping.LawfulEsil;
      var ss := LiftEsil(SeedStream(z, g, y, 1), a).value;
      StartFits(a);
      LiftFollows(SeedStream(z, g, y, 1), a, ss, map[], map[], Sem([], NOTHING, 64));
    }
  }

  const NOTHING := FpModel((_, _, _) => 0, (_, _, _, _) => 0)

  lemma StartFits(a: EsilArch)
    ensures EsilSync.Fits(a, map[])
  {
    hide RegisterRef;
  }
}
