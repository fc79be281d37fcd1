/** Why the flag hazard also covers a context seeded just before a block: a write to
    the zero register emits nothing, so the deferred snapshot belongs exactly where
    the block starts and ends up under the block's guard. */
module EsilHazards {
  import opened Bits
  import opened Common
  import opened Ir
  import opened RegView
  import opened Flags
  import opened EsilMachine
  import opened EsilExec
  import opened EsilFresh
  import opened EsilNumbers
  import opened EsilResolved
  import opened EsilTheorem
  import EsilTyping

  /** Seed through the zero register, open a block, read a flag inside, close it. */
  function SeedOpenReadClose(m: Machine, r: RegRef, e: Expr): Result<Machine, EsilError> {
    match OpenBlock(Seed(m, r, e))
    case Err(x) => Err(x)
    case Ok(n) => CloseBlock(MaterialiseCur(n))
  }

  /** What those four steps leave behind. */
  lemma ZeroSeedShape(m: Machine, r: RegRef, e: Expr)
    requires m.stack != [] && m.blocks == []
    ensures SeedOpenReadClose(m, r, e).Ok?
    ensures
      var t, n := TempVar("cur", m, RegBits(r)), SeedOpenReadClose(m, r, e).value;
      && n.ctx == Some(FlagCtx(Ref(TempVar("old", m, RegBits(r))), Ref(t), RegBits(r)))
      && n.statements == m.statements + [Guarded(Assign(t, e), ToBit(Top(m)))]
  {
    var t, k := TempVar("cur", m, RegBits(r)), |m.statements|;
    hide ToBit, ReadExpr, Guarded, RegBits;
    assert m.statements[..k] + [Assign(t, e)] + m.statements[k..] == m.statements + [Assign(t, e)];
    GuardLast(m.statements, Assign(t, e), ToBit(Top(m)));
    var o := OpenBlock(Seed(m, r, e)).value;
    assert o.blocks == [Block(ToBit(Top(m)), k, false)];
    ShiftedAt(o.blocks, k);
  }

  /** The snapshot is guarded: after the block every later flag reads the value written
      exactly when the guard held or the temporary had that value already. */
  lemma ZeroSeedValue(m: Machine, r: RegRef, e: Expr, st: State, sem: Sem)
    requires m.stack != [] && m.blocks == [] && AllQuiet(m.statements) && Count(e) == 0 && Count(ToBit(Top(m))) == 0
    ensures SeedOpenReadClose(m, r, e).Ok?
    ensures
      var t, n := TempVar("cur", m, RegBits(r)), SeedOpenReadClose(m, r, e).value;
      var now, end, wrote := Go(m.statements, st, sem).env, Go(n.statements, st, sem).env, Cut(Eval(e, Go(m.statements, st, sem).env, sem, 0), RegBits(r));
      && n.ctx.Some? && n.ctx.value.cur == Ref(t)
      && (Val(end, t) == wrote <==> Eval(ToBit(Top(m)), now, sem, 0) != 0 || Val(now, t) == wrote)
  {
    hide SeedOpenReadClose, Eval, ToBit, Cut, Go, AllQuiet, RegBits, Count;
    ZeroSeedShape(m, r, e);
    var t, cond, now := TempVar("cur", m, RegBits(r)), ToBit(Top(m)), Go(m.statements, st, sem).env;
    GoSnoc(m.statements, Guarded(Assign(t, e), cond), st, sem);
    AssignStep(t, Ite(cond, e, Ref(t)), Go(m.statements, st, sem), sem);
    ChooseValue(cond, e, t, now, sem);
    CutTwice(Eval(Ite(cond, e, Ref(t)), now, sem, 0), RegBits(r));
    CutTwice(Get(now, t.name), RegBits(r));
  }

  lemma GuardLast(ss: seq<Stmt>, s: Stmt, cond: Expr)
    ensures GuardFrom(ss + [s], |ss|, cond) == ss + [Guarded(s, cond)]
  {
    hide Guarded;
    assert (ss + [s])[..|ss|] == ss;
  }

  lemma ChooseValue(cond: Expr, e: Expr, t: Var, env: Env, sem: Sem)
    requires Count(cond) == 0 && Count(e) == 0
    ensures Eval(Ite(cond, e, Ref(t)), env, sem, 0) == if Eval(cond, env, sem, 0) != 0 then Eval(e, env, sem, 0) else Val(env, t)
  {
    assert Eval(Ref(t), env, sem, 0) == Val(env, t);
  }

  lemma CutTwice(x: nat, bits: nat)
    ensures Cut(Cut(x, bits), bits) == Cut(x, bits)
  {
    WrapBound(x, bits);
    hide Pow2;
    SmallMod(Cut(x, bits), Pow2(bits));
  }

  // ---- A computed entry that outlives the register it reads ----

  /** `x + c` is left on the stack, `x` is set to `v`, and what is left goes to `y`. */
  function StaleStream(x: Name, y: Name, c: nat, v: nat): seq<Token> {
    [Literal(c), Operand(x), Arith(Plus), Literal(v), Operand(x), Set(None, false), Operand(y), Set(None, false)]
  }

  /** Both names are whole 64-bit registers of their own. */
  predicate WholeRegisters(a: EsilArch, x: Name, y: Name) {
    a.arch.ptr == 64 && x != y && OperandRef(a, x) == WholeRef(Var(x, 64)) && OperandRef(a, y) == WholeRef(Var(y, 64))
  }

  function SumExpr(x: Name, c: nat): Expr {
    Bin(Add, Ref(Var(x, 64)), Const(c, 64))
  }

  function StaleStatements(x: Name, y: Name, c: nat, v: nat): seq<Stmt> {
    [] + [Assign(Var(x, 64), Const(v, 64))] + [Assign(Var(y, 64), SumExpr(x, c))]
  }

  lemma WholeReads(x: Name)
    ensures var r := WholeRef(Var(x, 64));
            RegBits(r) == 64 && ReadExpr(r) == Ref(Var(x, 64)) && !r.zero && r.variable == Var(x, 64) && forall e :: WriteExpr(r, e) == e
  {
  }

  lemma FirstStep(a: EsilArch, ts: seq<Token>, k: nat, m: Machine)
    requires k < |ts| && Steps(ts[..k], a) == Ok(m)
    ensures Steps(ts[..k + 1], a) == StepToken(m, ts[k], a)
  {
    hide StepToken;
    assert ts[..k + 1][..k] == ts[..k];
  }

  lemma StreamIs(x: Name, y: Name, c: nat, v: nat)
    ensures var ts := StaleStream(x, y, c, v);
            && |ts| == 8 && ts[0] == Literal(c) && ts[1] == Operand(x) && ts[2] == Arith(Plus) && ts[3] == Literal(v) && ts[4] == Operand(x)
            && ts[5] == Set(None, false) && ts[6] == Operand(y) && ts[7] == Set(None, false)
  {
  }

  lemma LiteralAt(a: EsilArch, ts: seq<Token>, k: nat, v: nat, stack: seq<StackValue>, ss: seq<Stmt>)
    requires k < |ts| && ts[k] == Literal(v) && a.arch.ptr == 64 && Steps(ts[..k], a) == Ok(At(stack, ss))
    ensures Steps(ts[..k + 1], a) == Ok(At(stack + [Computed(Const(v, 64), 64)], ss))
  {
    hide Steps;
    FirstStep(a, ts, k, At(stack, ss));
  }

  lemma OperandAt(a: EsilArch, ts: seq<Token>, k: nat, x: Name, stack: seq<StackValue>, ss: seq<Stmt>)
    requires k < |ts| && ts[k] == Operand(x) && OperandRef(a, x) == WholeRef(Var(x, 64)) && Steps(ts[..k], a) == Ok(At(stack, ss))
    ensures Steps(ts[..k + 1], a) == Ok(At(stack + [InRegister(WholeRef(Var(x, 64)))], ss))
  {
    hide Steps, OperandRef, WholeRef;
    FirstStep(a, ts, k, At(stack, ss));
  }

  lemma SetAt(a: EsilArch, ts: seq<Token>, k: nat, x: Name, e: Expr, stack: seq<StackValue>, ss: seq<Stmt>)
    requires k < |ts| && ts[k] == Set(None, false) && Steps(ts[..k], a) == Ok(At(stack + [Computed(e, 64)] + [InRegister(WholeRef(Var(x, 64)))], ss))
    ensures Steps(ts[..k + 1], a) == Ok(At(stack, ss + [Assign(Var(x, 64), e)]))
  {
    var top := [Computed(e, 64), InRegister(WholeRef(Var(x, 64)))];
    assert stack + [Computed(e, 64)] + [InRegister(WholeRef(Var(x, 64)))] == stack + top;
    hide Steps, WholeRef, StepToken;
    StaleSet(a, x, e, stack, ss);
    FirstStep(a, ts, k, At(stack + top, ss));
  }

  lemma SumAt(a: EsilArch, ts: seq<Token>, k: nat, x: Name, c: nat)
    requires k < |ts| && ts[k] == Arith(Plus) && Steps(ts[..k], a) == Ok(At([] + [Computed(Const(c, 64), 64)] + [InRegister(WholeRef(Var(x, 64)))], []))
    ensures Steps(ts[..k + 1], a) == Ok(At([] + [Computed(SumExpr(x, c), 64)], []))
  {
    var one, rx := Computed(Const(c, 64), 64), InRegister(WholeRef(Var(x, 64)));
    assert [] + [one] + [rx] == [one, rx] && [] + [Computed(SumExpr(x, c), 64)] == [Computed(SumExpr(x, c), 64)];
    hide Steps, WholeRef, StepToken;
    StaleSum(a, x, c, one, rx);
    FirstStep(a, ts, k, At([one, rx], []));
  }

  lemma RegistersApart(a: EsilArch, x: Name, y: Name)
    requires WholeRegisters(a, x, y)
    ensures a.arch.ptr == 64 && OperandRef(a, x) == WholeRef(Var(x, 64)) && OperandRef(a, y) == WholeRef(Var(y, 64))
  {
    hide OperandRef, WholeRef;
  }

  lemma StaleAtFive(a: EsilArch, x: Name, y: Name, c: nat, v: nat)
    requires WholeRegisters(a, x, y)
    ensures Steps(StaleStream(x, y, c, v)[..5], a) ==
            Ok(At([] + [Computed(SumExpr(x, c), 64)] + [Computed(Const(v, 64), 64)] + [InRegister(WholeRef(Var(x, 64)))], []))
  {
    hide *;
    var ts := StaleStream(x, y, c, v);
    StreamIs(x, y, c, v);
    RegistersApart(a, x, y);
    NoSteps(ts[..0], a);
    LiteralAt(a, ts, 0, c, [], []);
    OperandAt(a, ts, 1, x, [] + [Computed(Const(c, 64), 64)], []);
    SumAt(a, ts, 2, x, c);
    LiteralAt(a, ts, 3, v, [] + [Computed(SumExpr(x, c), 64)], []);
    OperandAt(a, ts, 4, x, [] + [Computed(SumExpr(x, c), 64)] + [Computed(Const(v, 64), 64)], []);
  }

  lemma NoSteps(ts: seq<Token>, a: EsilArch)
    requires ts == []
    ensures Steps(ts, a) == Ok(At([], []))
  {
  }

  lemma StaleLift(a: EsilArch, x: Name, y: Name, c: nat, v: nat)
    requires WholeRegisters(a, x, y)
    ensures LiftEsil(StaleStream(x, y, c, v), a) == Ok([] + [Assign(Var(x, 64), Const(v, 64))] + [Assign(Var(y, 64), SumExpr(x, c))])
  {
    hide *;
    var ts := StaleStream(x, y, c, v);
    StreamIs(x, y, c, v);
    RegistersApart(a, x, y);
    StaleAtFive(a, x, y, c, v);
    var ss := [] + [Assign(Var(x, 64), Const(v, 64))];
    SetAt(a, ts, 5, x, Const(v, 64), [] + [Computed(SumExpr(x, c), 64)], []);
    OperandAt(a, ts, 6, y, [] + [Computed(SumExpr(x, c), 64)], ss);
    SetAt(a, ts, 7, y, SumExpr(x, c), [], ss);
    assert ts[..8] == ts;
    NothingOpen(ts, a, ss + [Assign(Var(y, 64), SumExpr(x, c))]);
  }

  lemma NothingOpen(ts: seq<Token>, a: EsilArch, ss: seq<Stmt>)
    requires Steps(ts, a) == Ok(At([], ss))
    ensures LiftEsil(ts, a) == Ok(ss)
  {
    hide Steps;
  }

  function At(stack: seq<StackValue>, ss: seq<Stmt>): Machine {
    Machine(stack, ss, None, [], None)
  }

  lemma StaleSum(a: EsilArch, x: Name, c: nat, one: StackValue, rx: StackValue)
    requires one == Computed(Const(c, 64), 64) && rx == InRegister(WholeRef(Var(x, 64)))
    ensures StepToken(At([one, rx], []), Arith(Plus), a) == Ok(At([Computed(SumExpr(x, c), 64)], []))
  {
    WholeReads(x);
    hide WholeRef, RegBits, ReadExpr;
    var m := At([one, rx], []);
    assert Widen(Top(m), 64) == Ref(Var(x, 64)) && Widen(Second(m), 64) == Const(c, 64);
    assert Drop(m, 2) == At([], []) && ValueBits(Top(m)) == ValueBits(Second(m)) == 64;
    assert [] + [Computed(SumExpr(x, c), 64)] == [Computed(SumExpr(x, c), 64)];
  }

  lemma StaleSet(a: EsilArch, x: Name, e: Expr, below: seq<StackValue>, ss: seq<Stmt>)
    ensures StepToken(At(below + [Computed(e, 64), InRegister(WholeRef(Var(x, 64)))], ss), Set(None, false), a) == Ok(At(below, ss + [Assign(Var(x, 64), e)]))
  {
    WholeReads(x);
    hide WholeRef, RegBits, ReadExpr, WriteExpr;
    var m := At(below + [Computed(e, 64), InRegister(WholeRef(Var(x, 64)))], ss);
    assert Widen(Second(m), 64) == e;
    assert Drop(m, 2) == At(below, ss);
  }

  /** The machine's sum of what `x` holds and the literal. */
  function StaleSumOf(x: nat, c: nat): nat {
    Wrap(x + Cut(c, 64), 64)
  }

  lemma StaleExec(x: Name, y: Name, c: nat, v: nat, env: Env, mem: Mem, sem: Sem)
    requires x != y
    ensures Get(Exec(StaleStatements(x, y, c, v), State(env, mem), sem, 0).env, y) == StaleSumOf(Cut(v, 64), c)
  {
    hide Step, CountStmt, SumExpr, StaleSumOf, Cut;
    var s0, s1, st := Assign(Var(x, 64), Const(v, 64)), Assign(Var(y, 64), SumExpr(x, c)), State(env, mem);
    assert Exec([], st, sem, 0) == st && CountStmts([]) == 0;
    ExecAppend([], s0, st, sem, 0);
    ExecAppend([] + [s0], s1, st, sem, 0);
    hide Exec, CountStmts;
    FirstAssign(x, v, env, mem, sem);
    SecondAssign(x, y, c, v, env[x := Cut(v, 64)], mem, sem);
  }

  lemma FirstAssign(x: Name, v: nat, env: Env, mem: Mem, sem: Sem)
    ensures Step(Assign(Var(x, 64), Const(v, 64)), State(env, mem), sem, 0) == State(env[x := Cut(v, 64)], mem)
    ensures CountStmt(Assign(Var(x, 64), Const(v, 64))) == 0
  {
    CutTwice(v, 64);
    hide Cut;
    assert Eval(Const(v, 64), env, sem, 0) == Cut(v, 64);
  }

  lemma SecondAssign(x: Name, y: Name, c: nat, v: nat, env: Env, mem: Mem, sem: Sem)
    requires Get(env, x) == Cut(v, 64)
    ensures Step(Assign(Var(y, 64), SumExpr(x, c)), State(env, mem), sem, 0) == State(env[y := StaleSumOf(Cut(v, 64), c)], mem)
  {
    CutTwice(v, 64);
    SumFits(Cut(v, 64), c);
    hide Cut, Wrap;
    assert Eval(Const(c, 64), env, sem, 0) == Cut(c, 64) && Eval(Ref(Var(x, 64)), env, sem, 0) == Cut(v, 64);
    assert Eval(SumExpr(x, c), env, sem, 0) == StaleSumOf(Cut(v, 64), c);
  }

  lemma SumFits(x: nat, c: nat)
    ensures Cut(StaleSumOf(x, c), 64) == StaleSumOf(x, c)
  {
    hide Pow2;
    SmallMod(StaleSumOf(x, c), Pow2(64));
  }

  lemma SmallWord(n: nat)
    requires n < 256
    ensures Cut(n, 64) == n
  {
    assert Pow2(8) == 256;
    Pow2Mono(8, 64);
    hide Pow2;
    SmallMod(n, Pow2(64));
  }

  function RunAt(env: Env, mem: Mem, stack: seq<Entry>): Run {
    Run(env, mem, stack, None, 0, 0)
  }

  lemma NextToken(a: EsilArch, i: Run, ts: seq<Token>, k: nat, j: Run)
    requires k < |ts| && RunTokens(i, ts[..k], a) == Some(j)
    ensures RunTokens(i, ts[..k + 1], a) == RunToken(j, ts[k], a)
  {
    hide RunToken;
    assert ts[..k + 1][..k] == ts[..k];
  }

  lemma WholeNums(x: Name)
    ensures var r := WholeRef(Var(x, 64));
            RegBits(r) == 64 && !r.zero && r.variable == Var(x, 64)
    ensures forall p: nat :: ReadNum(WholeRef(Var(x, 64)), Cut(p, 64)) == Cut(p, 64)
    ensures forall p: nat, v: nat :: WriteNum(WholeRef(Var(x, 64)), p, v) == v
  {
    assert Pow2(0) == 1;
    hide Pow2;
    forall p: nat
      ensures ReadNum(WholeRef(Var(x, 64)), Cut(p, 64)) == Cut(p, 64)
    {
      CutTwice(p, 64);
    }
  }

  lemma RunLiteralAt(a: EsilArch, i: Run, ts: seq<Token>, k: nat, v: nat, stack: seq<Entry>, env: Env, mem: Mem)
    requires k < |ts| && ts[k] == Literal(v) && a.arch.ptr == 64 && RunTokens(i, ts[..k], a) == Some(RunAt(env, mem, stack))
    ensures RunTokens(i, ts[..k + 1], a) == Some(RunAt(env, mem, stack + [Known(Cut(v, 64), 64, true)]))
  {
    hide RunTokens, Cut;
    NextToken(a, i, ts, k, RunAt(env, mem, stack));
  }

  lemma RunOperandAt(a: EsilArch, i: Run, ts: seq<Token>, k: nat, x: Name, stack: seq<Entry>, env: Env, mem: Mem)
    requires k < |ts| && ts[k] == Operand(x) && OperandRef(a, x) == WholeRef(Var(x, 64)) && RunTokens(i, ts[..k], a) == Some(RunAt(env, mem, stack))
    ensures RunTokens(i, ts[..k + 1], a) == Some(RunAt(env, mem, stack + [Lazy(WholeRef(Var(x, 64)))]))
  {
    hide RunTokens, OperandRef, WholeRef;
    NextToken(a, i, ts, k, RunAt(env, mem, stack));
  }

  lemma RunSetAt(a: EsilArch, i: Run, ts: seq<Token>, k: nat, x: Name, v: nat, literal: bool, stack: seq<Entry>, env: Env, mem: Mem)
    requires k < |ts| && ts[k] == Set(None, false)
    requires RunTokens(i, ts[..k], a) == Some(RunAt(env, mem, stack + [Known(v, 64, literal)] + [Lazy(WholeRef(Var(x, 64)))]))
    ensures RunTokens(i, ts[..k + 1], a) == Some(RunAt(env[x := v], mem, stack))
  {
    var top := [Known(v, 64, literal), Lazy(WholeRef(Var(x, 64)))];
    assert stack + [Known(v, 64, literal)] + [Lazy(WholeRef(Var(x, 64)))] == stack + top;
    hide RunTokens, WholeRef, RunToken;
    RunStaleSet(a, x, v, literal, stack, env, mem);
    NextToken(a, i, ts, k, RunAt(env, mem, stack + top));
  }

  lemma RunSumAt(a: EsilArch, i: Run, ts: seq<Token>, k: nat, x: Name, c: nat, env: Env, mem: Mem)
    requires k < |ts| && ts[k] == Arith(Plus)
    requires RunTokens(i, ts[..k], a) == Some(RunAt(env, mem, [] + [Known(Cut(c, 64), 64, true)] + [Lazy(WholeRef(Var(x, 64)))]))
    ensures RunTokens(i, ts[..k + 1], a) == Some(RunAt(env, mem, [] + [Known(StaleSumOf(Val(env, Var(x, 64)), c), 64, false)]))
  {
    var one, rx := Known(Cut(c, 64), 64, true), Lazy(WholeRef(Var(x, 64)));
    assert [] + [one] + [rx] == [one, rx];
    hide RunTokens, WholeRef, RunToken, StaleSumOf, Cut, Val;
    RunSum(a, x, c, env, mem);
    NextToken(a, i, ts, k, RunAt(env, mem, [one, rx]));
  }

  lemma StaleRun(a: EsilArch, x: Name, y: Name, c: nat, v: nat, env: Env, mem: Mem)
    requires WholeRegisters(a, x, y)
    ensures RunTokens(StartRun(env, mem), StaleStream(x, y, c, v), a) ==
      Some(RunAt(env[x := Cut(v, 64)][y := StaleSumOf(Val(env, Var(x, 64)), c)], mem, []))
  {
    hide *;
    var ts, i, sum := StaleStream(x, y, c, v), StartRun(env, mem), Known(StaleSumOf(Val(env, Var(x, 64)), c), 64, false);
    StreamIs(x, y, c, v);
    RegistersApart(a, x, y);
    StartsEmpty(env, mem, ts[..0], a);
    RunLiteralAt(a, i, ts, 0, c, [], env, mem);
    RunOperandAt(a, i, ts, 1, x, [] + [Known(Cut(c, 64), 64, true)], env, mem);
    RunSumAt(a, i, ts, 2, x, c, env, mem);
    RunLiteralAt(a, i, ts, 3, v, [] + [sum], env, mem);
    RunOperandAt(a, i, ts, 4, x, [] + [sum] + [Known(Cut(v, 64), 64, true)], env, mem);
    RunSetAt(a, i, ts, 5, x, Cut(v, 64), true, [] + [sum], env, mem);
    RunOperandAt(a, i, ts, 6, y, [] + [sum], env[x := Cut(v, 64)], mem);
    RunSetAt(a, i, ts, 7, y, StaleSumOf(Val(env, Var(x, 64)), c), false, [], env[x := Cut(v, 64)], mem);
    assert ts[..8] == ts;
  }

  lemma StartsEmpty(env: Env, mem: Mem, ts: seq<Token>, a: EsilArch)
    requires ts == []
    ensures RunTokens(StartRun(env, mem), ts, a) == Some(RunAt(env, mem, []))
  {
  }

  lemma RunSum(a: EsilArch, x: Name, c: nat, env: Env, mem: Mem)
    ensures RunToken(RunAt(env, mem, [Known(Cut(c, 64), 64, true), Lazy(WholeRef(Var(x, 64)))]), Arith(Plus), a)
         == Some(RunAt(env, mem, [] + [Known(StaleSumOf(Val(env, Var(x, 64)), c), 64, false)]))
  {
    WholeNums(x);
    hide Pow2, WholeRef, RegBits, ReadNum, Cut, Wrap;
    var i := RunAt(env, mem, [Known(Cut(c, 64), 64, true), Lazy(WholeRef(Var(x, 64)))]);
    assert Val(env, Var(x, 64)) == Cut(Get(env, x), 64);
    assert EntryValue(i.stack[1], env) == Val(env, Var(x, 64));
    assert Dropped(i, 2) == RunAt(env, mem, []);
  }

  lemma RunStaleSet(a: EsilArch, x: Name, v: nat, literal: bool, below: seq<Entry>, env: Env, mem: Mem)
    ensures RunToken(RunAt(env, mem, below + [Known(v, 64, literal), Lazy(WholeRef(Var(x, 64)))]), Set(None, false), a) == Some(RunAt(env[x := v], mem, below))
  {
    WholeNums(x);
    hide Pow2, WholeRef, RegBits, ReadNum, WriteNum;
    var i := RunAt(env, mem, below + [Known(v, 64, literal), Lazy(WholeRef(Var(x, 64)))]);
    assert Dropped(i, 2) == RunAt(env, mem, below);
  }

  /** The lift keeps the sum as an expression and so reads `x` after it was overwritten. On this stream,
      which it accepts and which is not free of hazards, lift and machine agree on `y` exactly when the
      literal is what `x` held already. */
  lemma StaleEntryMisread(a: EsilArch, x: Name, y: Name, c: nat, v: nat, env: Env, mem: Mem, sem: Sem)
    requires WholeRegisters(a, x, y)
    ensures LiftEsil(StaleStream(x, y, c, v), a).Ok? && !HazardFree(StaleStream(x, y, c, v), a)
    ensures
      var i := RunTokens(StartRun(env, mem), StaleStream(x, y, c, v), a);
      i.Some? && (Get(Exec(LiftEsil(StaleStream(x, y, c, v), a).value, State(env, mem), sem, 0).env, y) == Get(i.value.env, y)
        <==> Cut(v, 64) == Val(env, Var(x, 64)))
  {
    StaleEnds(a, x, y, c, v, env, mem, sem);
    StaleIsHazard(a, x, y, c, v);
    OneSum(Cut(v, 64), Val(env, Var(x, 64)), c);
    hide *;
    OneWord(v, env, x);
  }

  /** What `y` holds after either. */
  lemma StaleEnds(a: EsilArch, x: Name, y: Name, c: nat, v: nat, env: Env, mem: Mem, sem: Sem)
    requires WholeRegisters(a, x, y)
    ensures LiftEsil(StaleStream(x, y, c, v), a).Ok?
    ensures Get(Exec(LiftEsil(StaleStream(x, y, c, v), a).value, State(env, mem), sem, 0).env, y) == StaleSumOf(Cut(v, 64), c)
    ensures
      var i := RunTokens(StartRun(env, mem), StaleStream(x, y, c, v), a);
      i.Some? && Get(i.value.env, y) == StaleSumOf(Val(env, Var(x, 64)), c)
  {
    StaleLift(a, x, y, c, v);
    StaleExec(x, y, c, v, env, mem, sem);
    StaleRun(a, x, y, c, v, env, mem);
    hide LiftEsil, StaleStream, Exec, RunTokens, StartRun, StaleSumOf, Val, Cut;
  }

  lemma OneWord(v: nat, env: Env, x: Name)
    ensures Cut(v, 64) < Pow2(64) && Val(env, Var(x, 64)) < Pow2(64)
  {
    hide Pow2;
  }

  /** Different words give different sums. */
  lemma OneSum(p: nat, q: nat, c: nat)
    ensures p < Pow2(64) && q < Pow2(64) && StaleSumOf(p, c) == StaleSumOf(q, c) ==> p == q
  {
    hide Pow2;
    var m, k := Pow2(64), Cut(c, 64);
    WrapBound(c, 64);
    if p < m && q < m {
      AtMostOnce(p + k, m);
      AtMostOnce(q + k, m);
    }
  }

  lemma AtMostOnce(z: nat, m: nat)
    requires z < 2 * m
    ensures z % m == if z < m then z else z - m
  {
    if z < m { DivModUnique(z, m, 0, z); } else { DivModUnique(z, m, 1, z - m); }
  }

  /** From zero, with one to add and five to write, `y` ends as six where the machine leaves one. */
  lemma StaleEntryCounterexample(a: EsilArch, x: Name, y: Name, env: Env, mem: Mem, sem: Sem)
    requires WholeRegisters(a, x, y) && Get(env, x) == 0
    ensures LiftEsil(StaleStream(x, y, 1, 5), a).Ok?
    ensures Get(Exec(LiftEsil(StaleStream(x, y, 1, 5), a).value, State(env, mem), sem, 0).env, y) == 6
    ensures var i := RunTokens(StartRun(env, mem), StaleStream(x, y, 1, 5), a); i.Some? && Get(i.value.env, y) == 1
  {
    StaleEnds(a, x, y, 1, 5, env, mem, sem);
    hide LiftEsil, StaleStream, Exec, RunTokens, StartRun;
    SmallWord(0);
    SmallWord(1);
    SmallWord(5);
    SmallWord(6);
    hide Pow2;
  }

  lemma StaleIsHazard(a: EsilArch, x: Name, y: Name, c: nat, v: nat)
    requires WholeRegisters(a, x, y)
    ensures !HazardFree(StaleStream(x, y, c, v), a)
  {
    var ts := StaleStream(x, y, c, v);
    assert |ts| == 8 && ts[5] == Set(None, false);
    hide HazardFree, Watched, StaleStream, Steps;
    WatchedTo(ts, 6, a);
    WatchedTo(ts[..6], 5, a);
    assert ts[..6][..5] == ts[..5];
    StaleAtFive(a, x, y, c, v);
    UnsafeStops(ts, x, c, v, a);
  }

  /** The sixth token writes `x` while an entry still reads it. */
  lemma UnsafeStops(ts: seq<Token>, x: Name, c: nat, v: nat, a: EsilArch)
    requires |ts| > 5 && ts[5] == Set(None, false)
    requires Steps(ts[..5], a) == Ok(At([] + [Computed(SumExpr(x, c), 64)] + [Computed(Const(v, 64), 64)] + [InRegister(WholeRef(Var(x, 64)))], []))
    ensures HazardFree(ts[..5], a) ==> !HazardFree(ts[..6], a)
  {
    hide StepToken, NextWatch, Steps;
    assert ts[..6][..5] == ts[..5] && ts[..6][5] == ts[5];
    if HazardFree(ts[..5], a) {
      WatchedSteps(ts[..5], a);
      StaleUnsafe(x, c, v, Watched(ts[..5], a).value.1);
    }
  }

  lemma StaleUnsafe(x: Name, c: nat, v: nat, w: Watch)
    ensures !Safe(At([] + [Computed(SumExpr(x, c), 64)] + [Computed(Const(v, 64), 64)] + [InRegister(WholeRef(Var(x, 64)))], []), w, Set(None, false))
  {
    WholeReads(x);
    hide WholeRef;
    var m := At([] + [Computed(SumExpr(x, c), 64)] + [Computed(Const(v, 64), 64)] + [InRegister(WholeRef(Var(x, 64)))], []);
    assert x in Reads(SumExpr(x, c));
    assert m.stack[..1][0] == Computed(SumExpr(x, c), 64);
  }

  lemma {:induction false} WatchedTo(ts: seq<Token>, k: nat, a: EsilArch)
    requires k <= |ts|
    ensures HazardFree(ts, a) ==> HazardFree(ts[..k], a)
    decreases |ts|
  {
    hide Safe, EsilTyping.TokenFits, StepToken, NextWatch;
    if k < |ts| {
      WatchedTo(ts[..|ts| - 1], k, a);
      assert ts[..|ts| - 1][..k] == ts[..k];
    } else {
      assert ts[..k] == ts;
    }
  }
}
