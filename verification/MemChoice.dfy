/** The two directions between free bytes and initial memories: whatever the free
    bytes are, some memory explains every key; and every memory is explained by
    some choice of the free bytes. */
module MemChoice {
  import opened Bits
  import opened Common
  import opened Ir
  import opened MemElim
  import opened MemTrace
  import opened MemRun

  // ---- From free bytes to a memory ----

  lemma FunctionalSnoc(keys: seq<Cell>, env: Env, c: Cell)
    requires Functional(keys, env)
    requires forall d :: d in keys && Val(env, d.addr) == Val(env, c.addr) ==> Val(env, d.byte) == Val(env, c.byte)
    ensures Functional(keys + [c], env)
  {
    hide Val;
  }

  /** A new key at an old key's address gets the old key's byte. */
  lemma MintMatches(e: ElimState, addr: Var, d: Cell, inputs: Env, sem: Sem)
    requires CellsBefore(e.keys, e.counter) && MintedBefore(addr, e.counter) && ByteKeys(e.keys)
    requires Functional(e.keys, Run(e, inputs, sem)) && d in e.keys
    ensures var env' := Run(Mint(e, addr), inputs, sem);
      Val(env', d.addr) == Val(env', addr) ==> Val(env', d.byte) == Val(env', MintedByte(e))
  {
    hide Run, Functional, SameBefore, Lookup, Val, Mint;
    var env, env', n := Run(e, inputs, sem), Run(Mint(e, addr), inputs, sem), e.counter;
    MintValue(e, addr, inputs, sem);
    SameVal(env, env', n, addr);
    SameVal(env, env', n, d.addr);
    SameVal(env, env', n, d.byte);
    if Val(env', d.addr) == Val(env', addr) {
      var base := Val(env, Fresh(e, "b", 8));
      LookupFunctional(e.keys, env, base, d);
      MintedByteValue(env, env', MintedByte(e), Lookup(e.keys, env, Val(env, addr), base), d.byte);
    }
  }

  lemma MintFunctional(e: ElimState, addr: Var, inputs: Env, sem: Sem)
    requires CellsBefore(e.keys, e.counter) && MintedBefore(addr, e.counter) && ByteKeys(e.keys)
    requires Functional(e.keys, Run(e, inputs, sem))
    ensures Functional(Mint(e, addr).keys, Run(Mint(e, addr), inputs, sem))
  {
    var env, env', n := Run(e, inputs, sem), Run(Mint(e, addr), inputs, sem), e.counter;
    hide Run, Functional, SameBefore, Lookup, Val, ByteKeys, CellsBefore;
    MintValue(e, addr, inputs, sem);
    ConsistentSame(e.keys, env, env', n, map[]);
    forall d | d in e.keys
      ensures Val(env', d.addr) == Val(env', addr) ==> Val(env', d.byte) == Val(env', MintedByte(e))
    {
      MintMatches(e, addr, d, inputs, sem);
    }
    FunctionalSnoc(e.keys, env', Cell(addr, MintedByte(e)));
  }

  lemma MintedByteValue(env: Env, env': Env, v: Var, x: nat, from: Var)
    requires v.bits == 8 && env' == env[v.name := Cut(x, 8)]
    ensures x < 256 ==> Val(env', v) == x
    ensures x == Val(env, from) && from.bits == 8 ==> Val(env', v) == x
  {
    assert Pow2(8) == 256;
    hide Pow2;
  }

  /** Every key's byte is one byte wide. */
  predicate ByteKeys(keys: seq<Cell>) {
    forall c :: c in keys ==> c.byte.bits == 8
  }

  ghost predicate GoodKeys(e: ElimState, inputs: Env, sem: Sem) {
    ByteKeys(e.keys) && Functional(e.keys, Run(e, inputs, sem))
  }

  lemma StepGoodKeys(e: ElimState, m: Micro, inputs: Env, sem: Sem)
    requires WellFormed(e) && ValidMicro(e, m) && GoodKeys(e, inputs, sem)
    ensures GoodKeys(Apply(e, m), inputs, sem)
  {
    hide Run, Functional, SameBefore, AllBefore;
    if m.Key? {
      MintFunctional(e, m.addr, inputs, sem);
    } else {
      StepKeeps(e, m, e.counter, inputs, sem);
      ConsistentSame(e.keys, Run(e, inputs, sem), Run(Apply(e, m), inputs, sem), e.counter, map[]);
    }
  }

  lemma {:induction false} RunGoodKeys(e: ElimState, ms: seq<Micro>, inputs: Env, sem: Sem)
    requires WellFormed(e) && ValidAll(e, ms) && GoodKeys(e, inputs, sem)
    ensures GoodKeys(ApplyAll(e, ms), inputs, sem)
    decreases |ms|
  {
    hide WellFormed, GoodKeys, Apply, ValidMicro;
    if ms != [] {
      RunWellFormed(e, ms[..|ms| - 1]);
      RunGoodKeys(e, ms[..|ms| - 1], inputs, sem);
      StepGoodKeys(ApplyAll(e, ms[..|ms| - 1]), ms[|ms| - 1], inputs, sem);
    }
  }

  /** The memory holding each key's byte at its address. */
  function MemoryOf(keys: seq<Cell>, env: Env): Mem {
    if keys == [] then map[]
    else MemoryOf(keys[..|keys| - 1], env)[Val(env, keys[|keys| - 1].addr) := Val(env, keys[|keys| - 1].byte)]
  }

  lemma {:induction false} MemoryOfConsistent(keys: seq<Cell>, env: Env)
    requires ByteKeys(keys) && Functional(keys, env)
    ensures Consistent(keys, env, MemoryOf(keys, env))
    decreases |keys|
  {
    hide Val;
    if keys != [] {
      var p, d := keys[..|keys| - 1], keys[|keys| - 1];
      assert d in keys;
      MemoryOfConsistent(p, env);
      forall c | c in keys ensures Val(env, c.byte) == Byte(MemoryOf(keys, env), Val(env, c.addr)) {
        ByteBound(env, c.byte);
        assert c in p || c == d;
      }
    }
  }

  lemma ByteBound(env: Env, v: Var)
    requires v.bits == 8
    ensures Val(env, v) < 256
  {
    assert Pow2(8) == 256;
    hide Pow2;
  }

  /** Whatever the free bytes hold, some initial memory agrees with every key. */
  lemma SomeMemory(e: ElimState, inputs: Env, sem: Sem)
    requires Reaches(START, e)
    ensures Consistent(e.keys, Run(e, inputs, sem), MemoryOf(e.keys, Run(e, inputs, sem)))
  {
    var ms :| ValidAll(START, ms) && ApplyAll(START, ms) == e;
    hide Run, Reaches, ApplyAll, ValidAll;
    RunGoodKeys(START, ms, inputs, sem);
    MemoryOfConsistent(e.keys, Run(e, inputs, sem));
  }

  // ---- From a memory to free bytes ----

  lemma {:induction false} EvalOther(x: Expr, n: nat, env: Env, y: Name, v: nat, sem: Sem, k: nat)
    requires ReadsBelow(x, n) && y.Minted? && n <= y.serial
    ensures Eval(x, env[y := v], sem, k) == Eval(x, env, sem, k)
    decreases x
  {
    hide UnValue, BinValue, Width;
    match x
    case Ref(_) =>
    case Const(_, _) =>
    case FpConst(_, _, _) =>
    case Unknown(_) =>
    case Un(_, a) => EvalOther(a, n, env, y, v, sem, k);
    case Bin(_, a, b) => EvalOther(a, n, env, y, v, sem, k); EvalOther(b, n, env, y, v, sem, k + Count(a));
    case Ite(c, t, f) =>
      EvalOther(c, n, env, y, v, sem, k);
      EvalOther(t, n, env, y, v, sem, k + Count(c));
      EvalOther(f, n, env, y, v, sem, k + Count(c) + Count(t));
  }

  /** Statements that never mention `y` carry its value along unchanged. */
  lemma {:induction false} ExecOther(ss: seq<Stmt>, n: nat, env: Env, y: Name, v: nat, sem: Sem)
    requires AllBefore(ss, n) && y.Minted? && n <= y.serial
    ensures var s, s' := Exec(ss, State(env, map[]), sem, 0), Exec(ss, State(env[y := v], map[]), sem, 0);
      s' == s.(env := s.env[y := v])
    decreases |ss|
  {
    hide Eval, Cut, ReadsBelow, CountStmt;
    if ss != [] {
      var p, x := ss[..|ss| - 1], ss[|ss| - 1];
      ExecOther(p, n, env, y, v, sem);
      var s := Exec(p, State(env, map[]), sem, 0);
      assert StmtBefore(x, n);
      match x
      case Assign(dst, rhs) =>
        EvalOther(rhs, n, s.env, y, v, sem, CountStmts(p));
        var z := Cut(Eval(rhs, s.env, sem, CountStmts(p)), dst.bits);
        assert s.env[y := v][dst.name := z] == s.env[dst.name := z][y := v];
      case _ =>
    }
  }

  /** `inputs'` differs from `inputs` in minted names at most. */
  ghost predicate SameInputs(inputs: Env, inputs': Env) {
    forall x: Name {:trigger Get(inputs, x)} :: !x.Minted? ==> Get(inputs, x) == Get(inputs', x)
  }

  lemma MintConsistent(e: ElimState, addr: Var, inputs: Env, sem: Sem, m0: Mem)
    requires WellFormed(e) && MintedBefore(addr, e.counter)
    requires Consistent(e.keys, Run(e, inputs, sem), m0)
    ensures
      var a := Val(Run(e, inputs, sem), addr);
      var inputs' := inputs[Fresh(e, "b", 8).name := Byte(m0, a)];
      SameInputs(inputs, inputs') && Consistent(Mint(e, addr).keys, Run(Mint(e, addr), inputs', sem), m0)
  {
    hide Consistent, SameBefore, Lookup, Byte, Val, AllBefore;
    var env, free, n := Run(e, inputs, sem), Fresh(e, "b", 8), e.counter;
    var b := Byte(m0, Val(env, addr));
    var inputs' := inputs[free.name := b];
    ExecOther(e.statements, n, inputs, free.name, b, sem);
    var env1, env2 := Run(e, inputs', sem), Run(Mint(e, addr), inputs', sem);
    assert env1 == env[free.name := b];
    hide Run;
    UpdateKeeps(env, free.name, b, n);
    SameVal(env, env1, n, addr);
    ConsistentSame(e.keys, env, env1, n, m0);
    MintValue(e, addr, inputs', sem);
    SameVal(env1, env2, n, addr);
    ConsistentSame(e.keys, env1, env2, n, m0);
    LookupConsistent(e.keys, env1, Val(env1, addr), m0);
    FreeByteValue(env, free, b, m0, Val(env, addr));
    MintedByteValue(env1, env2, MintedByte(e), b, free);
    ConsistentSnoc(e.keys, env2, m0, Cell(addr, MintedByte(e)));
  }

  lemma FreeByteValue(env: Env, v: Var, b: nat, m0: Mem, a: nat)
    requires v.bits == 8 && b == Byte(m0, a)
    ensures b < 256 && Val(env[v.name := b], v) == b
  {
    assert Pow2(8) == 256;
    hide Pow2;
  }

  lemma ConsistentSnoc(keys: seq<Cell>, env: Env, m0: Mem, c: Cell)
    requires Consistent(keys, env, m0) && Val(env, c.byte) == Byte(m0, Val(env, c.addr))
    ensures Consistent(keys + [c], env, m0)
  {
    hide Val, Byte;
  }

  lemma {:induction false} ChooseFree(e: ElimState, ms: seq<Micro>, inputs: Env, sem: Sem, m0: Mem) returns (inputs': Env)
    requires WellFormed(e) && ValidAll(e, ms) && Consistent(e.keys, Run(e, inputs, sem), m0)
    ensures SameInputs(inputs, inputs')
    ensures Consistent(ApplyAll(e, ms).keys, Run(ApplyAll(e, ms), inputs', sem), m0)
    decreases |ms|
  {
    hide WellFormed, Consistent, ValidMicro, Run, Mint;
    if ms == [] {
      return inputs;
    }
    var p, m := ms[..|ms| - 1], ms[|ms| - 1];
    inputs' := ChooseFree(e, p, inputs, sem, m0);
    RunWellFormed(e, p);
    var q := ApplyAll(e, p);
    if m.Key? {
      inputs' := ChooseKey(q, m.addr, inputs, inputs', sem, m0);
    } else {
      OtherConsistent(q, m, inputs', sem, m0);
    }
  }

  lemma ChooseKey(e: ElimState, addr: Var, inputs: Env, mid: Env, sem: Sem, m0: Mem) returns (inputs': Env)
    requires WellFormed(e) && ValidMicro(e, Key(addr)) && SameInputs(inputs, mid)
    requires Consistent(e.keys, Run(e, mid, sem), m0)
    ensures SameInputs(inputs, inputs') && Consistent(Mint(e, addr).keys, Run(Mint(e, addr), inputs', sem), m0)
  {
    hide Run, Consistent, WellFormed, Mint, Val, Byte;
    MintConsistent(e, addr, mid, sem, m0);
    inputs' := mid[Fresh(e, "b", 8).name := Byte(m0, Val(Run(e, mid, sem), addr))];
    forall x: Name | !x.Minted? ensures Get(inputs, x) == Get(inputs', x) {
      assert Get(mid, x) == Get(inputs', x);
    }
  }

  lemma OtherConsistent(e: ElimState, m: Micro, inputs: Env, sem: Sem, m0: Mem)
    requires WellFormed(e) && ValidMicro(e, m) && !m.Key? && Consistent(e.keys, Run(e, inputs, sem), m0)
    ensures Consistent(Apply(e, m).keys, Run(Apply(e, m), inputs, sem), m0)
  {
    hide Run, Consistent, SameBefore, AllBefore;
    StepKeeps(e, m, e.counter, inputs, sem);
    ConsistentSame(e.keys, Run(e, inputs, sem), Run(Apply(e, m), inputs, sem), e.counter, m0);
  }

  /** Every initial memory is had by some choice of the free bytes alone. */
  lemma EveryMemory(e: ElimState, inputs: Env, sem: Sem, m0: Mem) returns (inputs': Env)
    requires Reaches(START, e)
    ensures SameInputs(inputs, inputs') && Consistent(e.keys, Run(e, inputs', sem), m0)
  {
    var ms :| ValidAll(START, ms) && ApplyAll(START, ms) == e;
    hide Run, Reaches, ApplyAll, ValidAll;
    inputs' := ChooseFree(START, ms, inputs, sem, m0);
  }
}
