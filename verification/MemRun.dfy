/** Running what the memory pass emits: minted names keep their values, equal
    addresses get equal initial bytes, and every initial memory can be had. */
module MemRun {
  import opened Bits
  import opened Common
  import opened Ir
  import opened MemElim
  import opened MemTrace

  /** The values after the statements emitted so far. */
  function Run(e: ElimState, inputs: Env, sem: Sem): Env {
    Exec(e.statements, State(inputs, map[]), sem, 0).env
  }

  /** A statement with no memory effect and no minted name past `n`. */
  predicate StmtBefore(s: Stmt, n: nat) {
    match s
    case Assign(dst, rhs) => NameBefore(dst.name, n) && ReadsBelow(rhs, n)
    case LoadMem(_, _, _) => false
    case StoreMem(_, _, _) => false
    case Unsupported => true
    case Nop => true
  }

  predicate AllBefore(ss: seq<Stmt>, n: nat) {
    forall i :: 0 <= i < |ss| ==> StmtBefore(ss[i], n)
  }

  predicate WellFormed(e: ElimState) {
    CellsBefore(e.keys, e.counter) && AllBefore(e.statements, e.counter)
  }

  lemma StmtBeforeMono(s: Stmt, m: nat, n: nat)
    requires StmtBefore(s, m) && m <= n
    ensures StmtBefore(s, n)
  {
    if s.Assign? { ReadsBelowMono(s.rhs, m, n); }
  }

  lemma AllBeforeAppend(ss: seq<Stmt>, m: nat, s: Stmt, n: nat)
    requires AllBefore(ss, m) && m <= n && StmtBefore(s, n)
    ensures AllBefore(ss + [s], n)
  {
    hide StmtBefore;
    forall i | 0 <= i < |ss + [s]| ensures StmtBefore((ss + [s])[i], n) {
      if i < |ss| { StmtBeforeMono(ss[i], m, n); }
    }
  }

  lemma StepWellFormed(e: ElimState, m: Micro)
    requires WellFormed(e) && ValidMicro(e, m)
    ensures WellFormed(Apply(e, m))
  {
    hide AllBefore, ReadsBelow, Chain;
    match m
    case Pass(s) =>
      if Foreign(s) && s.Assign? { ReadsBelowMono(s.rhs, 0, e.counter); }
      AllBeforeAppend(e.statements, e.counter, s, e.counter);
    case Def(tag, bits, src) =>
      ReadsBelowMono(src, e.counter, e.counter + 1);
      AllBeforeAppend(e.statements, e.counter, Assign(Fresh(e, tag, bits), src), e.counter + 1);
    case Key(addr) =>
      MintStmtBefore(e, addr);
      AllBeforeAppend(e.statements, e.counter, MintStmt(e, addr), e.counter + 2);
  }

  /** The definition a new key adds. */
  function MintStmt(e: ElimState, addr: Var): Stmt {
    Assign(MintedByte(e), Chain(addr, e.keys, Ref(Fresh(e, "b", 8))))
  }

  lemma MintStmtBefore(e: ElimState, addr: Var)
    requires CellsBefore(e.keys, e.counter) && MintedBefore(addr, e.counter)
    ensures StmtBefore(MintStmt(e, addr), e.counter + 2)
    ensures Mint(e, addr).statements == e.statements + [MintStmt(e, addr)]
  {
    hide Chain;
    assert ReadsBelow(Ref(Fresh(e, "b", 8)), e.counter + 2);
    ChainReads(addr, e.keys, Ref(Fresh(e, "b", 8)), e.counter + 2);
  }

  lemma {:induction false} RunWellFormed(e: ElimState, ms: seq<Micro>)
    requires WellFormed(e) && ValidAll(e, ms)
    ensures WellFormed(ApplyAll(e, ms))
    decreases |ms|
  {
    hide WellFormed, Apply, ValidMicro;
    if ms != [] {
      RunWellFormed(e, ms[..|ms| - 1]);
      StepWellFormed(ApplyAll(e, ms[..|ms| - 1]), ms[|ms| - 1]);
    }
  }

  lemma ReachesWellFormed(e: ElimState, e': ElimState)
    requires WellFormed(e) && Reaches(e, e')
    ensures WellFormed(e')
  {
    hide WellFormed, ApplyAll, ValidAll;
    var ms :| ValidAll(e, ms) && ApplyAll(e, ms) == e';
    RunWellFormed(e, ms);
  }

  // ---- Values already defined do not change ----

  /** The two environments agree on names minted before `n`. */
  ghost predicate SameBefore(env: Env, env': Env, n: nat) {
    forall x: Name {:trigger Get(env, x)} :: x.Minted? && x.serial < n ==> Get(env, x) == Get(env', x)
  }

  lemma RunAppend(e: ElimState, s: Stmt, e': ElimState, inputs: Env, sem: Sem)
    requires e'.statements == e.statements + [s]
    ensures Run(e', inputs, sem) ==
      Step(s, Exec(e.statements, State(inputs, map[]), sem, 0), sem, CountStmts(e.statements)).env
  {
    hide Step;
    ExecAppend(e.statements, s, State(inputs, map[]), sem, 0);
  }

  /** Appending an assignment updates one name and nothing else. */
  lemma RunAssign(e: ElimState, dst: Var, rhs: Expr, e': ElimState, inputs: Env, sem: Sem)
    requires e'.statements == e.statements + [Assign(dst, rhs)]
    ensures var env := Run(e, inputs, sem);
      Run(e', inputs, sem) == env[dst.name := Cut(Eval(rhs, env, sem, CountStmts(e.statements)), dst.bits)]
    ensures CountStmts(e'.statements) == CountStmts(e.statements) + Count(rhs)
  {
    hide Eval, Cut;
    RunAppend(e, Assign(dst, rhs), e', inputs, sem);
    ExecAppend(e.statements, Assign(dst, rhs), State(inputs, map[]), sem, 0);
  }

  lemma StepKeeps(e: ElimState, m: Micro, n: nat, inputs: Env, sem: Sem)
    requires ValidMicro(e, m) && n <= e.counter
    ensures SameBefore(Run(e, inputs, sem), Run(Apply(e, m), inputs, sem), n)
  {
    hide Run, Eval, Cut, Chain, ReadsBelow;
    match m
    case Pass(s) =>
      if s.Assign? { RunAssign(e, s.dst, s.rhs, Apply(e, m), inputs, sem); }
      else { PassKeeps(e, s, inputs, sem); }
    case Def(tag, bits, src) => RunAssign(e, Fresh(e, tag, bits), src, Apply(e, m), inputs, sem);
    case Key(addr) =>
      RunAssign(e, MintedByte(e), Chain(addr, e.keys, Ref(Fresh(e, "b", 8))), Apply(e, m), inputs, sem);
  }

  lemma PassKeeps(e: ElimState, s: Stmt, inputs: Env, sem: Sem)
    requires s.Nop? || s.Unsupported?
    ensures Run(Apply(e, Pass(s)), inputs, sem) == Run(e, inputs, sem)
    ensures CountStmts(Apply(e, Pass(s)).statements) == CountStmts(e.statements)
  {
    RunAppend(e, s, Apply(e, Pass(s)), inputs, sem);
    ExecAppend(e.statements, s, State(inputs, map[]), sem, 0);
  }

  lemma {:induction false} RunKeeps(e: ElimState, ms: seq<Micro>, inputs: Env, sem: Sem)
    requires ValidAll(e, ms)
    ensures SameBefore(Run(e, inputs, sem), Run(ApplyAll(e, ms), inputs, sem), e.counter)
    decreases |ms|
  {
    hide Run, Apply, ValidMicro;
    if ms != [] {
      var p := ms[..|ms| - 1];
      RunKeeps(e, p, inputs, sem);
      RunExtends(e, p);
      StepKeeps(ApplyAll(e, p), ms[|ms| - 1], e.counter, inputs, sem);
      assert forall x: Name :: x.Minted? && x.serial < e.counter ==>
        Get(Run(e, inputs, sem), x) == Get(Run(ApplyAll(e, p), inputs, sem), x);
    }
  }

  lemma ReachesKeeps(e: ElimState, e': ElimState, inputs: Env, sem: Sem)
    requires Reaches(e, e')
    ensures SameBefore(Run(e, inputs, sem), Run(e', inputs, sem), e.counter)
  {
    hide Run, ApplyAll, ValidAll, SameBefore;
    var ms :| ValidAll(e, ms) && ApplyAll(e, ms) == e';
    RunKeeps(e, ms, inputs, sem);
  }

  // ---- Reading through a chain of cells ----

  /** The newest cell at `a`, or `base` when there is none. */
  function Lookup(cells: seq<Cell>, env: Env, a: nat, base: nat): nat {
    if cells == [] then base
    else
      var c := cells[|cells| - 1];
      if a == Val(env, c.addr) then Val(env, c.byte) else Lookup(cells[..|cells| - 1], env, a, base)
  }

  lemma {:induction false} ChainValue(addr: Var, cells: seq<Cell>, base: Var, env: Env, sem: Sem, k: nat)
    ensures Eval(Chain(addr, cells, Ref(base)), env, sem, k) == Lookup(cells, env, Val(env, addr), Val(env, base))
    ensures Count(Chain(addr, cells, Ref(base))) == 0
    decreases |cells|
  {
    hide Val;
    if cells != [] {
      var c, rest := cells[|cells| - 1], cells[..|cells| - 1];
      ChainValue(addr, rest, base, env, sem, k);
      MatchValue(addr, c.addr, env, sem, k);
      IteValue(Bin(Eq, Ref(addr), Ref(c.addr)), Ref(c.byte), Chain(addr, rest, Ref(base)), env, sem, k);
    }
  }

  lemma MatchValue(x: Var, y: Var, env: Env, sem: Sem, k: nat)
    ensures Eval(Bin(Eq, Ref(x), Ref(y)), env, sem, k) == Bit(Val(env, x) == Val(env, y))
    ensures Count(Bin(Eq, Ref(x), Ref(y))) == 0
  {
    hide Val;
    assert Eval(Ref(x), env, sem, k) == Val(env, x) && Eval(Ref(y), env, sem, k) == Val(env, y);
  }

  lemma IteValue(c: Expr, t: Expr, f: Expr, env: Env, sem: Sem, k: nat)
    requires Count(c) == 0 && Count(t) == 0
    ensures Eval(Ite(c, t, f), env, sem, k) ==
      if Eval(c, env, sem, k) != 0 then Eval(t, env, sem, k) else Eval(f, env, sem, k)
    ensures Count(Ite(c, t, f)) == Count(f)
  {
  }

  lemma {:induction false} LookupSame(cells: seq<Cell>, env: Env, env': Env, n: nat, a: nat, base: nat)
    requires CellsBefore(cells, n) && SameBefore(env, env', n)
    ensures Lookup(cells, env, a, base) == Lookup(cells, env', a, base)
    decreases |cells|
  {
    if cells != [] {
      var c := cells[|cells| - 1];
      assert c in cells;
      LookupSame(cells[..|cells| - 1], env, env', n, a, base);
    }
  }

  // ---- The shared initial memory ----

  /** Each key's byte is what `m0` holds at its address. */
  ghost predicate Consistent(keys: seq<Cell>, env: Env, m0: Mem) {
    forall c :: c in keys ==> Val(env, c.byte) == Byte(m0, Val(env, c.addr))
  }

  /** Keys at equal addresses have equal bytes. */
  ghost predicate Functional(keys: seq<Cell>, env: Env) {
    forall c, d :: c in keys && d in keys && Val(env, c.addr) == Val(env, d.addr) ==> Val(env, c.byte) == Val(env, d.byte)
  }

  lemma ConsistentSame(keys: seq<Cell>, env: Env, env': Env, n: nat, m0: Mem)
    requires CellsBefore(keys, n) && SameBefore(env, env', n)
    ensures Consistent(keys, env, m0) <==> Consistent(keys, env', m0)
    ensures Functional(keys, env) <==> Functional(keys, env')
  {
    hide Byte;
    forall c | c in keys ensures Val(env, c.addr) == Val(env', c.addr) && Val(env, c.byte) == Val(env', c.byte) {
      assert MintedBefore(c.addr, n) && MintedBefore(c.byte, n);
    }
  }

  lemma ConsistentBack(e: ElimState, e': ElimState, inputs: Env, sem: Sem, m0: Mem)
    requires Reaches(e, e') && CellsBefore(e.keys, e.counter)
    requires Consistent(e'.keys, Run(e', inputs, sem), m0)
    ensures Consistent(e.keys, Run(e, inputs, sem), m0)
  {
    hide Run, Reaches, Byte, Val;
    ReachesExtends(e, e');
    ReachesKeeps(e, e', inputs, sem);
    assert forall c :: c in e.keys ==> c in e'.keys;
    ConsistentSame(e.keys, Run(e, inputs, sem), Run(e', inputs, sem), e.counter, m0);
  }

  lemma {:induction false} LookupConsistent(keys: seq<Cell>, env: Env, a: nat, m0: Mem)
    requires Consistent(keys, env, m0)
    ensures Lookup(keys, env, a, Byte(m0, a)) == Byte(m0, a)
    decreases |keys|
  {
    hide Byte, Val;
    if keys != [] {
      assert keys[|keys| - 1] in keys;
      LookupConsistent(keys[..|keys| - 1], env, a, m0);
    }
  }

  lemma {:induction false} LookupFunctional(keys: seq<Cell>, env: Env, base: nat, c: Cell)
    requires Functional(keys, env) && c in keys
    ensures Lookup(keys, env, Val(env, c.addr), base) == Val(env, c.byte)
    decreases |keys|
  {
    hide Val;
    var d := keys[|keys| - 1];
    assert d in keys;
    if Val(env, d.addr) != Val(env, c.addr) {
      LookupFunctional(keys[..|keys| - 1], env, base, c);
    }
  }

  lemma UpdateKeeps(env: Env, x: Name, v: nat, n: nat)
    requires x.Minted? && n <= x.serial
    ensures SameBefore(env, env[x := v], n) && Get(env[x := v], x) == v
  {
  }

  lemma SameVal(env: Env, env': Env, n: nat, v: Var)
    requires SameBefore(env, env', n) && MintedBefore(v, n)
    ensures Val(env, v) == Val(env', v)
  {
    assert Get(env, v.name) == Get(env', v.name);
  }

  /** What a minted key's byte evaluates to. */
  lemma MintValue(e: ElimState, addr: Var, inputs: Env, sem: Sem)
    requires MintedBefore(addr, e.counter)
    ensures var env, env' := Run(e, inputs, sem), Run(Mint(e, addr), inputs, sem);
      && env' == env[MintedByte(e).name := Cut(Lookup(e.keys, env, Val(env, addr), Val(env, Fresh(e, "b", 8))), 8)]
      && SameBefore(env, env', e.counter)
    ensures CountStmts(Mint(e, addr).statements) == CountStmts(e.statements)
  {
    hide Run, Chain, Lookup, Cut, SameBefore, Val;
    var rhs, env := Chain(addr, e.keys, Ref(Fresh(e, "b", 8))), Run(e, inputs, sem);
    RunAssign(e, MintedByte(e), rhs, Mint(e, addr), inputs, sem);
    ChainValue(addr, e.keys, Fresh(e, "b", 8), env, sem, CountStmts(e.statements));
    UpdateKeeps(env, MintedByte(e).name, Cut(Lookup(e.keys, env, Val(env, addr), Val(env, Fresh(e, "b", 8))), 8), e.counter);
  }
}
