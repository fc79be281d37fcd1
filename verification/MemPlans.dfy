/** The main theorems about the memory pass as a whole. */
module MemPlans {
  import opened Bits
  import opened Common
  import opened Ir
  import opened MemElim
  import opened MemTrace
  import opened MemRun
  import opened MemChoice
  import opened MemSim
  import opened MemRefine
  import opened MemTheorem

  /** Both sides run with real loads and stores, each from the memory `m0`; the
      second side sees the registers the first one left, as in the one query. */
  function RunA(sa: seq<Stmt>, env: Env, m0: Mem, sem: Sem): State {
    Exec(sa, State(env, m0), sem, 0)
  }

  function RunB(sa: seq<Stmt>, sb: seq<Stmt>, env: Env, m0: Mem, sem: Sem): State {
    Exec(sb, State(RunA(sa, env, m0, sem).env, m0), sem, CountStmts(sa))
  }

  ghost predicate ProbesDiffer(probes: seq<(Var, Var)>, env: Env) {
    exists i :: 0 <= i < |probes| && Val(env, probes[i].0) != Val(env, probes[i].1)
  }

  ghost predicate MemoriesDiffer(ma: Mem, mb: Mem) {
    exists x: nat :: Byte(ma, x) != Byte(mb, x)
  }

  /** Under `inputs` the plan computes what the two real runs from `env` and `m0`
      compute: every register, every probed byte, and, when there are probes, the
      exact answer to whether the final memories differ anywhere. */
  ghost predicate Realises(plan: MemPlan, sa: seq<Stmt>, sb: seq<Stmt>, order: seq<Var>, inputs: Env, env: Env, m0: Mem, sem: Sem) {
    var last := Exec(plan.statements, State(inputs, map[]), sem, 0).env;
    var a, b := RunA(sa, env, m0, sem), RunB(sa, sb, env, m0, sem);
    && SameInputs(last, b.env)
    && CountStmts(plan.statements) == CountStmts(sa) + CountStmts(sb)
    && (plan.probes != [] ==>
          ProbesRead(plan.probes, order, last, a.mem, b.mem)
          && (ProbesDiffer(plan.probes, last) <==> MemoriesDiffer(a.mem, b.mem)))
  }

  /** The final state of the pass and each side's writes. */
  datatype Outcome = Outcome(last: ElimState, mid: ElimState, end: ElimState, a: seq<Cell>, b: seq<Cell>)

  function OutcomeOf(sa: seq<Stmt>, sb: seq<Stmt>, ptr: nat, enabled: bool, order: seq<Var>): Outcome
    requires Eliminate(sa, sb, ptr, enabled, order).Some?
  {
    var (e, a) := RunSide(START, sa, ptr).value;
    var (f, b) := RunSide(e, sb, ptr).value;
    Outcome(if Compares(a, b, enabled) then ProbeAll(f, a, b, order).value.0 else f, e, f, a, b)
  }

  lemma StartFacts()
    ensures WellFormed(START) && CellsBefore([], 0) && START.counter == 0
    ensures forall inputs, sem :: Run(START, inputs, sem) == inputs
  {
  }

  lemma WrittenBefore(a: seq<Cell>, b: seq<Cell>, order: seq<Var>, n: nat)
    requires CellsBefore(a, n) && CellsBefore(b, n) && Lists(order, WrittenAt(a, b))
    ensures VarsBefore(order, n)
  {
    forall v | v in order ensures MintedBefore(v, n) {
      assert v in WrittenAt(a, b);
    }
  }

  /** The three stages follow one another. */
  lemma Stages(sa: seq<Stmt>, sb: seq<Stmt>, ptr: nat, enabled: bool, order: seq<Var>)
    requires InputProgram(sa) && InputProgram(sb)
    requires Eliminate(sa, sb, ptr, enabled, order).Some? && Lists(order, Written(sa, sb, ptr))
    ensures
      var o := OutcomeOf(sa, sb, ptr, enabled, order);
      && Reaches(START, o.mid) && Reaches(o.mid, o.end) && Reaches(o.end, o.last) && Reaches(START, o.last)
      && WellFormed(o.mid) && WellFormed(o.end) && WellFormed(o.last)
      && CellsBefore(o.a, o.mid.counter) && CellsBefore(o.a, o.end.counter) && CellsBefore(o.b, o.end.counter)
      && VarsBefore(order, o.end.counter)
  {
    hide Reaches, WellFormed, CellsBefore, RunSide, InputProgram, ProbeAll, Lists, VarsBefore;
    var o := OutcomeOf(sa, sb, ptr, enabled, order);
    StartFacts();
    RunSideReaches(START, sa, ptr);
    RunSideReaches(o.mid, sb, ptr);
    SideStays(o.mid, o.end, o.a);
    WrittenBefore(o.a, o.b, order, o.end.counter);
    ProbeAllReaches(o.end, o.a, o.b, order);
    ReachesSelf(o.end);
    ReachesWellFormed(START, o.mid);
    ReachesWellFormed(o.mid, o.end);
    ReachesWellFormed(o.end, o.last);
    ReachesTrans(START, o.mid, o.end);
    ReachesTrans(START, o.end, o.last);
  }

  /** A byte neither side wrote is the initial byte on both sides. */
  lemma {:induction false} LookupMiss(cells: seq<Cell>, env: Env, x: nat, base: nat)
    requires forall c :: c in cells ==> Val(env, c.addr) != x
    ensures Lookup(cells, env, x, base) == base
    decreases |cells|
  {
    hide Val;
    if cells != [] {
      assert cells[|cells| - 1] in cells;
      LookupMiss(cells[..|cells| - 1], env, x, base);
    }
  }

  /** Probing every written address decides whether the memories differ. */
  lemma ProbesDecide(probes: seq<(Var, Var)>, order: seq<Var>, a: seq<Cell>, b: seq<Cell>, env: Env, m0: Mem, ma: Mem, mb: Mem)
    requires Lists(order, WrittenAt(a, b)) && ProbesRead(probes, order, env, ma, mb)
    requires Holds(a, env, m0, ma) && Holds(b, env, m0, mb)
    ensures ProbesDiffer(probes, env) <==> MemoriesDiffer(ma, mb)
  {
    hide Byte, Val, Lookup;
    if ProbesDiffer(probes, env) {
      var i :| 0 <= i < |probes| && Val(env, probes[i].0) != Val(env, probes[i].1);
      assert Byte(ma, Val(env, order[i])) != Byte(mb, Val(env, order[i]));
    }
    if MemoriesDiffer(ma, mb) {
      var x: nat :| Byte(ma, x) != Byte(mb, x);
      var i := WrittenIndex(order, a, b, env, m0, ma, mb, x);
      assert Val(env, probes[i].0) != Val(env, probes[i].1);
    }
  }

  /** A differing byte sits at a written, hence listed, address. */
  lemma WrittenIndex(order: seq<Var>, a: seq<Cell>, b: seq<Cell>, env: Env, m0: Mem, ma: Mem, mb: Mem, x: nat) returns (i: nat)
    requires Lists(order, WrittenAt(a, b)) && Holds(a, env, m0, ma) && Holds(b, env, m0, mb)
    requires Byte(ma, x) != Byte(mb, x)
    ensures i < |order| && Val(env, order[i]) == x
  {
    hide Byte, Val, Lookup;
    assert Byte(ma, x) == Lookup(a, env, x, Byte(m0, x));
    assert Byte(mb, x) == Lookup(b, env, x, Byte(m0, x));
    if forall c :: c in a + b ==> Val(env, c.addr) != x {
      assert forall c :: c in a ==> c in a + b;
      assert forall c :: c in b ==> c in a + b;
      LookupMiss(a, env, x, Byte(m0, x));
      LookupMiss(b, env, x, Byte(m0, x));
      assert false;
    }
    var c :| c in a + b && Val(env, c.addr) == x;
    assert c.addr in WrittenAt(a, b);
    assert c.addr in (set v | v in order);
    i :| 0 <= i < |order| && order[i] == c.addr;
  }

  /** Given a memory that agrees with the minted keys, the plan realises it. */
  lemma PlanRealises(sa: seq<Stmt>, sb: seq<Stmt>, ptr: nat, enabled: bool, order: seq<Var>, inputs: Env, env: Env, m0: Mem, sem: Sem)
    requires InputProgram(sa) && InputProgram(sb) && sem.ptr == ptr && SameInputs(inputs, env)
    requires Eliminate(sa, sb, ptr, enabled, order).Some? && Lists(order, Written(sa, sb, ptr))
    requires var o := OutcomeOf(sa, sb, ptr, enabled, order); Consistent(o.last.keys, Run(o.last, inputs, sem), m0)
    ensures Realises(Eliminate(sa, sb, ptr, enabled, order).value, sa, sb, order, inputs, env, m0, sem)
  {
    hide Reaches, WellFormed, CellsBefore, RunSide, InputProgram, ProbeAll, Lists, VarsBefore, Consistent, SameInputs,
         Run, Holds, CountStmts, Exec, SameBefore, Quiet, ProbesRead, ProbesDiffer, MemoriesDiffer;
    var o := OutcomeOf(sa, sb, ptr, enabled, order);
    Stages(sa, sb, ptr, enabled, order);
    StartFacts();
    ConsistentBack2(o, inputs, sem, m0);
    RunSideSim(START, sa, ptr, inputs, sem, m0, env);
    assert CountStmts([]) == 0 by { NoStatements(); }
    RunSideSim(o.mid, sb, ptr, inputs, sem, m0, RunA(sa, env, m0, sem).env);
    ReachesKeeps(o.mid, o.end, inputs, sem);
    HoldsSame(o.a, Run(o.mid, inputs, sem), Run(o.end, inputs, sem), o.mid.counter, m0, RunA(sa, env, m0, sem).mem);
    var plan := Eliminate(sa, sb, ptr, enabled, order).value;
    RunIs(o.last, inputs, sem);
    if Compares(o.a, o.b, enabled) {
      CompareRealises(o, order, inputs, sem, m0, RunA(sa, env, m0, sem).mem, RunB(sa, sb, env, m0, sem));
    }
  }

  lemma NoStatements()
    ensures CountStmts([]) == 0
  {
  }

  lemma RunIs(e: ElimState, inputs: Env, sem: Sem)
    ensures Run(e, inputs, sem) == Exec(e.statements, State(inputs, map[]), sem, 0).env
  {
  }

  lemma ConsistentBack2(o: Outcome, inputs: Env, sem: Sem, m0: Mem)
    requires Reaches(o.mid, o.end) && Reaches(o.end, o.last) && WellFormed(o.mid) && WellFormed(o.end)
    requires Consistent(o.last.keys, Run(o.last, inputs, sem), m0)
    ensures Consistent(o.end.keys, Run(o.end, inputs, sem), m0) && Consistent(o.mid.keys, Run(o.mid, inputs, sem), m0)
  {
    hide Reaches, WellFormed, CellsBefore, Consistent, Run;
    KeysBefore(o.mid);
    KeysBefore(o.end);
    ConsistentBack(o.end, o.last, inputs, sem, m0);
    ConsistentBack(o.mid, o.end, inputs, sem, m0);
  }

  lemma CompareRealises(o: Outcome, order: seq<Var>, inputs: Env, sem: Sem, m0: Mem, ma: Mem, b: State)
    requires VarsBefore(order, o.end.counter) && CellsBefore(o.a, o.end.counter) && CellsBefore(o.b, o.end.counter)
    requires WellFormed(o.end) && Lists(order, WrittenAt(o.a, o.b))
    requires ProbeAll(o.end, o.a, o.b, order).Some? && o.last == ProbeAll(o.end, o.a, o.b, order).value.0
    requires Holds(o.a, Run(o.end, inputs, sem), m0, ma) && Holds(o.b, Run(o.end, inputs, sem), m0, b.mem)
    requires SameInputs(Run(o.end, inputs, sem), b.env)
    requires Consistent(o.last.keys, Run(o.last, inputs, sem), m0)
    ensures
      var probes, env := ProbeAll(o.end, o.a, o.b, order).value.1, Run(o.last, inputs, sem);
      && ProbesRead(probes, order, env, ma, b.mem) && SameInputs(env, b.env)
      && (ProbesDiffer(probes, env) <==> MemoriesDiffer(ma, b.mem))
      && CountStmts(o.last.statements) == CountStmts(o.end.statements)
  {
    hide WellFormed, CellsBefore, ProbeAll, Lists, VarsBefore, Consistent, SameInputs,
         Run, Holds, CountStmts, SameBefore, Quiet, ProbesRead, ProbesDiffer, MemoriesDiffer;
    var (r, probes) := ProbeAll(o.end, o.a, o.b, order).value;
    ProbeAllSim(o.end, o.a, o.b, order, inputs, sem, m0, ma, b.mem);
    QuietSame(o.end, r, inputs, sem, b.env);
    QuietCount(o.end, r, inputs, sem);
    var env, env' := Run(o.end, inputs, sem), Run(r, inputs, sem);
    HoldsSame(o.a, env, env', o.end.counter, m0, ma);
    HoldsSame(o.b, env, env', o.end.counter, m0, b.mem);
    ProbesDecide(probes, order, o.a, o.b, env', m0, ma, b.mem);
  }

  /** Whatever the free bytes are, some initial memory makes the two real runs
      compute what the plan computes: a difference is never made up. */
  lemma FreeBytesAreSomeMemory(sa: seq<Stmt>, sb: seq<Stmt>, ptr: nat, enabled: bool, order: seq<Var>, inputs: Env, sem: Sem) returns (m0: Mem)
    requires InputProgram(sa) && InputProgram(sb) && sem.ptr == ptr
    requires Eliminate(sa, sb, ptr, enabled, order).Some? && Lists(order, Written(sa, sb, ptr))
    ensures Realises(Eliminate(sa, sb, ptr, enabled, order).value, sa, sb, order, inputs, inputs, m0, sem)
  {
    hide Reaches, RunSide, InputProgram, ProbeAll, Lists, Consistent, Run, Realises, Eliminate;
    Stages(sa, sb, ptr, enabled, order);
    var o := OutcomeOf(sa, sb, ptr, enabled, order);
    SomeMemory(o.last, inputs, sem);
    m0 := MemoryOf(o.last.keys, Run(o.last, inputs, sem));
    PlanRealises(sa, sb, ptr, enabled, order, inputs, inputs, m0, sem);
  }

  /** And every initial memory is reached by some choice of the free bytes: a
      difference is never hidden. */
  lemma EveryMemoryIsSomeFreeBytes(sa: seq<Stmt>, sb: seq<Stmt>, ptr: nat, enabled: bool, order: seq<Var>, env: Env, m0: Mem, sem: Sem)
      returns (inputs: Env)
    requires InputProgram(sa) && InputProgram(sb) && sem.ptr == ptr
    requires Eliminate(sa, sb, ptr, enabled, order).Some? && Lists(order, Written(sa, sb, ptr))
    ensures SameInputs(env, inputs)
    ensures Realises(Eliminate(sa, sb, ptr, enabled, order).value, sa, sb, order, inputs, env, m0, sem)
  {
    Stages(sa, sb, ptr, enabled, order);
    var o := OutcomeOf(sa, sb, ptr, enabled, order);
    hide Reaches, RunSide, InputProgram, ProbeAll, Lists, Consistent, Run, Realises, Eliminate, OutcomeOf;
    inputs := EveryMemory(o.last, env, sem, m0);
    InputsFlip(env, inputs);
    PlanRealises(sa, sb, ptr, enabled, order, inputs, env, m0, sem);
  }

  lemma InputsFlip(env: Env, env': Env)
    requires SameInputs(env, env')
    ensures SameInputs(env', env)
  {
    forall x: Name | !x.Minted? ensures Get(env', x) == Get(env, x) {
      assert Get(env, x) == Get(env', x);
    }
  }
}
