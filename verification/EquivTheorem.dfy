/** The main theorems about the equivalence query and the verdict drawn from it. */
module EquivTheorem {
  import opened Bits
  import opened Common
  import opened Ir
  import opened Ssa
  import opened SsaForm
  import opened Layouts
  import opened Namespace
  import opened Sides
  import opened Taint
  import opened EquivQuery
  import opened EquivMeaning
  import opened MemElim
  import opened MemChoice
  import opened MemPlans
  import opened MemTheorem
  import MemCaps
  import MemTrace

  // ---- Which memories are compared ----

  predicate Writes(ss: seq<Stmt>) {
    exists i :: 0 <= i < |ss| && ss[i].StoreMem? && ss[i].bits != 0
  }

  lemma WritesSnoc(p: seq<Stmt>, s: Stmt)
    ensures Writes(p + [s]) <==> Writes(p) || (s.StoreMem? && s.bits != 0)
  {
    if Writes(p) {
      var i :| 0 <= i < |p| && p[i].StoreMem? && p[i].bits != 0;
      assert (p + [s])[i] == p[i];
    }
    assert (p + [s])[|p|] == s;
  }

  lemma {:induction false} StoredWrites(ss: seq<Stmt>)
    ensures MemCaps.StoredBytes(ss) > 0 <==> Writes(ss)
    decreases |ss|
  {
    hide Writes;
    if ss == [] {
      assert !Writes([]) by { WritesNothing(); }
    } else {
      StoredWrites(ss[..|ss| - 1]);
      WritesSnoc(ss[..|ss| - 1], ss[|ss| - 1]);
      assert ss == ss[..|ss| - 1] + [ss[|ss| - 1]];
    }
  }

  lemma WritesNothing()
    ensures !Writes([])
  {
  }

  lemma {:induction false} LoweredWrites(ss: seq<Stmt>, side: Side, arch: Arch)
    requires Lowered(ss, side, arch).Some?
    ensures Writes(Lowered(ss, side, arch).value) <==> Writes(ss)
    decreases |ss|
  {
    hide SsaStep, Lowered, NamespaceExpr, RenameReads, Writes;
    if ss == [] {
      LoweredNothing(side, arch);
    } else {
      var p, x := ss[..|ss| - 1], ss[|ss| - 1];
      LoweredSnoc(ss, side, arch);
      LoweredWrites(p, side, arch);
      assert ss == p + [x];
      WritesSnoc(p, x);
      WritesSnoc(Lowered(p, side, arch).value, NamespaceStmt(Renamed(Convert(p), x), side, arch).value);
    }
  }

  /** Memory is compared when no unknown reached it, both sides model the vector
      registers they name, and both sides write. */
  predicate MemoryCompared(a: seq<Stmt>, b: seq<Stmt>, arch: Arch) {
    var sa, sb := Convert(a), Convert(b);
    var ta, tb := TaintedDefs(sa.statements), TaintedDefs(sb.statements);
    ta.Some? && tb.Some? && MemoryEnabled(sa, sb, ta.value, tb.value, arch) && Writes(a) && Writes(b)
  }

  lemma ProbesExist(sa: seq<Stmt>, sb: seq<Stmt>, ptr: nat, enabled: bool, order: seq<Var>)
    requires Eliminate(sa, sb, ptr, enabled, order).Some? && Lists(order, Written(sa, sb, ptr))
    ensures Eliminate(sa, sb, ptr, enabled, order).value.probes != [] <==> enabled && Writes(sa) && Writes(sb)
  {
    hide Eliminate, Written, Lists, Writes;
    MemCaps.EliminatesIff(sa, sb, ptr, enabled, order);
    StoredWrites(sa);
    StoredWrites(sb);
  }

  // ---- Both real runs, seen in the query's environment ----

  lemma StartLinked(side: Side, arch: Arch, m: Env, rho: Env)
    requires Lawful(arch) && forall x {:trigger Get(m, x)} :: IsSource(x) ==> Get(m, x) == Get(rho, x)
    ensures Linked(side, arch, map[], StartEnv(arch, m), rho)
  {
    hide Slice, Cut, Pow2;
    forall x | IsSource(x) ensures Get(StartEnv(arch, m), x) == Held(side, arch, map[], rho, x) {
      assert Get(m, x) == Get(rho, x);
      if x in arch.layouts { assert Get(m, arch.layouts[x].parent) == Get(rho, arch.layouts[x].parent); }
    }
  }

  lemma OutsideIsSource(side: Side, m: Env, rho: Env)
    requires SameOutside(side, m, rho)
    ensures forall x {:trigger Get(m, x)} :: IsSource(x) ==> Get(m, x) == Get(rho, x)
  {
  }

  lemma FollowsReflects(ss: seq<Stmt>, side: Side, arch: Arch, m: Env, st: State, st': State, last: Env)
    requires SourceProgram(ss) && Follows(side, arch, Convert(ss).latest, st, st')
    requires forall x {:trigger Get(m, x)} :: IsSource(x) ==> Get(last, x) == Get(m, x)
    requires forall x: Name {:trigger Get(last, x)} :: x.Sided? && x.side == side ==> Get(last, x) == Get(st'.env, x)
    ensures Reflects(last, side, arch, Convert(ss).latest, m, st)
  {
    hide Convert, SourceProgram, IsSource;
    FinalDefsAreLatest(ss);
    forall x | x in Convert(ss).latest ensures Get(last, Sided(side, x, Convert(ss).latest[x])) == Get(st.env, x) {
      assert x in FinalDefs(Convert(ss).defs);
      FinalIsSource(ss, x);
      assert Get(st.env, x) == Held(side, arch, Convert(ss).latest, st'.env, x);
    }
  }

  /** In the query's final environment each side's own run can be read off. */
  lemma BothReflect(a: seq<Stmt>, b: seq<Stmt>, arch: Arch, m: Env, m0: Mem, sem: Sem, last: Env)
    requires Lawful(arch) && SourceProgram(a) && SourceProgram(b)
    requires Lowered(a, SideA, arch).Some? && Lowered(b, SideB, arch).Some?
    requires var la, lb := Lowered(a, SideA, arch).value, Lowered(b, SideB, arch).value;
      SameInputs(last, RunB(la, lb, m, m0, sem).env)
    ensures
      var la, lb := Lowered(a, SideA, arch).value, Lowered(b, SideB, arch).value;
      var sa, sb := SideRun(a, arch, m, m0, sem, 0), SideRun(b, arch, m, m0, sem, CountStmts(a));
      && Reflects(last, SideA, arch, Convert(a).latest, m, sa) && Reflects(last, SideB, arch, Convert(b).latest, m, sb)
      && sa.mem == RunA(la, m, m0, sem).mem && sb.mem == RunB(la, lb, m, m0, sem).mem
  {
    hide Lowered, Exec, Convert, SourceProgram, Lawful, StartEnv, Linked, CountStmts, IsSource, Reflects;
    var la, lb := Lowered(a, SideA, arch).value, Lowered(b, SideB, arch).value;
    var ra, rb := RunA(la, m, m0, sem), RunB(la, lb, m, m0, sem);
    StartItself(SideA, arch, m);
    LoweredFollows(a, SideA, arch, StartEnv(arch, m), m, m0, sem, 0);
    LoweredKeepsOutside(a, SideA, arch, State(m, m0), sem, 0);
    OutsideIsSource(SideA, m, ra.env);
    StartLinked(SideB, arch, m, ra.env);
    LoweredFollows(b, SideB, arch, StartEnv(arch, m), ra.env, m0, sem, CountStmts(a));
    LoweredKeepsOutside(b, SideB, arch, State(ra.env, m0), sem, CountStmts(a));
    OutsideIsSource(SideB, ra.env, rb.env);
    LastNames(m, ra.env, rb.env, last);
    FollowsReflects(a, SideA, arch, m, SideRun(a, arch, m, m0, sem, 0), ra, last);
    FollowsReflects(b, SideB, arch, m, SideRun(b, arch, m, m0, sem, CountStmts(a)), rb, last);
  }

  lemma StartItself(side: Side, arch: Arch, m: Env)
    requires Lawful(arch)
    ensures Linked(side, arch, map[], StartEnv(arch, m), m)
  {
    hide Lawful, Linked;
    StartLinked(side, arch, m, m);
  }

  lemma LastNames(m: Env, ra: Env, rb: Env, last: Env)
    requires SameOutside(SideA, m, ra) && SameOutside(SideB, ra, rb) && SameInputs(last, rb)
    ensures forall x {:trigger Get(m, x)} :: IsSource(x) ==> Get(last, x) == Get(m, x)
    ensures forall x: Name {:trigger Get(last, x)} :: x.Sided? && x.side == SideA ==> Get(last, x) == Get(ra, x)
    ensures forall x: Name {:trigger Get(last, x)} :: x.Sided? && x.side == SideB ==> Get(last, x) == Get(rb, x)
  {
    forall x: Name | IsSource(x) ensures Get(last, x) == Get(m, x) {
      assert Get(m, x) == Get(ra, x) && Get(ra, x) == Get(rb, x) && Get(last, x) == Get(rb, x);
    }
    forall x: Name | x.Sided? && x.side == SideA ensures Get(last, x) == Get(ra, x) {
      assert Get(ra, x) == Get(rb, x);
    }
  }

  // ---- The condition against the two runs ----

  /** A key's expression evaluates to what the definition behind it says. */
  lemma SideValue(ss: seq<Stmt>, side: Side, arch: Arch, t: Taint, x: Name, last: Env, m: Env, m0: Mem, sem: Sem, j: nat, k: nat)
    requires SourceProgram(ss) && Lawful(arch) && TaintedDefs(Convert(ss).statements) == Some(t) && ComparedOn(ss, side, arch, x)
    requires Reflects(last, side, arch, Convert(ss).latest, m, SideRun(ss, arch, m, m0, sem, j))
    ensures
      var e := FinalExpr(arch, FinalDefs(Convert(ss).defs), side, x).value;
      Eval(e, last, sem, k) == KeyValue(arch, m, x, Get(SideRun(ss, arch, m, m0, sem, j).env, x)) && Count(e) == 0
  {
    hide Convert, SourceProgram, Lawful, Exec, StartEnv, KeyValue, Eval, Reflects, FinalDefs, FinalExpr, Pow2;
    FinalsFit(ss, State(StartEnv(arch, m), m0), sem, j, x);
    FinalValue(ss, side, arch, x, last, m, SideRun(ss, arch, m, m0, sem, j), sem, k);
  }

  /** One side as the query sees it. */
  ghost predicate Seen(ss: seq<Stmt>, side: Side, arch: Arch, f: map<Name, Expr>, last: Env, m: Env, m0: Mem, sem: Sem, j: nat)
  {
    && SourceProgram(ss) && Lawful(arch) && TaintedDefs(Convert(ss).statements).Some?
    && IsFinals(arch, FinalDefs(Convert(ss).defs), TaintedDefs(Convert(ss).statements).value.defs, side, f)
    && Reflects(last, side, arch, Convert(ss).latest, m, SideRun(ss, arch, m, m0, sem, j))
  }

  lemma KeyIsDefinition(ss: seq<Stmt>, side: Side, arch: Arch, f: map<Name, Expr>, last: Env, m: Env, m0: Mem, sem: Sem, j: nat, k: nat,
                        key: Name) returns (x: Name)
    requires Seen(ss, side, arch, f, last, m, m0, sem, j) && key in f
    ensures ComparedOn(ss, side, arch, x) && KeyOf(arch, x) == key && Count(f[key]) == 0
    ensures Eval(f[key], last, sem, k) == KeyValue(arch, m, x, Get(SideRun(ss, arch, m, m0, sem, j).env, x))
  {
    hide Convert, SourceProgram, Lawful, KeyValue, Eval, Reflects, FinalDefs, FinalExpr, SideRun, KeyOf, Speaks, TaintedDefs;
    var finals, t := FinalDefs(Convert(ss).defs), TaintedDefs(Convert(ss).statements).value;
    x :| x in finals && Speaks(arch, finals, t.defs, side, x) && KeyOf(arch, x) == key;
    SideValue(ss, side, arch, t, x, last, m, m0, sem, j, k);
  }

  lemma DefinitionHasKey(ss: seq<Stmt>, side: Side, arch: Arch, f: map<Name, Expr>, last: Env, m: Env, m0: Mem, sem: Sem, j: nat, k: nat, x: Name)
    requires Seen(ss, side, arch, f, last, m, m0, sem, j) && ComparedOn(ss, side, arch, x)
    ensures KeyOf(arch, x) in f
    ensures Eval(f[KeyOf(arch, x)], last, sem, k) == KeyValue(arch, m, x, Get(SideRun(ss, arch, m, m0, sem, j).env, x))
  {
    hide Convert, SourceProgram, Lawful, KeyValue, Eval, Reflects, FinalDefs, FinalExpr, SideRun, KeyOf, TaintedDefs, Speaks;
    SideValue(ss, side, arch, TaintedDefs(Convert(ss).statements).value, x, last, m, m0, sem, j, k);
  }

  lemma SeenIsQuiet(ss: seq<Stmt>, side: Side, arch: Arch, f: map<Name, Expr>, last: Env, m: Env, m0: Mem, sem: Sem, j: nat)
    requires Seen(ss, side, arch, f, last, m, m0, sem, j)
    ensures QuietMap(f)
  {
    hide Seen, Count, ComparedOn;
    forall key | key in f ensures Count(f[key]) == 0 {
      var _ := KeyIsDefinition(ss, side, arch, f, last, m, m0, sem, j, 0, key);
    }
  }

  lemma KeysDiffer(a: seq<Stmt>, b: seq<Stmt>, arch: Arch, fa: map<Name, Expr>, fb: map<Name, Expr>, last: Env, m: Env, m0: Mem, sem: Sem, i: nat, j: nat, k: nat)
    requires Seen(a, SideA, arch, fa, last, m, m0, sem, i) && Seen(b, SideB, arch, fb, last, m, m0, sem, j)
    ensures (exists key :: KeyDiffers(fa, fb, key, last, sem, k)) <==>
      FinalsDiffer(a, b, arch, m, SideRun(a, arch, m, m0, sem, i), SideRun(b, arch, m, m0, sem, j))
  {
    hide Seen, Eval, ComparedOn, KeyOf, KeyValue, SideRun, TaintedDefs;
    var sa, sb := SideRun(a, arch, m, m0, sem, i), SideRun(b, arch, m, m0, sem, j);
    if exists key :: KeyDiffers(fa, fb, key, last, sem, k) {
      var key :| KeyDiffers(fa, fb, key, last, sem, k);
      var x := KeyIsDefinition(a, SideA, arch, fa, last, m, m0, sem, i, k, key);
      var y := KeyIsDefinition(b, SideB, arch, fb, last, m, m0, sem, j, k, key);
      assert ComparedOn(a, SideA, arch, x) && ComparedOn(b, SideB, arch, y) && KeyOf(arch, x) == KeyOf(arch, y);
    }
    if FinalsDiffer(a, b, arch, m, sa, sb) {
      var x, y :| ComparedOn(a, SideA, arch, x) && ComparedOn(b, SideB, arch, y) && KeyOf(arch, x) == KeyOf(arch, y)
        && KeyValue(arch, m, x, Get(sa.env, x)) != KeyValue(arch, m, y, Get(sb.env, y));
      DefinitionHasKey(a, SideA, arch, fa, last, m, m0, sem, i, k, x);
      DefinitionHasKey(b, SideB, arch, fb, last, m, m0, sem, j, k, y);
      assert KeyDiffers(fa, fb, KeyOf(arch, x), last, sem, k);
    }
  }

  // ---- The query and the two runs ----

  /** The query's rewrite of the two sides. */
  function PlanOf(a: seq<Stmt>, b: seq<Stmt>, arch: Arch, addrs: seq<Var>): Option<MemPlan> {
    var sa, sb, la, lb := Convert(a), Convert(b), Lowered(a, SideA, arch), Lowered(b, SideB, arch);
    var ta, tb := TaintedDefs(sa.statements), TaintedDefs(sb.statements);
    if ta.None? || tb.None? || la.None? || lb.None? then None
    else Eliminate(la.value, lb.value, arch.ptr, MemoryEnabled(sa, sb, ta.value, tb.value, arch), addrs)
  }

  /** The plan, under `inputs`, stands for both lowerings run from `m` and `m0`. */
  ghost predicate PlanRuns(a: seq<Stmt>, b: seq<Stmt>, arch: Arch, addrs: seq<Var>, inputs: Env, m: Env, m0: Mem, sem: Sem) {
    var plan, la, lb := PlanOf(a, b, arch, addrs), Lowered(a, SideA, arch), Lowered(b, SideB, arch);
    plan.Some? && la.Some? && lb.Some? && Realises(plan.value, la.value, lb.value, addrs, inputs, m, m0, sem)
  }

  lemma QueryParts(a: seq<Stmt>, b: seq<Stmt>, arch: Arch, addrs: seq<Var>, keys: seq<Name>, fa: map<Name, Expr>, fb: map<Name, Expr>, q: Query)
    requires IsQuery(a, b, arch, addrs, keys, fa, fb, q)
    ensures TaintedDefs(Convert(a).statements).Some? && TaintedDefs(Convert(b).statements).Some?
    ensures Lowered(a, SideA, arch).Some? && Lowered(b, SideB, arch).Some?
    ensures PlanOf(a, b, arch, addrs).Some? && q.statements == PlanOf(a, b, arch, addrs).value.statements
    ensures Lists(addrs, Written(Lowered(a, SideA, arch).value, Lowered(b, SideB, arch).value, arch.ptr))
    ensures DifferCondition(fa, fb, PlanOf(a, b, arch, addrs).value.probes, keys) == Some(q.condition)
    ensures IsFinals(arch, FinalDefs(Convert(a).defs), TaintedDefs(Convert(a).statements).value.defs, SideA, fa)
    ensures IsFinals(arch, FinalDefs(Convert(b).defs), TaintedDefs(Convert(b).statements).value.defs, SideB, fb)
    ensures (set key | key in keys) == fa.Keys
  {
    hide Convert, TaintedDefs, Lowered, Eliminate, Written, Lists, DifferCondition, IsFinals, FinalDefs;
  }

  /** What a state of the query says, once it stands for a run of each side. */
  lemma ConditionIsDiffer(a: seq<Stmt>, b: seq<Stmt>, arch: Arch, addrs: seq<Var>, keys: seq<Name>, fa: map<Name, Expr>, fb: map<Name, Expr>, q: Query,
                          inputs: Env, m: Env, m0: Mem, sem: Sem, k: nat)
    requires Lawful(arch) && SourceProgram(a) && SourceProgram(b) && sem.ptr == arch.ptr
    requires IsQuery(a, b, arch, addrs, keys, fa, fb, q) && PlanRuns(a, b, arch, addrs, inputs, m, m0, sem)
    ensures
      Eval(q.condition, Exec(q.statements, State(inputs, map[]), sem, 0).env, sem, k) != 0 <==>
        Differ(a, b, arch, MemoryCompared(a, b, arch), m, m0, sem, 0, sem, CountStmts(a))
  {
    QueryParts(a, b, arch, addrs, keys, fa, fb, q);
    var plan, last := PlanOf(a, b, arch, addrs).value, Exec(q.statements, State(inputs, map[]), sem, 0).env;
    var la, lb := Lowered(a, SideA, arch).value, Lowered(b, SideB, arch).value;
    ProbesExist(la, lb, arch.ptr, MemoryEnabled(Convert(a), Convert(b), TaintedDefs(Convert(a).statements).value, TaintedDefs(Convert(b).statements).value, arch), addrs);
    LoweredWrites(a, SideA, arch);
    LoweredWrites(b, SideB, arch);
    assert MemoryCompared(a, b, arch) <==> plan.probes != [];
    hide IsQuery, PlanOf, Convert, TaintedDefs, Lowered, Eliminate, Written, Lists, DifferCondition, IsFinals, FinalDefs, Exec, SourceProgram,
         Lawful, Eval, CountStmts, Reflects, MemoryCompared, StartEnv, ProbesDiffer, MemoriesDiffer, SameInputs, ProbesRead, FinalsDiffer;
    BothReflect(a, b, arch, m, m0, sem, last);
    var i := CountStmts(a);
    SeenIsQuiet(a, SideA, arch, fa, last, m, m0, sem, 0);
    SeenIsQuiet(b, SideB, arch, fb, last, m, m0, sem, i);
    ConditionValue(fa, fb, plan.probes, keys, last, sem, k);
    KeysDiffer(a, b, arch, fa, fb, last, m, m0, sem, 0, i, k);
    if plan.probes == [] { NoProbes(last); }
  }

  lemma NoProbes(env: Env)
    ensures !ProbesDiffer([], env)
  {
  }
}
