/** What the equivalence query compares: the final definitions of the two lowerings,
    started from one machine state and one memory, each spliced on its own into the
    register it belongs to. */
module EquivMeaning {
  import opened Bits
  import opened Common
  import opened Ir
  import opened Ssa
  import opened SsaForm
  import opened Layouts
  import opened Namespace
  import opened Sides
  import opened Taint
  import opened EquivQuery
  import opened MemElim
  import opened MemTrace
  import opened MemChoice
  import opened MemRefine
  import opened MemTheorem
  import opened MemPlans
  import opened MemSsa

  // ---- The machine, without any query ----

  /** Every register name starts as its slice of the shared machine state. */
  function StartEnv(arch: Arch, m: Env): Env {
    m + map x | x in arch.layouts :: View(arch, m, x)
  }

  /** One lowering run with real memory; its unknowns are answered from `k` on. */
  function SideRun(ss: seq<Stmt>, arch: Arch, m: Env, m0: Mem, sem: Sem, k: nat): State {
    Exec(ss, State(StartEnv(arch, m), m0), sem, k)
  }

  /** The whole parent register once a view of it holds `v`. */
  function RegisterAfter(l: Layout, bits: nat, p: nat, v: nat): nat {
    if l.zeroExtends || (l.lo == 0 && l.hi + 1 >= bits) then Cut(v, bits)
    else if l.hi < bits then Put(p, l.lo, l.hi, bits, Cut(v, ViewWidth(l)))
    else 0
  }

  /** The register `x` belongs to as this one definition, holding `v`, would leave it. */
  function KeyValue(arch: Arch, m: Env, x: Name, v: nat): nat {
    if x in COMPARABLE_FLAGS || x !in arch.layouts then v
    else
      var l := arch.layouts[x];
      var bits := ParentWidth(arch, l.parent);
      RegisterAfter(l, bits, Val(m, Var(l.parent, bits)), v)
  }

  /** The definitions one side is compared on. */
  ghost predicate ComparedOn(ss: seq<Stmt>, side: Side, arch: Arch, x: Name) {
    && TaintedDefs(Convert(ss).statements).Some?
    && x in FinalDefs(Convert(ss).defs)
    && Speaks(arch, FinalDefs(Convert(ss).defs), TaintedDefs(Convert(ss).statements).value.defs, side, x)
  }

  /** Two definitions of one flag or register, one from each side, come out different.
      What else the sides define there is not looked at. */
  ghost predicate FinalsDiffer(a: seq<Stmt>, b: seq<Stmt>, arch: Arch, m: Env, sa: State, sb: State) {
    exists x, y {:trigger KeyOf(arch, x), KeyOf(arch, y)} ::
      && ComparedOn(a, SideA, arch, x) && ComparedOn(b, SideB, arch, y) && KeyOf(arch, x) == KeyOf(arch, y)
      && KeyValue(arch, m, x, Get(sa.env, x)) != KeyValue(arch, m, y, Get(sb.env, y))
  }

  /** The two sides differ where the query compares them; memory is compared when
      `memory` says so. */
  ghost predicate Differ(a: seq<Stmt>, b: seq<Stmt>, arch: Arch, memory: bool, m: Env, m0: Mem, sem: Sem, j: nat, sem': Sem, k: nat) {
    var sa, sb := SideRun(a, arch, m, m0, sem, j), SideRun(b, arch, m, m0, sem', k);
    FinalsDiffer(a, b, arch, m, sa, sb) || (memory && MemoriesDiffer(sa.mem, sb.mem))
  }

  // ---- Final definitions ----

  lemma {:induction false} FinalDefsAreLatest(ss: seq<Stmt>)
    ensures
      var finals, latest := FinalDefs(Convert(ss).defs), Convert(ss).latest;
      finals.Keys == latest.Keys && forall x :: x in finals ==> finals[x].name == Versioned(x, latest[x])
    decreases |ss|
  {
    hide SsaStep;
    if ss != [] {
      FinalDefsAreLatest(ss[..|ss| - 1]);
      StepFinals(Convert(ss[..|ss| - 1]), ss[|ss| - 1]);
    }
  }

  /** One more definition, or none. */
  lemma StepFinals(s: Ssa, x: Stmt)
    ensures
      var t := SsaStep(s, x);
      if x.Assign? || x.LoadMem? then
        t.latest == s.latest[x.dst.name := NextVersion(s.latest, x.dst.name)]
        && FinalDefs(t.defs) == FinalDefs(s.defs)[x.dst.name := Bumped(s, x.dst)]
      else t.latest == s.latest && FinalDefs(t.defs) == FinalDefs(s.defs)
  {
    hide Renamed, AddInputs, FinalDefs;
    if x.Assign? || x.LoadMem? { FinalDefsSnoc(s.defs, Bumped(s, x.dst)); }
  }

  lemma EmptyFinals()
    ensures FinalDefs([]) == map[]
  {
  }

  lemma FinalDefsSnoc(defs: seq<Var>, d: Var)
    ensures FinalDefs(defs + [d]) == if d.name.Versioned? then FinalDefs(defs)[d.name.base := d] else FinalDefs(defs)
  {
    assert (defs + [d])[..|defs|] == defs;
  }

  /** A value stays within the width of its last definition. */
  lemma {:induction false} FinalsFit(ss: seq<Stmt>, st: State, sem: Sem, k: nat, x: Name)
    requires SourceProgram(ss) && x in FinalDefs(Convert(ss).defs)
    ensures Get(Exec(ss, st, sem, k).env, x) < Pow2(FinalDefs(Convert(ss).defs)[x].bits)
    decreases |ss|
  {
    hide SsaStep, FinalDefs, Eval, LoadValue, StoreValue, Pow2, SourceExpr, CountStmts;
    EmptyFinals();
    if ss != [] {
      var s, y := Convert(ss[..|ss| - 1]), ss[|ss| - 1];
      assert SourceStmt(y);
      StepFinals(s, y);
      if !(y.Assign? || y.LoadMem?) || y.dst.name != x { FinalsFit(ss[..|ss| - 1], st, sem, k, x); }
    }
  }

  // ---- Unknowns do not decide ----

  lemma UntaintedMemory(ss: seq<Stmt>, t: Taint, st: State, sem: Sem, k: nat, sem': Sem, k': nat)
    requires SourceProgram(ss) && TaintedDefs(Convert(ss).statements) == Some(t) && Comparable(sem, sem') && !t.memory
    ensures Exec(ss, st, sem, k).mem == Exec(ss, st, sem', k').mem
  {
    hide Exec, Convert, TaintedDefs;
    ConvertKeepsMeaning(ss, st, sem, k);
    ConvertKeepsMeaning(ss, st, sem', k');
    NonInterference(Convert(ss).statements, t, st, sem, k, sem', k');
  }

  /** An untainted final definition has one value, whatever the unknowns are. */
  lemma UntaintedFinal(ss: seq<Stmt>, t: Taint, st: State, sem: Sem, k: nat, sem': Sem, k': nat, x: Name)
    requires SourceProgram(ss) && TaintedDefs(Convert(ss).statements) == Some(t) && Comparable(sem, sem')
    requires x in FinalDefs(Convert(ss).defs) && FinalDefs(Convert(ss).defs)[x].name !in t.defs
    ensures Get(Exec(ss, st, sem, k).env, x) == Get(Exec(ss, st, sem', k').env, x)
  {
    hide Exec, Convert, TaintedDefs, IsSource, FinalDefs;
    var latest, out := Convert(ss).latest, Convert(ss).statements;
    FinalDefsAreLatest(ss);
    FinalIsSource(ss, x);
    ConvertKeepsMeaning(ss, st, sem, k);
    ConvertKeepsMeaning(ss, st, sem', k');
    NonInterference(out, t, st, sem, k, sem', k');
    var s, s', u, u' := Exec(ss, st, sem, k), Exec(ss, st, sem', k'), Exec(out, st, sem, k), Exec(out, st, sem', k');
    assert Get(s.env, x) == Get(u.env, Current(latest, x)) && Get(s'.env, x) == Get(u'.env, Current(latest, x));
    assert Get(u.env, Current(latest, x)) == Get(u'.env, Current(latest, x));
  }

  lemma {:induction false} FinalIsSource(ss: seq<Stmt>, x: Name)
    requires SourceProgram(ss) && x in FinalDefs(Convert(ss).defs)
    ensures IsSource(x)
    decreases |ss|
  {
    hide SsaStep, FinalDefs, SourceExpr;
    EmptyFinals();
    if ss != [] {
      var s, y := Convert(ss[..|ss| - 1]), ss[|ss| - 1];
      assert SourceStmt(y);
      StepFinals(s, y);
      if !(y.Assign? || y.LoadMem?) || y.dst.name != x { FinalIsSource(ss[..|ss| - 1], x); }
    }
  }

  /** However the unknowns of either side are answered, the same states differ. */
  lemma UnknownsDoNotDecide(a: seq<Stmt>, b: seq<Stmt>, arch: Arch, memory: bool, m: Env, m0: Mem,
                            p: Sem, j: nat, p': Sem, k: nat, q: Sem, j': nat, q': Sem, k': nat)
    requires SourceProgram(a) && SourceProgram(b) && Comparable(p, q) && Comparable(p', q')
    requires TaintedDefs(Convert(a).statements).Some? && TaintedDefs(Convert(b).statements).Some?
    requires memory ==> !TaintedDefs(Convert(a).statements).value.memory && !TaintedDefs(Convert(b).statements).value.memory
    ensures Differ(a, b, arch, memory, m, m0, p, j, p', k) ==> Differ(a, b, arch, memory, m, m0, q, j', q', k')
  {
    hide SourceProgram, TaintedDefs, Exec, Convert, FinalDefs, KeyValue, StartEnv, MemoriesDiffer, IsSource;
    var ta, tb := TaintedDefs(Convert(a).statements).value, TaintedDefs(Convert(b).statements).value;
    var st := State(StartEnv(arch, m), m0);
    var sa, sb, ua, ub := SideRun(a, arch, m, m0, p, j), SideRun(b, arch, m, m0, p', k), SideRun(a, arch, m, m0, q, j'), SideRun(b, arch, m, m0, q', k');
    if FinalsDiffer(a, b, arch, m, sa, sb) {
      var x, y :| ComparedOn(a, SideA, arch, x) && ComparedOn(b, SideB, arch, y) && KeyOf(arch, x) == KeyOf(arch, y)
        && KeyValue(arch, m, x, Get(sa.env, x)) != KeyValue(arch, m, y, Get(sb.env, y));
      UntaintedFinal(a, ta, st, p, j, q, j', x);
      UntaintedFinal(b, tb, st, p', k, q', k', y);
      assert FinalsDiffer(a, b, arch, m, ua, ub);
    }
    if memory {
      UntaintedMemory(a, ta, st, p, j, q, j');
      UntaintedMemory(b, tb, st, p', k, q', k');
    }
  }

  // ---- The value of the condition ----

  lemma SidedVal(def: Var, side: Side, env: Env, sem: Sem, k: nat, v: nat)
    requires def.name.Versioned? && Get(env, Sided(side, def.name.base, def.name.version)) == v && v < Pow2(def.bits)
    ensures Eval(Ref(SidedVar(def, side)), env, sem, k) == v && Width(Ref(SidedVar(def, side))) == def.bits
  {
    hide Pow2;
    SmallMod(v, Pow2(def.bits));
  }

  lemma ParentValue(def: Var, side: Side, l: Layout, bits: nat, env: Env, sem: Sem, k: nat, v: nat)
    requires def.name.Versioned? && Get(env, Sided(side, def.name.base, def.name.version)) == v && v < Pow2(def.bits)
    requires l.lo <= l.hi < U16 && bits > 0 && (l.lo > 0 ==> l.hi < bits) && ParentSpaceValue(def, side, l, bits).Some?
    ensures
      var e := ParentSpaceValue(def, side, l, bits).value;
      Eval(e, env, sem, k) == RegisterAfter(l, bits, Val(env, Var(l.parent, bits)), v) && Count(e) == 0
  {
    SidedVal(def, side, env, sem, k, v);
    hide Pow2, Put, Val, Rebuild;
    var piece := Ref(SidedVar(def, side));
    if l.zeroExtends || (l.lo == 0 && l.hi + 1 >= bits) {
      CoerceValue(piece, bits, env, sem, k);
    } else {
      CoerceValue(piece, ViewWidth(l), env, sem, k);
      hide Eval, Width, Count;
      RebuildValue(Var(l.parent, bits), l.lo, l.hi, Coerce(piece, def.bits, ViewWidth(l)), env, sem, k);
    }
  }

  /** `last` holds the shared state `m` and, under their own names, the final
      values of the side that ended in `st`. */
  ghost predicate Reflects(last: Env, side: Side, arch: Arch, latest: map<Name, nat>, m: Env, st: State) {
    (forall x {:trigger Get(m, x)} :: IsSource(x) ==> Get(last, x) == Get(m, x))
    && (forall x {:trigger x in latest} :: x in latest ==> Get(last, Sided(side, x, latest[x])) == Get(st.env, x))
  }

  lemma FinalValue(ss: seq<Stmt>, side: Side, arch: Arch, x: Name, last: Env, m: Env, st: State, sem: Sem, k: nat)
    requires SourceProgram(ss) && Lawful(arch) && x in FinalDefs(Convert(ss).defs)
    requires FinalExpr(arch, FinalDefs(Convert(ss).defs), side, x).Some?
    requires Reflects(last, side, arch, Convert(ss).latest, m, st)
    requires Get(st.env, x) < Pow2(FinalDefs(Convert(ss).defs)[x].bits)
    ensures
      var e := FinalExpr(arch, FinalDefs(Convert(ss).defs), side, x).value;
      Eval(e, last, sem, k) == KeyValue(arch, m, x, Get(st.env, x)) && Count(e) == 0
  {
    hide Convert, SourceProgram, Pow2, FinalDefs, RegisterAfter, Eval, ParentSpaceValue, IsSource;
    FinalDefsAreLatest(ss);
    var def := FinalDefs(Convert(ss).defs)[x];
    assert x in Convert(ss).latest;
    if x in COMPARABLE_FLAGS || x !in arch.layouts {
      SidedVal(def, side, last, sem, k, Get(st.env, x));
    } else {
      var l := arch.layouts[x];
      ParentValue(def, side, l, ParentWidth(arch, l.parent), last, sem, k, Get(st.env, x));
      assert Get(last, l.parent) == Get(m, l.parent);
    }
  }

  ghost predicate SomeNonzero(terms: seq<Expr>, env: Env, sem: Sem, k: nat) {
    exists i :: 0 <= i < |terms| && Eval(terms[i], env, sem, k) != 0
  }

  predicate NoUnknowns(terms: seq<Expr>) {
    forall i :: 0 <= i < |terms| ==> Count(terms[i]) == 0
  }

  lemma {:induction false} DisjunctionValue(terms: seq<Expr>, env: Env, sem: Sem, k: nat)
    requires terms != [] && NoUnknowns(terms)
    ensures var d := Disjunction(terms).value; Count(d) == 0 && (Eval(d, env, sem, k) != 0 <==> SomeNonzero(terms, env, sem, k))
    decreases |terms|
  {
    hide Eval, Count;
    if |terms| > 1 {
      var p, t := terms[..|terms| - 1], terms[|terms| - 1];
      DisjunctionValue(p, env, sem, k);
      OrValue(Disjunction(p).value, t, env, sem, k);
      if SomeNonzero(terms, env, sem, k) && Eval(t, env, sem, k) == 0 {
        var i :| 0 <= i < |terms| && Eval(terms[i], env, sem, k) != 0;
        assert p[i] == terms[i];
      }
      if SomeNonzero(p, env, sem, k) {
        var i :| 0 <= i < |p| && Eval(p[i], env, sem, k) != 0;
        assert terms[i] == p[i];
      }
    }
  }

  lemma OrValue(x: Expr, y: Expr, env: Env, sem: Sem, k: nat)
    requires Count(x) == 0 && Count(y) == 0
    ensures Count(Bin(BoolOr, x, y)) == 0
    ensures Eval(Bin(BoolOr, x, y), env, sem, k) != 0 <==> Eval(x, env, sem, k) != 0 || Eval(y, env, sem, k) != 0
  {
    hide Eval, Count, Width, Pow2;
    BinParts(BoolOr, x, y, env, sem, k);
  }

  lemma NeValue(x: Expr, y: Expr, env: Env, sem: Sem, k: nat)
    requires Count(x) == 0 && Count(y) == 0
    ensures Count(Bin(Ne, x, y)) == 0
    ensures Eval(Bin(Ne, x, y), env, sem, k) != 0 <==> Eval(x, env, sem, k) != Eval(y, env, sem, k)
  {
    hide Eval, Count, Width, Pow2;
    BinParts(Ne, x, y, env, sem, k);
  }

  ghost predicate KeyDiffers(fa: map<Name, Expr>, fb: map<Name, Expr>, key: Name, env: Env, sem: Sem, k: nat) {
    key in fa && key in fb && Eval(fa[key], env, sem, k) != Eval(fb[key], env, sem, k)
  }

  predicate QuietMap(f: map<Name, Expr>) {
    forall key {:trigger f[key]} :: key in f ==> Count(f[key]) == 0
  }

  lemma {:induction false} TermsValue(fa: map<Name, Expr>, fb: map<Name, Expr>, keys: seq<Name>, env: Env, sem: Sem, k: nat)
    requires QuietMap(fa) && QuietMap(fb)
    ensures NoUnknowns(Terms(fa, fb, keys))
    ensures SomeNonzero(Terms(fa, fb, keys), env, sem, k) <==> exists key :: key in keys && KeyDiffers(fa, fb, key, env, sem, k)
    decreases |keys|
  {
    hide Eval, Count;
    if keys != [] {
      var rest, key := keys[..|keys| - 1], keys[|keys| - 1];
      var p, t := Terms(fa, fb, rest), Terms(fa, fb, keys);
      TermsValue(fa, fb, rest, env, sem, k);
      assert forall z :: z in keys <==> z in rest || z == key;
      assert (exists z :: z in keys && KeyDiffers(fa, fb, z, env, sem, k)) <==>
        (exists z :: z in rest && KeyDiffers(fa, fb, z, env, sem, k)) || KeyDiffers(fa, fb, key, env, sem, k);
      if key in fa && key in fb {
        NeValue(fa[key], fb[key], env, sem, k);
        SomeSnoc(p, Bin(Ne, fa[key], fb[key]), env, sem, k);
        assert t == p + [Bin(Ne, fa[key], fb[key])];
      }
    }
  }

  lemma SomeSnoc(p: seq<Expr>, t: Expr, env: Env, sem: Sem, k: nat)
    ensures SomeNonzero(p + [t], env, sem, k) <==> SomeNonzero(p, env, sem, k) || Eval(t, env, sem, k) != 0
  {
    hide Eval;
    var q := p + [t];
    if SomeNonzero(p, env, sem, k) {
      var i :| 0 <= i < |p| && Eval(p[i], env, sem, k) != 0;
      assert q[i] == p[i];
    }
    assert q[|p|] == t;
  }

  lemma {:induction false} ProbeTermsValue(probes: seq<(Var, Var)>, env: Env, sem: Sem, k: nat)
    ensures NoUnknowns(ProbeTerms(probes))
    ensures SomeNonzero(ProbeTerms(probes), env, sem, k) <==> ProbesDiffer(probes, env)
    decreases |probes|
  {
    hide Val;
    if probes != [] {
      var rest, p := probes[..|probes| - 1], probes[|probes| - 1];
      ProbeTermsValue(rest, env, sem, k);
      RefValue(p.0, env, sem, k);
      RefValue(p.1, env, sem, k);
      hide Eval, Count;
      NeValue(Ref(p.0), Ref(p.1), env, sem, k);
      SomeSnoc(ProbeTerms(rest), Bin(Ne, Ref(p.0), Ref(p.1)), env, sem, k);
      ProbesSnoc(rest, p, env);
    }
  }

  lemma RefValue(v: Var, env: Env, sem: Sem, k: nat)
    ensures Eval(Ref(v), env, sem, k) == Val(env, v) && Count(Ref(v)) == 0
  {
  }

  lemma ProbesSnoc(rest: seq<(Var, Var)>, p: (Var, Var), env: Env)
    ensures ProbesDiffer(rest + [p], env) <==> ProbesDiffer(rest, env) || Val(env, p.0) != Val(env, p.1)
  {
    hide Val;
    var q := rest + [p];
    if ProbesDiffer(rest, env) {
      var i :| 0 <= i < |rest| && Val(env, rest[i].0) != Val(env, rest[i].1);
      assert q[i] == rest[i];
    }
    assert q[|rest|] == p;
  }

  lemma SomeConcat(p: seq<Expr>, q: seq<Expr>, env: Env, sem: Sem, k: nat)
    ensures SomeNonzero(p + q, env, sem, k) <==> SomeNonzero(p, env, sem, k) || SomeNonzero(q, env, sem, k)
  {
    hide Eval;
    if SomeNonzero(p, env, sem, k) {
      var i :| 0 <= i < |p| && Eval(p[i], env, sem, k) != 0;
      assert (p + q)[i] == p[i];
    }
    if SomeNonzero(q, env, sem, k) {
      var i :| 0 <= i < |q| && Eval(q[i], env, sem, k) != 0;
      assert (p + q)[|p| + i] == q[i];
    }
  }

  /** The condition holds exactly when some key or some probe differs. */
  lemma ConditionValue(fa: map<Name, Expr>, fb: map<Name, Expr>, probes: seq<(Var, Var)>, keys: seq<Name>, env: Env, sem: Sem, k: nat)
    requires QuietMap(fa) && QuietMap(fb) && (set key | key in keys) == fa.Keys && DifferCondition(fa, fb, probes, keys).Some?
    ensures
      Eval(DifferCondition(fa, fb, probes, keys).value, env, sem, k) != 0 <==>
      (exists key :: KeyDiffers(fa, fb, key, env, sem, k)) || ProbesDiffer(probes, env)
  {
    hide Eval, Count, Disjunction, ProbesDiffer, QuietMap;
    var p, q := Terms(fa, fb, keys), ProbeTerms(probes);
    TermsValue(fa, fb, keys, env, sem, k);
    ProbeTermsValue(probes, env, sem, k);
    SomeConcat(p, q, env, sem, k);
    assert p + q != [] by { EmptyDisjunction(p + q); }
    BothQuiet(p, q);
    DisjunctionValue(p + q, env, sem, k);
    assert forall key :: key in keys <==> key in (set z | z in keys);
  }

  lemma EmptyDisjunction(terms: seq<Expr>)
    ensures Disjunction(terms).None? <==> terms == []
  {
  }

  lemma BothQuiet(p: seq<Expr>, q: seq<Expr>)
    requires NoUnknowns(p) && NoUnknowns(q)
    ensures NoUnknowns(p + q)
  {
    hide Count;
  }
}
