/** The query construction as it runs, proved to build the query defined beside it. */
module EquivBuild {
  import opened Common
  import opened Ir
  import opened Ssa
  import opened Layouts
  import opened Namespace
  import opened Taint
  import opened EquivQuery
  import opened EquivFinals
  import MemCaps
  import MemElim
  import MemPass

  method ComputeFinalDefs(defs: seq<Var>) returns (finals: map<Name, Var>)
    ensures finals == FinalDefs(defs)
  {
    finals := map[];
    for i := 0 to |defs|
      invariant finals == FinalDefs(defs[..i])
    {
      assert defs[..i + 1][..i] == defs[..i];
      if defs[i].name.Versioned? { finals := finals[defs[i].name.base := defs[i]]; }
    }
    assert defs[..|defs|] == defs;
  }

  lemma KeysSnoc(keys: seq<Name>, key: Name)
    ensures (set k | k in keys + [key]) == (set k | k in keys) + {key}
  {
  }

  lemma TermsOfSnoc(fa: map<Name, Expr>, fb: map<Name, Expr>, keys: seq<Name>, key: Name)
    requires key in fa
    ensures Terms(fa, fb, keys + [key]) == Terms(fa, fb, keys) + if key in fb then [Bin(Ne, fa[key], fb[key])] else []
  {
    assert (keys + [key])[..|keys|] == keys;
  }

  lemma ProbeTermsSnoc(probes: seq<(Var, Var)>, i: nat)
    requires i < |probes|
    ensures ProbeTerms(probes[..i + 1]) == ProbeTerms(probes[..i]) + [Bin(Ne, Ref(probes[i].0), Ref(probes[i].1))]
  {
    assert probes[..i + 1][..i] == probes[..i];
  }

  lemma NoTerms(fa: map<Name, Expr>, fb: map<Name, Expr>, probes: seq<(Var, Var)>)
    ensures Terms(fa, fb, []) == [] && ProbeTerms(probes[..0]) == []
  {
  }

  /** The disjunction of every comparison, register keys first. */
  method Condition(fa: map<Name, Expr>, fb: map<Name, Expr>, probes: seq<(Var, Var)>) returns (r: Option<Expr>, ghost keys: seq<Name>)
    ensures r == DifferCondition(fa, fb, probes, keys) && (set key | key in keys) == fa.Keys
  {
    hide Terms, ProbeTerms, Disjunction;
    NoTerms(fa, fb, probes);
    keys := [];
    var terms: seq<Expr> := [];
    var todo := fa.Keys;
    while todo != {}
      invariant todo <= fa.Keys && (set key | key in keys) == fa.Keys - todo && terms == Terms(fa, fb, keys)
      decreases |todo|
    {
      var key :| key in todo;
      todo := todo - {key};
      KeysSnoc(keys, key);
      TermsOfSnoc(fa, fb, keys, key);
      keys := keys + [key];
      if key in fb { terms := terms + [Bin(Ne, fa[key], fb[key])]; }
    }
    ghost var registers := terms;
    for i := 0 to |probes|
      invariant terms == registers + ProbeTerms(probes[..i])
    {
      ProbeTermsSnoc(probes, i);
      terms := terms + [Bin(Ne, Ref(probes[i].0), Ref(probes[i].1))];
    }
    assert probes[..|probes|] == probes;
    r := FoldOr(terms);
  }

  method FoldOr(terms: seq<Expr>) returns (r: Option<Expr>)
    ensures r == Disjunction(terms)
  {
    if terms == [] {
      return None;
    }
    var acc := terms[0];
    for i := 1 to |terms|
      invariant Disjunction(terms[..i]) == Some(acc)
    {
      assert terms[..i + 1][..i] == terms[..i];
      acc := Bin(BoolOr, acc, terms[i]);
    }
    assert terms[..|terms|] == terms;
    return Some(acc);
  }

  /** What one side contributes, or `None` when it cannot be compared. */
  method Prepare(ss: seq<Stmt>, side: Side, arch: Arch) returns (ssa: Ssa, r: Option<(Taint, seq<Stmt>, map<Name, Expr>)>)
    requires Lawful(arch)
    ensures ssa == Convert(ss)
    ensures r.None? <==> !Modelled(ss) || TaintedDefs(ssa.statements).None? || Lowered(ss, side, arch).None?
    ensures r.Some? ==>
      && TaintedDefs(ssa.statements) == Some(r.value.0) && Lowered(ss, side, arch) == Some(r.value.1)
      && IsFinals(arch, FinalDefs(ssa.defs), r.value.0.defs, side, r.value.2)
  {
    hide Convert, TaintedDefs, NamespaceAll, IsFinals, FinalDefs;
    ssa := SsaConvert(ss);
    if exists i :: 0 <= i < |ss| && ss[i].Unsupported? {
      return ssa, None;
    }
    var taint := ComputeTaint(ssa.statements);
    var lowered := NamespaceSide(ssa.statements, side, arch);
    if taint.None? || lowered.None? {
      return ssa, None;
    }
    var finals := ComputeFinalDefs(ssa.defs);
    var projected := CanonicalFinals(arch, finals, taint.value.defs, side);
    return ssa, Some((taint.value, lowered.value, projected));
  }

  // ---- Whether there is a query does not depend on the orders taken ----

  lemma AnyOrder(la: seq<Stmt>, lb: seq<Stmt>, ptr: nat, enabled: bool, order: seq<Var>, order': seq<Var>)
    requires MemElim.Lists(order, MemElim.Written(la, lb, ptr)) && MemElim.Lists(order', MemElim.Written(la, lb, ptr))
    ensures
      var r, r' := MemElim.Eliminate(la, lb, ptr, enabled, order), MemElim.Eliminate(la, lb, ptr, enabled, order');
      (r.Some? <==> r'.Some?) && (r.Some? ==> |r.value.probes| == |r'.value.probes|)
  {
    hide MemElim.Eliminate, MemElim.Lists, MemElim.Written;
    MemCaps.EliminatesIff(la, lb, ptr, enabled, order);
    MemCaps.EliminatesIff(la, lb, ptr, enabled, order');
  }

  /** A side speaks of its finals in one way only. */
  lemma OneFinals(arch: Arch, finals: map<Name, Var>, tainted: set<Name>, side: Side, out: map<Name, Expr>, out': map<Name, Expr>)
    requires IsFinals(arch, finals, tainted, side, out) && IsFinals(arch, finals, tainted, side, out')
    ensures out == out'
  {
    hide Speaks, KeyOf, FinalExpr;
    forall key ensures key in out <==> key in out' { }
    forall key | key in out ensures out[key] == out'[key] { }
  }

  lemma {:induction false} NoTermsIff(fa: map<Name, Expr>, fb: map<Name, Expr>, keys: seq<Name>)
    ensures Terms(fa, fb, keys) == [] <==> forall key :: key in keys ==> !(key in fa && key in fb)
    decreases |keys|
  {
    if keys != [] {
      assert keys == keys[..|keys| - 1] + [keys[|keys| - 1]];
      NoTermsIff(fa, fb, keys[..|keys| - 1]);
    }
  }

  /** There is something to compare unless the sides share no key and nothing is probed. */
  lemma SilentIff(fa: map<Name, Expr>, fb: map<Name, Expr>, probes: seq<(Var, Var)>, keys: seq<Name>)
    requires (set key | key in keys) == fa.Keys
    ensures DifferCondition(fa, fb, probes, keys).None? <==> fa.Keys !! fb.Keys && probes == []
  {
    NoTermsIff(fa, fb, keys);
    hide Terms;
    assert forall key :: key in keys <==> key in fa.Keys;
    assert ProbeTerms(probes) == [] <==> probes == [];
    hide ProbeTerms;
  }

  /** Had some order of probes and keys made a query, this one would have too. */
  lemma NoOtherQuery(a: seq<Stmt>, b: seq<Stmt>, arch: Arch, addrs: seq<Var>, keys: seq<Name>, fa: map<Name, Expr>, fb: map<Name, Expr>,
                     addrs': seq<Var>, keys': seq<Name>, fa': map<Name, Expr>, fb': map<Name, Expr>, q: Query)
    requires IsQuery(a, b, arch, addrs', keys', fa', fb', q)
    requires
      var sa, sb, ta, tb, la, lb := Convert(a), Convert(b), TaintedDefs(Convert(a).statements), TaintedDefs(Convert(b).statements),
        Lowered(a, SideA, arch), Lowered(b, SideB, arch);
      && ta.Some? && tb.Some? && la.Some? && lb.Some?
      && IsFinals(arch, FinalDefs(sa.defs), ta.value.defs, SideA, fa) && IsFinals(arch, FinalDefs(sb.defs), tb.value.defs, SideB, fb)
      && MemElim.Lists(addrs, MemElim.Written(la.value, lb.value, arch.ptr))
    ensures
      var plan := MemElim.Eliminate(Lowered(a, SideA, arch).value, Lowered(b, SideB, arch).value, arch.ptr,
        MemoryEnabled(Convert(a), Convert(b), TaintedDefs(Convert(a).statements).value, TaintedDefs(Convert(b).statements).value, arch), addrs);
      plan.Some? && ((set key | key in keys) == fa.Keys ==> DifferCondition(fa, fb, plan.value.probes, keys).Some?)
  {
    hide Convert, TaintedDefs, Lowered, IsFinals, FinalDefs, MemElim.Eliminate, MemElim.Written, MemElim.Lists, DifferCondition, LacksSimdModel, Modelled,
         NoneInputs, MemoryEnabled;
    var sa, sb, la, lb := Convert(a), Convert(b), Lowered(a, SideA, arch).value, Lowered(b, SideB, arch).value;
    var ta, tb := TaintedDefs(sa.statements).value, TaintedDefs(sb.statements).value;
    OneFinals(arch, FinalDefs(sa.defs), ta.defs, SideA, fa, fa');
    OneFinals(arch, FinalDefs(sb.defs), tb.defs, SideB, fb, fb');
    var enabled := MemoryEnabled(sa, sb, ta, tb, arch);
    AnyOrder(la, lb, arch.ptr, enabled, addrs, addrs');
    var plan, plan' := MemElim.Eliminate(la, lb, arch.ptr, enabled, addrs), MemElim.Eliminate(la, lb, arch.ptr, enabled, addrs');
    SilentIff(fa', fb', plan'.value.probes, keys');
    if (set key | key in keys) == fa.Keys { SilentIff(fa, fb, plan.value.probes, keys); }
  }

  /** The query for two lowerings of one instruction; `None` exactly when there is none. */
  method BuildEquivalenceQuery(a: seq<Stmt>, b: seq<Stmt>, arch: Arch)
      returns (r: Option<Query>, ghost addrs: seq<Var>, ghost keys: seq<Name>, ghost fa: map<Name, Expr>, ghost fb: map<Name, Expr>)
    requires Lawful(arch)
    ensures r.Some? ==> IsQuery(a, b, arch, addrs, keys, fa, fb, r.value)
    ensures r.None? ==> !HasQuery(a, b, arch)
  {
    hide Convert, TaintedDefs, Lowered, IsFinals, FinalDefs, MemElim.Eliminate, MemElim.Written, MemElim.Lists, DifferCondition, LacksSimdModel, Modelled;
    addrs, keys, fa, fb := [], [], map[], map[];
    var sa, pa := Prepare(a, SideA, arch);
    var sb, pb := Prepare(b, SideB, arch);
    if pa.None? || pb.None? || NoneInputs(sa.inputs, arch) != NoneInputs(sb.inputs, arch) {
      return None, addrs, keys, fa, fb;
    }
    var (ta, la, finalsA) := pa.value;
    var (tb, lb, finalsB) := pb.value;
    fa, fb := finalsA, finalsB;
    var plan;
    plan, addrs := MemPass.Rewrite(la, lb, arch.ptr, MemoryEnabled(sa, sb, ta, tb, arch));
    if plan.None? {
      if HasQuery(a, b, arch) {
        ghost var addrs', keys', fa', fb', q :| IsQuery(a, b, arch, addrs', keys', fa', fb', q);
        NoOtherQuery(a, b, arch, addrs, keys, fa, fb, addrs', keys', fa', fb', q);
      }
      return None, addrs, keys, fa, fb;
    }
    var condition;
    condition, keys := Condition(finalsA, finalsB, plan.value.probes);
    if condition.None? {
      if HasQuery(a, b, arch) {
        ghost var addrs', keys', fa', fb', q :| IsQuery(a, b, arch, addrs', keys', fa', fb', q);
        NoOtherQuery(a, b, arch, addrs, keys, fa, fb, addrs', keys', fa', fb', q);
      }
      return None, addrs, keys, fa, fb;
    }
    return Some(Query(plan.value.statements, condition.value)), addrs, keys, fa, fb;
  }
}
