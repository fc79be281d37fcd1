/** The two renamed sides together are SSA, mention nothing the memory pass mints,
    and do not touch each other's names. */
module Sides {
  import opened Bits
  import opened Common
  import opened Ir
  import opened Ssa
  import opened SsaForm
  import opened Layouts
  import opened Namespace
  import opened Taint
  import MemElim
  import MemTrace

  /** A side's names: the shared state, or its own versions defined so far. */
  predicate OwnNames(names: set<Name>, side: Side, latest: map<Name, nat>) {
    forall x :: x in names ==>
      IsSource(x) || (x.Sided? && x.side == side && x.base in latest && x.version <= latest[x.base])
  }

  lemma {:induction false} NamespaceReads(e: Expr, side: Side, arch: Arch, depth: nat, latest: map<Name, nat>)
    requires Lawful(arch) && SourceExpr(e) && NamespaceExpr(RenameReads(e, latest), side, arch, depth).Some?
    ensures OwnNames(Reads(NamespaceExpr(RenameReads(e, latest), side, arch, depth).value), side, latest)
    decreases e
  {
    hide Substitute, Lawful;
    match e
    case Ref(v) => SubstituteReads(v, side, arch, latest);
    case Const(_, _) =>
    case FpConst(_, _, _) =>
    case Unknown(_) =>
    case Un(op, a) => NamespaceReads(a, side, arch, depth + 1, latest);
    case Bin(op, a, b) =>
      NamespaceReads(a, side, arch, depth + 1, latest);
      NamespaceReads(b, side, arch, depth + 1, latest);
    case Ite(c, t, f) =>
      NamespaceReads(c, side, arch, depth + 1, latest);
      NamespaceReads(t, side, arch, depth + 1, latest);
      NamespaceReads(f, side, arch, depth + 1, latest);
  }

  lemma SubstituteReads(v: Var, side: Side, arch: Arch, latest: map<Name, nat>)
    requires Lawful(arch) && IsSource(v.name)
    ensures OwnNames(Reads(Substitute(Var(Current(latest, v.name), v.bits), side, arch)), side, latest)
  {
    var e := Substitute(Var(Current(latest, v.name), v.bits), side, arch);
    if v.name in latest {
      assert Reads(e) == {Sided(side, v.name, latest[v.name])};
    } else if v.name !in arch.layouts || arch.layouts[v.name].hi >= ParentWidth(arch, arch.layouts[v.name].parent) {
      assert Reads(e) == {v.name};
    } else {
      var l := arch.layouts[v.name];
      var parent := Var(l.parent, ParentWidth(arch, l.parent));
      CoerceNames(Ref(parent), parent.bits, v.bits);
      CoerceNames(Un(Extract(l.hi, l.lo), Ref(parent)), ViewWidth(l), v.bits);
      assert Reads(Ref(parent)) == {l.parent} && Reads(Un(Extract(l.hi, l.lo), Ref(parent))) == {l.parent};
    }
  }

  lemma {:induction false} OwnReadsBelow(e: Expr, side: Side, latest: map<Name, nat>)
    requires OwnNames(Reads(e), side, latest)
    ensures MemElim.ReadsBelow(e, 0)
    decreases e
  {
    match e
    case Ref(v) => assert v.name in Reads(e);
    case Const(_, _) =>
    case FpConst(_, _, _) =>
    case Unknown(_) =>
    case Un(op, a) => OwnReadsBelow(a, side, latest);
    case Bin(op, a, b) => OwnReadsBelow(a, side, latest); OwnReadsBelow(b, side, latest);
    case Ite(c, t, f) => OwnReadsBelow(c, side, latest); OwnReadsBelow(t, side, latest); OwnReadsBelow(f, side, latest);
  }

  /** What one renamed statement reads and defines. */
  lemma StepNames(s: Ssa, x: Stmt, side: Side, arch: Arch)
    requires Lawful(arch) && SourceStmt(x) && NamespaceStmt(Renamed(s, x), side, arch).Some?
    ensures
      var y := NamespaceStmt(Renamed(s, x), side, arch).value;
      && OwnNames(ReadsOf(y), side, s.latest) && MemTrace.InputStmt(y)
      && DstOf(y) == (if x.Assign? || x.LoadMem? then {Sided(side, x.dst.name, NextVersion(s.latest, x.dst.name))} else {})
      && (x.Assign? || x.LoadMem? ==> IsSource(x.dst.name) && SsaStep(s, x).latest == s.latest[x.dst.name := NextVersion(s.latest, x.dst.name)])
      && (!x.Assign? && !x.LoadMem? ==> SsaStep(s, x).latest == s.latest)
  {
    hide Lawful, SourceExpr, RenameReads, NamespaceExpr, Reads, MemElim.ReadsBelow, OwnNames, AddInputs;
    match x
    case Assign(dst, rhs) =>
      NamespaceReads(rhs, side, arch, 0, s.latest);
      OwnReadsBelow(NamespaceExpr(RenameReads(rhs, s.latest), side, arch, 0).value, side, s.latest);
    case LoadMem(dst, address, bits) =>
      NamespaceReads(address, side, arch, 0, s.latest);
      OwnReadsBelow(NamespaceExpr(RenameReads(address, s.latest), side, arch, 0).value, side, s.latest);
    case StoreMem(address, value, bits) =>
      NamespaceReads(address, side, arch, 0, s.latest);
      NamespaceReads(value, side, arch, 0, s.latest);
      var p, q := NamespaceExpr(RenameReads(address, s.latest), side, arch, 0).value, NamespaceExpr(RenameReads(value, s.latest), side, arch, 0).value;
      OwnReadsBelow(p, side, s.latest);
      OwnReadsBelow(q, side, s.latest);
      OwnUnion(Reads(p), Reads(q), side, s.latest);
    case Unsupported => OwnNothing(side, s.latest);
    case Nop => OwnNothing(side, s.latest);
  }

  lemma OwnNothing(side: Side, latest: map<Name, nat>)
    ensures OwnNames({}, side, latest)
  {
  }

  lemma OwnUnion(p: set<Name>, q: set<Name>, side: Side, latest: map<Name, nat>)
    requires OwnNames(p, side, latest) && OwnNames(q, side, latest)
    ensures OwnNames(p + q, side, latest)
  {
  }

  lemma OwnLater(names: set<Name>, side: Side, latest: map<Name, nat>, x: Name)
    requires OwnNames(names, side, latest)
    ensures OwnNames(names, side, latest[x := NextVersion(latest, x)])
  {
  }

  lemma OwnDst(side: Side, latest: map<Name, nat>, x: Name)
    ensures OwnNames({Sided(side, x, NextVersion(latest, x))}, side, latest[x := NextVersion(latest, x)])
  {
  }

  /** No name of `names` is one of this side's versions. */
  predicate NotSided(names: set<Name>, side: Side) {
    forall x :: x in names ==> !(x.Sided? && x.side == side)
  }

  /** After `pre`, which this side has no name in, its statements keep SSA form. */
  lemma {:induction false} LoweredIsSsa(pre: seq<Stmt>, ss: seq<Stmt>, side: Side, arch: Arch)
    requires Lawful(arch) && SourceProgram(ss) && Lowered(ss, side, arch).Some?
    requires IsSsa(pre) && NotSided(Defined(pre) + ReadBy(pre), side)
    ensures
      var out, latest := Lowered(ss, side, arch).value, Convert(ss).latest;
      && IsSsa(pre + out) && MemTrace.InputProgram(out)
      && OwnNames(Defined(out), side, latest) && OwnNames(ReadBy(out), side, latest)
      && Defined(pre + out) == Defined(pre) + Defined(out) && ReadBy(pre + out) == ReadBy(pre) + ReadBy(out)
    decreases |ss|
  {
    hide Lawful, SsaStep, Renamed, NamespaceStmt, SourceStmt, Lowered, IsSsa, OwnNames, NotSided, DstOf, ReadsOf, Defined, ReadBy, MemTrace.InputStmt;
    if ss == [] {
      LoweredNothing(side, arch);
      assert pre + [] == pre;
      EmptyNames(side);
    } else {
      var p, x := ss[..|ss| - 1], ss[|ss| - 1];
      LoweredSnoc(ss, side, arch);
      LoweredIsSsa(pre, p, side, arch);
      var q, y := Lowered(p, side, arch).value, NamespaceStmt(Renamed(Convert(p), x), side, arch).value;
      assert pre + (q + [y]) == (pre + q) + [y];
      IsSsaAppend(pre + q, y);
      IsSsaAppend(q, y);
      StepNames(Convert(p), x, side, arch);
      StepIsSsa(pre, q, x, y, side, Convert(p).latest);
    }
  }

  lemma EmptyNames(side: Side)
    ensures Defined([]) == {} && ReadBy([]) == {} && OwnNames({}, side, map[])
  {
  }

  lemma StepIsSsa(pre: seq<Stmt>, q: seq<Stmt>, x: Stmt, y: Stmt, side: Side, latest: map<Name, nat>)
    requires NotSided(Defined(pre) + ReadBy(pre), side)
    requires OwnNames(Defined(q), side, latest) && OwnNames(ReadBy(q), side, latest) && OwnNames(ReadsOf(y), side, latest)
    requires DstOf(y) == if x.Assign? || x.LoadMem? then {Sided(side, x.dst.name, NextVersion(latest, x.dst.name))} else {}
    ensures forall z :: z in DstOf(y) ==>
      z !in Defined(pre) + Defined(q) && z !in ReadBy(pre) + ReadBy(q) && z !in ReadsOf(y)
    ensures
      var latest' := if x.Assign? || x.LoadMem? then latest[x.dst.name := NextVersion(latest, x.dst.name)] else latest;
      OwnNames(Defined(q) + DstOf(y), side, latest') && OwnNames(ReadBy(q) + ReadsOf(y), side, latest')
  {
    hide Defined, ReadBy, ReadsOf, DstOf;
    if x.Assign? || x.LoadMem? {
      OwnLater(Defined(q), side, latest, x.dst.name);
      OwnLater(ReadBy(q), side, latest, x.dst.name);
      OwnLater(ReadsOf(y), side, latest, x.dst.name);
      OwnDst(side, latest, x.dst.name);
    }
  }

  /** Both sides together, ready for the memory pass. */
  lemma SidesAreSsa(a: seq<Stmt>, b: seq<Stmt>, arch: Arch)
    requires Lawful(arch) && SourceProgram(a) && SourceProgram(b)
    requires Lowered(a, SideA, arch).Some? && Lowered(b, SideB, arch).Some?
    ensures
      var la, lb := Lowered(a, SideA, arch).value, Lowered(b, SideB, arch).value;
      IsSsa(la) && IsSsa(la + lb) && MemTrace.InputProgram(la) && MemTrace.InputProgram(lb)
  {
    hide Lawful, SourceProgram, Lowered, MemTrace.InputProgram;
    var la := Lowered(a, SideA, arch).value;
    LoweredIsSsa([], a, SideA, arch);
    assert [] + la == la;
    OwnIsOther(Defined(la), ReadBy(la), Convert(a).latest);
    LoweredIsSsa(la, b, SideB, arch);
  }

  lemma OwnIsOther(p: set<Name>, q: set<Name>, latest: map<Name, nat>)
    requires OwnNames(p, SideA, latest) && OwnNames(q, SideA, latest)
    ensures NotSided(p + q, SideB)
  {
  }

  // ---- A side leaves the rest alone ----

  /** Names that are not `side`'s versions hold the same. */
  ghost predicate SameOutside(side: Side, env: Env, env': Env) {
    forall x: Name {:trigger Get(env, x)} :: !(x.Sided? && x.side == side) ==> Get(env, x) == Get(env', x)
  }

  lemma {:induction false} LoweredKeepsOutside(ss: seq<Stmt>, side: Side, arch: Arch, st: State, sem: Sem, k: nat)
    requires Lawful(arch) && SourceProgram(ss) && Lowered(ss, side, arch).Some?
    ensures SameOutside(side, st.env, Exec(Lowered(ss, side, arch).value, st, sem, k).env)
    decreases |ss|
  {
    hide Lawful, SsaStep, Renamed, NamespaceStmt, SourceStmt, Lowered, CountStmt, Eval, Cut, DstOf, LoadValue, StoreValue;
    if ss == [] {
      LoweredNothing(side, arch);
    } else {
      var p, x := ss[..|ss| - 1], ss[|ss| - 1];
      LoweredSnoc(ss, side, arch);
      LoweredKeepsOutside(p, side, arch, st, sem, k);
      var q, y := Lowered(p, side, arch).value, NamespaceStmt(Renamed(Convert(p), x), side, arch).value;
      ExecAppend(q, y, st, sem, k);
      StepNames(Convert(p), x, side, arch);
      StepKeepsOutside(y, side, x, Convert(p).latest, Exec(q, st, sem, k), sem, k + CountStmts(q));
      OutsideTrans(side, st.env, Exec(q, st, sem, k).env, Step(y, Exec(q, st, sem, k), sem, k + CountStmts(q)).env);
    }
  }

  lemma StepKeepsOutside(y: Stmt, side: Side, x: Stmt, latest: map<Name, nat>, st: State, sem: Sem, k: nat)
    requires DstOf(y) == if x.Assign? || x.LoadMem? then {Sided(side, x.dst.name, NextVersion(latest, x.dst.name))} else {}
    ensures SameOutside(side, st.env, Step(y, st, sem, k).env)
  {
    hide Eval, Cut, LoadValue, StoreValue;
    if y.Assign? || y.LoadMem? { assert y.dst.name in DstOf(y); }
  }

  lemma OutsideTrans(side: Side, env: Env, env': Env, env'': Env)
    requires SameOutside(side, env, env') && SameOutside(side, env', env'')
    ensures SameOutside(side, env, env'')
  {
    forall x: Name | !(x.Sided? && x.side == side) ensures Get(env, x) == Get(env'', x) {
      assert Get(env', x) == Get(env'', x);
    }
  }
}
