/** What one side of a comparison is compared on, said of its statements and the
    register tables alone. */
module EquivCompared {
  import opened Bits
  import opened Common
  import opened Ir
  import opened Ssa
  import opened SsaForm
  import opened Layouts
  import opened Namespace
  import opened Taint
  import opened EquivQuery
  import opened EquivMeaning
  import TaintReach

  // ---- The statements of a lowering ----

  predicate Defines(s: Stmt, x: Name) {
    (s.Assign? || s.LoadMem?) && s.dst.name == x
  }

  /** `j` is the last statement before `i` that defines `x`. */
  predicate Supplies(ss: seq<Stmt>, j: int, i: int, x: Name)
    requires i <= |ss|
  {
    0 <= j < i && Defines(ss[j], x) && forall k :: j < k < i ==> !Defines(ss[k], x)
  }

  /** What `j` leaves is what `i` takes: the current value of a name it reads, or
      a write that a load comes after. */
  predicate LeadsTo(ss: seq<Stmt>, j: int, i: int)
    requires 0 <= j < i < |ss|
  {
    (exists x :: x in ReadsOf(ss[i]) && Supplies(ss, j, i, x)) || (ss[j].StoreMem? && ss[i].LoadMem?)
  }

  /** An unknown is in the `i`-th statement, or in one that leads up to it. */
  ghost predicate UnknownReaches(ss: seq<Stmt>, i: int)
    requires 0 <= i < |ss|
    decreases i
  {
    TaintReach.HoldsUnknown(ss[i]) || exists j :: 0 <= j < i && LeadsTo(ss, j, i) && UnknownReaches(ss, j)
  }

  // ---- The definitions that are compared ----

  predicate IsFlag(x: Name) {
    x == Plain("ZF") || x == Plain("CF") || x == Plain("SF")
  }

  /** The last definition of `x` can be compared: no unknown reaches it, it is one
      of the three flags or a laid-out register, and a vector register at the width
      of its own view. */
  ghost predicate Usable(ss: seq<Stmt>, arch: Arch, i: int, x: Name) {
    && Supplies(ss, i, |ss|, x)
    && !UnknownReaches(ss, i)
    && (IsFlag(x) || (x in arch.layouts &&
        var l := arch.layouts[x];
        l.parent in arch.simd ==> ss[i].dst.bits == l.hi - l.lo + 1))
  }

  /** The flag itself, or the register the name is a part of. */
  function Place(arch: Arch, x: Name): Name
    requires IsFlag(x) || x in arch.layouts
  {
    if IsFlag(x) then x else arch.layouts[x].parent
  }

  /** `x` is the only name of its register with a usable last definition. */
  ghost predicate Compared(ss: seq<Stmt>, arch: Arch, x: Name) {
    (exists i :: Usable(ss, arch, i, x))
    && forall j, y :: Usable(ss, arch, j, y) && y != x ==> Place(arch, y) != Place(arch, x)
  }

  // ---- The renamed statements ----

  lemma {:induction false} ConvertShape(ss: seq<Stmt>)
    ensures |Convert(ss).statements| == |ss|
    ensures forall i :: 0 <= i < |ss| ==> Convert(ss).statements[i] == Renamed(Convert(ss[..i]), ss[i])
    decreases |ss|
  {
    hide SsaStep, Renamed;
    if ss != [] {
      var p, s := ss[..|ss| - 1], ss[|ss| - 1];
      ConvertShape(p);
      StepShape(Convert(p), s);
      assert forall i :: 0 <= i < |p| ==> p[..i] == ss[..i];
    }
  }

  lemma LatestStep(ss: seq<Stmt>, n: nat, x: Name)
    requires n < |ss|
    ensures
      var s, t := Convert(ss[..n]).latest, Convert(ss[..n + 1]).latest;
      if Defines(ss[n], x) then x in t && t[x] == NextVersion(s, x) else (x in t <==> x in s) && (x in t ==> t[x] == s[x])
  {
    assert ss[..n + 1][..n] == ss[..n];
    StepFinals(Convert(ss[..n]), ss[n]);
    hide SsaStep, FinalDefs;
  }

  /** The version `i` gave is current exactly until the next definition. */
  lemma {:induction false} LatestSince(ss: seq<Stmt>, i: nat, n: nat, x: Name)
    requires i < n <= |ss| && Defines(ss[i], x)
    ensures
      var s, t := Convert(ss[..i]).latest, Convert(ss[..n]).latest;
      x in t && t[x] >= NextVersion(s, x) && (t[x] == NextVersion(s, x) <==> Supplies(ss, i, n, x))
    decreases n
  {
    hide Convert;
    LatestStep(ss, n - 1, x);
    if i < n - 1 { LatestSince(ss, i, n - 1, x); }
  }

  lemma SuppliesStill(ss: seq<Stmt>, n: nat, m: nat, x: Name)
    requires m == n + 1 <= |ss| && !Defines(ss[n], x)
    ensures (exists i :: Supplies(ss, i, n, x)) <==> exists i :: Supplies(ss, i, m, x)
  {
    if i :| Supplies(ss, i, n, x) { assert Supplies(ss, i, m, x); }
    if i :| Supplies(ss, i, m, x) { assert Supplies(ss, i, n, x); }
  }

  lemma {:induction false} LatestHas(ss: seq<Stmt>, n: nat, x: Name)
    requires n <= |ss|
    ensures x in Convert(ss[..n]).latest <==> exists i :: Supplies(ss, i, n, x)
    decreases n
  {
    if n > 0 {
      hide Convert;
      LatestStep(ss, n - 1, x);
      LatestHas(ss, n - 1, x);
      if Defines(ss[n - 1], x) {
        assert Supplies(ss, n - 1, n, x);
      } else {
        SuppliesStill(ss, n - 1, n, x);
      }
    }
  }

  lemma {:induction false} RenamedReads(e: Expr, latest: map<Name, nat>)
    ensures Reads(RenameReads(e, latest)) == set x | x in Reads(e) :: Current(latest, x)
    ensures Count(RenameReads(e, latest)) == Count(e)
    decreases e
  {
    hide Current;
    match e
    case Un(_, a) => RenamedReads(a, latest);
    case Bin(_, a, b) => RenamedReads(a, latest); RenamedReads(b, latest);
    case Ite(c, t, f) => RenamedReads(c, latest); RenamedReads(t, latest); RenamedReads(f, latest);
    case _ =>
  }

  lemma {:induction false} SourceReads(e: Expr)
    requires SourceExpr(e)
    ensures forall x :: x in Reads(e) ==> IsSource(x)
    decreases e
  {
    hide IsSource;
    match e
    case Un(_, a) => SourceReads(a);
    case Bin(_, a, b) => SourceReads(a); SourceReads(b);
    case Ite(c, t, f) => SourceReads(c); SourceReads(t); SourceReads(f);
    case _ =>
  }

  lemma SourceStatement(s: Stmt)
    requires SourceStmt(s)
    ensures forall x :: x in ReadsOf(s) || Defines(s, x) ==> IsSource(x)
  {
    hide IsSource, SourceExpr;
    match s
    case Assign(_, rhs) => SourceReads(rhs);
    case LoadMem(_, address, _) => SourceReads(address);
    case StoreMem(address, value, _) => SourceReads(address); SourceReads(value);
    case _ =>
  }

  /** What a renamed statement reads, defines and holds. */
  lemma RenamedParts(s: Ssa, x: Stmt)
    ensures ReadsOf(Renamed(s, x)) == set y | y in ReadsOf(x) :: Current(s.latest, y)
    ensures forall y :: Defines(x, y) ==> DstOf(Renamed(s, x)) == {Versioned(y, NextVersion(s.latest, y))}
    ensures (forall y :: !Defines(x, y)) ==> DstOf(Renamed(s, x)) == {}
    ensures TaintReach.HoldsUnknown(Renamed(s, x)) == TaintReach.HoldsUnknown(x)
    ensures Renamed(s, x).StoreMem? == x.StoreMem? && Renamed(s, x).LoadMem? == x.LoadMem?
  {
    hide Current, NextVersion, RenameReads, Reads, Count;
    match x
    case Assign(dst, rhs) => RenamedReads(rhs, s.latest); assert Defines(x, dst.name);
    case LoadMem(dst, address, _) => RenamedReads(address, s.latest); assert Defines(x, dst.name);
    case StoreMem(address, value, _) => RenamedReads(address, s.latest); RenamedReads(value, s.latest);
    case _ =>
  }

  /** Renaming makes a read find exactly the definition it found by position. */
  lemma LeadsIff(ss: seq<Stmt>, j: nat, i: nat)
    requires SourceProgram(ss) && j < i < |ss|
    ensures
      var out := Convert(ss).statements;
      |out| == |ss| && (TaintReach.Feeds(out[j], out[i]) <==> LeadsTo(ss, j, i))
  {
    ConvertShape(ss);
    assert SourceStmt(ss[i]) && SourceStmt(ss[j]);
    SourceStatement(ss[i]);
    SourceStatement(ss[j]);
    var p, q := Convert(ss[..j]), Convert(ss[..i]);
    RenamedParts(p, ss[j]);
    RenamedParts(q, ss[i]);
    hide Convert, Renamed, ReadsOf, DstOf, SourceStmt;
    var out := Convert(ss).statements;
    if name :| name in DstOf(out[j]) && name in ReadsOf(out[i]) {
      var x :| Defines(ss[j], x);
      LatestSince(ss, j, i, x);
    }
    if x :| x in ReadsOf(ss[i]) && Supplies(ss, j, i, x) {
      LatestSince(ss, j, i, x);
      assert Current(q.latest, x) in ReadsOf(out[i]);
    }
  }

  lemma {:induction false} ReachesIff(ss: seq<Stmt>, i: nat)
    requires SourceProgram(ss) && i < |ss|
    ensures |Convert(ss).statements| == |ss|
    ensures TaintReach.Reached(Convert(ss).statements, i) <==> UnknownReaches(ss, i)
    decreases i
  {
    hide Convert, LeadsTo, TaintReach.Feeds, TaintReach.HoldsUnknown;
    ConvertShape(ss);
    RenamedParts(Convert(ss[..i]), ss[i]);
    forall j: nat | j < i
      ensures TaintReach.Reached(Convert(ss).statements, j) <==> UnknownReaches(ss, j)
      ensures TaintReach.Feeds(Convert(ss).statements[j], Convert(ss).statements[i]) <==> LeadsTo(ss, j, i)
    {
      ReachesIff(ss, j);
      LeadsIff(ss, j, i);
    }
  }

  // ---- What is compared ----

  lemma {:induction false} FinalIs(ss: seq<Stmt>, i: nat, n: nat, x: Name)
    requires n <= |ss| && Supplies(ss, i, n, x)
    ensures
      var finals := FinalDefs(Convert(ss[..n]).defs);
      x in finals && finals[x] == Var(Versioned(x, NextVersion(Convert(ss[..i]).latest, x)), ss[i].dst.bits)
    decreases n
  {
    assert ss[..n][..n - 1] == ss[..n - 1];
    StepFinals(Convert(ss[..n - 1]), ss[n - 1]);
    assert Convert(ss[..n]) == SsaStep(Convert(ss[..n - 1]), ss[n - 1]);
    hide Convert, SsaStep, FinalDefs;
    if i < n - 1 { FinalIs(ss, i, n - 1, x); }
  }

  lemma FinalsAre(ss: seq<Stmt>, x: Name)
    ensures x in FinalDefs(Convert(ss).defs) <==> exists i :: Supplies(ss, i, |ss|, x)
    ensures forall i :: Supplies(ss, i, |ss|, x) ==>
      FinalDefs(Convert(ss).defs)[x] == Var(Versioned(x, NextVersion(Convert(ss[..i]).latest, x)), ss[i].dst.bits)
  {
    hide Convert, FinalDefs;
    assert ss[..|ss|] == ss;
    FinalDefsAreLatest(ss);
    LatestHas(ss, |ss|, x);
    forall i | Supplies(ss, i, |ss|, x)
      ensures FinalDefs(Convert(ss).defs)[x] == Var(Versioned(x, NextVersion(Convert(ss[..i]).latest, x)), ss[i].dst.bits)
    {
      FinalIs(ss, i, |ss|, x);
    }
  }

  /** A final definition is tainted exactly when an unknown reaches it. */
  lemma TaintedFinal(ss: seq<Stmt>, t: Taint, i: nat, x: Name)
    requires SourceProgram(ss) && TaintedDefs(Convert(ss).statements) == Some(t) && Supplies(ss, i, |ss|, x)
    ensures Versioned(x, NextVersion(Convert(ss[..i]).latest, x)) in t.defs <==> UnknownReaches(ss, i)
  {
    hide Convert, TaintedDefs, Renamed, DstOf, ReadsOf, SourceProgram, UnknownReaches, TaintReach.Reached;
    var out, name := Convert(ss).statements, Versioned(x, NextVersion(Convert(ss[..i]).latest, x));
    TaintReach.TaintIsReached(out, t);
    ConvertShape(ss);
    RenamedParts(Convert(ss[..i]), ss[i]);
    ReachesIff(ss, i);
    if UnknownReaches(ss, i) { assert TaintReach.MarksName(out, i, name); }
    if name in t.defs {
      var k :| TaintReach.MarksName(out, k, name);
      RenamedParts(Convert(ss[..k]), ss[k]);
      assert Defines(ss[k], x);
      if k < i { LatestSince(ss, k, i, x); }
    }
  }

  lemma EligibleIff(ss: seq<Stmt>, arch: Arch, t: Taint, x: Name)
    requires SourceProgram(ss) && Lawful(arch) && TaintedDefs(Convert(ss).statements) == Some(t)
    ensures Eligible(arch, FinalDefs(Convert(ss).defs), t.defs, x) <==> exists i :: Usable(ss, arch, i, x)
    ensures Eligible(arch, FinalDefs(Convert(ss).defs), t.defs, x) ==> (IsFlag(x) || x in arch.layouts) && KeyOf(arch, x) == Place(arch, x)
  {
    hide Convert, TaintedDefs, FinalDefs, SourceProgram, UnknownReaches;
    FinalsAre(ss, x);
    if i :| Supplies(ss, i, |ss|, x) {
      TaintedFinal(ss, t, i, x);
      if x in arch.layouts { assert arch.layouts[x].lo <= arch.layouts[x].hi; }
      assert Usable(ss, arch, i, x) <==> Eligible(arch, FinalDefs(Convert(ss).defs), t.defs, x);
      assert forall j :: Supplies(ss, j, |ss|, x) ==> j == i;
    }
  }

  /** A register named by the tables always has room for the definition. */
  lemma AlwaysProjected(ss: seq<Stmt>, arch: Arch, side: Side, x: Name)
    requires Lawful(arch) && x in FinalDefs(Convert(ss).defs)
    ensures FinalExpr(arch, FinalDefs(Convert(ss).defs), side, x).Some?
  {
    hide Convert, FinalDefs, Rebuild, Coerce;
    if x in arch.layouts { assert arch.layouts[x].hi < U16; }
  }

  /** A side is compared on a name exactly when its statements say so, and under
      the register the name belongs to. */
  lemma ComparedIff(ss: seq<Stmt>, side: Side, arch: Arch, x: Name)
    requires SourceProgram(ss) && Lawful(arch) && TaintedDefs(Convert(ss).statements).Some?
    ensures ComparedOn(ss, side, arch, x) <==> Compared(ss, arch, x)
    ensures ComparedOn(ss, side, arch, x) ==> KeyOf(arch, x) == Place(arch, x)
  {
    var t, finals := TaintedDefs(Convert(ss).statements).value, FinalDefs(Convert(ss).defs);
    forall y
      ensures Eligible(arch, finals, t.defs, y) <==> exists i :: Usable(ss, arch, i, y)
      ensures Eligible(arch, finals, t.defs, y) ==> (IsFlag(y) || y in arch.layouts) && KeyOf(arch, y) == Place(arch, y)
    {
      EligibleIff(ss, arch, t, y);
    }
    if x in finals { AlwaysProjected(ss, arch, side, x); }
    hide Convert, TaintedDefs, FinalDefs, SourceProgram, Usable, FinalExpr, Lawful, KeyOf;
    assert Eligible(arch, finals, t.defs, x) ==> x in finals;
  }

  ghost predicate ComparedAt(ss: seq<Stmt>, arch: Arch, x: Name, key: Name) {
    Compared(ss, arch, x) && Place(arch, x) == key
  }

  /** What the projection returns has a term for exactly the places compared. */
  lemma PlacesAre(ss: seq<Stmt>, side: Side, arch: Arch, f: map<Name, Expr>)
    requires SourceProgram(ss) && Lawful(arch) && TaintedDefs(Convert(ss).statements).Some?
    requires IsFinals(arch, FinalDefs(Convert(ss).defs), TaintedDefs(Convert(ss).statements).value.defs, side, f)
    ensures forall key :: key in f <==> exists x :: ComparedAt(ss, arch, x, key)
  {
    hide Convert, TaintedDefs, FinalDefs, SourceProgram, Compared, Speaks, Lawful, KeyOf;
    var finals, defs := FinalDefs(Convert(ss).defs), TaintedDefs(Convert(ss).statements).value.defs;
    forall key ensures key in f <==> exists x :: ComparedAt(ss, arch, x, key) {
      if key in f {
        var x :| x in finals && Speaks(arch, finals, defs, side, x) && KeyOf(arch, x) == key;
        ComparedIff(ss, side, arch, x);
        assert ComparedAt(ss, arch, x, key);
      }
      if x :| ComparedAt(ss, arch, x, key) {
        ComparedIff(ss, side, arch, x);
        assert KeyOf(arch, x) in f;
      }
    }
  }
}
