/** When two lowerings are compared at all, said of their statements and the
    register tables alone. */
module EquivGate {
  import opened Bits
  import opened Common
  import opened Ir
  import opened Ssa
  import opened SsaForm
  import opened Layouts
  import opened Namespace
  import opened Taint
  import opened EquivQuery
  import opened EquivMeaning
  import opened EquivTheorem
  import opened EquivCompared
  import EquivBuild
  import MemCaps
  import MemElim
  import TaintReach

  // ---- Free inputs ----

  /** The width at which `e` first reads `x`, left to right. */
  function ReadIn(e: Expr, x: Name): Option<nat> {
    match e
    case Ref(v) => if v.name == x then Some(v.bits) else None
    case Un(_, a) => ReadIn(a, x)
    case Bin(_, a, b) => First(ReadIn(a, x), ReadIn(b, x))
    case Ite(c, t, f) => First(ReadIn(c, x), First(ReadIn(t, x), ReadIn(f, x)))
    case _ => None
  }

  function First(w: Option<nat>, w': Option<nat>): Option<nat> {
    if w.Some? then w else w'
  }

  function ReadBy(s: Stmt, x: Name): Option<nat> {
    match s
    case Assign(_, rhs) => ReadIn(rhs, x)
    case LoadMem(_, address, _) => ReadIn(address, x)
    case StoreMem(address, value, _) => First(ReadIn(address, x), ReadIn(value, x))
    case _ => None
  }

  /** The width at which the list first reads the `x` it starts with, if it does so
      before any definition of it. */
  function Input(ss: seq<Stmt>, x: Name): Option<nat> {
    if ss == [] then None else
    var p, s := ss[..|ss| - 1], ss[|ss| - 1];
    if Input(p, x).Some? || exists i :: 0 <= i < |p| && Defines(p[i], x) then Input(p, x) else ReadBy(s, x)
  }

  // ---- What the gate asks ----

  predicate IsVector(arch: Arch, x: Name) {
    x in arch.layouts && arch.layouts[x].parent in arch.simd
  }

  /** Every vector register is read and written at the width of its view. */
  ghost predicate VectorsFit(ss: seq<Stmt>, arch: Arch) {
    (forall x :: IsVector(arch, x) && Input(ss, x).Some? ==> Input(ss, x).value == arch.layouts[x].hi - arch.layouts[x].lo + 1)
    && forall i, x :: 0 <= i < |ss| && Defines(ss[i], x) && IsVector(arch, x) ==> ss[i].dst.bits == arch.layouts[x].hi - arch.layouts[x].lo + 1
  }

  /** The side says where every byte it stores goes, and which byte it is. */
  ghost predicate MemoryKnown(ss: seq<Stmt>, arch: Arch) {
    (forall i :: 0 <= i < |ss| && ss[i].StoreMem? ==> !UnknownReaches(ss, i)) && VectorsFit(ss, arch)
  }

  /** Bytes compared at the end: all that are stored, if both sides store and are sure of it. */
  ghost function ComparedBytes(a: seq<Stmt>, b: seq<Stmt>, arch: Arch): nat {
    MemCaps.ProbedBytes(a, b, MemoryKnown(a, arch) && MemoryKnown(b, arch))
  }

  ghost predicate ShareAPlace(a: seq<Stmt>, b: seq<Stmt>, arch: Arch) {
    exists x, y, key :: ComparedAt(a, arch, x, key) && ComparedAt(b, arch, y, key)
  }

  /** Nothing is declined, nothing is nested too deep, both sides take the same
      things from outside the register tables, memory fits the caps, and some
      register, flag or byte is compared. */
  ghost predicate CanCompare(a: seq<Stmt>, b: seq<Stmt>, arch: Arch) {
    && (forall i :: 0 <= i < |a| ==> !a[i].Unsupported? && TaintReach.Shallow(a[i]))
    && (forall i :: 0 <= i < |b| ==> !b[i].Unsupported? && TaintReach.Shallow(b[i]))
    && (forall x :: x !in arch.layouts ==> Input(a, x) == Input(b, x))
    && MemCaps.StoredBytes(a) <= 128 && MemCaps.StoredBytes(b) <= 128
    && MemCaps.LoadedBytes(a) + MemCaps.LoadedBytes(b) + ComparedBytes(a, b, arch) <= 256
    && (ShareAPlace(a, b, arch) || ComparedBytes(a, b, arch) > 0)
  }

  // ---- Inputs ----

  lemma {:induction false} AddInputsIs(e: Expr, latest: map<Name, nat>, inputs: map<Name, Var>, x: Name)
    ensures
      var out := AddInputs(e, latest, inputs);
      if x in inputs || x in latest then (x in out <==> x in inputs) && (x in inputs ==> out[x] == inputs[x])
      else (x in out <==> ReadIn(e, x).Some?) && (x in out ==> out[x] == Var(x, ReadIn(e, x).value))
    decreases e
  {
    match e
    case Un(_, a) => AddInputsIs(a, latest, inputs, x);
    case Bin(_, a, b) =>
      AddInputsIs(a, latest, inputs, x);
      AddInputsIs(b, latest, AddInputs(a, latest, inputs), x);
    case Ite(c, t, f) =>
      AddInputsIs(c, latest, inputs, x);
      AddInputsIs(t, latest, AddInputs(c, latest, inputs), x);
      AddInputsIs(f, latest, AddInputs(t, latest, AddInputs(c, latest, inputs)), x);
    case _ =>
  }

  lemma StepInputs(s: Ssa, y: Stmt, x: Name)
    ensures
      var out := SsaStep(s, y).inputs;
      if x in s.inputs || x in s.latest then (x in out <==> x in s.inputs) && (x in s.inputs ==> out[x] == s.inputs[x])
      else (x in out <==> ReadBy(y, x).Some?) && (x in out ==> out[x] == Var(x, ReadBy(y, x).value))
  {
    hide AddInputs, ReadIn, Renamed;
    match y
    case Assign(_, rhs) => AddInputsIs(rhs, s.latest, s.inputs, x);
    case LoadMem(_, address, _) => AddInputsIs(address, s.latest, s.inputs, x);
    case StoreMem(address, value, _) =>
      AddInputsIs(address, s.latest, s.inputs, x);
      AddInputsIs(value, s.latest, AddInputs(address, s.latest, s.inputs), x);
    case _ =>
  }

  lemma SomeDefines(ss: seq<Stmt>, n: nat, x: Name)
    requires n <= |ss|
    ensures x in Convert(ss[..n]).latest <==> exists i :: 0 <= i < n && Defines(ss[i], x)
    decreases n
  {
    hide Convert;
    if n > 0 {
      LatestStep(ss, n - 1, x);
      SomeDefines(ss, n - 1, x);
    } else {
      LatestHas(ss, 0, x);
    }
  }

  lemma {:induction false} InputIs(ss: seq<Stmt>, x: Name)
    ensures x in Convert(ss).inputs <==> Input(ss, x).Some?
    ensures x in Convert(ss).inputs ==> Convert(ss).inputs[x] == Var(x, Input(ss, x).value)
    decreases |ss|
  {
    hide SsaStep, ReadBy;
    if ss != [] {
      var p, s := ss[..|ss| - 1], ss[|ss| - 1];
      InputIs(p, x);
      StepInputs(Convert(p), s, x);
      SomeDefines(p, |p|, x);
      assert p[..|p|] == p;
    }
  }

  /** Equal free inputs, said without the tables the conversion fills. */
  lemma SameInputsIff(a: seq<Stmt>, b: seq<Stmt>, arch: Arch)
    ensures NoneInputs(Convert(a).inputs, arch) == NoneInputs(Convert(b).inputs, arch) <==>
      forall x :: x !in arch.layouts ==> Input(a, x) == Input(b, x)
  {
    hide Convert, Input;
    var p, q := NoneInputs(Convert(a).inputs, arch), NoneInputs(Convert(b).inputs, arch);
    forall x
      ensures x !in arch.layouts ==> (x in p <==> Input(a, x).Some?) && (x in p ==> p[x] == Input(a, x).value)
      ensures x !in arch.layouts ==> (x in q <==> Input(b, x).Some?) && (x in q ==> q[x] == Input(b, x).value)
    {
      InputIs(a, x);
      InputIs(b, x);
    }
    if forall x :: x !in arch.layouts ==> Input(a, x) == Input(b, x) {
      assert p.Keys == q.Keys;
    }
    if p == q {
      forall x | x !in arch.layouts ensures Input(a, x) == Input(b, x) {
        assert x in p <==> x in q;
      }
    }
  }

  // ---- Vector registers ----

  lemma {:induction false} DefsAre(ss: seq<Stmt>, d: Var)
    ensures d in Convert(ss).defs ==> d.name.Versioned? && exists i :: 0 <= i < |ss| && Defines(ss[i], d.name.base) && ss[i].dst.bits == d.bits
    decreases |ss|
  {
    hide Renamed, AddInputs;
    if ss != [] {
      DefsAre(ss[..|ss| - 1], d);
      var s := ss[|ss| - 1];
      if d in Convert(ss).defs && d !in Convert(ss[..|ss| - 1]).defs { assert Defines(s, d.name.base) && s.dst.bits == d.bits; }
    }
  }

  lemma {:induction false} DefsHave(ss: seq<Stmt>, i: nat, x: Name)
    requires i < |ss| && Defines(ss[i], x)
    ensures exists d :: d in Convert(ss).defs && d.name.Versioned? && d.name.base == x && d.bits == ss[i].dst.bits
    decreases |ss|
  {
    hide Renamed, AddInputs;
    var p, s := ss[..|ss| - 1], ss[|ss| - 1];
    if i < |p| {
      DefsHave(p, i, x);
      var d :| d in Convert(p).defs && d.name.Versioned? && d.name.base == x && d.bits == ss[i].dst.bits;
      assert d in Convert(ss).defs;
    } else {
      assert Bumped(Convert(p), s.dst) in Convert(ss).defs;
    }
  }

  lemma VectorsFitIff(ss: seq<Stmt>, arch: Arch)
    requires Lawful(arch)
    ensures LacksSimdModel(Convert(ss), arch) <==> !VectorsFit(ss, arch)
  {
    hide Convert, Input;
    forall x, bits ensures Mismatched(arch, x, bits) <==> IsVector(arch, x) && bits != arch.layouts[x].hi - arch.layouts[x].lo + 1 {
      if x in arch.layouts { assert arch.layouts[x].lo <= arch.layouts[x].hi; }
    }
    hide Mismatched, IsVector;
    var s := Convert(ss);
    if VectorsFit(ss, arch) {
      forall x | x in s.inputs ensures !Mismatched(arch, x, s.inputs[x].bits) { InputIs(ss, x); }
      forall d | d in s.defs && d.name.Versioned? ensures !Mismatched(arch, d.name.base, d.bits) { DefsAre(ss, d); }
    }
    if !LacksSimdModel(s, arch) {
      forall x | IsVector(arch, x) && Input(ss, x).Some? ensures Input(ss, x).value == arch.layouts[x].hi - arch.layouts[x].lo + 1 {
        InputIs(ss, x);
        assert !Mismatched(arch, x, s.inputs[x].bits);
      }
      forall i: int, x | 0 <= i < |ss| && Defines(ss[i], x) && IsVector(arch, x)
        ensures ss[i].dst.bits == arch.layouts[x].hi - arch.layouts[x].lo + 1
      {
        DefsHave(ss, i, x);
        var d :| d in s.defs && d.name.Versioned? && d.name.base == x && d.bits == ss[i].dst.bits;
        assert !Mismatched(arch, x, d.bits);
      }
    }
  }

  // ---- Memory ----

  /** The taint latch is the unknowns reaching stores. */
  lemma StoresKnownIff(ss: seq<Stmt>, t: Taint)
    requires SourceProgram(ss) && TaintedDefs(Convert(ss).statements) == Some(t)
    ensures t.memory <==> exists i :: 0 <= i < |ss| && ss[i].StoreMem? && UnknownReaches(ss, i)
  {
    hide Convert, TaintedDefs, Renamed, SourceProgram, UnknownReaches, TaintReach.Reached;
    var out := Convert(ss).statements;
    TaintReach.TaintIsReached(out, t);
    ConvertShape(ss);
    forall i: nat | i < |ss|
      ensures out[i].StoreMem? == ss[i].StoreMem?
      ensures TaintReach.Reached(out, i) <==> UnknownReaches(ss, i)
    {
      RenamedParts(Convert(ss[..i]), ss[i]);
      ReachesIff(ss, i);
    }
    if t.memory {
      var i :| TaintReach.MarksMemory(out, i);
      assert ss[i].StoreMem? && UnknownReaches(ss, i);
    }
    if i :| 0 <= i < |ss| && ss[i].StoreMem? && UnknownReaches(ss, i) {
      assert TaintReach.MarksMemory(out, i);
    }
  }

  lemma MemoryEnabledIff(a: seq<Stmt>, b: seq<Stmt>, arch: Arch, ta: Taint, tb: Taint)
    requires SourceProgram(a) && SourceProgram(b) && Lawful(arch)
    requires TaintedDefs(Convert(a).statements) == Some(ta) && TaintedDefs(Convert(b).statements) == Some(tb)
    ensures MemoryEnabled(Convert(a), Convert(b), ta, tb, arch) <==> MemoryKnown(a, arch) && MemoryKnown(b, arch)
  {
    hide Convert, TaintedDefs, SourceProgram, Lawful, UnknownReaches, VectorsFit, LacksSimdModel;
    StoresKnownIff(a, ta);
    StoresKnownIff(b, tb);
    VectorsFitIff(a, arch);
    VectorsFitIff(b, arch);
  }

  /** The final memories are compared exactly when some byte of them is. */
  lemma MemoryComparedIff(a: seq<Stmt>, b: seq<Stmt>, arch: Arch)
    requires SourceProgram(a) && SourceProgram(b) && Lawful(arch)
    requires TaintedDefs(Convert(a).statements).Some? && TaintedDefs(Convert(b).statements).Some?
    ensures MemoryCompared(a, b, arch) <==> ComparedBytes(a, b, arch) > 0
  {
    hide Convert, TaintedDefs, SourceProgram, Lawful, MemoryKnown, MemoryEnabled, Writes;
    MemoryEnabledIff(a, b, arch, TaintedDefs(Convert(a).statements).value, TaintedDefs(Convert(b).statements).value);
    StoredWrites(a);
    StoredWrites(b);
  }

  // ---- Depth ----

  lemma {:induction false} RenamedDepth(e: Expr, latest: map<Name, nat>)
    ensures TaintReach.Depth(RenameReads(e, latest)) == TaintReach.Depth(e)
    decreases e
  {
    match e
    case Un(_, a) => RenamedDepth(a, latest);
    case Bin(_, a, b) => RenamedDepth(a, latest); RenamedDepth(b, latest);
    case Ite(c, t, f) => RenamedDepth(c, latest); RenamedDepth(t, latest); RenamedDepth(f, latest);
    case _ =>
  }

  lemma RenamedShallow(s: Ssa, x: Stmt)
    ensures TaintReach.Shallow(Renamed(s, x)) == TaintReach.Shallow(x)
  {
    hide RenameReads, TaintReach.Depth;
    match x
    case Assign(_, rhs) => RenamedDepth(rhs, s.latest);
    case LoadMem(_, address, _) => RenamedDepth(address, s.latest);
    case StoreMem(address, value, _) => RenamedDepth(address, s.latest); RenamedDepth(value, s.latest);
    case _ =>
  }

  lemma {:induction false} NamespacedIff(e: Expr, side: Side, arch: Arch, depth: nat)
    ensures NamespaceExpr(e, side, arch, depth).Some? <==> depth + TaintReach.Depth(e) <= 256
    decreases e
  {
    hide Substitute;
    match e
    case Un(_, a) => NamespacedIff(a, side, arch, depth + 1);
    case Bin(_, a, b) => NamespacedIff(a, side, arch, depth + 1); NamespacedIff(b, side, arch, depth + 1);
    case Ite(c, t, f) =>
      NamespacedIff(c, side, arch, depth + 1);
      NamespacedIff(t, side, arch, depth + 1);
      NamespacedIff(f, side, arch, depth + 1);
    case _ =>
  }

  lemma StatementIff(s: Stmt, side: Side, arch: Arch)
    ensures NamespaceStmt(s, side, arch).Some? <==> TaintReach.Shallow(s)
  {
    hide NamespaceExpr, TaintReach.Depth;
    match s
    case Assign(_, rhs) => NamespacedIff(rhs, side, arch, 0);
    case LoadMem(_, address, _) => NamespacedIff(address, side, arch, 0);
    case StoreMem(address, value, _) => NamespacedIff(address, side, arch, 0); NamespacedIff(value, side, arch, 0);
    case _ =>
  }

  predicate AllShallow(ss: seq<Stmt>) {
    forall i :: 0 <= i < |ss| ==> TaintReach.Shallow(ss[i])
  }

  lemma ShallowSnoc(p: seq<Stmt>, s: Stmt)
    ensures AllShallow(p + [s]) <==> AllShallow(p) && TaintReach.Shallow(s)
  {
    hide TaintReach.Shallow;
    var ss := p + [s];
    assert ss[|p|] == s && forall i :: 0 <= i < |p| ==> ss[i] == p[i];
  }

  /** A side is namespaced exactly when nothing is nested too deep, and it then
      stores and loads as many bytes as before. */
  lemma {:induction false} LoweredIff(ss: seq<Stmt>, side: Side, arch: Arch)
    ensures
      var r := Lowered(ss, side, arch);
      && (r.Some? <==> AllShallow(ss))
      && (r.Some? ==>
        MemCaps.StoredBytes(r.value) == MemCaps.StoredBytes(ss) && MemCaps.LoadedBytes(r.value) == MemCaps.LoadedBytes(ss))
    decreases |ss|
  {
    hide SsaStep, Lowered, Renamed, NamespaceStmt, AllShallow, TaintReach.Shallow;
    if ss == [] {
      LoweredNothing(side, arch);
      assert AllShallow([]) by { NothingDeep(); }
    } else {
      var p, x := ss[..|ss| - 1], ss[|ss| - 1];
      var y := Renamed(Convert(p), x);
      LoweredSnoc(ss, side, arch);
      LoweredIff(p, side, arch);
      ShallowSnoc(p, x);
      assert ss == p + [x];
      RenamedShallow(Convert(p), x);
      StatementIff(y, side, arch);
      StatementBytes(Convert(p), x, side, arch);
    }
  }

  lemma NothingDeep()
    ensures AllShallow([])
  {
  }

  lemma StatementBytes(s: Ssa, x: Stmt, side: Side, arch: Arch)
    ensures
      var y := NamespaceStmt(Renamed(s, x), side, arch);
      y.Some? ==>
        && y.value.StoreMem? == x.StoreMem? && y.value.LoadMem? == x.LoadMem?
        && ((x.StoreMem? || x.LoadMem?) ==> y.value.bits == x.bits)
  {
    hide NamespaceExpr, RenameReads;
  }

  lemma TaintEnds(ss: seq<Stmt>)
    requires AllShallow(ss)
    ensures TaintedDefs(Convert(ss).statements).Some?
  {
    hide Convert, Renamed, TaintReach.Shallow;
    ConvertShape(ss);
    forall i | 0 <= i < |ss| ensures TaintReach.Shallow(Convert(ss).statements[i]) {
      RenamedShallow(Convert(ss[..i]), ss[i]);
    }
    TaintReach.ShallowEnds(Convert(ss).statements);
  }

  // ---- The gate ----

  /** Every finite set can be listed. */
  lemma {:induction false} Listing<T>(all: set<T>) returns (order: seq<T>)
    ensures (set x | x in order) == all && forall i, j :: 0 <= i < j < |order| ==> order[i] != order[j]
    decreases |all|
  {
    if all == {} {
      order := [];
    } else {
      var x :| x in all;
      var rest := Listing(all - {x});
      order := rest + [x];
      assert (set y | y in order) == (set y | y in rest) + {x};
    }
  }

  /** A side's final definitions can always be projected. */
  lemma SomeFinals(arch: Arch, finals: map<Name, Var>, tainted: set<Name>, side: Side) returns (f: map<Name, Expr>)
    ensures IsFinals(arch, finals, tainted, side, f)
  {
    hide FinalExpr, KeyOf, Eligible;
    f := map x | x in finals && Speaks(arch, finals, tainted, side, x) :: KeyOf(arch, x) := FinalExpr(arch, finals, side, x).value;
  }

  /** Both sides have everything a query is built from. */
  predicate Prepared(a: seq<Stmt>, b: seq<Stmt>, arch: Arch) {
    TaintedDefs(Convert(a).statements).Some? && TaintedDefs(Convert(b).statements).Some?
    && Lowered(a, SideA, arch).Some? && Lowered(b, SideB, arch).Some?
  }

  lemma PreparedIff(a: seq<Stmt>, b: seq<Stmt>, arch: Arch)
    ensures Prepared(a, b, arch) <==> AllShallow(a) && AllShallow(b)
  {
    hide Convert, TaintedDefs, Lowered, AllShallow;
    LoweredIff(a, SideA, arch);
    LoweredIff(b, SideB, arch);
    if AllShallow(a) && AllShallow(b) {
      TaintEnds(a);
      TaintEnds(b);
    }
  }

  /** Whether memory may be compared, as the query construction decides it. */
  predicate Enabled(a: seq<Stmt>, b: seq<Stmt>, arch: Arch)
    requires Prepared(a, b, arch)
  {
    MemoryEnabled(Convert(a), Convert(b), TaintedDefs(Convert(a).statements).value, TaintedDefs(Convert(b).statements).value, arch)
  }

  lemma PlanIff(a: seq<Stmt>, b: seq<Stmt>, arch: Arch, addrs: seq<Var>)
    requires SourceProgram(a) && SourceProgram(b) && Lawful(arch) && Prepared(a, b, arch)
    requires MemElim.Lists(addrs, MemElim.Written(Lowered(a, SideA, arch).value, Lowered(b, SideB, arch).value, arch.ptr))
    ensures
      var plan := MemElim.Eliminate(Lowered(a, SideA, arch).value, Lowered(b, SideB, arch).value, arch.ptr, Enabled(a, b, arch), addrs);
      && (plan.Some? <==>
        && MemCaps.StoredBytes(a) <= 128 && MemCaps.StoredBytes(b) <= 128
        && MemCaps.LoadedBytes(a) + MemCaps.LoadedBytes(b) + ComparedBytes(a, b, arch) <= 256)
      && (plan.Some? ==> |plan.value.probes| == ComparedBytes(a, b, arch))
  {
    hide Convert, TaintedDefs, Lowered, SourceProgram, Lawful, MemElim.Eliminate, MemElim.Written, MemElim.Lists, MemoryEnabled, MemoryKnown, AllShallow;
    LoweredIff(a, SideA, arch);
    LoweredIff(b, SideB, arch);
    MemoryEnabledIff(a, b, arch, TaintedDefs(Convert(a).statements).value, TaintedDefs(Convert(b).statements).value);
    MemCaps.EliminatesIff(Lowered(a, SideA, arch).value, Lowered(b, SideB, arch).value, arch.ptr, Enabled(a, b, arch), addrs);
  }

  lemma SharedIff(a: seq<Stmt>, b: seq<Stmt>, arch: Arch, fa: map<Name, Expr>, fb: map<Name, Expr>)
    requires SourceProgram(a) && SourceProgram(b) && Lawful(arch) && Prepared(a, b, arch)
    requires IsFinals(arch, FinalDefs(Convert(a).defs), TaintedDefs(Convert(a).statements).value.defs, SideA, fa)
    requires IsFinals(arch, FinalDefs(Convert(b).defs), TaintedDefs(Convert(b).statements).value.defs, SideB, fb)
    ensures fa.Keys !! fb.Keys <==> !ShareAPlace(a, b, arch)
  {
    hide Convert, TaintedDefs, Lowered, SourceProgram, Lawful, IsFinals, FinalDefs, ComparedAt;
    PlacesAre(a, SideA, arch, fa);
    PlacesAre(b, SideB, arch, fb);
    if x, y, key :| ComparedAt(a, arch, x, key) && ComparedAt(b, arch, y, key) {
      assert key in fa.Keys && key in fb.Keys;
    }
    if key :| key in fa.Keys && key in fb.Keys {
      var x :| ComparedAt(a, arch, x, key);
      var y :| ComparedAt(b, arch, y, key);
    }
  }

  lemma ModelledIff(ss: seq<Stmt>)
    ensures Modelled(ss) && AllShallow(ss) <==> forall i :: 0 <= i < |ss| ==> !ss[i].Unsupported? && TaintReach.Shallow(ss[i])
  {
    hide TaintReach.Shallow;
  }

  lemma QueryIsComparable(a: seq<Stmt>, b: seq<Stmt>, arch: Arch, addrs: seq<Var>, keys: seq<Name>, fa: map<Name, Expr>, fb: map<Name, Expr>, q: Query)
    requires SourceProgram(a) && SourceProgram(b) && Lawful(arch) && IsQuery(a, b, arch, addrs, keys, fa, fb, q)
    ensures CanCompare(a, b, arch)
  {
    hide Convert, TaintedDefs, Lowered, SourceProgram, Lawful, IsFinals, FinalDefs, MemElim.Eliminate, MemElim.Written, MemElim.Lists, DifferCondition,
         Modelled, NoneInputs, ShareAPlace, ComparedBytes, AllShallow, TaintReach.Shallow, MemoryEnabled;
    assert Prepared(a, b, arch);
    PreparedIff(a, b, arch);
    ModelledIff(a);
    ModelledIff(b);
    SameInputsIff(a, b, arch);
    PlanIff(a, b, arch, addrs);
    SharedIff(a, b, arch, fa, fb);
    var plan := MemElim.Eliminate(Lowered(a, SideA, arch).value, Lowered(b, SideB, arch).value, arch.ptr, Enabled(a, b, arch), addrs).value;
    EquivBuild.SilentIff(fa, fb, plan.probes, keys);
  }

  lemma ComparableHasQuery(a: seq<Stmt>, b: seq<Stmt>, arch: Arch)
    requires SourceProgram(a) && SourceProgram(b) && Lawful(arch) && CanCompare(a, b, arch)
    ensures HasQuery(a, b, arch)
  {
    hide Convert, TaintedDefs, Lowered, SourceProgram, Lawful, IsFinals, FinalDefs, MemElim.Eliminate, MemElim.Written, DifferCondition,
         Modelled, NoneInputs, ShareAPlace, ComparedBytes, AllShallow, TaintReach.Shallow, MemoryEnabled;
    ModelledIff(a);
    ModelledIff(b);
    PreparedIff(a, b, arch);
    SameInputsIff(a, b, arch);
    var ta, tb := TaintedDefs(Convert(a).statements).value, TaintedDefs(Convert(b).statements).value;
    var la, lb := Lowered(a, SideA, arch).value, Lowered(b, SideB, arch).value;
    var fa := SomeFinals(arch, FinalDefs(Convert(a).defs), ta.defs, SideA);
    var fb := SomeFinals(arch, FinalDefs(Convert(b).defs), tb.defs, SideB);
    var addrs := Listing(MemElim.Written(la, lb, arch.ptr));
    var keys := Listing(fa.Keys);
    PlanIff(a, b, arch, addrs);
    SharedIff(a, b, arch, fa, fb);
    var plan := MemElim.Eliminate(la, lb, arch.ptr, Enabled(a, b, arch), addrs).value;
    EquivBuild.SilentIff(fa, fb, plan.probes, keys);
    assert IsQuery(a, b, arch, addrs, keys, fa, fb, Query(plan.statements, DifferCondition(fa, fb, plan.probes, keys).value));
  }

  /** Two lowerings have a query exactly when their statements can be compared. */
  lemma HasQueryIff(a: seq<Stmt>, b: seq<Stmt>, arch: Arch)
    requires SourceProgram(a) && SourceProgram(b) && Lawful(arch)
    ensures HasQuery(a, b, arch) <==> CanCompare(a, b, arch)
  {
    hide SourceProgram, Lawful, IsQuery, CanCompare;
    if addrs, keys, fa, fb, q :| IsQuery(a, b, arch, addrs, keys, fa, fb, q) {
      QueryIsComparable(a, b, arch, addrs, keys, fa, fb, q);
    }
    if CanCompare(a, b, arch) { ComparableHasQuery(a, b, arch); }
  }
}
