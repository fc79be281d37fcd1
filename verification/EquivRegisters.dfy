/** The machine registers two lowerings leave behind, whatever names they were
    written under, and when the comparison of final definitions speaks about them. */
module EquivRegisters {
  import opened Bits
  import opened Common
  import opened Ir
  import opened Ssa
  import opened Layouts
  import opened Namespace
  import opened EquivQuery
  import opened EquivMeaning

  // ---- Registers over a whole run ----

  /** `s` defines the register or flag `key`, under whichever name. */
  predicate Lands(arch: Arch, s: Stmt, key: Name) {
    (s.Assign? || s.LoadMem?) && KeyOf(arch, s.dst.name) == key
  }

  /** The register, holding `p`, once the view `x` of it is given `v`. */
  function Landed(arch: Arch, x: Name, p: nat, v: nat): nat {
    if x in COMPARABLE_FLAGS || x !in arch.layouts then v
    else RegisterAfter(arch.layouts[x], ParentWidth(arch, arch.layouts[x].parent), p, v)
  }

  /** A register before the run. */
  function StartRegister(arch: Arch, m: Env, key: Name): nat {
    if key in COMPARABLE_FLAGS then View(arch, m, key) else Val(m, Var(key, ParentWidth(arch, key)))
  }

  /** A register after the run: every definition of any view of it, in program order,
      lands in what the ones before it left. */
  function FinalRegister(ss: seq<Stmt>, arch: Arch, m: Env, m0: Mem, sem: Sem, k: nat, key: Name): nat {
    if ss == [] then StartRegister(arch, m, key)
    else
      var p, s := FinalRegister(ss[..|ss| - 1], arch, m, m0, sem, k, key), ss[|ss| - 1];
      if Lands(arch, s, key) then Landed(arch, s.dst.name, p, Get(SideRun(ss, arch, m, m0, sem, k).env, s.dst.name)) else p
  }

  // ---- When one definition decides its register ----

  /** A write of the view replaces the whole register. */
  predicate IsWhole(l: Layout, bits: nat) {
    l.zeroExtends || (l.lo == 0 && l.hi + 1 >= bits)
  }

  /** Writing `y` changes nothing of the register that writing `x` does not replace. */
  predicate Inside(arch: Arch, y: Name, x: Name) {
    y == x || (x in arch.layouts && y in arch.layouts
      && var lx, ly := arch.layouts[x], arch.layouts[y];
      IsWhole(lx, ParentWidth(arch, lx.parent)) || (!ly.zeroExtends && lx.lo <= ly.lo && ly.hi <= lx.hi))
  }

  /** Every definition of the register `x` belongs to stays inside `x`. */
  predicate Covered(ss: seq<Stmt>, arch: Arch, x: Name) {
    forall i :: 0 <= i < |ss| && Lands(arch, ss[i], KeyOf(arch, x)) ==> Inside(arch, ss[i].dst.name, x)
  }

  /** The last definition of the register goes by the name `x`, and covers every other
      one before it. */
  predicate Decides(ss: seq<Stmt>, arch: Arch, x: Name) {
    ss != [] && var p, s := ss[..|ss| - 1], ss[|ss| - 1];
    if Lands(arch, s, KeyOf(arch, x)) then s.dst.name == x && Covered(p, arch, x) else Decides(p, arch, x)
  }

  /** No other name of the register is defined at all. */
  predicate OnlyName(ss: seq<Stmt>, arch: Arch, x: Name) {
    forall i :: 0 <= i < |ss| && Lands(arch, ss[i], KeyOf(arch, x)) ==> ss[i].dst.name == x
  }

  lemma {:induction false} OnlyNameDecides(ss: seq<Stmt>, arch: Arch, x: Name)
    requires OnlyName(ss, arch, x) && exists i :: 0 <= i < |ss| && Lands(arch, ss[i], KeyOf(arch, x))
    ensures Decides(ss, arch, x)
    decreases |ss|
  {
    hide Inside, KeyOf, Lands;
    var p, s := ss[..|ss| - 1], ss[|ss| - 1];
    if Lands(arch, s, KeyOf(arch, x)) {
      assert Inside(arch, x, x) by { InsideItself(arch, x); }
    } else {
      var i :| 0 <= i < |ss| && Lands(arch, ss[i], KeyOf(arch, x));
      assert p[i] == ss[i];
      OnlyNameDecides(p, arch, x);
    }
  }

  lemma InsideItself(arch: Arch, x: Name)
    ensures Inside(arch, x, x)
  {
  }

  // ---- The bits a definition does not replace ----

  /** The bits of two register values outside the view are the same. */
  predicate SameBeside(l: Layout, bits: nat, p: nat, q: nat) {
    IsWhole(l, bits) || (l.hi < bits && Cut(p, l.lo) == Cut(q, l.lo) && Slice(p, l.hi + 1, bits - l.hi - 1) == Slice(q, l.hi + 1, bits - l.hi - 1))
  }

  lemma SliceSlice(x: nat, a: nat, w: nat, d: nat)
    requires d <= w
    ensures Slice(Slice(x, a, w), d, w - d) == Slice(x, a + d, w - d)
  {
    hide Pow2;
    var y := x / Pow2(a);
    Pow2Add(a, d);
    DivModDiv(x, Pow2(a), Pow2(d));
    assert Slice(x, a + d, w - d) == Slice(y, d, w - d) && Slice(x, a, w) == Cut(y, w);
    hide Slice, Cut;
    SliceCut(y, w, d, w - d);
  }

  lemma PutKeepsBeside(p: nat, lo: nat, hi: nat, bits: nat, v: nat, a: nat, b: nat)
    requires a <= lo <= hi <= b < bits && v < Pow2(hi - lo + 1)
    ensures
      var q := Put(p, lo, hi, bits, v);
      Cut(q, a) == Cut(p, a) && Slice(q, b + 1, bits - b - 1) == Slice(p, b + 1, bits - b - 1)
  {
    PutIsLawful(p, lo, hi, bits, v);
    var q := Put(p, lo, hi, bits, v);
    CutCut(q, a, lo);
    CutCut(p, a, lo);
    SliceSlice(q, hi + 1, bits - hi - 1, b - hi);
    SliceSlice(p, hi + 1, bits - hi - 1, b - hi);
  }

  /** A definition inside `x` leaves the bits beside `x` alone. */
  lemma InsideKeepsBeside(arch: Arch, y: Name, x: Name, p: nat, v: nat)
    requires Lawful(arch) && x in arch.layouts && x !in COMPARABLE_FLAGS && Inside(arch, y, x) && KeyOf(arch, y) == KeyOf(arch, x)
    requires y !in COMPARABLE_FLAGS
    ensures SameBeside(arch.layouts[x], ParentWidth(arch, arch.layouts[x].parent), Landed(arch, y, p, v), p)
  {
    hide Cut, Put, Slice;
    var lx, ly := arch.layouts[x], arch.layouts[y];
    var bits := ParentWidth(arch, lx.parent);
    if !IsWhole(lx, bits) {
      SliceBelow(v, 0, ViewWidth(ly));
      PutKeepsBeside(p, ly.lo, ly.hi, bits, Cut(v, ViewWidth(ly)), lx.lo, lx.hi);
    }
  }

  lemma FlagsApart(arch: Arch, x: Name, y: Name)
    requires Lawful(arch) && KeyOf(arch, x) == KeyOf(arch, y) && y in COMPARABLE_FLAGS
    ensures x in COMPARABLE_FLAGS || x !in arch.layouts
  {
  }

  /** Definitions inside `x` leave the register as it started, beside `x`. */
  lemma {:induction false} CoveredBeside(ss: seq<Stmt>, arch: Arch, m: Env, m0: Mem, sem: Sem, k: nat, x: Name)
    requires Lawful(arch) && x in arch.layouts && x !in COMPARABLE_FLAGS && Covered(ss, arch, x)
    ensures
      var key := KeyOf(arch, x);
      SameBeside(arch.layouts[x], ParentWidth(arch, key), FinalRegister(ss, arch, m, m0, sem, k, key), StartRegister(arch, m, key))
      || arch.layouts[x].hi >= ParentWidth(arch, key)
    decreases |ss|
  {
    hide Inside, Landed, Lawful, SideRun, Cut, Slice;
    var key := KeyOf(arch, x);
    if ss != [] {
      var p, s := ss[..|ss| - 1], ss[|ss| - 1];
      assert forall i :: 0 <= i < |p| ==> p[i] == ss[i];
      CoveredBeside(p, arch, m, m0, sem, k, x);
      if Lands(arch, s, key) {
        if s.dst.name in COMPARABLE_FLAGS { FlagsApart(arch, x, s.dst.name); }
        InsideKeepsBeside(arch, s.dst.name, x, FinalRegister(p, arch, m, m0, sem, k, key), Get(SideRun(ss, arch, m, m0, sem, k).env, s.dst.name));
      }
    }
  }

  lemma LandedOver(arch: Arch, m: Env, x: Name, p: nat, v: nat)
    requires Lawful(arch)
    requires x in arch.layouts && x !in COMPARABLE_FLAGS ==>
      SameBeside(arch.layouts[x], ParentWidth(arch, KeyOf(arch, x)), p, StartRegister(arch, m, KeyOf(arch, x)))
      || arch.layouts[x].hi >= ParentWidth(arch, KeyOf(arch, x))
    ensures Landed(arch, x, p, v) == KeyValue(arch, m, x, v)
  {
    hide Cut, Slice, Join;
    if x in arch.layouts && x !in COMPARABLE_FLAGS { assert arch.layouts[x].parent !in COMPARABLE_FLAGS; }
  }

  /** A definition that decides its register leaves there what the comparison says. */
  lemma {:induction false} DecidesRegister(ss: seq<Stmt>, arch: Arch, m: Env, m0: Mem, sem: Sem, k: nat, x: Name)
    requires Lawful(arch) && SourceProgram(ss) && Decides(ss, arch, x)
    ensures FinalRegister(ss, arch, m, m0, sem, k, KeyOf(arch, x)) == KeyValue(arch, m, x, Get(SideRun(ss, arch, m, m0, sem, k).env, x))
    decreases |ss|
  {
    hide Inside, Landed, Lawful, Cut, Slice, Covered, KeyOf, KeyValue, StartRegister, Eval, LoadValue, StoreValue, StartEnv, CountStmts, SameBeside, SourceExpr;
    var p, s, key := ss[..|ss| - 1], ss[|ss| - 1], KeyOf(arch, x);
    if Lands(arch, s, key) {
      if x in arch.layouts && x !in COMPARABLE_FLAGS { CoveredBeside(p, arch, m, m0, sem, k, x); }
      LandedOver(arch, m, x, FinalRegister(p, arch, m, m0, sem, k, key), Get(SideRun(ss, arch, m, m0, sem, k).env, x));
    } else {
      DecidesRegister(p, arch, m, m0, sem, k, x);
      assert !(s.Assign? || s.LoadMem?) || s.dst.name != x;
    }
  }

  // ---- Two sides ----

  /** Every definition the side is compared on decides its register. */
  ghost predicate Plainly(ss: seq<Stmt>, side: Side, arch: Arch) {
    forall x {:trigger ComparedOn(ss, side, arch, x)} :: ComparedOn(ss, side, arch, x) ==> Decides(ss, arch, x)
  }

  /** No register is defined under two names. */
  predicate OneNameEach(ss: seq<Stmt>, arch: Arch) {
    forall i, j :: 0 <= i < |ss| && 0 <= j < |ss| && (ss[i].Assign? || ss[i].LoadMem?) && Lands(arch, ss[j], KeyOf(arch, ss[i].dst.name)) ==>
      ss[j].dst.name == ss[i].dst.name
  }

  lemma {:induction false} FinalIsDefined(ss: seq<Stmt>, x: Name) returns (i: nat)
    requires x in FinalDefs(Convert(ss).defs)
    ensures i < |ss| && (ss[i].Assign? || ss[i].LoadMem?) && ss[i].dst.name == x
    decreases |ss|
  {
    hide SsaStep, FinalDefs;
    EmptyFinals();
    i := |ss| - 1;
    StepFinals(Convert(ss[..|ss| - 1]), ss[|ss| - 1]);
    if !(ss[i].Assign? || ss[i].LoadMem?) || ss[i].dst.name != x { i := FinalIsDefined(ss[..|ss| - 1], x); }
  }

  /** One name for each register is enough. */
  lemma OneNamePlainly(ss: seq<Stmt>, side: Side, arch: Arch)
    requires OneNameEach(ss, arch)
    ensures Plainly(ss, side, arch)
  {
    hide Convert, FinalDefs, Speaks, KeyOf, Decides;
    forall x | ComparedOn(ss, side, arch, x) ensures Decides(ss, arch, x) {
      var i := FinalIsDefined(ss, x);
      assert Lands(arch, ss[i], KeyOf(arch, x));
      OnlyNameDecides(ss, arch, x);
    }
  }

  /** Both sides are compared on this register or flag. */
  ghost predicate Shared(a: seq<Stmt>, b: seq<Stmt>, arch: Arch, key: Name) {
    exists x, y {:trigger KeyOf(arch, x), KeyOf(arch, y)} ::
      ComparedOn(a, SideA, arch, x) && ComparedOn(b, SideB, arch, y) && KeyOf(arch, x) == key && KeyOf(arch, y) == key
  }

  /** A register or flag both sides are compared on ends different. */
  ghost predicate RegistersDiffer(a: seq<Stmt>, b: seq<Stmt>, arch: Arch, m: Env, m0: Mem, sem: Sem, j: nat, sem': Sem, k: nat) {
    exists key :: Shared(a, b, arch, key) && FinalRegister(a, arch, m, m0, sem, j, key) != FinalRegister(b, arch, m, m0, sem', k, key)
  }

  /** Where every compared definition decides its register, comparing definitions is
      comparing registers. */
  lemma FinalsAreRegisters(a: seq<Stmt>, b: seq<Stmt>, arch: Arch, m: Env, m0: Mem, sem: Sem, j: nat, sem': Sem, k: nat)
    requires Lawful(arch) && SourceProgram(a) && SourceProgram(b) && Plainly(a, SideA, arch) && Plainly(b, SideB, arch)
    ensures FinalsDiffer(a, b, arch, m, SideRun(a, arch, m, m0, sem, j), SideRun(b, arch, m, m0, sem', k))
      <==> RegistersDiffer(a, b, arch, m, m0, sem, j, sem', k)
  {
    hide Lawful, SourceProgram, ComparedOn, Decides, KeyOf, KeyValue, FinalRegister, SideRun;
    forall x | ComparedOn(a, SideA, arch, x)
      ensures FinalRegister(a, arch, m, m0, sem, j, KeyOf(arch, x)) == KeyValue(arch, m, x, Get(SideRun(a, arch, m, m0, sem, j).env, x))
    {
      DecidesRegister(a, arch, m, m0, sem, j, x);
    }
    forall y | ComparedOn(b, SideB, arch, y)
      ensures FinalRegister(b, arch, m, m0, sem', k, KeyOf(arch, y)) == KeyValue(arch, m, y, Get(SideRun(b, arch, m, m0, sem', k).env, y))
    {
      DecidesRegister(b, arch, m, m0, sem', k, y);
    }
  }
}
