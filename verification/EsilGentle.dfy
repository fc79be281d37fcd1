/** Streams without blocks whose writes come one at a time, as radare2 prints them,
    are free of hazards; so the refinement is about streams that there are. */
module EsilGentle {
  import opened Bits
  import opened Common
  import opened Ir
  import opened RegView
  import opened Flags
  import opened EsilMachine
  import opened EsilTyping
  import opened EsilFresh
  import opened EsilSteps
  import opened EsilAgree
  import opened EsilAccept
  import EsilTheorem
  import I = EsilInterp

  // ---- The condition, on the tokens ----

  /** What a register name is kept in: a flag, the register it is a part of, or itself. */
  function Keeper(a: EsilArch, x: Name): Name {
    if I.FlagOf(x).Some? then I.FlagOf(x).value else if I.IsPart(a, x) then a.arch.layouts[x].parent else x
  }

  /** The `k`-th token is a register nothing before it named. */
  predicate NewName(ts: seq<Token>, k: int, a: EsilArch) {
    0 <= k < |ts| && ts[k].Operand?
    && forall j :: 0 <= j < k && ts[j].Operand? ==> Keeper(a, ts[j].name) != Keeper(a, ts[k].name)
  }

  predicate StackHolds(ts: seq<Token>, a: EsilArch, n: nat) {
    ShapeOf(ts, a).Some? && |ShapeOf(ts, a).value.stack| == n
  }

  /** No block; a write goes to the register just named and leaves nothing on the
      stack; and one that seeds no flags goes to a register not named before. */
  predicate Gentle(ts: seq<Token>, k: nat, a: EsilArch)
    requires k < |ts|
  {
    var t := ts[k];
    && TokenFits(t) && !t.Open? && !t.Close?
    && (t.Set? ==> k > 0 && ts[k - 1].Operand? && StackHolds(ts[..k], a, 2) && (!t.seeds ==> NewName(ts, k - 1, a)))
    && (t.NegAssign? ==> StackHolds(ts[..k], a, 1) && NewName(ts, k - 1, a))
  }

  // ---- Names ----

  predicate Within(names: set<Name>, cells: set<Name>) {
    forall x :: x in names ==> x.Temp? || x in cells
  }

  predicate StackWithin(vs: seq<StackValue>, cells: set<Name>) {
    forall k :: 0 <= k < |vs| ==> Within(ValueNames(vs[k]), cells)
  }

  predicate CtxWithin(c: Option<FlagCtx>, cells: set<Name>) {
    c.Some? ==> Within(Reads(c.value.was), cells) && Within(Reads(c.value.cur), cells)
  }

  function Cells(ts: seq<Token>, a: EsilArch): set<Name> {
    if ts == [] then {} else
    Cells(ts[..|ts| - 1], a) + if ts[|ts| - 1].Operand? then {OperandRef(a, ts[|ts| - 1].name).variable.name} else {}
  }

  lemma {:induction false} CellsAre(ts: seq<Token>, a: EsilArch, x: Name)
    ensures x in Cells(ts, a) ==> exists k :: 0 <= k < |ts| && ts[k].Operand? && OperandRef(a, ts[k].name).variable.name == x
    decreases |ts|
  {
    hide OperandRef;
    if ts != [] && x in Cells(ts, a) {
      if x in Cells(ts[..|ts| - 1], a) {
        CellsAre(ts[..|ts| - 1], a, x);
        var k :| 0 <= k < |ts| - 1 && ts[k].Operand? && OperandRef(a, ts[..|ts| - 1][k].name).variable.name == x;
      } else {
        assert OperandRef(a, ts[|ts| - 1].name).variable.name == x;
      }
    }
  }

  /** One variable keeps one register or flag. */
  lemma KeeperIs(a: EsilArch, x: Name)
    requires LawfulEsil(a) && FlagsApart(a)
    ensures var v := OperandRef(a, x).variable.name;
      if I.FlagOf(x).Some? then Pairs(v, Keeper(a, x)) else v == Keeper(a, x) && I.FlagOf(v).None?
  {
    if I.FlagOf(x).Some? {
      FlagRef(a, x);
      FlagIs(x);
    } else if I.IsPart(a, x) {
      PartOperand(a, x);
    } else {
      WholeOperand(a, x);
    }
    hide LawfulEsil, FlagsApart, OperandRef, I.FlagOf, Canonical;
  }

  lemma PairsOne(flag: Name, cell: Name, cell': Name)
    ensures Pairs(flag, cell) && Pairs(flag, cell') ==> cell == cell'
    ensures Pairs(flag, cell) ==> I.FlagOf(flag).Some?
  {
    Spelled();
  }

  lemma OneKeeper(a: EsilArch, x: Name, y: Name)
    requires LawfulEsil(a) && FlagsApart(a) && OperandRef(a, x).variable.name == OperandRef(a, y).variable.name
    ensures Keeper(a, x) == Keeper(a, y)
  {
    hide LawfulEsil, FlagsApart, OperandRef, I.FlagOf, Pairs, Keeper;
    KeeperIs(a, x);
    KeeperIs(a, y);
    PairsOne(OperandRef(a, x).variable.name, Keeper(a, x), Keeper(a, y));
    PairsOne(OperandRef(a, y).variable.name, Keeper(a, y), Keeper(a, x));
  }

  /** A register not named before is not among the cells. */
  lemma NewIsOutside(ts: seq<Token>, k: nat, a: EsilArch)
    requires LawfulEsil(a) && FlagsApart(a) && NewName(ts, k, a)
    ensures OperandRef(a, ts[k].name).variable.name !in Cells(ts[..k], a)
  {
    hide LawfulEsil, FlagsApart, OperandRef, Keeper;
    var x := OperandRef(a, ts[k].name).variable.name;
    CellsAre(ts[..k], a, x);
    if x in Cells(ts[..k], a) {
      var j :| 0 <= j < k && ts[j].Operand? && OperandRef(a, ts[..k][j].name).variable.name == x;
      OneKeeper(a, ts[j].name, ts[k].name);
    }
  }

  // ---- Every token keeps within the cells ----

  lemma WithinMore(names: set<Name>, more: set<Name>, cells: set<Name>, cells': set<Name>)
    requires Within(more, cells) && names <= more && cells <= cells'
    ensures Within(names, cells')
  {
  }

  lemma StackMore(vs: seq<StackValue>, n: nat, cells: set<Name>, cells': set<Name>)
    requires StackWithin(vs, cells) && n <= |vs| && cells <= cells'
    ensures StackWithin(vs[..|vs| - n], cells')
  {
    hide ValueNames, Within;
    forall k | 0 <= k < |vs| - n ensures Within(ValueNames(vs[k]), cells') { WithinMore(ValueNames(vs[k]), ValueNames(vs[k]), cells, cells'); }
  }

  lemma StackPush(vs: seq<StackValue>, v: StackValue, cells: set<Name>)
    requires StackWithin(vs, cells) && Within(ValueNames(v), cells)
    ensures StackWithin(vs + [v], cells)
  {
    hide ValueNames, Within;
  }

  lemma FlagWithin(m: Machine, suffix: string, cells: set<Name>)
    requires StackWithin(m.stack, cells) && CtxWithin(m.ctx, cells) && m.blocks == [] && ApplyFlag(m, suffix).Ok?
    ensures var n := ApplyFlag(m, suffix).value; StackWithin(n.stack, cells) && n.ctx == m.ctx && n.blocks == []
  {
    hide StackWithin, FlagExpr, MaterialiseWas, MaterialiseCur, IsIndexed, NeedsWas, FlagIndex, ValueNames, Within, Reads;
    ApplyFlagIs(m, suffix);
    MaterialiseKeeps(m);
    var c := m.ctx.value;
    var k := if IsIndexed(suffix) then FlagIndex(Top(m)).value else 0;
    var e := FlagExpr(suffix, c, k).value;
    FlagNames(suffix, c, k);
    Joined(Reads(e), Reads(c.was), Reads(c.cur), cells);
    NamesAre(e, 1);
    var below := if IsIndexed(suffix) then m.stack[..|m.stack| - 1] else m.stack;
    StackMore(m.stack, if IsIndexed(suffix) then 1 else 0, cells, cells);
    assert m.stack[..|m.stack| - 0] == m.stack;
    StackPush(below, Computed(e, 1), cells);
    if IsIndexed(suffix) { MaterialiseKeeps(Drop(MaterialiseCur(m), 1)); }
  }

  lemma Joined(names: set<Name>, p: set<Name>, q: set<Name>, cells: set<Name>)
    requires Within(p, cells) && Within(q, cells) && names <= p + q
    ensures Within(names, cells)
  {
  }

  lemma NamesAre(e: Expr, bits: nat)
    ensures ValueNames(Computed(e, bits)) == Reads(e)
  {
  }

  lemma MaterialiseKeeps(m: Machine)
    requires m.blocks == []
    ensures MaterialiseCur(m).stack == m.stack && MaterialiseCur(m).ctx == m.ctx && MaterialiseCur(m).blocks == []
    ensures MaterialiseWas(m).stack == m.stack && MaterialiseWas(m).ctx == m.ctx && MaterialiseWas(m).blocks == []
  {
  }

  lemma ArithWithin(m: Machine, op: EsilOp, cells: set<Name>)
    requires StackWithin(m.stack, cells) && |m.stack| >= 2
    ensures StackWithin(ApplyArith(m, op).value.stack, cells)
  {
    hide ArithExpr, ValueNames, Within, IsCompare;
    var e := ArithExpr(op, Top(m), Second(m));
    ArithNames(op, Top(m), Second(m));
    StackMore(m.stack, 2, cells, cells);
    var bits := if IsCompare(op) then 1 else Max(ValueBits(Top(m)), ValueBits(Second(m)));
    NamesAre(e, bits);
    Joined(ValueNames(Computed(e, bits)), ValueNames(Top(m)), ValueNames(Second(m)), cells);
    StackPush(m.stack[..|m.stack| - 2], Computed(e, bits), cells);
  }

  lemma NotWithin(m: Machine, cells: set<Name>)
    requires StackWithin(m.stack, cells) && m.stack != []
    ensures StackWithin(ApplyNot(m).value.stack, cells)
  {
    hide ValueNames, Within, Reads, ValueExpr, ValueBits;
    var v := Top(m);
    var e := AsBit(Bin(Eq, ValueExpr(v), Const(0, ValueBits(v))));
    IsZeroNames(ValueExpr(v), ValueBits(v), Const(1, 1), Const(0, 1));
    ValueReads(v);
    NamesAre(e, 1);
    WithinMore(ValueNames(Computed(e, 1)), ValueNames(v), cells, cells);
    StackMore(m.stack, 1, cells, cells);
    StackPush(m.stack[..|m.stack| - 1], Computed(e, 1), cells);
  }

  lemma CompareWithin(m: Machine, cells: set<Name>)
    requires StackWithin(m.stack, cells) && |m.stack| >= 2
    ensures var n := ApplyCompare(m).value; StackWithin(n.stack, cells) && CtxWithin(n.ctx, cells)
  {
    hide ValueNames, Within, Reads, Widen, CompareBits;
    var l, r, bits := Top(m), Second(m), CompareBits(Top(m), Second(m));
    WidenNames(l, bits);
    WidenNames(r, bits);
    BinNames(Sub, Widen(l, bits), Widen(r, bits));
    WithinMore(Reads(Widen(l, bits)), ValueNames(l), cells, cells);
    WithinMore(Reads(Widen(r, bits)), ValueNames(r), cells, cells);
    Joined(Reads(Bin(Sub, Widen(l, bits), Widen(r, bits))), Reads(Widen(l, bits)), Reads(Widen(r, bits)), cells);
    StackMore(m.stack, 2, cells, cells);
  }

  lemma SetWithin(m: Machine, compound: Option<EsilOp>, seeds: bool, cells: set<Name>)
    requires StackWithin(m.stack, cells) && CtxWithin(m.ctx, cells) && ApplySet(m, compound, seeds).Ok?
    ensures var n := ApplySet(m, compound, seeds).value; StackWithin(n.stack, cells) && CtxWithin(n.ctx, cells) && n.blocks == m.blocks
  {
    hide ValueNames, Widen, WriteExpr, AssignedExpr, ReadExpr, RegBits;
    StackMore(m.stack, 2, cells, cells);
    hide StackWithin;
  }

  lemma LoadWithin(m: Machine, size: nat, cells: set<Name>)
    requires StackWithin(m.stack, cells) && m.stack != []
    ensures StackWithin(ApplyLoad(m, size).value.stack, cells)
  {
    hide ValueExpr, StackWithin;
    StackMore(m.stack, 1, cells, cells);
    var v := InRegister(WholeRef(TempVar("ld", m, 8 * size)));
    assert Within(ValueNames(v), cells);
    StackPush(m.stack[..|m.stack| - 1], v, cells);
  }

  lemma TokenWithin(m: Machine, t: Token, a: EsilArch, cells: set<Name>)
    requires StackWithin(m.stack, cells) && CtxWithin(m.ctx, cells) && m.blocks == [] && StepToken(m, t, a).Ok? && !t.Open? && !t.Close?
    requires t.Operand? ==> OperandRef(a, t.name).variable.name in cells
    ensures var n := StepToken(m, t, a).value; StackWithin(n.stack, cells) && CtxWithin(n.ctx, cells) && n.blocks == []
  {
    hide StackWithin, CtxWithin, ApplyFlag, ApplySet, OperandRef, Within, ArithExpr, ValueExpr, Widen, NegatedExpr, WriteExpr, CompareBits, AsBit;
    match t
    case Literal(value) =>
      ConstReads(value, a.arch.ptr);
      NamesAre(Const(value, a.arch.ptr), a.arch.ptr);
      NothingWithin(cells);
      StackPush(m.stack, Computed(Const(value, a.arch.ptr), a.arch.ptr), cells);
    case Operand(name) =>
      OneWithin(OperandRef(a, name).variable.name, cells);
      StackPush(m.stack, InRegister(OperandRef(a, name)), cells);
    case Flag(suffix) => FlagWithin(m, suffix, cells);
    case Arith(op) => ArithWithin(m, op, cells);
    case Not => NotWithin(m, cells);
    case Compare => CompareWithin(m, cells);
    case NegAssign => StackMore(m.stack, 1, cells, cells);
    case Set(compound, seeds) => SetWithin(m, compound, seeds, cells);
    case Load(size) => LoadWithin(m, size, cells);
    case Store(size) => StackMore(m.stack, 2, cells, cells);
    case Junk(_) =>
  }

  lemma NothingWithin(cells: set<Name>)
    ensures Within({}, cells)
  {
  }

  lemma OneWithin(x: Name, cells: set<Name>)
    requires x in cells
    ensures Within({x}, cells)
  {
  }

  // ---- Whole streams ----

  /** The machine after a gentle stream, and what the hazard watch knows of it. */
  ghost predicate Along(ts: seq<Token>, a: EsilArch, m: Machine) {
    && EsilTheorem.Watched(ts, a) == Some((m, NOTHING_WATCHED)) && m.blocks == []
    && ShapeOf(ts, a).Some? && Shaped(m, ShapeOf(ts, a).value)
    && StackWithin(m.stack, Cells(ts, a)) && CtxWithin(m.ctx, Cells(ts, a))
    && (ts != [] && ts[|ts| - 1].Operand? ==>
      && m.stack != [] && Top(m) == InRegister(OperandRef(a, ts[|ts| - 1].name)) && !OperandRef(a, ts[|ts| - 1].name).variable.name.Temp?
      && CtxWithin(m.ctx, Cells(ts[..|ts| - 1], a)))
  }

  /** The register just named is none the live flag context reads. */
  lemma CtxMisses(p: seq<Token>, a: EsilArch, m: Machine)
    requires LawfulEsil(a) && FlagsApart(a) && Along(p, a, m) && NewName(p, |p| - 1, a) && m.ctx.Some?
    ensures var x := OperandRef(a, p[|p| - 1].name).variable.name; x !in Reads(m.ctx.value.was) && x !in Reads(m.ctx.value.cur)
  {
    NewIsOutside(p, |p| - 1, a);
    hide LawfulEsil, FlagsApart, OperandRef, Keeper, EsilTheorem.Watched, ShapeOf, Shaped, StackWithin, Cells, Reads;
  }

  lemma WriteAllowed(p: seq<Token>, a: EsilArch, m: Machine, n: nat, seeds: bool)
    requires LawfulEsil(a) && FlagsApart(a) && Along(p, a, m) && p != [] && p[|p| - 1].Operand? && |m.stack| == n && 1 <= n <= 2
    requires seeds || NewName(p, |p| - 1, a)
    ensures Top(m).InRegister? && WriteIsSafe(m, NOTHING_WATCHED, Top(m).r, m.stack[..|m.stack| - n], seeds)
  {
    if !seeds && m.ctx.Some? { CtxMisses(p, a, m); }
    hide LawfulEsil, FlagsApart, OperandRef, NewName, EsilTheorem.Watched, ShapeOf, Shaped, StackWithin, CtxWithin, Cells, Reads;
  }

  lemma GentleSafe(ts: seq<Token>, p: seq<Token>, a: EsilArch, m: Machine)
    requires LawfulEsil(a) && FlagsApart(a) && ts != [] && p == ts[..|ts| - 1] && Along(p, a, m) && Gentle(ts, |ts| - 1, a)
    ensures Safe(m, NOTHING_WATCHED, ts[|ts| - 1])
  {
    var k, t := |ts| - 1, ts[|ts| - 1];
    ShapeParts(m, ShapeOf(p, a).value);
    if t.Set? || t.NegAssign? {
      assert p[|p| - 1] == ts[k - 1];
      if t.NegAssign? || !t.seeds { assert NewName(p, |p| - 1, a); }
      WriteAllowed(p, a, m, if t.Set? then 2 else 1, t.Set? && t.seeds);
    }
    hide LawfulEsil, FlagsApart, NewName, Along, ShapeOf, Shaped, WriteIsSafe, TokenFits;
  }

  lemma WatchKept(m: Machine, t: Token, n: Machine)
    requires !t.Open? && !t.Close?
    ensures NextWatch(m, NOTHING_WATCHED, t, n) == NOTHING_WATCHED
  {
    assert TaintAll([]) == [];
    assert forall at :: TaintFrom([], at) == [];
  }

  lemma {:induction false} GentleAlong(ts: seq<Token>, a: EsilArch) returns (m: Machine)
    requires LawfulEsil(a) && FlagsApart(a) && ShapeOf(ts, a).Some? && forall k :: 0 <= k < |ts| ==> Gentle(ts, k, a)
    ensures Along(ts, a, m)
    decreases |ts|
  {
    hide LawfulEsil, FlagsApart, Gentle, StepToken, After, Safe, Shaped, StackWithin, CtxWithin, OperandRef, NextWatch, TokenFits;
    if ts == [] {
      m := FRESH;
      StartAlong(a);
    } else {
      var p, t := ts[..|ts| - 1], ts[|ts| - 1];
      forall k | 0 <= k < |p| ensures Gentle(p, k, a) { GentlePrefix(ts, k, a); }
      var m0 := GentleAlong(p, a);
      GentleSafe(ts, p, a, m0);
      GentleFits(ts, a);
      TokenStep(m0, ShapeOf(p, a).value, t, a);
      m := StepToken(m0, t, a).value;
      WatchKept(m0, t, m);
      CellsGrow(m0, ts, a);
      TokenWithin(m0, t, a, Cells(ts, a));
      if t.Operand? {
        OperandTyped(a, t.name);
        OperandStep(m0, t, a);
      }
    }
  }

  lemma StartAlong(a: EsilArch)
    ensures Along([], a, FRESH)
  {
  }

  lemma GentlePrefix(ts: seq<Token>, k: nat, a: EsilArch)
    requires k < |ts| - 1 && Gentle(ts, k, a)
    ensures Gentle(ts[..|ts| - 1], k, a)
  {
    hide TokenFits, StackHolds, Keeper;
    assert ts[..|ts| - 1][..k] == ts[..k];
  }

  lemma GentleFits(ts: seq<Token>, a: EsilArch)
    requires ts != [] && Gentle(ts, |ts| - 1, a)
    ensures var t := ts[|ts| - 1]; TokenFits(t) && !t.Open? && !t.Close? && (t.Operand? ==> !t.name.Temp?)
  {
    hide StackHolds, NewName;
  }

  lemma CellsGrow(m: Machine, ts: seq<Token>, a: EsilArch)
    requires ts != [] && StackWithin(m.stack, Cells(ts[..|ts| - 1], a)) && CtxWithin(m.ctx, Cells(ts[..|ts| - 1], a))
    ensures StackWithin(m.stack, Cells(ts, a)) && CtxWithin(m.ctx, Cells(ts, a))
    ensures ts[|ts| - 1].Operand? ==> OperandRef(a, ts[|ts| - 1].name).variable.name in Cells(ts, a)
  {
    hide OperandRef, ValueNames;
    var cells, more := Cells(ts[..|ts| - 1], a), Cells(ts, a);
    assert cells <= more;
    StackMore(m.stack, 0, cells, more);
    assert m.stack[..|m.stack| - 0] == m.stack;
    hide StackWithin;
  }

  lemma OperandStep(m: Machine, t: Token, a: EsilArch)
    requires t.Operand?
    ensures StepToken(m, t, a) == Ok(m.(stack := m.stack + [InRegister(OperandRef(a, t.name))]))
  {
    hide OperandRef;
  }

  /** A gentle stream the stack allows is lifted, and free of hazards. */
  lemma GentleIsHazardFree(ts: seq<Token>, a: EsilArch)
    requires LawfulEsil(a) && FlagsApart(a) && ShapeOf(ts, a).Some? && forall k :: 0 <= k < |ts| ==> Gentle(ts, k, a)
    ensures EsilTheorem.HazardFree(ts, a) && LiftEsil(ts, a).Ok?
  {
    hide LawfulEsil, FlagsApart, Gentle, ShapeOf, Shaped, StackWithin, CtxWithin, EsilTheorem.Watched, Steps, Cells;
    var m := GentleAlong(ts, a);
    EsilTheorem.WatchedSteps(ts, a);
  }
}
