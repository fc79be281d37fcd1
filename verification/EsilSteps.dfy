/** Every token keeps the ESIL machine's temporaries fresh. */
module EsilSteps {
  import opened Bits
  import opened Common
  import opened Ir
  import opened SsaForm
  import opened Layouts
  import opened RegView
  import opened Flags
  import opened EsilMachine
  import opened EsilExec
  import opened EsilFresh

  // ---- Names in the expressions the machine builds ----

  lemma ConstReads(v: nat, bits: nat)
    ensures Reads(Const(v, bits)) == {}
  {
  }

  lemma ReadNames(r: RegRef)
    ensures Reads(ReadExpr(r)) <= {r.variable.name}
  {
    hide RegBits;
    assert Reads(Ref(r.variable)) == {r.variable.name};
    var value := if CoversWhole(r) then Ref(r.variable) else Un(Extract(r.hi, r.lo), Ref(r.variable));
    assert Reads(value) == {r.variable.name};
    ConstReads(1, RegBits(r));
    ConstReads(0, RegBits(r));
  }

  lemma ValueReads(v: StackValue)
    ensures Reads(ValueExpr(v)) <= ValueNames(v)
  {
    if v.InRegister? { ReadNames(v.r); }
  }

  lemma RebuildNames(v: Var, lo: nat, hi: nat, value: Expr)
    ensures Reads(Rebuild(v, lo, hi, value)) <= {v.name} + Reads(value)
  {
    var low := if lo > 0 then Bin(Concat, value, Un(Extract(SaturatingSub(lo, 1), 0), Ref(v))) else value;
    assert Reads(Un(Extract(SaturatingSub(lo, 1), 0), Ref(v))) == Reads(Ref(v)) == {v.name};
    assert Reads(low) <= {v.name} + Reads(value);
    assert Reads(Un(Extract(SaturatingSub(v.bits, 1), SaturatingAdd(hi, 1)), Ref(v))) == {v.name};
  }

  lemma WriteNames(r: RegRef, value: Expr)
    ensures Reads(WriteExpr(r, value)) <= {r.variable.name} + Reads(value)
  {
    var stored := if r.invert then Bin(Xor, value, Const(1, RegBits(r))) else value;
    assert Reads(Const(1, RegBits(r))) == {};
    assert Reads(stored) == Reads(value);
    hide Rebuild;
    RebuildNames(r.variable, r.lo, r.hi, stored);
  }

  lemma WidenNames(v: StackValue, to: nat)
    ensures Reads(Widen(v, to)) <= ValueNames(v) && Reads(WidenSigned(v, to)) <= ValueNames(v)
  {
    ValueReads(v);
    hide ValueExpr, Coerce, ValueNames;
    CoerceNames(ValueExpr(v), ValueBits(v), to);
  }

  lemma BinNames(op: BinOp, x: Expr, y: Expr)
    ensures Reads(Bin(op, x, y)) == Reads(x) + Reads(y)
  {
  }

  lemma ArithNames(op: EsilOp, l: StackValue, r: StackValue)
    ensures Reads(ArithExpr(op, l, r)) <= ValueNames(l) + ValueNames(r)
  {
    var bits := Max(ValueBits(l), ValueBits(r));
    WidenNames(l, bits);
    WidenNames(r, bits);
    hide Widen, WidenSigned, ValueNames, ValueBits;
    match op
    case Less => BinNames(Slt, WidenSigned(l, bits), WidenSigned(r, bits));
    case LessEq => BinNames(Sle, WidenSigned(l, bits), WidenSigned(r, bits));
    case Greater => BinNames(Slt, WidenSigned(r, bits), WidenSigned(l, bits));
    case GreaterEq => BinNames(Sle, WidenSigned(r, bits), WidenSigned(l, bits));
    case _ => BinNames(ArithExpr(op, l, r).op, Widen(l, bits), Widen(r, bits));
  }

  lemma IsZeroNames(e: Expr, bits: nat, x: Expr, y: Expr)
    requires x.Const? && y.Const?
    ensures Reads(Ite(Bin(Eq, e, Const(0, bits)), x, y)) == Reads(e)
  {
    assert Reads(Const(0, bits)) == {} && Reads(x) == {} && Reads(y) == {};
    BinNames(Eq, e, Const(0, bits));
  }

  lemma ToBitNames(v: StackValue)
    ensures Reads(ToBit(v)) <= ValueNames(v)
  {
    ValueReads(v);
    hide ValueExpr, Reads;
    IsZeroNames(ValueExpr(v), ValueBits(v), Const(0, 1), Const(1, 1));
  }

  lemma CarryNames(c: FlagCtx, n: nat)
    ensures CarryFlag(c, n).Some? ==> Reads(CarryFlag(c, n).value) <= Reads(c.was) + Reads(c.cur)
    ensures BorrowFlag(c, n).Some? ==> Reads(BorrowFlag(c, n).value) <= Reads(c.was) + Reads(c.cur)
  {
    if LowMask(n, c.bits).Some? {
      var mask := LowMask(n, c.bits).value;
      var x, y := Bin(And, c.cur, mask), Bin(And, c.was, mask);
      assert Reads(mask) == {};
      BinNames(And, c.cur, mask);
      BinNames(And, c.was, mask);
      BinNames(Ult, x, y);
      BinNames(Ult, y, x);
      hide LowMask;
      BitNames(Bin(Ult, x, y));
      BitNames(Bin(Ult, y, x));
    }
  }

  lemma BitNames(c: Expr)
    ensures Reads(AsBit(c)) == Reads(c)
  {
    assert Reads(Const(1, 1)) == {} && Reads(Const(0, 1)) == {};
  }

  lemma {:induction false} XorBitsNames(cur: Expr, top: nat)
    requires top > 0
    ensures Reads(XorBits(cur, top)) == Reads(cur)
    decreases top
  {
    if top > 1 { XorBitsNames(cur, top - 1); }
  }

  /** `$z`, `$p` and `$s` read the current value alone. */
  lemma FlagNames(suffix: string, c: FlagCtx, n: nat)
    requires FlagExpr(suffix, c, n).Some?
    ensures Reads(FlagExpr(suffix, c, n).value) <= Reads(c.was) + Reads(c.cur)
    ensures !NeedsWas(suffix) ==> Reads(FlagExpr(suffix, c, n).value) <= Reads(c.cur)
  {
    hide CarryFlag, BorrowFlag, XorBits, Reads, LowMask;
    if suffix == "z" {
      IsZeroNames(c.cur, c.bits, Const(1, 1), Const(0, 1));
    } else if suffix == "p" {
      ParityNames(c);
    } else if suffix == "s" {
      SignNames(c.cur, n);
    } else if suffix == "o" {
      CarryNames(c, n - 1);
      CarryNames(c, n);
      BinNames(Xor, CarryFlag(c, n - 1).value, CarryFlag(c, n).value);
    } else {
      CarryNames(c, n);
    }
  }

  lemma SignNames(e: Expr, n: nat)
    ensures Reads(Un(Extract(n, n), e)) == Reads(e)
  {
  }

  lemma ParityNames(c: FlagCtx)
    requires ParityFlag(c).Some?
    ensures Reads(ParityFlag(c).value) == Reads(c.cur)
  {
    var top := Min(PARITY_BITS, c.bits);
    XorBitsNames(c.cur, top);
    assert Reads(Const(1, 1)) == {};
    BinNames(Xor, XorBits(c.cur, top), Const(1, 1));
  }

  lemma AssignedNames(r: RegRef, value: Expr, compound: Option<EsilOp>)
    requires AssignedExpr(r, value, compound).Some?
    ensures Reads(AssignedExpr(r, value, compound).value) <= {r.variable.name} + Reads(value)
  {
    ReadNames(r);
    hide ReadExpr;
    if compound.Some? { BinNames(CompoundOp(compound.value).value, ReadExpr(r), value); }
  }

  lemma NegatedNames(r: RegRef)
    ensures Reads(NegatedExpr(r)) <= {r.variable.name}
  {
    ReadNames(r);
    hide ReadExpr, Reads;
    IsZeroNames(ReadExpr(r), RegBits(r), Const(1, RegBits(r)), Const(0, RegBits(r)));
  }

  // ---- Calmness ----

  lemma CalmSubset(p: set<Name>, q: set<Name>, n: nat, d: set<Name>)
    requires p <= q && Calm(q, n, d)
    ensures Calm(p, n, d)
  {
  }

  lemma DeferredAreTemps(m: Machine)
    requires FreshPending(m)
    ensures forall x :: x in Deferred(m) ==> x.Temp? && (x.prefix == "old" || x.prefix == "cur")
  {
    hide Reads, Calm;
  }

  lemma RegisterIsCalm(m: Machine, x: Name, n: nat)
    requires FreshPending(m) && !x.Temp?
    ensures Calm({x}, n, Deferred(m))
  {
    DeferredAreTemps(m);
    hide FreshPending, Deferred;
  }

  /** The names of a stack value are calm. */
  lemma StackIsCalm(m: Machine, w: Watch, i: nat)
    requires Fresh(m, w) && i < |m.stack|
    ensures Calm(ValueNames(m.stack[i]), |m.statements|, Deferred(m))
  {
    hide Calm, CalmStmts, FreshPending, FreshBlocks, ValueNames;
  }

  /** Frames only differ in what they have seen. */
  predicate SameFrames(w: Watch, w': Watch) {
    |w.frames| == |w'.frames| && forall b :: 0 <= b < |w.frames| ==>
      w.frames[b].stack == w'.frames[b].stack && w.frames[b].len == w'.frames[b].len
  }

  lemma WatchFresh(m: Machine, w: Watch, w': Watch)
    requires Fresh(m, w) && SameFrames(w, w')
    ensures Fresh(m, w')
  {
    hide Calm, CalmStmts, CalmValues, FreshPending, Untouched;
    forall b | 0 <= b < |m.blocks| ensures FreshBlock(m, m.blocks[b], w'.frames[b]) {
      assert FreshBlock(m, m.blocks[b], w.frames[b]);
    }
  }

  // ---- Seeding ----

  lemma LateIsCalm(names: set<Name>, n: nat, d: set<Name>, k: nat)
    requires Calm(names, n, d) && n <= k
    ensures Calm(names, n, {Temp("old", k), Temp("cur", k)})
  {
  }

  lemma SeedPending(m: Machine, r: RegRef, e: Expr)
    requires Calm({r.variable.name}, |m.statements|, Deferred(m)) && Calm(Reads(e), |m.statements|, Deferred(m))
    ensures FreshPending(Seed(m, r, e)) && Deferred(Seed(m, r, e)) == {Temp("old", |m.statements|), Temp("cur", |m.statements|)}
  {
    var n, d := |m.statements|, Deferred(m);
    ReadNames(r);
    CalmSubset(Reads(ReadExpr(r)), {r.variable.name}, n, d);
    LateIsCalm(Reads(ReadExpr(r)), n, d, n);
    LateIsCalm(Reads(e), n, d, n);
    hide ReadExpr;
  }

  lemma SeedFresh(m: Machine, w: Watch, r: RegRef, e: Expr)
    requires Fresh(m, w) && Calm({r.variable.name}, |m.statements|, Deferred(m)) && Calm(Reads(e), |m.statements|, Deferred(m))
    ensures Fresh(Seed(m, r, e), w)
  {
    hide Calm, FreshPending, ReadExpr, Reads, ValueNames, DstOf, ReadsOf, Deferred, FreshBlock;
    SeedPending(m, r, e);
    var m', n, d := Seed(m, r, e), |m.statements|, Deferred(m);
    var d' := {Temp("old", n), Temp("cur", n)};
    forall i | 0 <= i < |m.stack| ensures Calm(ValueNames(m.stack[i]), n, d') { LateIsCalm(ValueNames(m.stack[i]), n, d, n); }
    forall i | 0 <= i < n ensures Calm(DstOf(m.statements[i]), n, d') && Calm(ReadsOf(m.statements[i]), n, d') {
      LateIsCalm(DstOf(m.statements[i]), n, d, n);
      LateIsCalm(ReadsOf(m.statements[i]), n, d, n);
    }
    forall b | 0 <= b < |m.blocks| ensures FreshBlock(m', m.blocks[b], w.frames[b]) {
      SeedBlock(m, m', m.blocks[b], w.frames[b], d');
    }
  }

  lemma SeedBlock(m: Machine, m': Machine, b: Block, f: WatchFrame, d': set<Name>)
    requires FreshBlock(m, b, f) && m'.statements == m.statements && m'.blocks == m.blocks && Deferred(m') == d'
    requires d' == {Temp("old", |m.statements|), Temp("cur", |m.statements|)}
    ensures FreshBlock(m', b, f)
  {
    hide Calm, Deferred, Untouched, Reads, ValueNames;
    var d := Deferred(m);
    assert HasMemOp(m') == HasMemOp(m);
    LateIsCalm(Reads(b.cond), f.len, d, |m.statements|);
    forall i | 0 <= i < |f.stack| ensures Calm(ValueNames(f.stack[i]), f.len, d') { LateIsCalm(ValueNames(f.stack[i]), f.len, d, |m.statements|); }
  }

  // ---- Writes ----

  lemma WriteIsFresh(m: Machine, w: Watch, r: RegRef, e: Expr, rest: seq<StackValue>, seeds: bool)
    requires Fresh(m, w) && WriteIsSafe(m, w, r, rest, seeds) && Calm(Reads(e), |m.statements|, Deferred(m))
    ensures EmitIsFresh(m, w, Assign(r.variable, WriteExpr(r, e)))
  {
    WriteNames(r, e);
    OneDst(r.variable, WriteExpr(r, e));
    RegisterIsCalm(m, r.variable.name, |m.statements|);
    RegisterIsCalm(m, r.variable.name, |m.statements| + 1);
    hide Calm, WriteExpr, Reads, FreshPending, CalmStmts, CalmValues, FreshBlock, Deferred;
    CalmUnion({r.variable.name}, Reads(e), |m.statements|, Deferred(m));
    CalmSubset(Reads(WriteExpr(r, e)), {r.variable.name} + Reads(e), |m.statements|, Deferred(m));
    assert ReadsOf(Assign(r.variable, WriteExpr(r, e))) == Reads(WriteExpr(r, e));
  }

  lemma SetFresh(m: Machine, w: Watch, compound: Option<EsilOp>, seeds: bool)
    requires Fresh(m, w) && ApplySet(m, compound, seeds).Ok? && Safe(m, w, Set(compound, seeds))
    ensures Fresh(ApplySet(m, compound, seeds).value, w)
  {
    var r, v := Top(m).r, Second(m);
    var value := Widen(v, RegBits(r));
    var e := AssignedExpr(r, value, compound).value;
    var n, d, m1 := |m.statements|, Deferred(m), Drop(m, 2);
    StackIsCalm(m, w, |m.stack| - 1);
    StackIsCalm(m, w, |m.stack| - 2);
    WidenNames(v, RegBits(r));
    AssignedNames(r, value, compound);
    DropFresh(m, w, 2);
    var s := Assign(r.variable, WriteExpr(r, e));
    assert Deferred(m1) == d && m1.statements == m.statements;
    hide Fresh, Calm, Widen, AssignedExpr, Reads, WriteExpr, EmitIsFresh, Deferred;
    CalmSubset(Reads(value), ValueNames(v), n, d);
    CalmUnion({r.variable.name}, Reads(value), n, d);
    CalmSubset(Reads(e), {r.variable.name} + Reads(value), n, d);
    SeedFresh(m1, w, r, e);
    WriteIsFresh(m1, w, r, e, m.stack[..|m.stack| - 2], seeds);
    EmitFresh(m1, w, s);
    if seeds && !r.zero { SeededWrite(m1, w, r, e, m.stack[..|m.stack| - 2]); }
  }

  /** A write right after its own seed. */
  lemma SeededWrite(m: Machine, w: Watch, r: RegRef, e: Expr, rest: seq<StackValue>)
    requires Fresh(m, w) && WriteIsSafe(m, w, r, rest, true)
    requires Calm({r.variable.name}, |m.statements|, Deferred(m)) && Calm(Reads(e), |m.statements|, Deferred(m))
    ensures Fresh(Emit(Seed(m, r, e), Assign(r.variable, WriteExpr(r, e))), w)
  {
    var m' := Seed(m, r, e);
    SeedFresh(m, w, r, e);
    assert Deferred(m') == {Temp("old", |m.statements|), Temp("cur", |m.statements|)};
    assert m'.blocks == m.blocks && m'.statements == m.statements;
    hide Fresh, Calm, Reads, WriteExpr, EmitIsFresh, Seed, Deferred;
    LateIsCalm(Reads(e), |m.statements|, Deferred(m), |m.statements|);
    WriteIsFresh(m', w, r, e, rest, true);
    EmitFresh(m', w, Assign(r.variable, WriteExpr(r, e)));
  }

  lemma NegFresh(m: Machine, w: Watch)
    requires Fresh(m, w) && ApplyNegAssign(m).Ok? && Safe(m, w, NegAssign)
    ensures Fresh(ApplyNegAssign(m).value, w)
  {
    var r, n, d, m1 := Top(m).r, |m.statements|, Deferred(m), Drop(m, 1);
    StackIsCalm(m, w, |m.stack| - 1);
    NegatedNames(r);
    DropFresh(m, w, 1);
    assert Deferred(m1) == d && m1.statements == m.statements;
    hide Fresh, Calm, NegatedExpr, Reads, WriteExpr, EmitIsFresh, Deferred;
    CalmSubset(Reads(NegatedExpr(r)), {r.variable.name}, n, d);
    WriteIsFresh(m1, w, r, NegatedExpr(r), m.stack[..|m.stack| - 1], false);
    EmitFresh(m1, w, Assign(r.variable, WriteExpr(r, NegatedExpr(r))));
  }

  lemma CompareFresh(m: Machine, w: Watch)
    requires Fresh(m, w) && ApplyCompare(m).Ok?
    ensures Fresh(ApplyCompare(m).value, w)
  {
    var l, r, n, d := Top(m), Second(m), |m.statements|, Deferred(m);
    var bits := CompareBits(l, r);
    StackIsCalm(m, w, |m.stack| - 1);
    StackIsCalm(m, w, |m.stack| - 2);
    WidenNames(l, bits);
    WidenNames(r, bits);
    BinNames(Sub, Widen(l, bits), Widen(r, bits));
    DropFresh(m, w, 2);
    var m' := ApplyCompare(m).value;
    hide Widen, Reads, ValueNames, CompareBits;
    CalmSubset(Reads(Widen(l, bits)), ValueNames(l), n, d);
    CalmSubset(Reads(Widen(r, bits)), ValueNames(r), n, d);
    CalmUnion(Reads(Widen(l, bits)), Reads(Widen(r, bits)), n, d);
    hide Calm;
    CtxFresh(Drop(m, 2), w, m'.ctx.value);
  }

  lemma CtxFresh(m: Machine, w: Watch, c: FlagCtx)
    requires Fresh(m, w) && Calm(Reads(c.was), |m.statements|, Deferred(m)) && Calm(Reads(c.cur), |m.statements|, Deferred(m))
    ensures Fresh(m.(ctx := Some(c)), w)
  {
    hide Calm, CalmStmts, CalmValues, Reads, Untouched, DstOf;
    var m' := m.(ctx := Some(c));
    assert Deferred(m') == Deferred(m) && HasMemOp(m') == HasMemOp(m);
    forall b | 0 <= b < |m.blocks| ensures FreshBlock(m', m.blocks[b], w.frames[b]) {
      assert FreshBlock(m, m.blocks[b], w.frames[b]);
    }
  }

  // ---- Flags ----

  /** Once its half is emitted, a context expression reads nothing deferred. */
  lemma EmittedCur(m: Machine, w: Watch)
    requires Fresh(MaterialiseCur(m), w) && m.ctx.Some?
    ensures var m' := MaterialiseCur(m); Calm(Reads(m.ctx.value.cur), |m'.statements|, Deferred(m'))
  {
    hide Calm, Reads, CalmStmts, CalmValues, FreshBlocks, InsertSnapshot, FreshHalf;
    assert PendingCur(MaterialiseCur(m)).None? && MaterialiseCur(m).ctx == m.ctx by { CurGone(m); }
  }

  lemma CurGone(m: Machine)
    ensures PendingCur(MaterialiseCur(m)).None? && MaterialiseCur(m).ctx == m.ctx && MaterialiseCur(m).stack == m.stack
    ensures |m.statements| <= |MaterialiseCur(m).statements|
    ensures PendingWas(MaterialiseWas(m)).None? && MaterialiseWas(m).ctx == m.ctx && MaterialiseWas(m).stack == m.stack
    ensures PendingCur(MaterialiseWas(m)) == PendingCur(m)
    ensures |m.statements| <= |MaterialiseWas(m).statements|
  {
  }

  lemma EmittedWas(m: Machine, w: Watch)
    requires Fresh(MaterialiseWas(m), w) && m.ctx.Some? && PendingCur(m).None?
    ensures var m' := MaterialiseWas(m);
      Calm(Reads(m.ctx.value.was), |m'.statements|, Deferred(m')) && Calm(Reads(m.ctx.value.cur), |m'.statements|, Deferred(m'))
  {
    hide Calm, Reads, CalmStmts, CalmValues, FreshBlocks, InsertSnapshot, FreshHalf;
    CurGone(m);
  }

  lemma FlagFresh(m: Machine, w: Watch, suffix: string)
    requires Fresh(m, w) && ApplyFlag(m, suffix).Ok?
    ensures Fresh(ApplyFlag(m, suffix).value, w)
  {
    var c, cur := m.ctx.value, MaterialiseCur(m);
    MaterialiseFresh(m, w);
    EmittedCur(m, w);
    CurGone(m);
    hide Fresh, Calm, Reads, MaterialiseCur, MaterialiseWas, FlagExpr;
    if IsIndexed(suffix) {
      DropFresh(cur, w, 1);
      var dropped, n := Drop(cur, 1), FlagIndex(Top(m)).value;
      FlagNames(suffix, c, n);
      if NeedsWas(suffix) {
        MaterialiseFresh(dropped, w);
        EmittedWas(dropped, w);
        var both := MaterialiseWas(dropped);
        CalmUnion(Reads(c.was), Reads(c.cur), |both.statements|, Deferred(both));
        CalmSubset(Reads(FlagExpr(suffix, c, n).value), Reads(c.was) + Reads(c.cur), |both.statements|, Deferred(both));
        PushFresh(both, w, Computed(FlagExpr(suffix, c, n).value, 1));
      } else {
        CalmSubset(Reads(FlagExpr(suffix, c, n).value), Reads(c.cur), |dropped.statements|, Deferred(dropped));
        PushFresh(dropped, w, Computed(FlagExpr(suffix, c, n).value, 1));
      }
    } else {
      FlagNames(suffix, c, 0);
      CalmSubset(Reads(FlagExpr(suffix, c, 0).value), Reads(c.cur), |cur.statements|, Deferred(cur));
      PushFresh(cur, w, Computed(FlagExpr(suffix, c, 0).value, 1));
    }
  }

  // ---- Memory ----

  lemma MarkFresh(m: Machine, w: Watch)
    requires Fresh(m, w)
    ensures Fresh(MarkMemOp(m), w) && (MarkMemOp(m).blocks != [] ==> HasMemOp(MarkMemOp(m)))
    ensures |MarkMemOp(m).blocks| == |m.blocks|
  {
    hide Calm, CalmStmts, CalmValues, Untouched, DstOf, Reads;
    var m' := MarkMemOp(m);
    assert Deferred(m') == Deferred(m);
    if m.blocks != [] {
      assert m'.blocks[|m.blocks| - 1].memOp;
      forall b | 0 <= b < |m.blocks| ensures FreshBlock(m', m'.blocks[b], w.frames[b]) {
        assert FreshBlock(m, m.blocks[b], w.frames[b]);
      }
    }
    assert FreshPending(m');
  }

  /** Taking operands off and marking the block leaves statements and deferred names alone. */
  lemma AccessKeeps(m: Machine, n: nat)
    requires n <= |m.stack|
    ensures var m1 := MarkMemOp(Drop(m, n));
            Deferred(m1) == Deferred(m) && m1.statements == m.statements && m1.stack == m.stack[..|m.stack| - n] && |m1.blocks| == |m.blocks|
  {
  }

  lemma LoadUnfolds(m: Machine, size: nat)
    requires ApplyLoad(m, size).Ok?
    ensures m.stack != []
    ensures var dst := TempVar("ld", m, 8 * size);
            dst.name.Temp? && dst.name.index == |m.statements|
            && ApplyLoad(m, size).value == PushTo(Emit(MarkMemOp(Drop(m, 1)), LoadMem(dst, ValueExpr(Top(m)), 8 * size)), InRegister(WholeRef(dst)))
  {
    hide ValueExpr, WholeRef;
  }

  lemma LoadEmits(m: Machine, w: Watch, dst: Var, x: Expr, bits: nat)
    requires Fresh(m, w) && dst.name.Temp? && dst.name.index == |m.statements| && dst.name !in Deferred(m)
    requires Calm(Reads(x), |m.statements|, Deferred(m))
    ensures EmitIsFresh(m, w, LoadMem(dst, x, bits))
  {
    LateDst(m, w, dst.name);
    hide Fresh, Deferred, Reads;
  }

  lemma NotYetDeferred(m: Machine, w: Watch, x: Name)
    requires Fresh(m, w) && x.Temp? && x.prefix == "ld"
    ensures x !in Deferred(m)
  {
    DeferredAreTemps(m);
    hide CalmStmts, CalmValues, FreshBlocks;
  }

  lemma LoadFresh(m: Machine, w: Watch, size: nat)
    requires Fresh(m, w) && ApplyLoad(m, size).Ok? && size > 0
    ensures Fresh(ApplyLoad(m, size).value, w)
  {
    LoadUnfolds(m, size);
    var d, dst := Deferred(m), TempVar("ld", m, 8 * size);
    NotYetDeferred(m, w, dst.name);
    hide *;
    var s := LoadMem(dst, ValueExpr(Top(m)), 8 * size);
    var m1 := MarkMemOp(Drop(m, 1));
    TopIsCalm(m, w);
    DropFresh(m, w, 1);
    AccessKeeps(m, 1);
    MarkFresh(Drop(m, 1), w);
    LoadEmits(m1, w, dst, ValueExpr(Top(m)), 8 * size);
    EmitFresh(m1, w, s);
    EmitDeferred(m1, s);
    EmitStatements(m1, s);
    WholeNames(dst);
    OneLateName(dst.name, |m.statements|, d);
    PushFresh(Emit(m1, s), w, InRegister(WholeRef(dst)));
  }

  lemma EmitStatements(m: Machine, s: Stmt)
    ensures Emit(m, s).statements == m.statements + [s]
  {
  }

  lemma OneLateName(x: Name, n: nat, d: set<Name>)
    requires x.Temp? && x.index == n && x !in d
    ensures Calm({x}, n + 1, d)
  {
  }

  /** What the top of the stack reads is calm. */
  lemma TopIsCalm(m: Machine, w: Watch)
    requires Fresh(m, w) && m.stack != []
    ensures Calm(Reads(ValueExpr(Top(m))), |m.statements|, Deferred(m))
  {
    StackIsCalm(m, w, |m.stack| - 1);
    ValueReads(Top(m));
    hide Fresh, Calm, Reads, ValueNames, ValueExpr, Deferred;
    CalmSubset(Reads(ValueExpr(Top(m))), ValueNames(Top(m)), |m.statements|, Deferred(m));
  }

  lemma WholeNames(v: Var)
    ensures ValueNames(InRegister(WholeRef(v))) == {v.name}
  {
  }

  lemma EmitDeferred(m: Machine, s: Stmt)
    ensures Deferred(Emit(m, s)) == Deferred(m)
  {
  }

  /** A temporary named now is in no guard. */
  lemma LateDst(m: Machine, w: Watch, x: Name)
    requires Fresh(m, w) && x.Temp? && x.index == |m.statements|
    ensures |w.frames| == |m.blocks|
    ensures forall b :: 0 <= b < |m.blocks| ==> x !in Reads(m.blocks[b].cond) && x.index >= w.frames[b].len
  {
    hide CalmStmts, CalmValues, FreshPending, Untouched, Reads;
    forall b | 0 <= b < |m.blocks| ensures x !in Reads(m.blocks[b].cond) && x.index >= w.frames[b].len {
      assert FreshBlock(m, m.blocks[b], w.frames[b]);
    }
  }

  lemma StoreEmits(m: Machine, w: Watch, x: Expr, y: Expr, bits: nat)
    requires Fresh(m, w) && Calm(Reads(x), |m.statements|, Deferred(m)) && Calm(Reads(y), |m.statements|, Deferred(m))
    ensures EmitIsFresh(m, w, StoreMem(x, y, bits))
  {
    FrameCount(m, w);
    hide Fresh, Deferred, Reads;
  }

  lemma SecondIsCalm(m: Machine, w: Watch, bits: nat)
    requires Fresh(m, w) && |m.stack| >= 2
    ensures Calm(Reads(Widen(Second(m), bits)), |m.statements|, Deferred(m))
  {
    StackIsCalm(m, w, |m.stack| - 2);
    WidenNames(Second(m), bits);
    hide Fresh, Calm, Reads, ValueNames, Widen, Deferred;
    CalmSubset(Reads(Widen(Second(m), bits)), ValueNames(Second(m)), |m.statements|, Deferred(m));
  }

  lemma StoreUnfolds(m: Machine, size: nat)
    requires ApplyStore(m, size).Ok?
    ensures |m.stack| >= 2
    ensures ApplyStore(m, size).value == Emit(MarkMemOp(Drop(m, 2)), StoreMem(ValueExpr(Top(m)), Widen(Second(m), 8 * size), 8 * size))
  {
    hide ValueExpr, Widen;
  }

  lemma StoreFresh(m: Machine, w: Watch, size: nat)
    requires Fresh(m, w) && ApplyStore(m, size).Ok? && size > 0
    ensures Fresh(ApplyStore(m, size).value, w)
  {
    hide *;
    StoreUnfolds(m, size);
    var m1 := MarkMemOp(Drop(m, 2));
    TopIsCalm(m, w);
    SecondIsCalm(m, w, 8 * size);
    DropFresh(m, w, 2);
    AccessKeeps(m, 2);
    MarkFresh(Drop(m, 2), w);
    StoreEmits(m1, w, ValueExpr(Top(m)), Widen(Second(m), 8 * size), 8 * size);
    EmitFresh(m1, w, StoreMem(ValueExpr(Top(m)), Widen(Second(m), 8 * size), 8 * size));
  }

  lemma FrameCount(m: Machine, w: Watch)
    requires Fresh(m, w)
    ensures |w.frames| == |m.blocks|
  {
    hide CalmStmts, CalmValues, FreshPending, FreshBlock;
  }

  // ---- Blocks ----

  lemma OpenFresh(m: Machine, w: Watch)
    requires Fresh(m, w) && OpenBlock(m).Ok?
    ensures var n := OpenBlock(m).value; Fresh(n, NextWatch(m, w, Open, n))
  {
    var n := OpenBlock(m).value;
    var w', v := NextWatch(m, w, Open, n), Top(m);
    var b, f := n.blocks[|m.blocks|], w'.frames[|w.frames|];
    StackIsCalm(m, w, |m.stack| - 1);
    ToBitNames(v);
    CalmSubset(Reads(ToBit(v)), ValueNames(v), |m.statements|, Deferred(m));
    DropFresh(m, w, 1);
    assert Deferred(n) == Deferred(m);
    assert HasMemOp(n) == HasMemOp(m) by {
      if HasMemOp(m) { var c :| 0 <= c < |m.blocks| && m.blocks[c].memOp; assert n.blocks[c].memOp; }
    }
    hide Calm, CalmStmts, CalmValues, ToBit, ValueNames, Reads, HasMemOp, DstOf, Deferred;
    assert FreshPending(n) by { OpenPending(m, n); }
    hide FreshPending;
    assert FreshBlock(n, b, f) by { assert Untouched(n.statements, b.start, Reads(b.cond)); }
    forall c | 0 <= c < |n.blocks| ensures FreshBlock(n, n.blocks[c], w'.frames[c]) {
      if c < |m.blocks| { assert FreshBlock(m, m.blocks[c], w.frames[c]); }
    }
    forall c, e | 0 <= c < e < |n.blocks| ensures n.blocks[c].start <= n.blocks[e].start && w'.frames[c].len <= w'.frames[e].len {
      assert FreshBlock(m, m.blocks[c], w.frames[c]);
    }
  }

  lemma OpenPending(m: Machine, n: Machine)
    requires FreshPending(m) && n.statements == m.statements && n.pending == m.pending && n.ctx == m.ctx
    ensures FreshPending(n)
  {
    hide Calm, Reads;
    assert Deferred(n) == Deferred(m);
  }

  lemma GuardNames(s: Stmt, cond: Expr)
    ensures DstOf(Guarded(s, cond)) == DstOf(s)
    ensures ReadsOf(Guarded(s, cond)) <= ReadsOf(s) + DstOf(s) + Reads(cond)
  {
    if s.Assign? {
      OneRead(s.dst);
      assert Reads(Ite(cond, s.rhs, Ref(s.dst))) == Reads(cond) + Reads(s.rhs) + Reads(Ref(s.dst));
    }
  }

  lemma GuardStmtsCalm(ss: seq<Stmt>, start: nat, cond: Expr, n: nat, d: set<Name>)
    requires CalmStmts(ss, n, d) && Calm(Reads(cond), n, d)
    ensures CalmStmts(GuardFrom(ss, start, cond), n, d)
  {
    hide Calm, DstOf, ReadsOf, Guarded, GuardFrom, Reads;
    GuardShape(ss, start, cond);
    forall i | 0 <= i < |ss|
      ensures Calm(DstOf(GuardFrom(ss, start, cond)[i]), n, d) && Calm(ReadsOf(GuardFrom(ss, start, cond)[i]), n, d)
    {
      GuardNames(ss[i], cond);
      CalmUnion(ReadsOf(ss[i]), DstOf(ss[i]), n, d);
      CalmUnion(ReadsOf(ss[i]) + DstOf(ss[i]), Reads(cond), n, d);
      CalmSubset(ReadsOf(Guarded(ss[i], cond)), ReadsOf(ss[i]) + DstOf(ss[i]) + Reads(cond), n, d);
    }
  }

  lemma CloseBlockFresh(m: Machine, n: Machine, b: Block, f: WatchFrame, start: nat, cond: Expr)
    requires FreshBlock(m, b, f) && n.statements == GuardFrom(m.statements, start, cond) && Deferred(n) == Deferred(m)
    requires HasMemOp(m) ==> HasMemOp(n)
    ensures FreshBlock(n, b, f)
  {
    hide Calm, CalmValues, DstOf, Guarded, GuardFrom, Reads, Deferred, HasMemOp;
    var ss, gs := m.statements, n.statements;
    GuardShape(ss, start, cond);
    forall i | 0 <= i < |ss| ensures DstOf(gs[i]) == DstOf(ss[i]) && (gs[i].LoadMem? <==> ss[i].LoadMem?) && (gs[i].StoreMem? <==> ss[i].StoreMem?) {
      GuardNames(ss[i], cond);
      GuardKind(ss[i], cond);
    }
    assert Untouched(gs, b.start, Reads(b.cond)) by {
      forall i, x | b.start <= i < |gs| && x in DstOf(gs[i]) ensures x !in Reads(b.cond) { assert x in DstOf(ss[i]); }
    }
  }

  lemma GuardKind(s: Stmt, cond: Expr)
    ensures (Guarded(s, cond).LoadMem? <==> s.LoadMem?) && (Guarded(s, cond).StoreMem? <==> s.StoreMem?)
  {
  }

  lemma CloseFresh(m: Machine, w: Watch)
    requires Fresh(m, w) && CloseBlock(m).Ok?
    ensures var n := CloseBlock(m).value; Fresh(n, NextWatch(m, w, Close, n))
  {
    var n := CloseBlock(m).value;
    var w', last := NextWatch(m, w, Close, n), |m.blocks| - 1;
    var b, f := m.blocks[last], w.frames[last];
    assert FreshBlock(m, b, f);
    assert Deferred(n) == Deferred(m);
    assert HasMemOp(m) ==> HasMemOp(n) by {
      if HasMemOp(m) { var c :| 0 <= c < |m.blocks| && m.blocks[c].memOp; assert n.blocks[c].memOp; }
    }
    CalmMore(Reads(b.cond), f.len, |m.statements|, Deferred(m), Deferred(m));
    hide Calm, CalmValues, DstOf, Guarded, GuardFrom, Reads, Deferred, HasMemOp;
    GuardShape(m.statements, b.start, b.cond);
    GuardStmtsCalm(m.statements, b.start, b.cond, |m.statements|, Deferred(m));
    hide CalmStmts;
    ClosePending(m, n);
    hide FreshPending;
    forall c | 0 <= c < |n.blocks| ensures FreshBlock(n, n.blocks[c], w'.frames[c]) {
      assert FreshBlock(m, m.blocks[c], w.frames[c]);
      CloseBlockFresh(m, n, m.blocks[c], w.frames[c], b.start, b.cond);
    }
  }

  lemma ClosePending(m: Machine, n: Machine)
    requires FreshPending(m) && |n.statements| == |m.statements| && n.pending == m.pending && n.ctx == m.ctx
    ensures FreshPending(n)
  {
    hide Calm, Reads;
    assert Deferred(n) == Deferred(m);
  }

  // ---- One token ----

  lemma ConstIsCalm(m: Machine, value: nat, bits: nat)
    ensures Calm(ValueNames(Computed(Const(value, bits), bits)), |m.statements|, Deferred(m))
  {
    assert Reads(Const(value, bits)) == {};
  }

  lemma ArithFresh(m: Machine, w: Watch, op: EsilOp)
    requires Fresh(m, w) && ApplyArith(m, op).Ok?
    ensures Fresh(ApplyArith(m, op).value, w)
  {
    var l, r, n, d := Top(m), Second(m), |m.statements|, Deferred(m);
    StackIsCalm(m, w, |m.stack| - 1);
    StackIsCalm(m, w, |m.stack| - 2);
    ArithNames(op, l, r);
    DropFresh(m, w, 2);
    var e, bits := ArithExpr(op, l, r), if IsCompare(op) then 1 else Max(ValueBits(l), ValueBits(r));
    assert ValueNames(Computed(e, bits)) == Reads(e) && Deferred(Drop(m, 2)) == d;
    hide Fresh, Calm, Reads, ArithExpr, ValueNames, Deferred;
    CalmUnion(ValueNames(l), ValueNames(r), n, d);
    CalmSubset(Reads(e), ValueNames(l) + ValueNames(r), n, d);
    PushFresh(Drop(m, 2), w, Computed(e, bits));
  }

  lemma NotFresh(m: Machine, w: Watch)
    requires Fresh(m, w) && ApplyNot(m).Ok?
    ensures Fresh(ApplyNot(m).value, w)
  {
    var v, n, d := Top(m), |m.statements|, Deferred(m);
    StackIsCalm(m, w, |m.stack| - 1);
    ValueReads(v);
    IsZeroNames(ValueExpr(v), ValueBits(v), Const(1, 1), Const(0, 1));
    DropFresh(m, w, 1);
    var e := AsBit(Bin(Eq, ValueExpr(v), Const(0, ValueBits(v))));
    assert ValueNames(Computed(e, 1)) == Reads(e) && Deferred(Drop(m, 1)) == d;
    hide Fresh, Calm, Reads, ValueNames, Deferred;
    CalmSubset(Reads(e), ValueNames(v), n, d);
    PushFresh(Drop(m, 1), w, Computed(e, 1));
  }

  lemma TaintsKeepFrames(w: Watch, at: nat)
    ensures SameFrames(w, w.(frames := TaintAll(w.frames))) && SameFrames(w, Watch(TaintAll(w.frames), false))
    ensures SameFrames(w, w.(frames := TaintFrom(w.frames, at)))
    ensures SameFrames(w, w)
  {
  }

  /** Every safe token leaves every name fresh. */
  lemma StepFresh(m: Machine, w: Watch, t: Token, a: EsilArch)
    requires Fresh(m, w) && StepToken(m, t, a).Ok? && Safe(m, w, t)
    requires t.Operand? ==> !OperandRef(a, t.name).variable.name.Temp?
    requires t.Load? || t.Store? ==> t.size > 0
    ensures var n := StepToken(m, t, a).value; Fresh(n, NextWatch(m, w, t, n))
  {
    hide Fresh, Safe, SameFrames, ApplyFlag, ApplySet, ApplyNegAssign, ApplyLoad, ApplyStore, OpenBlock, CloseBlock, ApplyArith,
         ApplyCompare, ApplyNot, OperandRef, TaintAll, TaintFrom, Calm, Deferred;
    var n := StepToken(m, t, a).value;
    TaintsKeepFrames(w, if m.pending.Some? then m.pending.value.at else 0);
    match t
    case Literal(value) =>
      ConstIsCalm(m, value, a.arch.ptr);
      PushFresh(m, w, Computed(Const(value, a.arch.ptr), a.arch.ptr));
    case Operand(name) => OperandFresh(m, w, OperandRef(a, name));
    case Flag(suffix) =>
      FlagFresh(m, w, suffix);
      WatchFresh(n, w, NextWatch(m, w, t, n));
    case Arith(op) => ArithFresh(m, w, op);
    case Not => NotFresh(m, w);
    case Compare =>
      CompareFresh(m, w);
      WatchFresh(n, w, NextWatch(m, w, t, n));
    case NegAssign => NegFresh(m, w);
    case Set(compound, seeds) =>
      SetFresh(m, w, compound, seeds);
      WatchFresh(n, w, NextWatch(m, w, t, n));
    case Load(size) => LoadFresh(m, w, size);
    case Store(size) => StoreFresh(m, w, size);
    case Open => OpenFresh(m, w);
    case Close => CloseFresh(m, w);
    case Junk(_) =>
  }

  lemma OperandFresh(m: Machine, w: Watch, r: RegRef)
    requires Fresh(m, w) && !r.variable.name.Temp?
    ensures Fresh(PushTo(m, InRegister(r)), w)
  {
    RegisterIsCalm(m, r.variable.name, |m.statements|);
    assert ValueNames(InRegister(r)) == {r.variable.name};
    hide Fresh, Calm, Deferred, ValueNames;
    PushFresh(m, w, InRegister(r));
  }

  /** A memory access inside a block is never forgotten, so the lift declines. */
  lemma MemOpStays(m: Machine, t: Token, a: EsilArch)
    requires HasMemOp(m) && StepToken(m, t, a).Ok?
    ensures HasMemOp(StepToken(m, t, a).value)
  {
    hide ArithExpr, Placed, FlagExpr, ToBit, GuardFrom, WriteExpr, AssignedExpr;
    var n := StepToken(m, t, a).value;
    var b :| 0 <= b < |m.blocks| && m.blocks[b].memOp;
    if t.Flag? {
      FlagKeepsMemOp(m, t.suffix);
    } else {
      assert b < |n.blocks| && n.blocks[b].memOp;
    }
  }

  lemma FlagKeepsMemOp(m: Machine, suffix: string)
    requires HasMemOp(m) && ApplyFlag(m, suffix).Ok?
    ensures HasMemOp(ApplyFlag(m, suffix).value)
  {
    var cur := MaterialiseCur(m);
    MaterialiseMemOp(m);
    if IsIndexed(suffix) { MaterialiseMemOp(Drop(cur, 1)) by { assert Drop(cur, 1).blocks == cur.blocks; } }
    hide MaterialiseCur, MaterialiseWas, FlagExpr;
    assert ApplyFlag(m, suffix).value.blocks == (if IsIndexed(suffix) && NeedsWas(suffix) then MaterialiseWas(Drop(cur, 1)).blocks else cur.blocks);
  }

  lemma MaterialiseMemOp(m: Machine)
    requires HasMemOp(m)
    ensures HasMemOp(MaterialiseCur(m)) && HasMemOp(MaterialiseWas(m))
  {
    hide Shifted;
    if m.pending.Some? {
      if MaterialiseCur(m).blocks != m.blocks { ShiftedMemOp(m, MaterialiseCur(m), m.pending.value.at); }
      if MaterialiseWas(m).blocks != m.blocks { ShiftedMemOp(m, MaterialiseWas(m), m.pending.value.at); }
    }
  }
}
