/** No two statements of a hazard-free lift define the same temporary. */
module EsilNames {
  import opened Bits
  import opened Common
  import opened Ir
  import opened SsaForm
  import opened Flags
  import opened RegView
  import opened EsilMachine
  import opened EsilTyping
  import opened EsilExec
  import opened EsilFresh
  import opened EsilSteps
  import opened EsilTheorem

  predicate NoRepeat(ss: seq<Stmt>) {
    forall i, j, x: Name :: 0 <= i < j < |ss| && x in DstOf(ss[i]) && x in DstOf(ss[j]) ==> !x.Temp?
  }

  lemma EmitNoRepeat(ss: seq<Stmt>, s: Stmt)
    requires NoRepeat(ss) && forall i, x: Name :: 0 <= i < |ss| && x in DstOf(ss[i]) && x in DstOf(s) ==> !x.Temp?
    ensures NoRepeat(ss + [s])
  {
    hide DstOf;
  }

  /** A late temporary is defined nowhere yet. */
  lemma LateIsNew(m: Machine, w: Watch, x: Name)
    requires Fresh(m, w) && x.Temp? && x.index == |m.statements|
    ensures forall i :: 0 <= i < |m.statements| ==> x !in DstOf(m.statements[i])
  {
    hide CalmValues, FreshPending, FreshBlocks, DstOf, ReadsOf, Deferred;
    forall i | 0 <= i < |m.statements| ensures x !in DstOf(m.statements[i]) {
      assert Calm(DstOf(m.statements[i]), |m.statements|, Deferred(m));
    }
  }

  lemma SpliceNoRepeat(m: Machine, w: Watch, m': Machine, at: nat, t: Var, e: Expr)
    requires Fresh(m, w) && Emitted(m, m', at, t, e) && NoRepeat(m.statements)
    ensures NoRepeat(m'.statements)
  {
    OneDst(t, e);
    DeferredNew(m, w, t.name);
    hide Fresh, DstOf, Deferred, Calm, Shifted, Reads;
    var ss, ss' := m.statements, m'.statements;
    forall i | 0 <= i < |ss'| ensures DstOf(ss'[i]) == if i == at then {t.name} else DstOf(ss[if i < at then i else i - 1]) {
    }
  }

  lemma DeferredNew(m: Machine, w: Watch, x: Name)
    requires Fresh(m, w) && x in Deferred(m)
    ensures forall i :: 0 <= i < |m.statements| ==> x !in DstOf(m.statements[i])
  {
    hide CalmValues, FreshPending, FreshBlocks, DstOf, ReadsOf, Deferred;
    forall i | 0 <= i < |m.statements| ensures x !in DstOf(m.statements[i]) {
      assert Calm(DstOf(m.statements[i]), |m.statements|, Deferred(m));
    }
  }

  lemma MaterialiseNoRepeat(m: Machine, w: Watch)
    requires Fresh(m, w) && NoRepeat(m.statements)
    ensures NoRepeat(MaterialiseCur(m).statements) && NoRepeat(MaterialiseWas(m).statements)
  {
    hide Fresh, Emitted, NoRepeat;
    if m.pending.Some? {
      var p := m.pending.value;
      if p.cur.Some? {
        CurIsEmitted(m, w);
        SpliceNoRepeat(m, w, MaterialiseCur(m), p.at, p.cur.value.0, p.cur.value.1);
      }
      if p.was.Some? {
        WasIsEmitted(m, w);
        SpliceNoRepeat(m, w, MaterialiseWas(m), p.at, p.was.value.0, p.was.value.1);
      }
    }
  }

  lemma FlagNoRepeat(m: Machine, w: Watch, suffix: string)
    requires Fresh(m, w) && NoRepeat(m.statements) && ApplyFlag(m, suffix).Ok?
    ensures NoRepeat(ApplyFlag(m, suffix).value.statements)
  {
    var cur := MaterialiseCur(m);
    MaterialiseNoRepeat(m, w);
    MaterialiseFresh(m, w);
    CurGone(m);
    hide Fresh, NoRepeat, MaterialiseCur, MaterialiseWas, FlagExpr;
    if IsIndexed(suffix) {
      DropFresh(cur, w, 1);
      MaterialiseNoRepeat(Drop(cur, 1), w);
    }
  }

  lemma CloseNoRepeat(m: Machine)
    requires NoRepeat(m.statements) && CloseBlock(m).Ok?
    ensures NoRepeat(CloseBlock(m).value.statements)
  {
    var b, ss := m.blocks[|m.blocks| - 1], m.statements;
    hide DstOf, Guarded, GuardFrom;
    GuardShape(ss, b.start, b.cond);
    forall i | 0 <= i < |ss| ensures DstOf(GuardFrom(ss, b.start, b.cond)[i]) == DstOf(ss[i]) { GuardNames(ss[i], b.cond); }
  }

  lemma WriteNoRepeat(ss: seq<Stmt>, v: Var, e: Expr)
    requires NoRepeat(ss) && !v.name.Temp?
    ensures NoRepeat(ss + [Assign(v, e)])
  {
    OneDst(v, e);
    hide DstOf;
    EmitNoRepeat(ss, Assign(v, e));
  }

  lemma StepNoRepeat(a: EsilArch, m: Machine, w: Watch, t: Token)
    requires Fresh(m, w) && NoRepeat(m.statements) && StepToken(m, t, a).Ok? && Safe(m, w, t)
    ensures NoRepeat(StepToken(m, t, a).value.statements)
  {
    hide Fresh, NoRepeat, ApplyFlag, CloseBlock, ArithExpr, WriteExpr, AssignedExpr, Widen, ReadExpr, NegatedExpr, OperandRef, ToBit, AsBit, FlagExpr;
    match t
    case Flag(suffix) => FlagNoRepeat(m, w, suffix);
    case Close => CloseNoRepeat(m);
    case Set(compound, seeds) =>
      var r := Top(m).r;
      WriteNoRepeat(m.statements, r.variable, WriteExpr(r, AssignedExpr(r, Widen(Second(m), RegBits(r)), compound).value));
    case NegAssign => WriteNoRepeat(m.statements, Top(m).r.variable, WriteExpr(Top(m).r, NegatedExpr(Top(m).r)));
    case Load(size) => LoadNoRepeat(m, w, size);
    case Store(size) => StoreNoRepeat(m.statements, ValueExpr(Top(m)), Widen(Second(m), 8 * size), 8 * size);
    case _ =>
  }

  lemma LoadNoRepeat(m: Machine, w: Watch, size: nat)
    requires Fresh(m, w) && NoRepeat(m.statements) && ApplyLoad(m, size).Ok?
    ensures NoRepeat(ApplyLoad(m, size).value.statements)
  {
    var dst := TempVar("ld", m, 8 * size);
    var s := LoadMem(dst, ValueExpr(Top(m)), 8 * size);
    LateIsNew(m, w, dst.name);
    assert DstOf(s) == {dst.name};
    hide Fresh, NoRepeat, DstOf, ValueExpr;
    EmitNoRepeat(m.statements, s);
  }

  lemma StoreNoRepeat(ss: seq<Stmt>, address: Expr, value: Expr, bits: nat)
    requires NoRepeat(ss)
    ensures NoRepeat(ss + [StoreMem(address, value, bits)])
  {
    assert DstOf(StoreMem(address, value, bits)) == {};
    hide DstOf, NoRepeat;
    EmitNoRepeat(ss, StoreMem(address, value, bits));
  }

  lemma {:induction false} WatchedNoRepeat(ts: seq<Token>, a: EsilArch)
    requires LawfulEsil(a) && HazardFree(ts, a)
    ensures NoRepeat(Watched(ts, a).value.0.statements)
    decreases |ts|
  {
    hide StepToken, Safe, NextWatch, TokenFits, LawfulEsil, Fresh, NoRepeat;
    if ts == [] {
      assert NoRepeat([]) by { NothingRepeats(); }
    } else {
      WatchedNoRepeat(ts[..|ts| - 1], a);
      WatchedKeeps(ts[..|ts| - 1], a);
      var (m, w) := Watched(ts[..|ts| - 1], a).value;
      StepNoRepeat(a, m, w, ts[|ts| - 1]);
    }
  }

  lemma NothingRepeats()
    ensures NoRepeat([])
  {
  }

  /** Emitted temporary names never repeat, for all that they count statements and
      statements are inserted and dropped along the way. */
  lemma TemporariesNeverRepeat(ts: seq<Token>, a: EsilArch, ss: seq<Stmt>)
    requires LawfulEsil(a) && HazardFree(ts, a) && LiftEsil(ts, a) == Ok(ss)
    ensures NoRepeat(ss)
  {
    hide Steps, Watched, LawfulEsil, NoRepeat;
    WatchedSteps(ts, a);
    WatchedNoRepeat(ts, a);
  }

  /** Splicing a snapshot in keeps each open block on the statements it had; a block
      that starts no later than the snapshot also gets the snapshot. */
  lemma SpliceKeepsBlocks(m: Machine, at: nat, t: Var, e: Expr, b: nat)
    requires at <= |m.statements| && b < |m.blocks| && m.blocks[b].start <= |m.statements|
    ensures |InsertSnapshot(m, at, t, e).blocks| == |m.blocks|
    ensures
      var n, start := InsertSnapshot(m, at, t, e), m.blocks[b].start;
      n.blocks[b].start <= |n.statements|
      && n.statements[n.blocks[b].start..] ==
           (if at < start then m.statements[start..] else m.statements[start..at] + [Assign(t, e)] + m.statements[at..])
  {
    ShiftedAt(m.blocks, at);
    var n, start := InsertSnapshot(m, at, t, e), m.blocks[b].start;
    if at < start {
      assert n.statements[start + 1..] == m.statements[start..];
    } else {
      assert n.statements[start..] == m.statements[start..at] + [Assign(t, e)] + m.statements[at..];
    }
  }
}
