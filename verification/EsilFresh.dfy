/** The temporaries the ESIL machine makes up: their names never repeat, and one
    whose snapshot is still deferred is mentioned nowhere. */
module EsilFresh {
  import opened Bits
  import opened Common
  import opened Ir
  import opened SsaForm
  import opened RegView
  import opened Flags
  import opened EsilMachine
  import opened EsilExec

  /** What a caller must watch to know a stream is free of the hazards below: for
      each open block the stack and length it opened at and whether the flag
      context was touched inside; and whether the context is stale. */
  datatype WatchFrame = WatchFrame(stack: seq<StackValue>, len: nat, tainted: bool)
  datatype Watch = Watch(frames: seq<WatchFrame>, dirty: bool)

  function ValueNames(v: StackValue): set<Name> {
    match v
    case InRegister(r) => {r.variable.name}
    case Computed(e, _) => Reads(e)
  }

  function HalfName(h: Option<(Var, Expr)>): set<Name> {
    if h.Some? then {h.value.0.name} else {}
  }

  /** Temporaries named but not emitted. */
  function Deferred(m: Machine): set<Name> {
    if m.pending.None? then {} else HalfName(m.pending.value.was) + HalfName(m.pending.value.cur)
  }

  /** Only temporaries numbered below `n`, none of them deferred. */
  predicate Calm(names: set<Name>, n: nat, deferred: set<Name>) {
    forall x :: x in names ==> x !in deferred && (x.Temp? ==> x.index < n)
  }

  predicate CalmValues(vs: seq<StackValue>, n: nat, deferred: set<Name>) {
    forall i :: 0 <= i < |vs| ==> Calm(ValueNames(vs[i]), n, deferred)
  }

  predicate CalmStmts(ss: seq<Stmt>, n: nat, deferred: set<Name>) {
    forall i :: 0 <= i < |ss| ==> Calm(DstOf(ss[i]), n, deferred) && Calm(ReadsOf(ss[i]), n, deferred)
  }

  predicate FreshHalf(h: Option<(Var, Expr)>, tag: string, at: nat, n: nat, deferred: set<Name>) {
    h.Some? ==> h.value.0.name == Temp(tag, at) && Calm(Reads(h.value.1), n, deferred)
  }

  /** A context expression is a deferred temporary, or stands on its own. */
  predicate CalmHalf(e: Expr, h: Option<(Var, Expr)>, n: nat, deferred: set<Name>) {
    (h.Some? && e == Ref(h.value.0)) || Calm(Reads(e), n, deferred)
  }

  predicate FreshPending(m: Machine) {
    var n, d := |m.statements|, Deferred(m);
    && (m.pending.Some? ==>
          var p := m.pending.value;
          p.at <= n && FreshHalf(p.was, "old", p.at, n, d) && FreshHalf(p.cur, "cur", p.at, n, d))
    && (m.ctx.Some? ==>
          CalmHalf(m.ctx.value.was, PendingWas(m), n, d) && CalmHalf(m.ctx.value.cur, PendingCur(m), n, d))
  }

  function PendingWas(m: Machine): Option<(Var, Expr)> {
    if m.pending.None? then None else m.pending.value.was
  }

  function PendingCur(m: Machine): Option<(Var, Expr)> {
    if m.pending.None? then None else m.pending.value.cur
  }

  predicate HasMemOp(m: Machine) {
    exists b :: 0 <= b < |m.blocks| && m.blocks[b].memOp
  }

  /** One open block: nothing after its start writes its guard, the temporaries
      defined there are late ones, and a memory access there has marked a block. */
  predicate FreshBlock(m: Machine, b: Block, f: WatchFrame) {
    && f.len <= b.start <= |m.statements|
    && Calm(Reads(b.cond), f.len, Deferred(m)) && CalmValues(f.stack, f.len, Deferred(m))
    && Untouched(m.statements, b.start, Reads(b.cond))
    && (forall i, x: Name {:trigger x in DstOf(m.statements[i])} ::
          b.start <= i < |m.statements| && x in DstOf(m.statements[i]) ==> x.Temp? ==> x.index >= f.len)
    && (HasMemOp(m) || forall i :: b.start <= i < |m.statements| ==> !m.statements[i].LoadMem? && !m.statements[i].StoreMem?)
  }

  predicate FreshBlocks(m: Machine, w: Watch) {
    && |w.frames| == |m.blocks|
    && (forall b :: 0 <= b < |m.blocks| ==> FreshBlock(m, m.blocks[b], w.frames[b]))
    && (forall b, c :: 0 <= b < c < |m.blocks| ==> m.blocks[b].start <= m.blocks[c].start && w.frames[b].len <= w.frames[c].len)
  }

  predicate Fresh(m: Machine, w: Watch) {
    var n, d := |m.statements|, Deferred(m);
    CalmStmts(m.statements, n, d) && CalmValues(m.stack, n, d) && FreshPending(m) && FreshBlocks(m, w)
  }

  // ---- The hazards ----

  /** The variable a token is about to write, if any. */
  function WriteTarget(m: Machine, t: Token): Option<RegRef> {
    if (t.Set? || t.NegAssign?) && m.stack != [] && Top(m).InRegister? then Some(Top(m).r) else None
  }

  /** No computed value still on the stack, open guard or live compare context reads
      the variable about to be written. */
  predicate WriteIsSafe(m: Machine, w: Watch, r: RegRef, rest: seq<StackValue>, seeds: bool) {
    var x := r.variable.name;
    && !x.Temp?
    && (forall i :: 0 <= i < |rest| && rest[i].Computed? ==> x !in Reads(rest[i].expr))
    && (forall b :: 0 <= b < |m.blocks| ==> x !in Reads(m.blocks[b].cond))
    && (seeds || w.dirty || m.ctx.None? || (x !in Reads(m.ctx.value.was) && x !in Reads(m.ctx.value.cur)))
  }

  /** The hazard check before one token. */
  predicate Safe(m: Machine, w: Watch, t: Token) {
    match t
    case Set(_, seeds) =>
      var r := WriteTarget(m, t);
      r.Some? && |m.stack| >= 2 && WriteIsSafe(m, w, r.value, m.stack[..|m.stack| - 2], seeds)
    case NegAssign =>
      var r := WriteTarget(m, t);
      r.Some? && WriteIsSafe(m, w, r.value, m.stack[..|m.stack| - 1], false)
    case Flag(_) => !w.dirty
    case Close => w.frames != [] && m.stack == w.frames[|w.frames| - 1].stack
    case _ => true
  }

  function TaintAll(fs: seq<WatchFrame>): seq<WatchFrame> {
    seq(|fs|, i requires 0 <= i < |fs| => fs[i].(tainted := true))
  }

  /** Blocks opened no later than `at` now hold a snapshot. */
  function TaintFrom(fs: seq<WatchFrame>, at: nat): seq<WatchFrame> {
    seq(|fs|, i requires 0 <= i < |fs| => if fs[i].len <= at then fs[i].(tainted := true) else fs[i])
  }

  /** What to watch after the token took `m` to `n`. */
  function NextWatch(m: Machine, w: Watch, t: Token, n: Machine): Watch {
    match t
    case Set(_, seeds) => if seeds then Watch(TaintAll(w.frames), false) else w
    case Compare => Watch(TaintAll(w.frames), false)
    case Flag(_) =>
      if |n.statements| > |m.statements| && m.pending.Some? then w.(frames := TaintFrom(w.frames, m.pending.value.at)) else w
    case Open => w.(frames := w.frames + [WatchFrame(n.stack, |m.statements|, false)])
    case Close =>
      if w.frames == [] then w
      else Watch(w.frames[..|w.frames| - 1], w.dirty || w.frames[|w.frames| - 1].tainted)
    case _ => w
  }

  const NOTHING_WATCHED := Watch([], false)

  // ---- Steps keep the names fresh ----

  lemma CalmMore(names: set<Name>, n: nat, n': nat, d: set<Name>, d': set<Name>)
    requires Calm(names, n, d) && n <= n' && d' <= d
    ensures Calm(names, n', d')
  {
  }

  lemma CalmUnion(p: set<Name>, q: set<Name>, n: nat, d: set<Name>)
    requires Calm(p, n, d) && Calm(q, n, d)
    ensures Calm(p + q, n, d)
  {
  }

  lemma ValuesMore(vs: seq<StackValue>, n: nat, n': nat, d: set<Name>, d': set<Name>)
    requires CalmValues(vs, n, d) && n <= n' && d' <= d
    ensures CalmValues(vs, n', d')
  {
    hide ValueNames, Calm;
    forall i | 0 <= i < |vs| ensures Calm(ValueNames(vs[i]), n', d') { CalmMore(ValueNames(vs[i]), n, n', d, d'); }
  }

  lemma StmtsMore(ss: seq<Stmt>, n: nat, n': nat, d: set<Name>, d': set<Name>)
    requires CalmStmts(ss, n, d) && n <= n' && d' <= d
    ensures CalmStmts(ss, n', d')
  {
    hide DstOf, ReadsOf, Calm;
    forall i | 0 <= i < |ss| ensures Calm(DstOf(ss[i]), n', d') && Calm(ReadsOf(ss[i]), n', d') {
      CalmMore(DstOf(ss[i]), n, n', d, d');
      CalmMore(ReadsOf(ss[i]), n, n', d, d');
    }
  }

  /** A change of the stack alone. */
  lemma StackFresh(m: Machine, w: Watch, stack: seq<StackValue>)
    requires Fresh(m, w) && CalmValues(stack, |m.statements|, Deferred(m))
    ensures Fresh(m.(stack := stack), w)
  {
    hide CalmStmts, CalmValues, Calm, Untouched;
    var m' := m.(stack := stack);
    assert Deferred(m') == Deferred(m) && HasMemOp(m') == HasMemOp(m);
    forall b | 0 <= b < |m.blocks| ensures FreshBlock(m', m.blocks[b], w.frames[b]) {
      assert FreshBlock(m, m.blocks[b], w.frames[b]);
    }
  }

  lemma DropFresh(m: Machine, w: Watch, k: nat)
    requires Fresh(m, w) && k <= |m.stack|
    ensures Fresh(Drop(m, k), w)
  {
    hide CalmStmts, Calm, FreshBlocks, FreshPending, ValueNames;
    StackFresh(m, w, m.stack[..|m.stack| - k]);
  }

  lemma PushFresh(m: Machine, w: Watch, v: StackValue)
    requires Fresh(m, w) && Calm(ValueNames(v), |m.statements|, Deferred(m))
    ensures Fresh(PushTo(m, v), w)
  {
    hide CalmStmts, Calm, FreshBlocks, FreshPending, ValueNames;
    StackFresh(m, w, m.stack + [v]);
  }

  /** A statement whose names are calm, appended. */
  predicate EmitIsFresh(m: Machine, w: Watch, s: Stmt) {
    && |w.frames| == |m.blocks|
    && Calm(ReadsOf(s), |m.statements|, Deferred(m)) && Calm(DstOf(s), |m.statements| + 1, Deferred(m))
    && (forall b, x: Name :: 0 <= b < |m.blocks| && x in DstOf(s) ==>
          x !in Reads(m.blocks[b].cond) && (x.Temp? ==> x.index >= w.frames[b].len))
  }

  lemma EmitBlock(m: Machine, b: Block, f: WatchFrame, s: Stmt)
    requires FreshBlock(m, b, f)
    requires forall x: Name :: x in DstOf(s) ==> x !in Reads(b.cond) && (x.Temp? ==> x.index >= f.len)
    requires HasMemOp(m) || (!s.LoadMem? && !s.StoreMem?)
    ensures FreshBlock(Emit(m, s), b, f)
  {
    hide Calm, CalmValues, DstOf, Reads;
    var m' := Emit(m, s);
    assert Deferred(m') == Deferred(m) && HasMemOp(m') == HasMemOp(m);
    forall i, x | b.start <= i < |m'.statements| && x in DstOf(m'.statements[i]) ensures x !in Reads(b.cond) {
      if i < |m.statements| { assert x in DstOf(m.statements[i]); }
    }
    forall i, x: Name | b.start <= i < |m'.statements| && x in DstOf(m'.statements[i]) ensures x.Temp? ==> x.index >= f.len {
      if i < |m.statements| { assert x in DstOf(m.statements[i]); }
    }
  }

  lemma EmitPending(m: Machine, s: Stmt)
    requires FreshPending(m)
    ensures FreshPending(Emit(m, s))
  {
    hide Reads;
    var n, d := |m.statements|, Deferred(m);
    assert Deferred(Emit(m, s)) == d;
  }

  lemma EmitFresh(m: Machine, w: Watch, s: Stmt)
    requires Fresh(m, w) && EmitIsFresh(m, w, s) && (m.blocks == [] || HasMemOp(m) || (!s.LoadMem? && !s.StoreMem?))
    ensures Fresh(Emit(m, s), w)
  {
    hide DstOf, ReadsOf, Reads, ValueNames, FreshPending, FreshBlock;
    var m', n, d := Emit(m, s), |m.statements|, Deferred(m);
    assert Deferred(m') == d;
    EmitPending(m, s);
    ValuesMore(m.stack, n, n + 1, d, d);
    StmtsMore(m.statements, n, n + 1, d, d);
    CalmMore(ReadsOf(s), n, n + 1, d, d);
    assert CalmStmts(m'.statements, n + 1, d) by { hide Calm; }
    forall b | 0 <= b < |m.blocks| ensures FreshBlock(m', m.blocks[b], w.frames[b]) {
      EmitBlock(m, m.blocks[b], w.frames[b], s);
    }
  }

  // ---- Splicing a deferred snapshot in ----

  lemma {:induction false} ShiftedAt(bs: seq<Block>, at: nat)
    ensures |Shifted(bs, at)| == |bs|
    ensures forall b :: 0 <= b < |bs| ==>
      Shifted(bs, at)[b] == if bs[b].start > at then bs[b].(start := bs[b].start + 1) else bs[b]
    decreases |bs|
  {
    if bs != [] { ShiftedAt(bs[..|bs| - 1], at); }
  }

  lemma ShiftedMemOp(m: Machine, m': Machine, at: nat)
    requires m'.blocks == Shifted(m.blocks, at)
    ensures HasMemOp(m') == HasMemOp(m)
  {
    ShiftedAt(m.blocks, at);
    if HasMemOp(m) {
      var b :| 0 <= b < |m.blocks| && m.blocks[b].memOp;
      assert m'.blocks[b].memOp;
    }
  }

  /** The machine once the snapshot of `t` is emitted and no longer deferred. */
  predicate Emitted(m: Machine, m': Machine, at: nat, t: Var, e: Expr) {
    && at <= |m.statements| && m'.statements == Spliced(m.statements, at, t, e) && m'.blocks == Shifted(m.blocks, at)
    && m'.stack == m.stack && m'.ctx == m.ctx && t.name in Deferred(m) && Deferred(m') == Deferred(m) - {t.name}
    && t.name.Temp? && t.name.index == at && Calm(Reads(e), |m.statements|, Deferred(m))
  }

  lemma SplicedBlock(m: Machine, m': Machine, at: nat, t: Var, e: Expr, b: Block, f: WatchFrame)
    requires Emitted(m, m', at, t, e) && FreshBlock(m, b, f)
    ensures FreshBlock(m', if b.start > at then b.(start := b.start + 1) else b, f)
  {
    hide DstOf, Reads;
    var b' := if b.start > at then b.(start := b.start + 1) else b;
    var ss, ss' := m.statements, m'.statements;
    assert DstOf(Assign(t, e)) == {t.name} by { OneDst(t, e); }
    ShiftedMemOp(m, m', at);
    assert t.name !in Reads(b.cond);
    forall i, x | b'.start <= i < |ss'| && x in DstOf(ss'[i])
      ensures x !in Reads(b.cond) && (x.Temp? ==> x.index >= f.len)
    {
      if i != at { assert x in DstOf(ss[if i < at then i else i - 1]); }
    }
    if !HasMemOp(m) {
      forall i | b'.start <= i < |ss'| ensures !ss'[i].LoadMem? && !ss'[i].StoreMem? {
        if i != at { assert ss'[i] == ss[if i < at then i else i - 1]; }
      }
    }
    CalmMore(Reads(b.cond), f.len, f.len, Deferred(m), Deferred(m'));
    ValuesMore(f.stack, f.len, f.len, Deferred(m), Deferred(m'));
  }

  lemma OneDst(t: Var, e: Expr)
    ensures DstOf(Assign(t, e)) == {t.name}
  {
  }

  lemma SplicedPending(m: Machine, m': Machine, at: nat, t: Var, e: Expr)
    requires Emitted(m, m', at, t, e) && FreshPending(m) && m.pending.Some? && m'.pending.Some?
    requires var p, p' := m.pending.value, m'.pending.value;
      p'.at == p.at == at
      && ((p.cur == Some((t, e)) && p' == p.(cur := None)) || (p.was == Some((t, e)) && p' == p.(was := None)))
    ensures FreshPending(m')
  {
    hide Reads;
    var d, d', n := Deferred(m), Deferred(m'), |m.statements|;
    assert Reads(Ref(t)) == {t.name} by { OneRead(t); }
    assert d' <= d;
  }

  lemma OneRead(t: Var)
    ensures Reads(Ref(t)) == {t.name}
  {
  }

  lemma SplicedStmts(ss: seq<Stmt>, at: nat, t: Var, e: Expr, d: set<Name>, d': set<Name>)
    requires at <= |ss| && CalmStmts(ss, |ss|, d) && d' == d - {t.name} && t.name.Temp? && t.name.index == at && Calm(Reads(e), |ss|, d)
    ensures CalmStmts(Spliced(ss, at, t, e), |ss| + 1, d')
  {
    var ss', n := Spliced(ss, at, t, e), |ss|;
    OneDst(t, e);
    StmtsMore(ss, n, n + 1, d, d');
    assert ReadsOf(Assign(t, e)) == Reads(e);
    assert Calm({t.name}, n + 1, d') && Calm(Reads(e), n + 1, d');
    hide Calm, DstOf, ReadsOf, Reads;
    forall i | 0 <= i < |ss'| ensures Calm(DstOf(ss'[i]), n + 1, d') && Calm(ReadsOf(ss'[i]), n + 1, d') {
      if i != at { assert ss'[i] == ss[if i < at then i else i - 1]; }
    }
  }

  lemma SplicedFresh(m: Machine, w: Watch, m': Machine, at: nat, t: Var, e: Expr)
    requires Fresh(m, w) && Emitted(m, m', at, t, e) && FreshPending(m')
    ensures Fresh(m', w)
  {
    hide FreshPending, FreshBlock, Spliced, Reads, ValueNames, Calm, CalmStmts, CalmValues;
    var n, d, d' := |m.statements|, Deferred(m), Deferred(m');
    SplicedStmts(m.statements, at, t, e, d, d');
    assert |m'.statements| == n + 1 by { SplicedLength(m.statements, at, t, e); }
    ValuesMore(m.stack, n, n + 1, d, d');
    ShiftedAt(m.blocks, at);
    forall b | 0 <= b < |m'.blocks| ensures FreshBlock(m', m'.blocks[b], w.frames[b]) {
      assert FreshBlock(m, m.blocks[b], w.frames[b]);
      SplicedBlock(m, m', at, t, e, m.blocks[b], w.frames[b]);
    }
  }

  lemma SplicedLength(ss: seq<Stmt>, at: nat, t: Var, e: Expr)
    requires at <= |ss|
    ensures |Spliced(ss, at, t, e)| == |ss| + 1
  {
  }

  lemma CurIsEmitted(m: Machine, w: Watch)
    requires Fresh(m, w) && m.pending.Some? && m.pending.value.cur.Some?
    ensures
      var p := m.pending.value;
      Emitted(m, MaterialiseCur(m), p.at, p.cur.value.0, p.cur.value.1) && FreshPending(MaterialiseCur(m))
  {
    hide FreshBlocks, CalmStmts, CalmValues, Reads, Calm, Shifted;
    var p, m' := m.pending.value, MaterialiseCur(m);
    assert p.was.Some? ==> p.was.value.0.name != p.cur.value.0.name;
    assert Deferred(m') == Deferred(m) - {p.cur.value.0.name};
    SplicedPending(m, m', p.at, p.cur.value.0, p.cur.value.1);
  }

  lemma WasIsEmitted(m: Machine, w: Watch)
    requires Fresh(m, w) && m.pending.Some? && m.pending.value.was.Some?
    ensures
      var p := m.pending.value;
      Emitted(m, MaterialiseWas(m), p.at, p.was.value.0, p.was.value.1) && FreshPending(MaterialiseWas(m))
  {
    hide FreshBlocks, CalmStmts, CalmValues, Reads, Calm, Shifted;
    var p, m' := m.pending.value, MaterialiseWas(m);
    assert p.cur.Some? ==> p.was.value.0.name != p.cur.value.0.name;
    assert Deferred(m') == Deferred(m) - {p.was.value.0.name};
    SplicedPending(m, m', p.at, p.was.value.0, p.was.value.1);
  }

  /** Emitting a deferred snapshot keeps everything fresh. */
  lemma MaterialiseFresh(m: Machine, w: Watch)
    requires Fresh(m, w)
    ensures Fresh(MaterialiseCur(m), w) && Fresh(MaterialiseWas(m), w)
  {
    hide Fresh, Emitted, FreshPending;
    if m.pending.Some? {
      var p := m.pending.value;
      if p.cur.Some? {
        CurIsEmitted(m, w);
        SplicedFresh(m, w, MaterialiseCur(m), p.at, p.cur.value.0, p.cur.value.1);
      }
      if p.was.Some? {
        WasIsEmitted(m, w);
        SplicedFresh(m, w, MaterialiseWas(m), p.at, p.was.value.0, p.was.value.1);
      }
    }
  }
}
