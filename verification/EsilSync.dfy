/** How far the machine and the interpreter agree after each token, and the changes
    that keep them agreeing: splicing a snapshot in, and skipping. */
module EsilSync {
  import opened Bits
  import opened Common
  import opened Ir
  import opened SsaForm
  import opened RegView
  import opened Flags
  import opened EsilMachine
  import opened EsilTyping
  import opened EsilExec
  import opened EsilFresh
  import opened EsilSteps
  import opened EsilNumbers
  import opened EsilResolved
  import opened EsilValues

  /** Every register variable is within its width. */
  ghost predicate Fits(a: EsilArch, env: Env) {
    forall x: Name {:trigger RegisterRef(a, x)} :: !RegisterRef(a, x).variable.name.Temp? ==>
      Get(env, RegisterRef(a, x).variable.name) < Pow2(RegisterRef(a, x).variable.bits)
  }

  // ---- The part of the program being executed ----

  /** The statements that count: all of them, or those before the first block the
      interpreter is skipping. */
  function LiveLen(m: Machine, i: Run): nat
    requires i.skip <= |m.blocks|
  {
    if i.skip == 0 then |m.statements| else Min(m.blocks[|m.blocks| - i.skip].start, |m.statements|)
  }

  function Live(m: Machine, i: Run): seq<Stmt>
    requires i.skip <= |m.blocks|
  {
    m.statements[..LiveLen(m, i)]
  }

  function LiveStack(m: Machine, w: Watch, i: Run): seq<StackValue>
    requires i.skip <= |m.blocks| == |w.frames|
  {
    if i.skip == 0 then m.stack else w.frames[|w.frames| - i.skip].stack
  }

  /** The flag context is one the interpreter has too. */
  predicate Usable(w: Watch, i: Run)
    requires i.skip <= |w.frames|
  {
    !w.dirty && (i.skip > 0 ==> !w.frames[|w.frames| - i.skip].tainted)
  }

  /** A context half is worth `v`: as deferred, before the write it precedes; as
      emitted or in place, now. */
  ghost predicate HalfWorth(x: Expr, h: Option<(Var, Expr)>, at: nat, ss: seq<Stmt>, v: nat, st: State, sem: Sem) {
    if h.Some? && x == Ref(h.value.0) then at <= |ss| && Eval(h.value.1, Go(ss[..at], st, sem).env, sem, 0) == v
    else Eval(x, Go(ss, st, sem).env, sem, 0) == v
  }

  function PendingAt(m: Machine): nat {
    if m.pending.None? then 0 else m.pending.value.at
  }

  ghost predicate CtxWorth(m: Machine, ss: seq<Stmt>, c: Option<Ctx>, st: State, sem: Sem) {
    if m.ctx.None? then c.None? else
    && c.Some? && c.value.bits == m.ctx.value.bits
    && c.value.was < Pow2(c.value.bits) && c.value.cur < Pow2(c.value.bits)
    && HalfWorth(m.ctx.value.was, PendingWas(m), PendingAt(m), ss, c.value.was, st, sem)
    && HalfWorth(m.ctx.value.cur, PendingCur(m), PendingAt(m), ss, c.value.cur, st, sem)
  }

  /** A context half that is not deferred reads only early temporaries. */
  predicate EarlyHalf(x: Expr, h: Option<(Var, Expr)>, len: nat) {
    (h.Some? && x == Ref(h.value.0)) || NoneAbove(Reads(x), len)
  }

  predicate EarlyCtx(m: Machine, len: nat) {
    m.ctx.Some? ==> EarlyHalf(m.ctx.value.was, PendingWas(m), len) && EarlyHalf(m.ctx.value.cur, PendingCur(m), len)
  }

  /** The guards of the blocks being executed hold; that of the first skipped one
      does not. */
  ghost predicate GuardsHold(m: Machine, i: Run, env: Env, sem: Sem)
    requires i.skip <= |m.blocks|
  {
    && (forall b :: 0 <= b < |m.blocks| - i.skip ==> Eval(m.blocks[b].cond, env, sem, 0) != 0)
    && (i.skip > 0 ==> Eval(m.blocks[|m.blocks| - i.skip].cond, env, sem, 0) == 0)
  }

  ghost predicate Synced(a: EsilArch, m: Machine, w: Watch, i: Run, st: State, sem: Sem) {
    && |w.frames| == |m.blocks| && i.skip <= |m.blocks| && i.depth == |m.blocks| - i.skip
    && var now := Go(Live(m, i), st, sem);
    && SameRegs(now.env, i.env) && now.mem == i.mem && Fits(a, now.env)
    && GuardsHold(m, i, now.env, sem)
    && StackStands(LiveStack(m, w, i), i.stack, now.env, sem)
    && (Usable(w, i) ==> CtxWorth(m, Live(m, i), i.ctx, st, sem))
    && (Usable(w, i) && i.skip > 0 ==> EarlyCtx(m, w.frames[|w.frames| - i.skip].len))
  }

  // ---- Skipping ----

  /** What stays when the interpreter only counts blocks. */
  lemma SkipSynced(a: EsilArch, m: Machine, w: Watch, i: Run, m': Machine, w': Watch, i': Run, st: State, sem: Sem)
    requires Synced(a, m, w, i, st, sem) && i.skip > 0
    requires |w'.frames| == |m'.blocks| && 0 < i'.skip <= |m'.blocks| && i' == i.(skip := i'.skip) && |m'.blocks| - i'.skip == |m.blocks| - i.skip
    requires var j := |m.blocks| - i.skip;
      && LiveLen(m, i) <= |m'.statements| && m'.statements[..LiveLen(m, i)] == Live(m, i)
      && LiveLen(m', i') == LiveLen(m, i)
      && (forall b :: 0 <= b <= j ==> m'.blocks[b].cond == m.blocks[b].cond)
      && w'.frames[j].stack == w.frames[j].stack && w'.frames[j].len == w.frames[j].len
      && (Usable(w', i') ==> Usable(w, i) && m'.ctx == m.ctx && m'.pending == m.pending)
    ensures Synced(a, m', w', i', st, sem)
  {
    hide Go, SameRegs, Fits, StackStands, Pow2, Eval, Reads, HalfWorth, EarlyHalf;
    assert Live(m', i') == Live(m, i);
  }

  // ---- Splicing a deferred snapshot into the live part ----

  lemma SplicedLive(m: Machine, m': Machine, i: Run, at: nat, t: Var, e: Expr)
    requires Emitted(m, m', at, t, e) && i.skip <= |m.blocks|
    ensures |m'.blocks| == |m.blocks|
    ensures at <= LiveLen(m, i) && (i.skip == 0 || at < LiveLen(m, i)) ==> Live(m', i) == Spliced(Live(m, i), at, t, e)
    ensures i.skip > 0 && at >= LiveLen(m, i) && m.blocks[|m.blocks| - i.skip].start <= |m.statements| ==> Live(m', i) == Live(m, i)
    ensures forall b :: 0 <= b < |m.blocks| ==> m'.blocks[b].cond == m.blocks[b].cond
  {
    ShiftedAt(m.blocks, at);
  }

  lemma {:induction false} QuietStmts(a: EsilArch, ss: seq<Stmt>)
    requires AllStmtsTyped(a, ss)
    ensures AllQuiet(ss)
  {
    hide Typed, IsRegister, CountStmt;
    forall i | 0 <= i < |ss| ensures CountStmt(ss[i]) == 0 { QuietStmt(a, ss[i]); }
  }

  lemma QuietStmt(a: EsilArch, s: Stmt)
    requires StmtTyped(a, s)
    ensures CountStmt(s) == 0
  {
    hide Strict, Width, IsRegister;
    match s
    case Assign(dst, src) => StrictIsQuiet(src);
    case LoadMem(_, address, _) => StrictIsQuiet(address);
    case StoreMem(address, value, _) => StrictIsQuiet(address); StrictIsQuiet(value);
    case _ =>
  }

  lemma LiveIsQuiet(a: EsilArch, m: Machine, n: nat)
    requires MachineTyped(a, m) && n <= |m.statements|
    ensures AllQuiet(m.statements) && AllQuiet(m.statements[..n])
  {
    hide StmtTyped, AllValuesTyped, BlocksTyped, CtxTyped, HalfTyped, CountStmt;
    QuietStmts(a, m.statements);
  }

  /** A deferred temporary is in no statement. */
  lemma DeferredUnmentioned(m: Machine, w: Watch, x: Name, lo: nat, hi: nat)
    requires Fresh(m, w) && x in Deferred(m) && lo <= hi <= |m.statements|
    ensures AllAvoid(m.statements[lo..hi], x)
  {
    hide DstOf, ReadsOf, Deferred, CalmValues, FreshPending, FreshBlocks;
    forall i | 0 <= i < hi - lo ensures Avoids(m.statements[lo..hi][i], x) {
      assert Calm(DstOf(m.statements[lo + i]), |m.statements|, Deferred(m));
      assert Calm(ReadsOf(m.statements[lo + i]), |m.statements|, Deferred(m));
    }
  }

  /** What the live part computes once the snapshot is in it. */
  lemma SplicedRun(a: EsilArch, m: Machine, w: Watch, m': Machine, i: Run, at: nat, t: Var, e: Expr, st: State, sem: Sem)
    requires MachineTyped(a, m) && Fresh(m, w) && Emitted(m, m', at, t, e) && Typed(e, t.bits) && i.skip <= |m.blocks|
    requires at <= LiveLen(m, i) && (i.skip == 0 || at < LiveLen(m, i))
    ensures |m'.blocks| == |m.blocks|
    ensures
      var now, v := Go(Live(m, i), st, sem), Eval(e, Go(Live(m, i)[..at], st, sem).env, sem, 0);
      Go(Live(m', i), st, sem) == now.(env := now.env[t.name := v]) && v < Pow2(t.bits)
  {
    SplicedLive(m, m', i, at, t, e);
    LiveIsQuiet(a, m, LiveLen(m, i));
    DeferredUnmentioned(m, w, t.name, at, LiveLen(m, i));
    WidthOf(e, t.bits);
    hide MachineTyped, Fresh, Emitted, Go, AllQuiet, AllAvoid, Spliced, Pow2, Width, Count, Eval, Cut;
    var ss := Live(m, i);
    assert ss[at..] == m.statements[at..LiveLen(m, i)];
    SpliceIsTransparent(ss, at, t, e, st, sem);
    var v := Eval(e, Go(ss[..at], st, sem).env, sem, 0);
    StrictFits(e, t.bits, Go(ss[..at], st, sem).env, sem);
    WrapSmall(v, t.bits);
  }

  lemma StrictFits(e: Expr, bits: nat, env: Env, sem: Sem)
    requires Typed(e, bits)
    ensures Eval(e, env, sem, 0) < Pow2(bits)
  {
    StrictBound(e, env, sem, 0);
  }

  lemma TempUpdate(a: EsilArch, env: Env, ienv: Env, x: Name, v: nat)
    requires x.Temp?
    ensures SameRegs(env, ienv) ==> SameRegs(env[x := v], ienv)
    ensures Fits(a, env) ==> Fits(a, env[x := v])
  {
    hide Pow2;
    if SameRegs(env, ienv) {
      forall y: Name | !y.Temp? ensures Get(env[x := v], y) == Get(ienv, y) { assert Get(env, y) == Get(ienv, y); }
    }
  }

  // ---- Splices keep the agreement ----

  /** `m'` is `m` with one half of its deferred context emitted. */
  predicate HalfEmitted(m: Machine, m': Machine, at: nat, t: Var, e: Expr) {
    && Emitted(m, m', at, t, e) && m.pending.Some? && m'.pending.Some? && m.pending.value.at == at == m'.pending.value.at
    && ((PendingCur(m) == Some((t, e)) && PendingCur(m').None? && PendingWas(m') == PendingWas(m))
        || (PendingWas(m) == Some((t, e)) && PendingWas(m').None? && PendingCur(m') == PendingCur(m)))
  }

  lemma HalfSpliced(x: Expr, h: Option<(Var, Expr)>, h': Option<(Var, Expr)>, at: nat, t: Var, e: Expr, ss: seq<Stmt>, n: nat, d: set<Name>,
                    v: nat, st: State, sem: Sem)
    requires at <= |ss| && CalmHalf(x, h, n, d) && t.name in d && HalfWorth(x, h, at, ss, v, st, sem)
    requires h' == h || (h == Some((t, e)) && h' == None)
    requires var now, u := Go(ss, st, sem), Eval(e, Go(ss[..at], st, sem).env, sem, 0);
      Go(Spliced(ss, at, t, e), st, sem) == now.(env := now.env[t.name := u]) && u < Pow2(t.bits)
    ensures HalfWorth(x, h', at, Spliced(ss, at, t, e), v, st, sem)
  {
    hide Go, Reads, Pow2;
    var ss', now, u := Spliced(ss, at, t, e), Go(ss, st, sem), Eval(e, Go(ss[..at], st, sem).env, sem, 0);
    assert ss'[..at] == ss[..at];
    if h.Some? && x == Ref(h.value.0) {
      if h' == None { SmallMod(u, Pow2(t.bits)); }
    } else {
      hide Eval;
      EvalFrame(x, now.env, now.env[t.name := u], sem, 0);
    }
  }

  lemma CtxSpliced(m: Machine, m': Machine, at: nat, t: Var, e: Expr, ss: seq<Stmt>, c: Option<Ctx>, st: State, sem: Sem)
    requires HalfEmitted(m, m', at, t, e) && FreshPending(m) && at <= |ss| && CtxWorth(m, ss, c, st, sem)
    requires var now, u := Go(ss, st, sem), Eval(e, Go(ss[..at], st, sem).env, sem, 0);
      Go(Spliced(ss, at, t, e), st, sem) == now.(env := now.env[t.name := u]) && u < Pow2(t.bits)
    ensures CtxWorth(m', Spliced(ss, at, t, e), c, st, sem)
  {
    hide Go, Reads, Pow2, Eval, HalfWorth, Spliced, Deferred, Calm, FreshHalf;
    if m.ctx.Some? {
      var n, d, was, cur := |m.statements|, Deferred(m), m.ctx.value.was, m.ctx.value.cur;
      HalfSpliced(was, PendingWas(m), PendingWas(m'), at, t, e, ss, n, d, c.value.was, st, sem);
      HalfSpliced(cur, PendingCur(m), PendingCur(m'), at, t, e, ss, n, d, c.value.cur, st, sem);
    }
  }

  lemma EarlySpliced(m: Machine, m': Machine, at: nat, t: Var, e: Expr, len: nat)
    requires HalfEmitted(m, m', at, t, e) && EarlyCtx(m, len) && at < len
    ensures EarlyCtx(m', len)
  {
    OneRead(t);
    hide Reads, Calm, Spliced, Shifted;
    assert NoneAbove({t.name}, len);
  }

  /** The stack that counts never mentions a deferred temporary. */
  lemma LiveStackCalm(m: Machine, w: Watch, i: Run, x: Name)
    requires Fresh(m, w) && i.skip <= |m.blocks| && x in Deferred(m)
    ensures |w.frames| == |m.blocks|
    ensures forall k :: 0 <= k < |LiveStack(m, w, i)| ==> x !in ValueNames(LiveStack(m, w, i)[k])
  {
    hide Deferred, ValueNames, FreshPending, CalmStmts;
    if i.skip > 0 {
      var j := |m.blocks| - i.skip;
      assert FreshBlock(m, m.blocks[j], w.frames[j]);
    }
  }

  lemma StackSpliced(vs: seq<StackValue>, es: seq<Entry>, env: Env, x: Name, n: nat, sem: Sem)
    requires StackStands(vs, es, env, sem) && forall k :: 0 <= k < |vs| ==> x !in ValueNames(vs[k])
    ensures StackStands(vs, es, env[x := n], sem)
  {
    hide Stands, Pow2, Reads;
    forall k | 0 <= k < |vs| ensures Stands(vs[k], es[k], env[x := n], sem) {
      assert x !in ValueNames(vs[k]);
      StandsUpdate(vs[k], es[k], env, x, n, sem);
    }
  }

  lemma GuardsSpliced(m: Machine, w: Watch, m': Machine, i: Run, env: Env, x: Name, n: nat, sem: Sem)
    requires Fresh(m, w) && x in Deferred(m) && i.skip <= |m.blocks| == |m'.blocks| && GuardsHold(m, i, env, sem)
    requires forall b :: 0 <= b < |m.blocks| ==> m'.blocks[b].cond == m.blocks[b].cond
    ensures GuardsHold(m', i, env[x := n], sem)
  {
    hide Deferred, FreshPending, CalmStmts, CalmValues, Eval, Reads;
    forall b | 0 <= b < |m.blocks| ensures Eval(m'.blocks[b].cond, env[x := n], sem, 0) == Eval(m.blocks[b].cond, env, sem, 0) {
      assert FreshBlock(m, m.blocks[b], w.frames[b]);
      assert x !in Reads(m.blocks[b].cond);
      EvalFrame(m.blocks[b].cond, env, env[x := n], sem, 0);
    }
  }

  function Tainted(w: Watch, at: nat): Watch {
    w.(frames := TaintFrom(w.frames, at))
  }

  lemma TaintedFacts(w: Watch, at: nat, i: Run)
    requires i.skip <= |w.frames|
    ensures |Tainted(w, at).frames| == |w.frames|
    ensures Usable(Tainted(w, at), i) ==> Usable(w, i) && (i.skip > 0 ==> at < w.frames[|w.frames| - i.skip].len)
    ensures forall b :: 0 <= b < |w.frames| ==> Tainted(w, at).frames[b].stack == w.frames[b].stack && Tainted(w, at).frames[b].len == w.frames[b].len
  {
  }

  /** What agreement says, part by part. */
  lemma SyncedHas(a: EsilArch, m: Machine, w: Watch, i: Run, st: State, sem: Sem, now: State)
    requires Synced(a, m, w, i, st, sem) && now == Go(Live(m, i), st, sem)
    ensures |w.frames| == |m.blocks| && i.skip <= |m.blocks| && i.depth == |m.blocks| - i.skip
    ensures SameRegs(now.env, i.env) && now.mem == i.mem && Fits(a, now.env) && GuardsHold(m, i, now.env, sem)
    ensures StackStands(LiveStack(m, w, i), i.stack, now.env, sem)
    ensures Usable(w, i) ==> CtxWorth(m, Live(m, i), i.ctx, st, sem)
    ensures Usable(w, i) && i.skip > 0 ==> EarlyCtx(m, w.frames[|w.frames| - i.skip].len)
  {
    hide Go, SameRegs, Fits, GuardsHold, StackStands, CtxWorth, EarlyCtx, Live, LiveStack, Usable;
  }

  lemma SyncedMade(a: EsilArch, m: Machine, w: Watch, i: Run, st: State, sem: Sem, now: State)
    requires |w.frames| == |m.blocks| && i.skip <= |m.blocks| && i.depth == |m.blocks| - i.skip
    requires now == Go(Live(m, i), st, sem)
    requires SameRegs(now.env, i.env) && now.mem == i.mem && Fits(a, now.env) && GuardsHold(m, i, now.env, sem)
    requires StackStands(LiveStack(m, w, i), i.stack, now.env, sem)
    requires Usable(w, i) ==> CtxWorth(m, Live(m, i), i.ctx, st, sem)
    requires Usable(w, i) && i.skip > 0 ==> EarlyCtx(m, w.frames[|w.frames| - i.skip].len)
    ensures Synced(a, m, w, i, st, sem)
  {
    hide Go, SameRegs, Fits, GuardsHold, StackStands, CtxWorth, EarlyCtx, Live, LiveStack, Usable;
  }

  lemma SyncedCount(a: EsilArch, m: Machine, w: Watch, i: Run, st: State, sem: Sem)
    requires Synced(a, m, w, i, st, sem)
    ensures |w.frames| == |m.blocks| && i.skip <= |m.blocks|
  {
  }

  lemma SpliceFacts(m: Machine, w: Watch, m': Machine, i: Run, at: nat, t: Var, e: Expr)
    requires Fresh(m, w) && HalfEmitted(m, m', at, t, e) && i.skip <= |m.blocks| == |w.frames|
    ensures Emitted(m, m', at, t, e) && t.name in Deferred(m) && t.name.Temp? && FreshPending(m)
    ensures |m'.blocks| == |m.blocks| == |Tainted(w, at).frames|
    ensures LiveStack(m', Tainted(w, at), i) == LiveStack(m, w, i)
  {
    hide CalmStmts, CalmValues, FreshBlock, Spliced;
    TaintedFacts(w, at, i);
    ShiftedAt(m.blocks, at);
    hide TaintFrom, Shifted;
  }

  /** A snapshot spliced into the live part. */
  lemma SpliceSynced(a: EsilArch, m: Machine, w: Watch, m': Machine, i: Run, at: nat, t: Var, e: Expr, st: State, sem: Sem)
    requires MachineTyped(a, m) && Fresh(m, w) && HalfEmitted(m, m', at, t, e) && Typed(e, t.bits)
    requires Synced(a, m, w, i, st, sem) && at <= LiveLen(m, i) && (i.skip == 0 || at < LiveLen(m, i))
    ensures Synced(a, m', Tainted(w, at), i, st, sem)
  {
    hide *;
    SyncedCount(a, m, w, i, st, sem);
    var ss, now := Live(m, i), Go(Live(m, i), st, sem);
    SyncedHas(a, m, w, i, st, sem, now);
    SpliceFacts(m, w, m', i, at, t, e);
    SplicedRun(a, m, w, m', i, at, t, e, st, sem);
    SplicedLive(m, m', i, at, t, e);
    TaintedFacts(w, at, i);
    LiveLength(m, i);
    var u := Eval(e, Go(ss[..at], st, sem).env, sem, 0);
    LiveStackCalm(m, w, i, t.name);
    GuardsSpliced(m, w, m', i, now.env, t.name, u, sem);
    TempUpdate(a, now.env, i.env, t.name, u);
    StackSpliced(LiveStack(m, w, i), i.stack, now.env, t.name, u, sem);
    if Usable(Tainted(w, at), i) {
      CtxSpliced(m, m', at, t, e, ss, i.ctx, st, sem);
      if i.skip > 0 { EarlySpliced(m, m', at, t, e, w.frames[|w.frames| - i.skip].len); }
    }
    SyncedMade(a, m', Tainted(w, at), i, st, sem, now.(env := now.env[t.name := u]));
  }

  lemma LiveLength(m: Machine, i: Run)
    requires i.skip <= |m.blocks|
    ensures |Live(m, i)| == LiveLen(m, i)
  {
  }

  lemma SpliceSkipped(a: EsilArch, m: Machine, w: Watch, m': Machine, i: Run, at: nat, t: Var, e: Expr, st: State, sem: Sem)
    requires Fresh(m, w) && HalfEmitted(m, m', at, t, e) && Synced(a, m, w, i, st, sem) && i.skip > 0 && at >= LiveLen(m, i)
    ensures Synced(a, m', Tainted(w, at), i, st, sem)
  {
    hide *;
    SyncedCount(a, m, w, i, st, sem);
    var now := Go(Live(m, i), st, sem);
    SyncedHas(a, m, w, i, st, sem, now);
    SpliceFacts(m, w, m', i, at, t, e);
    SkippedStarts(m, w, i);
    SplicedLive(m, m', i, at, t, e);
    TaintedFacts(w, at, i);
    GuardsKept(m, m', i, now.env, sem);
    SyncedMade(a, m', Tainted(w, at), i, st, sem, now);
  }

  /** A skipped block starts within the statements, no earlier than its watch began. */
  lemma SkippedStarts(m: Machine, w: Watch, i: Run)
    requires Fresh(m, w) && 0 < i.skip <= |m.blocks| == |w.frames|
    ensures var j := |m.blocks| - i.skip; w.frames[j].len <= m.blocks[j].start <= |m.statements| && m.blocks[j].start == LiveLen(m, i)
  {
    var j := |m.blocks| - i.skip;
    hide CalmStmts, CalmValues, FreshPending, Deferred;
    assert FreshBlock(m, m.blocks[j], w.frames[j]);
  }

  lemma GuardsKept(m: Machine, m': Machine, i: Run, env: Env, sem: Sem)
    requires i.skip <= |m.blocks| == |m'.blocks| && GuardsHold(m, i, env, sem)
    requires forall b :: 0 <= b < |m.blocks| ==> m'.blocks[b].cond == m.blocks[b].cond
    ensures GuardsHold(m', i, env, sem)
  {
    hide Eval, Pow2;
  }

  /** Emitting a half, wherever it belongs. */
  lemma EmitHalfSynced(a: EsilArch, m: Machine, w: Watch, m': Machine, i: Run, at: nat, t: Var, e: Expr, st: State, sem: Sem)
    requires MachineTyped(a, m) && Fresh(m, w) && HalfEmitted(m, m', at, t, e) && Typed(e, t.bits) && Synced(a, m, w, i, st, sem)
    ensures Synced(a, m', Tainted(w, at), i, st, sem)
  {
    assert at <= |m.statements|;
    hide MachineTyped, Fresh, HalfEmitted, Synced, Typed;
    if i.skip == 0 || at < LiveLen(m, i) {
      SpliceSynced(a, m, w, m', i, at, t, e, st, sem);
    } else {
      SpliceSkipped(a, m, w, m', i, at, t, e, st, sem);
    }
  }

  lemma TaintedTwice(w: Watch, at: nat)
    ensures Tainted(Tainted(w, at), at) == Tainted(w, at)
  {
  }

  lemma CurHalf(m: Machine, w: Watch)
    requires Fresh(m, w) && PendingCur(m).Some?
    ensures var h := PendingCur(m).value; HalfEmitted(m, MaterialiseCur(m), PendingAt(m), h.0, h.1)
  {
    CurIsEmitted(m, w);
    hide Fresh, Emitted, InsertSnapshot;
  }

  lemma WasHalf(m: Machine, w: Watch)
    requires Fresh(m, w) && PendingWas(m).Some?
    ensures var h := PendingWas(m).value; HalfEmitted(m, MaterialiseWas(m), PendingAt(m), h.0, h.1)
  {
    WasIsEmitted(m, w);
    hide Fresh, Emitted, InsertSnapshot;
  }

  lemma PendingTyped(a: EsilArch, m: Machine)
    requires MachineTyped(a, m)
    ensures PendingCur(m).Some? ==> Typed(PendingCur(m).value.1, PendingCur(m).value.0.bits)
    ensures PendingWas(m).Some? ==> Typed(PendingWas(m).value.1, PendingWas(m).value.0.bits)
  {
    hide AllValuesTyped, AllStmtsTyped, BlocksTyped, Typed;
  }

  lemma MaterialiseCurSynced(a: EsilArch, m: Machine, w: Watch, i: Run, st: State, sem: Sem)
    requires MachineTyped(a, m) && Fresh(m, w) && Synced(a, m, w, i, st, sem)
    ensures Synced(a, MaterialiseCur(m), if PendingCur(m).Some? then Tainted(w, PendingAt(m)) else w, i, st, sem)
  {
    PendingTyped(a, m);
    if PendingCur(m).Some? {
      CurHalf(m, w);
      hide MachineTyped, Fresh, Synced, HalfEmitted, Typed, MaterialiseCur;
      EmitHalfSynced(a, m, w, MaterialiseCur(m), i, PendingAt(m), PendingCur(m).value.0, PendingCur(m).value.1, st, sem);
    }
  }

  lemma MaterialiseWasSynced(a: EsilArch, m: Machine, w: Watch, i: Run, st: State, sem: Sem)
    requires MachineTyped(a, m) && Fresh(m, w) && Synced(a, m, w, i, st, sem)
    ensures Synced(a, MaterialiseWas(m), if PendingWas(m).Some? then Tainted(w, PendingAt(m)) else w, i, st, sem)
  {
    PendingTyped(a, m);
    if PendingWas(m).Some? {
      WasHalf(m, w);
      hide MachineTyped, Fresh, Synced, HalfEmitted, Typed, MaterialiseWas;
      EmitHalfSynced(a, m, w, MaterialiseWas(m), i, PendingAt(m), PendingWas(m).value.0, PendingWas(m).value.1, st, sem);
    }
  }
}
