/** The ESIL lift follows the placed interpreter on every hazard-free stream. */
module EsilTheorem {
  import opened Bits
  import opened Common
  import opened Ir
  import opened SsaForm
  import opened RegView
  import opened Flags
  import opened EsilMachine
  import opened EsilTyping
  import opened EsilExec
  import opened EsilFresh
  import opened EsilSteps
  import opened EsilNumbers
  import opened EsilResolved
  import opened EsilValues
  import opened EsilSync
  import opened EsilSim
  import opened EsilBlocks
  import Simplify

  // ---- Opening a block ----

  lemma OpenSim(a: EsilArch, m: Machine, w: Watch, i: Run, st: State, sem: Sem)
    requires MachineTyped(a, m) && Fresh(m, w) && Synced(a, m, w, i, st, sem) && i.skip == 0 && OpenBlock(m).Ok?
    ensures
      var n := OpenBlock(m).value;
      RunToken(i, Open, a).Some? && Synced(a, n, NextWatch(m, w, Open, n), RunToken(i, Open, a).value, st, sem)
  {
    hide MachineTyped, Fresh, Synced, Agrees, Go, Eval, EntryValue, Stands, ValueTyped, ToBit;
    EntryAgrees(a, m, w, i, 1, st, sem);
    var now, v, e := Go(m.statements, st, sem), Top(m), i.stack[|m.stack| - 1];
    ToBitAgrees(v, e, now.env, i.env, sem);
    DropSynced(a, m, w, i, 1, st, sem);
    OpenEarly(m, w);
    OpenedSynced(a, Drop(m, 1), w, Dropped(i, 1), ToBit(v), EntryValue(e, i.env) != 0, st, sem);
  }

  /** A context half that stands on its own reads only temporaries named so far. */
  lemma OpenEarly(m: Machine, w: Watch)
    requires Fresh(m, w)
    ensures EarlyCtx(m, |m.statements|)
  {
    hide CalmStmts, CalmValues, FreshBlocks, FreshHalf, Reads, Deferred;
  }

  lemma OpenedSynced(a: EsilArch, m: Machine, w: Watch, i: Run, cond: Expr, taken: bool, st: State, sem: Sem)
    requires Synced(a, m, w, i, st, sem) && i.skip == 0 && EarlyCtx(m, |m.statements|)
    requires taken <==> Eval(cond, Go(m.statements, st, sem).env, sem, 0) != 0
    ensures
      var n := m.(blocks := m.blocks + [Block(cond, |m.statements|, false)]);
      var w' := w.(frames := w.frames + [WatchFrame(m.stack, |m.statements|, false)]);
      Synced(a, n, w', if taken then i.(depth := i.depth + 1) else i.(skip := 1), st, sem)
  {
    hide *;
    var n := m.(blocks := m.blocks + [Block(cond, |m.statements|, false)]);
    var w' := w.(frames := w.frames + [WatchFrame(m.stack, |m.statements|, false)]);
    SyncedCount(a, m, w, i, st, sem);
    var i' := if taken then i.(depth := i.depth + 1) else i.(skip := 1);
    var now := Go(m.statements, st, sem);
    LiveAll(m, w, i);
    LiveOpened(m, w, n, w', i, i', cond);
    SyncedHas(a, m, w, i, st, sem, now);
    GuardsOpened(m, n, i, i', cond, now.env, taken, sem);
    CtxKept(m, n, m.statements, i.ctx, |m.statements|, st, sem);
    SyncedMade(a, n, w', i', st, sem, now);
  }

  lemma LiveOpened(m: Machine, w: Watch, n: Machine, w': Watch, i: Run, i': Run, cond: Expr)
    requires n == m.(blocks := m.blocks + [Block(cond, |m.statements|, false)]) && |w.frames| == |m.blocks|
    requires w' == w.(frames := w.frames + [WatchFrame(m.stack, |m.statements|, false)])
    requires i.skip == 0 && i'.skip <= 1
    ensures Live(n, i') == m.statements && LiveStack(n, w', i') == m.stack && (Usable(w', i') <==> !w.dirty)
  {
  }

  lemma GuardsOpened(m: Machine, n: Machine, i: Run, i': Run, cond: Expr, env: Env, taken: bool, sem: Sem)
    requires i.skip == 0 && GuardsHold(m, i, env, sem) && n.blocks == m.blocks + [Block(cond, |m.statements|, false)]
    requires (taken <==> Eval(cond, env, sem, 0) != 0) && i'.skip == if taken then 0 else 1
    ensures GuardsHold(n, i', env, sem)
  {
    hide Eval;
  }

  lemma CtxKept(m: Machine, n: Machine, ss: seq<Stmt>, c: Option<Ctx>, len: nat, st: State, sem: Sem)
    requires n.ctx == m.ctx && n.pending == m.pending
    ensures CtxWorth(m, ss, c, st, sem) == CtxWorth(n, ss, c, st, sem) && EarlyCtx(m, len) == EarlyCtx(n, len)
  {
    hide HalfWorth, EarlyHalf, Pow2;
  }

  // ---- Closing a block ----

  lemma {:induction false} GuardPrefix(ss: seq<Stmt>, start: nat, cond: Expr, n: nat)
    requires n <= |ss|
    ensures |GuardFrom(ss, start, cond)| == |ss| && GuardFrom(ss, start, cond)[..n] == GuardFrom(ss[..n], start, cond)
    decreases |ss|
  {
    hide Guarded;
    GuardShape(ss, start, cond);
    if n < |ss| && |ss| > start {
      GuardPrefix(ss[..|ss| - 1], start, cond, n);
      assert ss[..|ss| - 1][..n] == ss[..n];
      var g := GuardFrom(ss[..|ss| - 1], start, cond);
      GuardShape(ss[..|ss| - 1], start, cond);
      assert GuardFrom(ss, start, cond)[..n] == g[..n];
    } else if n < |ss| {
      assert GuardFrom(ss[..n], start, cond) == ss[..n];
    } else {
      assert ss[..n] == ss && GuardFrom(ss, start, cond)[..n] == GuardFrom(ss, start, cond);
    }
  }

  /** The guard of an executed block holds throughout its body. */
  lemma GuardedRun(a: EsilArch, m: Machine, w: Watch, k: nat, at: nat, st: State, sem: Sem)
    requires MachineTyped(a, m) && Fresh(m, w) && k < |m.blocks| && at <= |m.statements|
    requires Eval(m.blocks[k].cond, Go(m.statements, st, sem).env, sem, 0) != 0
    ensures Go(GuardFrom(m.statements[..at], m.blocks[k].start, m.blocks[k].cond), st, sem) == Go(m.statements[..at], st, sem)
  {
    var b, ss := m.blocks[k], m.statements;
    assert FreshBlock(m, b, w.frames[k]);
    assert Typed(b.cond, 1);
    WidthOf(b.cond, 1);
    LiveIsQuiet(a, m, at);
    LiveIsQuiet(a, m, b.start);
    assert Untouched(ss, b.start, Reads(b.cond)) && b.start <= |ss|;
    hide MachineTyped, Fresh, FreshBlock, Go, Eval, AllQuiet, Typed, Width, Count, Reads, DstOf;
    GuardStays(ss, b.start, b.cond, st, sem);
    if at <= b.start {
      assert GuardFrom(ss[..at], b.start, b.cond) == ss[..at];
    } else {
      assert ss[..at][..b.start] == ss[..b.start];
      assert Untouched(ss[..at], b.start, Reads(b.cond));
      GuardTrue(ss[..at], b.start, b.cond, st, sem);
    }
  }

  lemma HalfGuarded(a: EsilArch, m: Machine, w: Watch, k: nat, x: Expr, h: Option<(Var, Expr)>, at: nat, v: nat, st: State, sem: Sem)
    requires MachineTyped(a, m) && Fresh(m, w) && k < |m.blocks|
    requires Eval(m.blocks[k].cond, Go(m.statements, st, sem).env, sem, 0) != 0
    requires HalfWorth(x, h, at, m.statements, v, st, sem)
    ensures HalfWorth(x, h, at, GuardFrom(m.statements, m.blocks[k].start, m.blocks[k].cond), v, st, sem)
  {
    var ss, b := m.statements, m.blocks[k];
    hide MachineTyped, Fresh, Go, Eval, GuardFrom;
    GuardedRun(a, m, w, k, |ss|, st, sem);
    assert ss[..|ss|] == ss;
    if h.Some? && x == Ref(h.value.0) {
      GuardPrefix(ss, b.start, b.cond, at);
      GuardedRun(a, m, w, k, at, st, sem);
    }
  }

  /** What closing the innermost block does to the machine and to what is watched. */
  lemma CloseShape(m: Machine, w: Watch, n: Machine)
    requires CloseBlock(m).Ok? && n == CloseBlock(m).value && |w.frames| == |m.blocks|
    ensures var k, w' := |m.blocks| - 1, NextWatch(m, w, Close, n);
            && k >= 0 && n.blocks == m.blocks[..k] && n.stack == m.stack && n.ctx == m.ctx && n.pending == m.pending
            && n.statements == GuardFrom(m.statements, m.blocks[k].start, m.blocks[k].cond)
            && w'.frames == w.frames[..k] && (!w'.dirty ==> !w.dirty && !w.frames[k].tainted)
  {
    hide GuardFrom;
  }

  lemma SamePending(m: Machine, n: Machine)
    requires n.pending == m.pending
    ensures PendingWas(n) == PendingWas(m) && PendingCur(n) == PendingCur(m) && PendingAt(n) == PendingAt(m)
  {
  }

  /** The innermost guard was taken, and the outer guards still are. */
  lemma OuterGuards(m: Machine, i: Run, n: Machine, i': Run, env: Env, sem: Sem)
    requires i.skip == i'.skip == 0 && m.blocks != [] && n.blocks == m.blocks[..|m.blocks| - 1] && GuardsHold(m, i, env, sem)
    ensures Eval(m.blocks[|m.blocks| - 1].cond, env, sem, 0) != 0 && GuardsHold(n, i', env, sem)
  {
    hide Eval;
  }

  /** The flag context is worth what it was once the guard is in front of the block's statements. */
  lemma CtxGuarded(a: EsilArch, m: Machine, w: Watch, n: Machine, c: Option<Ctx>, st: State, sem: Sem)
    requires MachineTyped(a, m) && Fresh(m, w) && CloseBlock(m).Ok? && n == CloseBlock(m).value && |w.frames| == |m.blocks|
    requires Eval(m.blocks[|m.blocks| - 1].cond, Go(m.statements, st, sem).env, sem, 0) != 0
    requires CtxWorth(m, m.statements, c, st, sem)
    ensures CtxWorth(n, n.statements, c, st, sem)
  {
    hide MachineTyped, Fresh, Go, Eval, GuardFrom, HalfWorth, Pow2, CloseBlock, NextWatch, PendingWas, PendingCur, PendingAt;
    CloseShape(m, w, n);
    SamePending(m, n);
    if m.ctx.Some? {
      HalfGuarded(a, m, w, |m.blocks| - 1, m.ctx.value.was, PendingWas(m), PendingAt(m), c.value.was, st, sem);
      HalfGuarded(a, m, w, |m.blocks| - 1, m.ctx.value.cur, PendingCur(m), PendingAt(m), c.value.cur, st, sem);
    }
  }

  lemma CloseTaken(a: EsilArch, m: Machine, w: Watch, i: Run, st: State, sem: Sem)
    requires MachineTyped(a, m) && Fresh(m, w) && Synced(a, m, w, i, st, sem) && i.skip == 0 && CloseBlock(m).Ok?
    ensures
      var n := CloseBlock(m).value;
      i.depth > 0 && Synced(a, n, NextWatch(m, w, Close, n), i.(depth := i.depth - 1), st, sem)
  {
    hide *;
    var n, ss := CloseBlock(m).value, m.statements;
    var w' := NextWatch(m, w, Close, n);
    SyncedCount(a, m, w, i, st, sem);
    LiveAll(m, w, i);
    var now := Go(ss, st, sem);
    SyncedHas(a, m, w, i, st, sem, now);
    CloseShape(m, w, n);
    var i' := i.(depth := i.depth - 1);
    OuterGuards(m, i, n, i', now.env, sem);
    GuardedRun(a, m, w, |m.blocks| - 1, |ss|, st, sem);
    assert ss[..|ss|] == ss;
    if !w'.dirty { CtxGuarded(a, m, w, n, i.ctx, st, sem); }
    SyncedIntro(a, n, w', i', st, sem);
  }

  /** While nothing is skipped everything is live. */
  lemma LiveAll(m: Machine, w: Watch, i: Run)
    requires i.skip == 0 && |w.frames| == |m.blocks|
    ensures Live(m, i) == m.statements && LiveStack(m, w, i) == m.stack && (Usable(w, i) <==> !w.dirty)
  {
  }

  /** The body of a skipped block only assigns late temporaries and registers. */
  lemma BodyHarmless(a: EsilArch, m: Machine, w: Watch, k: nat, env: Env)
    requires MachineTyped(a, m) && Fresh(m, w) && k < |m.blocks| && !HasMemOp(m) && Fits(a, env)
    ensures Harmless(m.statements, m.blocks[k].start, w.frames[k].len, env)
  {
    var b, f, ss := m.blocks[k], w.frames[k], m.statements;
    assert FreshBlock(m, b, f);
    hide AllValuesTyped, BlocksTyped, CtxTyped, HalfTyped, Typed, Reads, Pow2, RegisterRef;
    forall q | b.start <= q < |ss|
      ensures !ss[q].LoadMem? && !ss[q].StoreMem?
      ensures ss[q].Assign? ==> (ss[q].dst.name.Temp? && ss[q].dst.name.index >= f.len) || Get(env, ss[q].dst.name) < Pow2(ss[q].dst.bits)
    {
      if ss[q].Assign? {
        var x := ss[q].dst.name;
        assert x in DstOf(ss[q]);
        assert StmtTyped(a, ss[q]);
        if !x.Temp? { RegisterFits(a, ss[q].dst, env); }
      }
    }
  }

  lemma RegisterFits(a: EsilArch, v: Var, env: Env)
    requires IsRegister(a, v) && Fits(a, env)
    ensures Get(env, v.name) < Pow2(v.bits)
  {
    hide Pow2, RegisterRef;
    var x :| RegisterRef(a, x).variable == v;
    assert !RegisterRef(a, x).variable.name.Temp?;
  }

  lemma HalfUnchanged(x: Expr, h: Option<(Var, Expr)>, at: nat, ss: seq<Stmt>, ss': seq<Stmt>, len: nat, v: nat, st: State, sem: Sem)
    requires HalfWorth(x, h, at, ss, v, st, sem) && EarlyHalf(x, h, len) && |ss| <= |ss'| && ss'[..|ss|] == ss
    requires SameUpTo(len, Go(ss, st, sem).env, Go(ss', st, sem).env)
    ensures HalfWorth(x, h, at, ss', v, st, sem)
  {
    hide Go, Eval, Reads;
    if h.Some? && x == Ref(h.value.0) {
      assert ss'[..at] == ss[..at];
    } else {
      var env, env' := Go(ss, st, sem).env, Go(ss', st, sem).env;
      forall y | y in Reads(x) ensures Get(env, y) == Get(env', y) { }
      EvalFrame(x, env, env', sem, 0);
    }
  }

  lemma RegsUpTo(a: EsilArch, len: nat, env: Env, env': Env, ienv: Env)
    requires SameUpTo(len, env, env') && SameRegs(env, ienv) && Fits(a, env)
    ensures SameRegs(env', ienv) && Fits(a, env')
  {
    hide Pow2, RegisterRef;
    forall x: Name | !x.Temp? ensures Get(env', x) == Get(ienv, x) { assert Get(env, x) == Get(env', x) && Get(env, x) == Get(ienv, x); }
    forall x: Name | !RegisterRef(a, x).variable.name.Temp?
      ensures Get(env', RegisterRef(a, x).variable.name) < Pow2(RegisterRef(a, x).variable.bits)
    {
      assert Get(env, RegisterRef(a, x).variable.name) == Get(env', RegisterRef(a, x).variable.name);
    }
  }

  lemma StackUpTo(vs: seq<StackValue>, es: seq<Entry>, len: nat, d: set<Name>, env: Env, env': Env, sem: Sem)
    requires StackStands(vs, es, env, sem) && CalmValues(vs, len, d) && SameUpTo(len, env, env')
    ensures StackStands(vs, es, env', sem)
  {
    hide Stands, ValueNames, SameUpTo;
    forall q | 0 <= q < |vs| ensures Stands(vs[q], es[q], env', sem) {
      assert Calm(ValueNames(vs[q]), len, d);
      StandsSame(vs[q], es[q], env, env', len, sem);
    }
  }

  lemma GuardsUpTo(m: Machine, w: Watch, i: Run, k: nat, n: Machine, i': Run, env: Env, env': Env, sem: Sem)
    requires Fresh(m, w) && k < |m.blocks| && i.skip == |m.blocks| - k && GuardsHold(m, i, env, sem)
    requires SameUpTo(w.frames[k].len, env, env') && n.blocks == m.blocks[..k] && i'.skip == 0
    ensures GuardsHold(n, i', env', sem)
  {
    hide Eval, Reads, CalmStmts, FreshPending, CalmValues, Untouched, SameUpTo;
    forall b | 0 <= b < k ensures Eval(n.blocks[b].cond, env', sem, 0) != 0 {
      assert FreshBlock(m, m.blocks[b], w.frames[b]);
      assert w.frames[b].len <= w.frames[k].len;
      CondUpTo(m.blocks[b].cond, w.frames[b].len, w.frames[k].len, Deferred(m), env, env', sem);
    }
  }

  lemma CondUpTo(cond: Expr, len: nat, len': nat, d: set<Name>, env: Env, env': Env, sem: Sem)
    requires Calm(Reads(cond), len, d) && len <= len' && SameUpTo(len', env, env')
    ensures Eval(cond, env, sem, 0) == Eval(cond, env', sem, 0)
  {
    hide Eval, Reads;
    forall y | y in Reads(cond) ensures Get(env, y) == Get(env', y) { }
    EvalFrame(cond, env, env', sem, 0);
  }

  /** Guarding a skipped block's body leaves the state as it was before the block. */
  lemma SkippedRun(a: EsilArch, m: Machine, w: Watch, i: Run, st: State, sem: Sem)
    requires MachineTyped(a, m) && Fresh(m, w) && Synced(a, m, w, i, st, sem) && i.skip == 1 && !HasMemOp(m)
    ensures
      var k := |m.blocks| - 1;
      var now, after := Go(Live(m, i), st, sem), Go(GuardFrom(m.statements, m.blocks[k].start, m.blocks[k].cond), st, sem);
      SameUpTo(w.frames[k].len, now.env, after.env) && after.mem == now.mem && LiveLen(m, i) == m.blocks[k].start <= |m.statements|
  {
    var k := |m.blocks| - 1;
    var b, f, ss := m.blocks[k], w.frames[k], m.statements;
    assert FreshBlock(m, b, f);
    assert Typed(b.cond, 1) && Calm(Reads(b.cond), f.len, Deferred(m)) && b.start <= |ss|;
    assert Live(m, i) == ss[..b.start];
    WidthOf(b.cond, 1);
    LiveIsQuiet(a, m, b.start);
    assert Fits(a, Go(Live(m, i), st, sem).env) && Eval(b.cond, Go(Live(m, i), st, sem).env, sem, 0) == 0;
    BodyHarmless(a, m, w, k, Go(Live(m, i), st, sem).env);
    assert NoneAbove(Reads(b.cond), f.len) by { hide Reads; }
    hide MachineTyped, Fresh, Synced, FreshBlock, Go, Eval, AllQuiet, Typed, Width, Count, Reads, Harmless, GuardFrom, SameUpTo;
    GuardFalse(ss, b.start, b.cond, f.len, st, sem);
  }

  lemma CtxSkipped(a: EsilArch, m: Machine, n: Machine, ss: seq<Stmt>, len: nat, c: Option<Ctx>, st: State, sem: Sem)
    requires n.ctx == m.ctx && n.pending == m.pending && CtxWorth(m, ss, c, st, sem) && EarlyCtx(m, len)
    requires |ss| <= |n.statements| && n.statements[..|ss|] == ss && SameUpTo(len, Go(ss, st, sem).env, Go(n.statements, st, sem).env)
    ensures CtxWorth(n, n.statements, c, st, sem)
  {
    hide Go, Eval, HalfWorth, EarlyHalf, SameUpTo, Pow2, PendingWas, PendingCur, PendingAt;
    SamePending(m, n);
    if m.ctx.Some? {
      HalfUnchanged(m.ctx.value.was, PendingWas(m), PendingAt(m), ss, n.statements, len, c.value.was, st, sem);
      HalfUnchanged(m.ctx.value.cur, PendingCur(m), PendingAt(m), ss, n.statements, len, c.value.cur, st, sem);
    }
  }

  /** What is live beside a skipped innermost block. */
  lemma LiveBeside(m: Machine, w: Watch, i: Run)
    requires i.skip == 1 && |w.frames| == |m.blocks| > 0 && Fresh(m, w) && Safe(m, w, Close)
    ensures var k := |m.blocks| - 1;
            && m.stack == w.frames[k].stack == LiveStack(m, w, i) && (Usable(w, i) <==> !w.dirty && !w.frames[k].tainted)
            && CalmValues(w.frames[k].stack, w.frames[k].len, Deferred(m))
            && m.blocks[k].start <= |m.statements| && Live(m, i) == m.statements[..m.blocks[k].start]
  {
    hide CalmStmts, CalmValues, FreshPending, Deferred, Calm;
    assert FreshBlock(m, m.blocks[|m.blocks| - 1], w.frames[|m.blocks| - 1]);
  }

  /** Guarding leaves what stands before the block alone. */
  lemma GuardedPrefix(ss: seq<Stmt>, start: nat, cond: Expr)
    requires start <= |ss|
    ensures |GuardFrom(ss, start, cond)| >= start && GuardFrom(ss, start, cond)[..start] == ss[..start]
  {
    hide GuardFrom;
    GuardPrefix(ss, start, cond, start);
    GuardNothing(ss[..start], start, cond);
  }

  lemma CloseSkipped(a: EsilArch, m: Machine, w: Watch, i: Run, st: State, sem: Sem)
    requires MachineTyped(a, m) && Fresh(m, w) && Synced(a, m, w, i, st, sem) && i.skip == 1 && CloseBlock(m).Ok? && !HasMemOp(m)
    requires Safe(m, w, Close)
    ensures var n := CloseBlock(m).value; Synced(a, n, NextWatch(m, w, Close, n), i.(skip := 0), st, sem)
  {
    hide *;
    var n, k := CloseBlock(m).value, |m.blocks| - 1;
    SyncedCount(a, m, w, i, st, sem);
    var f, w', i' := w.frames[k], NextWatch(m, w, Close, n), i.(skip := 0);
    var ss := Live(m, i);
    var now, after := Go(ss, st, sem), Go(n.statements, st, sem);
    SyncedHas(a, m, w, i, st, sem, now);
    CloseShape(m, w, n);
    LiveBeside(m, w, i);
    GuardedPrefix(m.statements, m.blocks[k].start, m.blocks[k].cond);
    SkippedRun(a, m, w, i, st, sem);
    GuardsUpTo(m, w, i, k, n, i', now.env, after.env, sem);
    RegsUpTo(a, f.len, now.env, after.env, i.env);
    StackUpTo(f.stack, i.stack, f.len, Deferred(m), now.env, after.env, sem);
    if !w'.dirty { CtxSkipped(a, m, n, ss, f.len, i.ctx, st, sem); }
    SyncedIntro(a, n, w', i', st, sem);
  }

  // ---- Inside a skipped block ----

  /** How a token leaves the part before the first skipped block. */
  predicate KeepsLive(m: Machine, w: Watch, i: Run, n: Machine, w': Watch, i': Run)
    requires 0 < i.skip <= |m.blocks|
  {
    var j := |m.blocks| - i.skip;
    && |w'.frames| == |n.blocks| && |w.frames| == |m.blocks| && 0 < i'.skip <= |n.blocks| && i' == i.(skip := i'.skip)
    && |n.blocks| - i'.skip == j
    && m.blocks[j].start <= |m.statements| && m.blocks[j].start <= |n.statements|
    && n.statements[..m.blocks[j].start] == m.statements[..m.blocks[j].start]
    && (forall b :: 0 <= b <= j ==> n.blocks[b].cond == m.blocks[b].cond && n.blocks[b].start == m.blocks[b].start)
    && w'.frames[j].stack == w.frames[j].stack && w'.frames[j].len == w.frames[j].len
    && (Usable(w', i') ==> Usable(w, i) && n.ctx == m.ctx && n.pending == m.pending)
  }

  lemma KeepsSynced(a: EsilArch, m: Machine, w: Watch, i: Run, n: Machine, w': Watch, i': Run, st: State, sem: Sem)
    requires Synced(a, m, w, i, st, sem) && i.skip > 0 && KeepsLive(m, w, i, n, w', i')
    ensures Synced(a, n, w', i', st, sem)
  {
    hide Go, SameRegs, Fits, StackStands, GuardsHold, CtxWorth, EarlyCtx, Usable;
    SkipSynced(a, m, w, i, n, w', i', st, sem);
  }

  lemma SkippedStart(m: Machine, w: Watch, i: Run)
    requires Fresh(m, w) && 0 < i.skip <= |m.blocks|
    ensures |w.frames| == |m.blocks|
    ensures var j := |m.blocks| - i.skip; m.blocks[j].start <= |m.statements| && forall b :: j <= b < |m.blocks| ==> m.blocks[j].start <= m.blocks[b].start
  {
    hide CalmStmts, CalmValues, FreshPending, Calm, Untouched;
    var j := |m.blocks| - i.skip;
    assert FreshBlock(m, m.blocks[j], w.frames[j]);
  }

  lemma CloseKeeps(m: Machine, w: Watch, i: Run)
    requires Fresh(m, w) && 1 < i.skip <= |m.blocks| && CloseBlock(m).Ok?
    ensures var n := CloseBlock(m).value; KeepsLive(m, w, i, n, NextWatch(m, w, Close, n), i.(skip := i.skip - 1))
  {
    hide Fresh, GuardFrom, CloseBlock, NextWatch;
    var j, k := |m.blocks| - i.skip, |m.blocks| - 1;
    SkippedStart(m, w, i);
    var at, b, n := m.blocks[j].start, m.blocks[k], CloseBlock(m).value;
    CloseShape(m, w, n);
    GuardPrefix(m.statements, b.start, b.cond, at);
    GuardNothing(m.statements[..at], b.start, b.cond);
    KeptShape(m, w, i, n, NextWatch(m, w, Close, n));
  }

  lemma KeptShape(m: Machine, w: Watch, i: Run, n: Machine, w': Watch)
    requires |w.frames| == |m.blocks| && 1 < i.skip <= |m.blocks|
    requires n.blocks == m.blocks[..|m.blocks| - 1] && n.ctx == m.ctx && n.pending == m.pending
    requires w'.frames == w.frames[..|m.blocks| - 1] && (!w'.dirty ==> !w.dirty)
    requires var at := m.blocks[|m.blocks| - i.skip].start;
             at <= |m.statements| == |n.statements| && n.statements[..at] == m.statements[..at]
    ensures KeepsLive(m, w, i, n, w', i.(skip := i.skip - 1))
  {
  }

  lemma GuardNothing(ss: seq<Stmt>, start: nat, cond: Expr)
    requires |ss| <= start
    ensures GuardFrom(ss, start, cond) == ss
  {
  }

  lemma OpenKeeps(m: Machine, w: Watch, i: Run)
    requires Fresh(m, w) && 0 < i.skip <= |m.blocks| && OpenBlock(m).Ok?
    ensures var n := OpenBlock(m).value; KeepsLive(m, w, i, n, NextWatch(m, w, Open, n), i.(skip := i.skip + 1))
  {
    SkippedStart(m, w, i);
    hide Fresh, ToBit;
  }

  /** More statements at the end, the same blocks and flag context. */
  predicate OnlyAppends(m: Machine, n: Machine) {
    && |m.statements| <= |n.statements| && n.statements[..|m.statements|] == m.statements
    && |n.blocks| == |m.blocks| && (forall b :: 0 <= b < |m.blocks| ==> n.blocks[b].cond == m.blocks[b].cond && n.blocks[b].start == m.blocks[b].start)
    && n.ctx == m.ctx && n.pending == m.pending
  }

  lemma AppendKeeps(m: Machine, w: Watch, i: Run, n: Machine)
    requires 0 < i.skip <= |m.blocks| == |w.frames| && m.blocks[|m.blocks| - i.skip].start <= |m.statements| && OnlyAppends(m, n)
    ensures KeepsLive(m, w, i, n, w, i)
  {
    var p := m.blocks[|m.blocks| - i.skip].start;
    assert n.statements[..p] == n.statements[..|m.statements|][..p];
  }

  lemma ComputeAppends(a: EsilArch, m: Machine, t: Token)
    requires StepToken(m, t, a).Ok? && (t.Literal? || t.Operand? || t.Arith? || t.Not?)
    ensures OnlyAppends(m, StepToken(m, t, a).value)
  {
    hide ArithExpr, OperandRef, AsBit, ValueExpr, ValueBits;
  }

  lemma AccessAppends(a: EsilArch, m: Machine, t: Token)
    requires StepToken(m, t, a).Ok? && (t.Load? || t.Store? || t.NegAssign?)
    ensures OnlyAppends(m, StepToken(m, t, a).value)
  {
    hide WriteExpr, Widen, NegatedExpr, ValueExpr;
  }

  /** Tokens that push, pop, emit or seed. */
  lemma OtherKeeps(a: EsilArch, m: Machine, w: Watch, i: Run, t: Token)
    requires Fresh(m, w) && 0 < i.skip <= |m.blocks| && StepToken(m, t, a).Ok? && !t.Open? && !t.Close? && !t.Flag?
    ensures var n := StepToken(m, t, a).value; KeepsLive(m, w, i, n, NextWatch(m, w, t, n), i)
  {
    SkippedStart(m, w, i);
    var n := StepToken(m, t, a).value;
    hide Fresh, KeepsLive, OnlyAppends, ApplyLoad, ApplyStore, ApplyArith, ApplyNot, ApplyNegAssign, ApplySet, ApplyCompare, OperandRef;
    match t
    case Set(compound, seeds) => SetKeeps(m, w, i, compound, seeds);
    case Compare => CompareKeeps(m, w, i);
    case _ =>
      if t.Load? || t.Store? || t.NegAssign? { AccessAppends(a, m, t); } else { ComputeAppends(a, m, t); }
      AppendKeeps(m, w, i, n);
  }

  lemma SetKeeps(m: Machine, w: Watch, i: Run, compound: Option<EsilOp>, seeds: bool)
    requires 0 < i.skip <= |m.blocks| == |w.frames| && m.blocks[|m.blocks| - i.skip].start <= |m.statements| && ApplySet(m, compound, seeds).Ok?
    ensures var n := ApplySet(m, compound, seeds).value; KeepsLive(m, w, i, n, NextWatch(m, w, Set(compound, seeds), n), i)
  {
    hide AssignedExpr, WriteExpr, ReadExpr, Widen, RegBits;
  }

  lemma CompareKeeps(m: Machine, w: Watch, i: Run)
    requires 0 < i.skip <= |m.blocks| == |w.frames| && m.blocks[|m.blocks| - i.skip].start <= |m.statements| && ApplyCompare(m).Ok?
    ensures var n := ApplyCompare(m).value; KeepsLive(m, w, i, n, NextWatch(m, w, Compare, n), i)
  {
    hide Widen, CompareBits;
  }

  lemma FlagSkipped(a: EsilArch, m: Machine, w: Watch, i: Run, suffix: string, st: State, sem: Sem)
    requires MachineTyped(a, m) && Fresh(m, w) && Synced(a, m, w, i, st, sem) && i.skip > 0 && ApplyFlag(m, suffix).Ok?
    ensures var n := ApplyFlag(m, suffix).value; Synced(a, n, NextWatch(m, w, Flag(suffix), n), i, st, sem)
  {
    FlagWatch(m, w, suffix, a);
    var cur, w1 := MaterialiseCur(m), if PendingCur(m).Some? then Tainted(w, PendingAt(m)) else w;
    MaterialiseCurSynced(a, m, w, i, st, sem);
    MaterialiseTyped(a, m);
    MaterialiseFresh(m, w);
    TaintsKeepFrames(w, PendingAt(m));
    WatchFresh(cur, w, w1);
    CurGone(m);
    CurPending(m);
    var n := ApplyFlag(m, suffix).value;
    if IsIndexed(suffix) {
      var dropped := Drop(cur, 1);
      DropTyped(a, cur, 1);
      DropFresh(cur, w1, 1);
      hide Synced, MachineTyped, Fresh, MaterialiseCur, MaterialiseWas, FlagExpr, TaintFrom, NextWatch;
      SkipRestack(a, cur, w1, i, dropped.stack, st, sem);
      if NeedsWas(suffix) {
        MaterialiseWasSynced(a, dropped, w1, i, st, sem);
        SkipRestack(a, MaterialiseWas(dropped), if PendingWas(m).Some? then Tainted(w1, PendingAt(m)) else w1, i, n.stack, st, sem);
      } else {
        SkipRestack(a, dropped, w1, i, n.stack, st, sem);
      }
    } else {
      hide Synced, MachineTyped, Fresh, MaterialiseCur, FlagExpr, TaintFrom, NextWatch;
      SkipRestack(a, cur, w1, i, n.stack, st, sem);
    }
  }

  // ---- One token ----

  lemma StepSkipped(a: EsilArch, m: Machine, w: Watch, i: Run, t: Token, st: State, sem: Sem)
    requires MachineTyped(a, m) && Fresh(m, w) && Synced(a, m, w, i, st, sem) && i.skip > 0
    requires StepToken(m, t, a).Ok? && Safe(m, w, t) && !HasMemOp(m)
    ensures var n := StepToken(m, t, a).value;
      RunToken(i, t, a).Some? && Synced(a, n, NextWatch(m, w, t, n), RunToken(i, t, a).value, st, sem)
  {
    assert 0 < i.skip <= |m.blocks|;
    hide MachineTyped, Fresh, Synced, Safe, KeepsLive, ApplyFlag, CloseBlock, OpenBlock, NextWatch, ApplySet, ApplyLoad, ApplyStore, ApplyArith, ApplyCompare,
         ApplyNegAssign, ApplyNot, OperandRef, HasMemOp;
    var n := StepToken(m, t, a).value;
    if t.Flag? {
      FlagSkipped(a, m, w, i, t.suffix, st, sem);
    } else if t.Close? && i.skip == 1 {
      CloseSkipped(a, m, w, i, st, sem);
    } else if t.Close? {
      CloseKeeps(m, w, i);
      KeepsSynced(a, m, w, i, n, NextWatch(m, w, t, n), i.(skip := i.skip - 1), st, sem);
    } else if t.Open? {
      OpenKeeps(m, w, i);
      KeepsSynced(a, m, w, i, n, NextWatch(m, w, t, n), i.(skip := i.skip + 1), st, sem);
    } else {
      OtherKeeps(a, m, w, i, t);
      KeepsSynced(a, m, w, i, n, NextWatch(m, w, t, n), i, st, sem);
    }
  }

  lemma OperandSim(a: EsilArch, m: Machine, w: Watch, i: Run, r: RegRef, st: State, sem: Sem)
    requires Synced(a, m, w, i, st, sem) && i.skip == 0 && !r.variable.name.Temp?
    ensures Synced(a, PushTo(m, InRegister(r)), w, Pushed(i, Lazy(r)), st, sem)
  {
    hide Synced, Go;
    PushSynced(a, m, w, i, InRegister(r), Lazy(r), st, sem);
  }

  lemma NoBlocks(m: Machine, t: Token, a: EsilArch)
    requires (t.Load? || t.Store?) && StepToken(m, t, a).Ok? && !HasMemOp(StepToken(m, t, a).value)
    ensures m.blocks == []
  {
    hide HasMemOp, StepToken;
    if m.blocks != [] { MarkedBlock(m, t, a); }
  }

  lemma StepTaken(a: EsilArch, m: Machine, w: Watch, i: Run, t: Token, st: State, sem: Sem)
    requires LawfulEsil(a) && MachineTyped(a, m) && Fresh(m, w) && Synced(a, m, w, i, st, sem) && i.skip == 0 && sem.ptr == a.arch.ptr
    requires StepToken(m, t, a).Ok? && Safe(m, w, t) && TokenFits(t) && !HasMemOp(StepToken(m, t, a).value)
    ensures var n := StepToken(m, t, a).value;
      RunToken(i, t, a).Some? && Synced(a, n, NextWatch(m, w, t, n), RunToken(i, t, a).value, st, sem)
  {
    if t.Load? || t.Store? { NoBlocks(m, t, a); }
    if t.Operand? { OperandTyped(a, t.name); }
    hide LawfulEsil, MachineTyped, Fresh, Synced, ApplyFlag, CloseBlock, OpenBlock, ApplySet, ApplyLoad, ApplyStore, ApplyArith, ApplyCompare,
         ApplyNegAssign, ApplyNot, OperandRef, HasMemOp, RunFlag, RunSet, RunLoad, RunStore, RunCompare, ArithNum, WriteIsSafe, RefTyped, TaintFrom, Pow2;
    match t
    case Literal(value) => LiteralSim(a, m, w, i, value, st, sem);
    case Operand(name) => OperandSim(a, m, w, i, OperandRef(a, name), st, sem);
    case Flag(suffix) => FlagSim(a, m, w, i, suffix, st, sem);
    case Arith(op) => ArithSim(a, m, w, i, op, st, sem);
    case Not => NotSim(a, m, w, i, st, sem);
    case Compare => CompareSim(a, m, w, i, st, sem);
    case NegAssign => NegSim(a, m, w, i, st, sem);
    case Set(compound, seeds) => SetSim(a, m, w, i, compound, seeds, st, sem);
    case Load(size) => LoadSim(a, m, w, i, size, st, sem);
    case Store(size) => StoreSim(a, m, w, i, size, st, sem);
    case Open => OpenSim(a, m, w, i, st, sem);
    case Close => CloseTaken(a, m, w, i, st, sem);
    case Junk(_) =>
  }

  // ---- Whole streams ----

  /** Run the machine and the hazard watch together; `None` at the first token that
      declines or is not safe. */
  function Watched(ts: seq<Token>, a: EsilArch): Option<(Machine, Watch)> {
    if ts == [] then Some((FRESH, NOTHING_WATCHED)) else
    match Watched(ts[..|ts| - 1], a)
    case None => None
    case Some((m, w)) =>
      var t := ts[|ts| - 1];
      if !Safe(m, w, t) || !TokenFits(t) then None else
      match StepToken(m, t, a)
      case Err(_) => None
      case Ok(n) => Some((n, NextWatch(m, w, t, n)))
  }

  /** The stream's own condition: nothing live is overwritten, blocks leave the stack
      as they found it, and no flag is read from a stale context. */
  predicate HazardFree(ts: seq<Token>, a: EsilArch) {
    Watched(ts, a).Some?
  }

  lemma {:induction false} WatchedSteps(ts: seq<Token>, a: EsilArch)
    requires HazardFree(ts, a)
    ensures Steps(ts, a) == Ok(Watched(ts, a).value.0)
    decreases |ts|
  {
    hide StepToken, Safe, NextWatch, TokenFits;
    if ts != [] { WatchedSteps(ts[..|ts| - 1], a); }
  }

  lemma TargetIsRegister(m: Machine, w: Watch, t: Token, a: EsilArch)
    requires (t.Set? || t.NegAssign?) && Safe(m, w, t) && StepToken(m, t, a).Ok?
    ensures m.stack != [] && Top(m).InRegister? && !Top(m).r.variable.name.Temp?
  {
  }

  lemma {:induction false} WatchedKeeps(ts: seq<Token>, a: EsilArch)
    requires LawfulEsil(a) && HazardFree(ts, a)
    ensures var (m, w) := Watched(ts, a).value; MachineTyped(a, m) && Fresh(m, w)
    decreases |ts|
  {
    hide StepToken, Safe, NextWatch, TokenFits, MachineTyped, Fresh, LawfulEsil;
    if ts == [] {
      FreshStart(a);
    } else {
      WatchedKeeps(ts[..|ts| - 1], a);
      var (m, w) := Watched(ts[..|ts| - 1], a).value;
      StepKeepsAll(a, m, w, ts[|ts| - 1]);
    }
  }

  lemma FreshStart(a: EsilArch)
    ensures MachineTyped(a, FRESH) && Fresh(FRESH, NOTHING_WATCHED)
  {
  }

  lemma StepKeepsAll(a: EsilArch, m: Machine, w: Watch, t: Token)
    requires LawfulEsil(a) && MachineTyped(a, m) && Fresh(m, w) && Safe(m, w, t) && TokenFits(t) && StepToken(m, t, a).Ok?
    ensures var n := StepToken(m, t, a).value; MachineTyped(a, n) && Fresh(n, NextWatch(m, w, t, n))
  {
    if t.Operand? { OperandTyped(a, t.name); }
    if t.Set? || t.NegAssign? { TargetIsRegister(m, w, t, a); }
    hide MachineTyped, Fresh, Safe, LawfulEsil, StepToken, NextWatch, OperandRef, RefTyped;
    StepTyped(a, m, t);
    StepFresh(m, w, t, a);
  }

  /** The two stay together, unless a block has touched memory. */
  lemma {:induction false} WatchedSynced(ts: seq<Token>, a: EsilArch, st: State, sem: Sem)
    requires LawfulEsil(a) && HazardFree(ts, a) && Fits(a, st.env) && sem.ptr == a.arch.ptr
    ensures
      var (m, w) := Watched(ts, a).value;
      var i := RunTokens(StartRun(st.env, st.mem), ts, a);
      HasMemOp(m) || (i.Some? && Synced(a, m, w, i.value, st, sem))
    decreases |ts|
  {
    hide StepToken, RunToken, Safe, NextWatch, TokenFits, LawfulEsil, Synced, Fits, HasMemOp, MachineTyped, Fresh;
    if ts == [] {
      StartSynced(a, st, sem);
    } else {
      var p, t := ts[..|ts| - 1], ts[|ts| - 1];
      WatchedSynced(p, a, st, sem);
      WatchedKeeps(p, a);
      var (m, w) := Watched(p, a).value;
      if HasMemOp(m) {
        MemOpStays(m, t, a);
      } else if !HasMemOp(Watched(ts, a).value.0) {
        StepSynced(a, m, w, RunTokens(StartRun(st.env, st.mem), p, a).value, t, st, sem);
      }
    }
  }

  lemma StepSynced(a: EsilArch, m: Machine, w: Watch, i: Run, t: Token, st: State, sem: Sem)
    requires LawfulEsil(a) && MachineTyped(a, m) && Fresh(m, w) && Synced(a, m, w, i, st, sem) && sem.ptr == a.arch.ptr
    requires StepToken(m, t, a).Ok? && Safe(m, w, t) && TokenFits(t) && !HasMemOp(m) && !HasMemOp(StepToken(m, t, a).value)
    ensures var n := StepToken(m, t, a).value;
      RunToken(i, t, a).Some? && Synced(a, n, NextWatch(m, w, t, n), RunToken(i, t, a).value, st, sem)
  {
    hide StepToken, RunToken, Safe, NextWatch, TokenFits, LawfulEsil, Synced, HasMemOp, MachineTyped, Fresh;
    if i.skip == 0 { StepTaken(a, m, w, i, t, st, sem); } else { StepSkipped(a, m, w, i, t, st, sem); }
  }

  lemma StartSynced(a: EsilArch, st: State, sem: Sem)
    requires Fits(a, st.env)
    ensures Synced(a, FRESH, NOTHING_WATCHED, StartRun(st.env, st.mem), st, sem)
  {
    GoNothing(st, sem);
    hide Go, Fits;
    assert Live(FRESH, StartRun(st.env, st.mem)) == [];
  }

  /** Executing what a hazard-free stream lifts to, from any state, ends in the
      variables and the memory the placed interpreter ends in. */
  lemma LiftFollows(ts: seq<Token>, a: EsilArch, ss: seq<Stmt>, env: Env, mem: Mem, sem: Sem)
    requires LawfulEsil(a) && HazardFree(ts, a) && LiftEsil(ts, a) == Ok(ss) && Fits(a, env) && sem.ptr == a.arch.ptr
    ensures
      var i := RunTokens(StartRun(env, mem), ts, a);
      var end := Exec(ss, State(env, mem), sem, 0);
      && i.Some? && i.value.skip == 0 && i.value.depth == 0
      && SameRegs(end.env, i.value.env) && end.mem == i.value.mem && Fits(a, end.env)
  {
    hide Steps, RunTokens, Fits, SameRegs, LawfulEsil, Exec, StackStands, GuardsHold, CtxWorth, Watched;
    WatchedSteps(ts, a);
    WatchedSynced(ts, a, State(env, mem), sem);
    var (m, w) := Watched(ts, a).value;
    assert m.statements == ss && m.blocks == [];
    var i := RunTokens(StartRun(env, mem), ts, a).value;
    assert Live(m, i) == ss;
  }

  /** Everything lifted is strictly sorted, and no memory access is conditional. */
  lemma LiftIsSorted(ts: seq<Token>, a: EsilArch, ss: seq<Stmt>)
    requires LawfulEsil(a) && HazardFree(ts, a) && LiftEsil(ts, a) == Ok(ss)
    ensures AllStmtsTyped(a, ss)
  {
    hide Steps, LawfulEsil, Watched, StmtTyped, Fresh;
    WatchedSteps(ts, a);
    WatchedKeeps(ts, a);
  }

  /** A stream that accesses memory inside a block never lifts. */
  lemma {:induction false} BlockedMemoryDeclines(ts: seq<Token>, k: nat, a: EsilArch)
    requires k < |ts| && (ts[k].Load? || ts[k].Store?)
    requires Steps(ts[..k], a).Ok? && Steps(ts[..k], a).value.blocks != []
    ensures LiftEsil(ts, a).Err?
  {
    hide StepToken, HasMemOp;
    var m := Steps(ts[..k], a).value;
    assert ts[..k + 1][..k] == ts[..k];
    if Steps(ts, a).Ok? {
      PrefixSteps(ts, k + 1, a);
      MarkedBlock(m, ts[k], a);
      MemOpForever(ts, k + 1, a);
      StillOpen(Steps(ts, a).value);
    }
  }

  lemma MarkedBlock(m: Machine, t: Token, a: EsilArch)
    requires (t.Load? || t.Store?) && StepToken(m, t, a).Ok? && m.blocks != []
    ensures HasMemOp(StepToken(m, t, a).value)
  {
    hide Widen, ValueExpr;
    assert StepToken(m, t, a).value.blocks[|m.blocks| - 1].memOp;
  }

  lemma StillOpen(m: Machine)
    requires HasMemOp(m)
    ensures m.blocks != []
  {
  }

  lemma {:induction false} PrefixSteps(ts: seq<Token>, k: nat, a: EsilArch)
    requires k <= |ts| && Steps(ts, a).Ok?
    ensures Steps(ts[..k], a).Ok?
    decreases |ts|
  {
    hide StepToken;
    if k == |ts| {
      assert ts[..k] == ts;
    } else {
      assert ts[..|ts| - 1][..k] == ts[..k];
      PrefixSteps(ts[..|ts| - 1], k, a);
    }
  }

  lemma {:induction false} MemOpForever(ts: seq<Token>, k: nat, a: EsilArch)
    requires k <= |ts| && Steps(ts, a).Ok? && Steps(ts[..k], a).Ok? && HasMemOp(Steps(ts[..k], a).value)
    ensures HasMemOp(Steps(ts, a).value)
    decreases |ts|
  {
    hide StepToken, HasMemOp;
    if k == |ts| {
      assert ts[..k] == ts;
    } else {
      assert ts[..|ts| - 1][..k] == ts[..k];
      MemOpForever(ts[..|ts| - 1], k, a);
      MemOpStays(Steps(ts[..|ts| - 1], a).value, ts[|ts| - 1], a);
    }
  }
}
