/** Memory, flags and predicated blocks: the remaining tokens. */
module EsilBlocks {
  import opened Bits
  import opened Common
  import opened Ir
  import opened SsaForm
  import opened RegView
  import opened Flags
  import opened EsilMachine
  import opened EsilTyping
  import opened EsilExec
  import opened EsilFresh
  import opened EsilSteps
  import opened EsilNumbers
  import opened EsilResolved
  import opened EsilValues
  import opened EsilSync
  import opened EsilSim
  import MemRefine

  // ---- Memory, outside every block ----

  lemma LoadStep(dst: Var, address: Expr, size: nat, at: nat, now: State, sem: Sem)
    requires size > 0 && dst.bits == 8 * size && Cut(Eval(address, now.env, sem, 0), sem.ptr) == at
    ensures
      var v := LoadValue(now.mem, at, size, sem.ptr);
      Ir.Step(LoadMem(dst, address, 8 * size), now, sem, 0) == now.(env := now.env[dst.name := v]) && v < Pow2(8 * size)
  {
    var v := LoadValue(now.mem, at, size, sem.ptr);
    MemRefine.LoadValueBound(now.mem, at, size, sem.ptr);
    hide Pow2, LoadValue, Eval;
    assert ByteCount(8 * size) == size;
    SmallMod(v, Pow2(8 * size));
  }

  lemma LoadSim(a: EsilArch, m: Machine, w: Watch, i: Run, size: nat, st: State, sem: Sem)
    requires MachineTyped(a, m) && Fresh(m, w) && Synced(a, m, w, i, st, sem) && i.skip == 0 && sem.ptr == a.arch.ptr
    requires ApplyLoad(m, size).Ok? && 0 < size < 256 && m.blocks == []
    ensures RunLoad(i, size, a.arch.ptr).Some? && Synced(a, ApplyLoad(m, size).value, w, RunLoad(i, size, a.arch.ptr).value, st, sem)
  {
    hide Go, MachineTyped, Fresh, Synced, Agrees, Eval, EntryValue, ValueExpr, LoadValue, Pow2, Stands, ValueTyped, Ir.Step, Width, Count;
    EntryAgrees(a, m, w, i, 1, st, sem);
    LiveNow(a, m, w, i, st, sem);
    var now, v, e := Go(m.statements, st, sem), Top(m), i.stack[|m.stack| - 1];
    AgreeValue(v, e, now.env, i.env, sem);
    var at := Cut(EntryValue(e, i.env), a.arch.ptr);
    var dst := TempVar("ld", m, 8 * size);
    var s, x := LoadMem(dst, ValueExpr(v), 8 * size), LoadValue(now.mem, at, size, sem.ptr);
    LiveIsQuiet(a, m, 0);
    hide AllQuiet;
    GoSnoc(m.statements, s, st, sem);
    LoadStep(dst, ValueExpr(v), size, at, now, sem);
    DropSynced(a, m, w, i, 1, st, sem);
    DropFresh(m, w, 1);
    TempSynced(a, Drop(m, 1), w, Dropped(i, 1), s, dst.name, x, st, sem);
    var m1 := Emit(Drop(m, 1), s);
    assert ApplyLoad(m, size).value == PushTo(m1, InRegister(WholeRef(dst)));
    assert Stands(InRegister(WholeRef(dst)), Known(x, 8 * size, false), Go(m1.statements, st, sem).env, sem) by { LoadedStands(dst, x, now.env, sem); }
    PushSynced(a, m1, w, Dropped(i, 1), InRegister(WholeRef(dst)), Known(x, 8 * size, false), st, sem);
  }

  lemma AgreeValue(v: StackValue, e: Entry, env: Env, ienv: Env, sem: Sem)
    requires Agrees(v, e, env, ienv, sem)
    ensures Eval(ValueExpr(v), env, sem, 0) == EntryValue(e, ienv) && Count(ValueExpr(v)) == 0
  {
    hide Eval, EntryBits, ValueBits, EntryArchBits, ArchitecturalBits, Pow2, EntryValue, ValueExpr, Count, Width;
  }

  lemma LoadedStands(dst: Var, x: nat, env: Env, sem: Sem)
    requires dst.name.Temp? && 0 < dst.bits < U16 && x < Pow2(dst.bits)
    ensures Stands(InRegister(WholeRef(dst)), Known(x, dst.bits, false), env[dst.name := x], sem)
  {
    hide Pow2;
  }

  /** A statement that only defines a temporary nobody knows yet. */
  lemma TempSynced(a: EsilArch, m: Machine, w: Watch, i: Run, s: Stmt, t: Name, x: nat, st: State, sem: Sem)
    requires Fresh(m, w) && Synced(a, m, w, i, st, sem) && i.skip == 0 && m.blocks == []
    requires t.Temp? && t.index == |m.statements|
    requires var now := Go(m.statements, st, sem); Go(m.statements + [s], st, sem) == now.(env := now.env[t := x])
    ensures Synced(a, Emit(m, s), w, i, st, sem)
  {
    LiveNow(a, m, w, i, st, sem);
    var now, m' := Go(m.statements, st, sem), Emit(m, s);
    assert |w.frames| == |m.blocks| && i.depth == |m.blocks|;
    TempUpdate(a, now.env, i.env, t, x);
    LateUnread(m, w, t);
    hide Go, SameRegs, Fits, Synced, Eval, Reads, Fresh;
    StackSpliced(m.stack, i.stack, now.env, t, x, sem);
    hide StackStands;
    if !w.dirty && m.ctx.Some? {
      HalfAfterWrite(m.ctx.value.was, PendingWas(m), PendingAt(m), m.statements, s, i.ctx.value.was, t, x, st, sem);
      HalfAfterWrite(m.ctx.value.cur, PendingCur(m), PendingAt(m), m.statements, s, i.ctx.value.cur, t, x, st, sem);
    }
    hide HalfWorth;
    assert !w.dirty ==> CtxWorth(m', m'.statements, i.ctx, st, sem);
    hide CtxWorth;
    assert GuardsHold(m', i, now.env[t := x], sem);
    SyncedIntro(a, m', w, i, st, sem);
  }

  /** A temporary named now is read by nothing on the stack and no context. */
  lemma LateUnread(m: Machine, w: Watch, t: Name)
    requires Fresh(m, w) && t.Temp? && t.index == |m.statements|
    ensures forall k :: 0 <= k < |m.stack| ==> t !in ValueNames(m.stack[k])
    ensures CtxIgnores(m, t)
  {
    hide CalmStmts, FreshBlocks, Deferred, ValueNames, FreshHalf, Reads;
    forall k | 0 <= k < |m.stack| ensures t !in ValueNames(m.stack[k]) {
      assert Calm(ValueNames(m.stack[k]), |m.statements|, Deferred(m));
    }
  }

  lemma StoreSim(a: EsilArch, m: Machine, w: Watch, i: Run, size: nat, st: State, sem: Sem)
    requires MachineTyped(a, m) && Synced(a, m, w, i, st, sem) && i.skip == 0 && sem.ptr == a.arch.ptr
    requires ApplyStore(m, size).Ok? && 0 < size && m.blocks == []
    ensures RunStore(i, size, a.arch.ptr).Some? && Synced(a, ApplyStore(m, size).value, w, RunStore(i, size, a.arch.ptr).value, st, sem)
  {
    hide Go, MachineTyped, Synced, Agrees, Eval, EntryValue, EntryBits, ValueExpr, StoreValue, Pow2, Stands, ValueTyped, Ir.Step, Width, Count, Widen, FitNum;
    EntryAgrees(a, m, w, i, 1, st, sem);
    EntryAgrees(a, m, w, i, 2, st, sem);
    LiveNow(a, m, w, i, st, sem);
    var now, v, e, ve := Go(m.statements, st, sem), Top(m), i.stack[|m.stack| - 1], i.stack[|m.stack| - 2];
    AgreeValue(v, e, now.env, i.env, sem);
    WidenAgrees(Second(m), ve, now.env, i.env, sem, 8 * size);
    var x := FitNum(EntryValue(ve, i.env), EntryBits(ve), 8 * size);
    var s := StoreMem(ValueExpr(v), Widen(Second(m), 8 * size), 8 * size);
    LiveIsQuiet(a, m, 0);
    hide AllQuiet;
    GoSnoc(m.statements, s, st, sem);
    StoreStep(ValueExpr(v), Widen(Second(m), 8 * size), size, now, sem);
    DropSynced(a, m, w, i, 2, st, sem);
    MemorySynced(a, Drop(m, 2), w, Dropped(i, 2), s, StoreValue(i.mem, Cut(EntryValue(e, i.env), a.arch.ptr), x, size, a.arch.ptr), st, sem);
  }

  lemma StoreStep(address: Expr, value: Expr, size: nat, now: State, sem: Sem)
    requires size > 0 && Count(address) == 0 && Eval(value, now.env, sem, 0) < Pow2(8 * size)
    ensures Ir.Step(StoreMem(address, value, 8 * size), now, sem, 0) ==
      now.(mem := StoreValue(now.mem, Cut(Eval(address, now.env, sem, 0), sem.ptr), Eval(value, now.env, sem, 0), size, sem.ptr))
  {
    hide Pow2, StoreValue, Eval, Count;
    assert ByteCount(8 * size) == size;
    SmallMod(Eval(value, now.env, sem, 0), Pow2(8 * size));
  }

  lemma MemorySynced(a: EsilArch, m: Machine, w: Watch, i: Run, s: Stmt, mem: Mem, st: State, sem: Sem)
    requires Synced(a, m, w, i, st, sem) && i.skip == 0 && m.blocks == []
    requires Go(m.statements + [s], st, sem) == Go(m.statements, st, sem).(mem := mem)
    ensures Synced(a, Emit(m, s), w, i.(mem := mem), st, sem)
  {
    LiveNow(a, m, w, i, st, sem);
    var now, m' := Go(m.statements, st, sem), Emit(m, s);
    assert |w.frames| == |m.blocks| && i.depth == |m.blocks|;
    hide Go, SameRegs, Fits, Synced, Eval, StackStands, Reads;
    if !w.dirty && m.ctx.Some? {
      HalfAfterStore(m.ctx.value.was, PendingWas(m), PendingAt(m), m.statements, s, i.ctx.value.was, st, sem);
      HalfAfterStore(m.ctx.value.cur, PendingCur(m), PendingAt(m), m.statements, s, i.ctx.value.cur, st, sem);
    }
    hide HalfWorth;
    assert !w.dirty ==> CtxWorth(m', m'.statements, i.ctx, st, sem);
    hide CtxWorth;
    assert GuardsHold(m', i, now.env, sem);
    SyncedIntro(a, m', w, i.(mem := mem), st, sem);
  }

  lemma HalfAfterStore(x: Expr, h: Option<(Var, Expr)>, at: nat, ss: seq<Stmt>, s: Stmt, v: nat, st: State, sem: Sem)
    requires HalfWorth(x, h, at, ss, v, st, sem) && Go(ss + [s], st, sem).env == Go(ss, st, sem).env
    ensures HalfWorth(x, h, at, ss + [s], v, st, sem)
  {
    hide Go, Eval, Reads;
    if h.Some? && x == Ref(h.value.0) { assert (ss + [s])[..at] == ss[..at]; }
  }

  // ---- Flags ----

  /** Once emitted, or in place, a half's expression is worth what the context says. */
  lemma FlagValueZps(a: EsilArch, m: Machine, w: Watch, i: Run, suffix: string, n: nat, st: State, sem: Sem)
    requires MachineTyped(a, m) && Synced(a, m, w, i, st, sem) && i.skip == 0 && !w.dirty && m.ctx.Some?
    requires PendingCur(m).None? && !NeedsWas(suffix) && FlagExpr(suffix, m.ctx.value, n).Some?
    ensures i.ctx.Some?
    ensures FlagNum(suffix, i.ctx.value, n) == Some(Eval(FlagExpr(suffix, m.ctx.value, n).value, Go(m.statements, st, sem).env, sem, 0))
  {
    LiveNow(a, m, w, i, st, sem);
    var c, env := m.ctx.value, Go(m.statements, st, sem).env;
    assert CtxTyped(c);
    WidthOf(c.cur, c.bits);
    hide Go, MachineTyped, Synced, Eval, Pow2, FlagExpr, FlagNum, Width, Count;
    var only := c.(was := c.cur);
    var cur := i.ctx.value.cur;
    assert CtxHolds(only, cur, cur, env, sem, 0);
    FlagIgnoresWas(suffix, c, i.ctx.value.was, cur, n);
    FlagAgrees(suffix, only, n, cur, cur, env, sem);
  }

  lemma FlagValueCbo(a: EsilArch, m: Machine, w: Watch, i: Run, suffix: string, n: nat, st: State, sem: Sem)
    requires MachineTyped(a, m) && Synced(a, m, w, i, st, sem) && i.skip == 0 && !w.dirty && m.ctx.Some?
    requires PendingCur(m).None? && PendingWas(m).None? && FlagExpr(suffix, m.ctx.value, n).Some?
    ensures i.ctx.Some?
    ensures FlagNum(suffix, i.ctx.value, n) == Some(Eval(FlagExpr(suffix, m.ctx.value, n).value, Go(m.statements, st, sem).env, sem, 0))
  {
    LiveNow(a, m, w, i, st, sem);
    var c, env := m.ctx.value, Go(m.statements, st, sem).env;
    assert CtxTyped(c);
    WidthOf(c.cur, c.bits);
    WidthOf(c.was, c.bits);
    hide Go, MachineTyped, Synced, Eval, Pow2, FlagExpr, FlagNum, Width, Count;
    assert CtxHolds(c, i.ctx.value.was, i.ctx.value.cur, env, sem, 0);
    FlagAgrees(suffix, c, n, i.ctx.value.was, i.ctx.value.cur, env, sem);
  }

  /** The watch after a flag token is the taint of each half emitted. */
  lemma FlagWatch(m: Machine, w: Watch, suffix: string, a: EsilArch)
    requires ApplyFlag(m, suffix).Ok? && Fresh(m, w)
    ensures
      var w1 := if PendingCur(m).Some? then Tainted(w, PendingAt(m)) else w;
      var w2 := if IsIndexed(suffix) && NeedsWas(suffix) && PendingWas(m).Some? then Tainted(w1, PendingAt(m)) else w1;
      NextWatch(m, w, Flag(suffix), ApplyFlag(m, suffix).value) == w2
  {
    assert m.pending.Some? ==> m.pending.value.at <= |m.statements|;
    TaintedTwice(w, PendingAt(m));
    hide FlagExpr, Shifted, TaintFrom, Fresh;
    FlagLength(m, suffix);
  }

  lemma FlagLength(m: Machine, suffix: string)
    requires ApplyFlag(m, suffix).Ok? && (m.pending.Some? ==> m.pending.value.at <= |m.statements|)
    ensures
      var n := (if PendingCur(m).Some? then 1 else 0) + (if IsIndexed(suffix) && NeedsWas(suffix) && PendingWas(m).Some? then 1 else 0);
      |ApplyFlag(m, suffix).value.statements| == |m.statements| + n
  {
    hide FlagExpr, Shifted;
  }

  lemma FlagSim(a: EsilArch, m: Machine, w: Watch, i: Run, suffix: string, st: State, sem: Sem)
    requires LawfulEsil(a) && MachineTyped(a, m) && Fresh(m, w) && Synced(a, m, w, i, st, sem) && i.skip == 0
    requires ApplyFlag(m, suffix).Ok? && !w.dirty
    ensures
      var n := ApplyFlag(m, suffix).value;
      RunFlag(i, suffix).Some? && Synced(a, n, NextWatch(m, w, Flag(suffix), n), RunFlag(i, suffix).value, st, sem)
  {
    FlagWatch(m, w, suffix, a);
    LiveNow(a, m, w, i, st, sem);
    var cur, w1 := MaterialiseCur(m), if PendingCur(m).Some? then Tainted(w, PendingAt(m)) else w;
    MaterialiseCurSynced(a, m, w, i, st, sem);
    MaterialiseTyped(a, m);
    MaterialiseFresh(m, w);
    TaintsKeepFrames(w, PendingAt(m));
    WatchFresh(cur, w, w1);
    CurGone(m);
    CurPending(m);
    assert !w1.dirty;
    hide Go, MachineTyped, Synced, MaterialiseCur, MaterialiseWas, FlagExpr, FlagNum, Eval, TaintFrom, NextWatch, SameRegs, Fits, StackStands, CtxWorth, LawfulEsil;
    if !IsIndexed(suffix) {
      FlagValueZps(a, cur, w1, i, suffix, 0, st, sem);
      FlagNotConst(suffix, m.ctx.value, 0);
      PushFlag(a, cur, w1, i, FlagExpr(suffix, m.ctx.value, 0).value, FlagNum(suffix, i.ctx.value, 0).value, st, sem);
    } else {
      IndexedSim(a, m, w, i, suffix, cur, w1, st, sem);
    }
  }

  lemma CurPending(m: Machine)
    ensures PendingWas(MaterialiseCur(m)) == PendingWas(m) && PendingAt(MaterialiseCur(m)) == PendingAt(m)
  {
  }

  lemma PushFlag(a: EsilArch, m: Machine, w: Watch, i: Run, e: Expr, v: nat, st: State, sem: Sem)
    requires Synced(a, m, w, i, st, sem) && i.skip == 0 && v == Eval(e, Go(m.statements, st, sem).env, sem, 0) && !e.Const?
    ensures Synced(a, PushTo(m, Computed(e, 1)), w, Pushed(i, Known(v, 1, false)), st, sem)
  {
    hide Go, Synced, Eval;
    PushSynced(a, m, w, i, Computed(e, 1), Known(v, 1, false), st, sem);
  }

  /** The literal index means the same to both. */
  lemma IndexAgrees(a: EsilArch, m: Machine, w: Watch, i: Run, st: State, sem: Sem)
    requires MachineTyped(a, m) && Synced(a, m, w, i, st, sem) && i.skip == 0 && m.stack != [] && FlagIndex(Top(m)).Some?
    ensures |i.stack| == |m.stack|
    ensures var e := i.stack[|m.stack| - 1]; e.Known? && e.literal && e.value == FlagIndex(Top(m)).value
  {
    hide Go, Synced, Pow2, SameRegs, Fits, CtxWorth, Stands, AllStmtsTyped, BlocksTyped, CtxTyped, HalfTyped, ValueTyped;
    LiveNow(a, m, w, i, st, sem);
    LiteralIndex(a, Top(m), i.stack[|m.stack| - 1], Go(m.statements, st, sem).env, sem);
  }

  lemma LiteralIndex(a: EsilArch, v: StackValue, e: Entry, env: Env, sem: Sem)
    requires ValueTyped(a, v) && Stands(v, e, env, sem) && FlagIndex(v).Some?
    ensures e.Known? && e.literal && e.value == FlagIndex(v).value
  {
    hide Pow2;
    assert v.expr.bits == v.bits;
    IndexFits(v.expr.value, v.bits);
  }

  lemma IndexFits(n: nat, bits: nat)
    requires n <= U16 && bits >= 16
    ensures Cut(n, bits) == n
  {
    Pow2Mono(16, bits);
    assert Pow2(8) == 256;
    hide Pow2;
    Pow2Add(8, 8);
    SmallMod(n, Pow2(bits));
  }

  lemma IndexedSim(a: EsilArch, m: Machine, w: Watch, i: Run, suffix: string, cur: Machine, w1: Watch, st: State, sem: Sem)
    requires MachineTyped(a, cur) && Fresh(cur, w1) && Synced(a, cur, w1, i, st, sem) && i.skip == 0 && !w1.dirty
    requires ApplyFlag(m, suffix).Ok? && IsIndexed(suffix) && cur == MaterialiseCur(m)
    requires w1 == if PendingCur(m).Some? then Tainted(w, PendingAt(m)) else w
    ensures
      var w2 := if NeedsWas(suffix) && PendingWas(m).Some? then Tainted(w1, PendingAt(m)) else w1;
      RunFlag(i, suffix).Some? && Synced(a, ApplyFlag(m, suffix).value, w2, RunFlag(i, suffix).value, st, sem)
  {
    hide Go, MachineTyped, Synced, MaterialiseCur, MaterialiseWas, FlagExpr, FlagNum, Eval, TaintFrom, Fresh, ValueTyped;
    CurGone(m);
    CurPending(m);
    IndexAgrees(a, cur, w1, i, st, sem);
    DropTyped(a, cur, 1);
    DropFresh(cur, w1, 1);
    DropSynced(a, cur, w1, i, 1, st, sem);
    var dropped, j, n := Drop(cur, 1), Dropped(i, 1), FlagIndex(Top(m)).value;
    assert PendingCur(dropped).None? && PendingWas(dropped) == PendingWas(m) && PendingAt(dropped) == PendingAt(m);
    hide PendingCur, PendingWas, PendingAt;
    FlagNotConst(suffix, m.ctx.value, n);
    MaterialiseWasSynced(a, dropped, w1, j, st, sem);
    MaterialiseTyped(a, dropped);
    CurGone(dropped);
    if NeedsWas(suffix) {
      var both, w2 := MaterialiseWas(dropped), if PendingWas(m).Some? then Tainted(w1, PendingAt(m)) else w1;
      FlagValueCbo(a, both, w2, j, suffix, n, st, sem);
      PushFlag(a, both, w2, j, FlagExpr(suffix, m.ctx.value, n).value, FlagNum(suffix, i.ctx.value, n).value, st, sem);
    } else {
      FlagValueZps(a, dropped, w1, j, suffix, n, st, sem);
      PushFlag(a, dropped, w1, j, FlagExpr(suffix, m.ctx.value, n).value, FlagNum(suffix, i.ctx.value, n).value, st, sem);
    }
  }
}
