/** What the memory pass guarantees: for both sides at once, over one shared
    initial memory, in both directions. */
module MemTheorem {
  import opened Bits
  import opened Common
  import opened Ir
  import opened MemElim
  import opened MemTrace
  import opened MemRun
  import opened MemChoice
  import opened MemSim
  import opened MemRefine

  // ---- One side ----

  lemma PassSim(e: ElimState, side: seq<Cell>, s: Stmt, inputs: Env, sem: Sem, m0: Mem, st: State, k: nat)
    requires Foreign(s) && CellsBefore(side, e.counter)
    requires Mirrors(e, side, inputs, sem, m0, st, k)
    ensures Mirrors(Apply(e, Pass(s)), side, inputs, sem, m0, Step(s, st, sem, k), k + CountStmt(s))
  {
    hide Run, Eval, Cut, SameInputs, Holds, ReadsBelow;
    var r := Apply(e, Pass(s));
    if s.Assign? {
      var env := Run(e, inputs, sem);
      EvalForeign(s.rhs, env, st.env, sem, k);
      RunAssign(e, s.dst, s.rhs, r, inputs, sem);
      var v := Cut(Eval(s.rhs, env, sem, k), s.dst.bits);
      BothWriteSame(env, st.env, s.dst.name, v);
      OtherWriteSame(env, s.dst.name, v, e.counter);
      HoldsSame(side, env, Run(r, inputs, sem), e.counter, m0, st.mem);
    } else {
      PassKeeps(e, s, inputs, sem);
    }
  }

  lemma SideStepSim(e: ElimState, side: seq<Cell>, s: Stmt, ptr: nat, inputs: Env, sem: Sem, m0: Mem, st: State, k: nat)
    requires InputStmt(s) && CellsBefore(side, e.counter) && WellFormed(e) && sem.ptr == ptr
    requires SideStep(e, side, s, ptr).Some?
    requires Mirrors(e, side, inputs, sem, m0, st, k)
    requires var r := SideStep(e, side, s, ptr).value.0; Consistent(r.keys, Run(r, inputs, sem), m0)
    ensures
      var (r, cells) := SideStep(e, side, s, ptr).value;
      Mirrors(r, cells, inputs, sem, m0, Step(s, st, sem, k), k + CountStmt(s))
  {
    hide Run, Consistent, Mirrors, WellFormed, CellsBefore, ExpandStore, ExpandLoad, Step, CountStmt, ReadsBelow;
    match s
    case StoreMem(address, value, bits) => StoreSim(e, side, address, value, bits, ptr, inputs, sem, m0, st, k);
    case LoadMem(dst, address, bits) => LoadSim(e, side, dst, address, bits, ptr, inputs, sem, m0, st, k);
    case _ => PassSim(e, side, s, inputs, sem, m0, st, k);
  }

  /** Running a side's rewrite mirrors running the side from `m0`. */
  lemma {:induction false} RunSideSim(e: ElimState, ss: seq<Stmt>, ptr: nat, inputs: Env, sem: Sem, m0: Mem, env: Env)
    requires InputProgram(ss) && WellFormed(e) && sem.ptr == ptr && RunSide(e, ss, ptr).Some?
    requires SameInputs(Run(e, inputs, sem), env)
    requires var r := RunSide(e, ss, ptr).value.0; Consistent(r.keys, Run(r, inputs, sem), m0)
    ensures
      var (r, cells) := RunSide(e, ss, ptr).value;
      var k := CountStmts(e.statements);
      Mirrors(r, cells, inputs, sem, m0, Exec(ss, State(env, m0), sem, k), k + CountStmts(ss))
    decreases |ss|
  {
    hide Run, Consistent, WellFormed, CellsBefore, SideStep, Step, CountStmt, InputStmt, SameInputs, Reaches;
    var k := CountStmts(e.statements);
    if ss == [] {
      EmptySide(Run(e, inputs, sem), m0);
    } else {
      var q, s := ss[..|ss| - 1], ss[|ss| - 1];
      var (p, cells) := RunSide(e, q, ptr).value;
      var r := RunSide(e, ss, ptr).value.0;
      RunSideReaches(e, q, ptr);
      ReachesWellFormed(e, p);
      KeysBefore(p);
      SideStepReaches(p, cells, s, ptr);
      ConsistentBack(p, r, inputs, sem, m0);
      RunSideSim(e, q, ptr, inputs, sem, m0, env);
      hide Mirrors;
      SideStepSim(p, cells, s, ptr, inputs, sem, m0, Exec(q, State(env, m0), sem, k), k + CountStmts(q));
    }
  }

  lemma EmptySide(env: Env, m0: Mem)
    ensures Holds([], env, m0, m0)
  {
    hide Byte;
  }

  // ---- The probes ----

  /** Each probe pair reads the two final memories at its address. */
  ghost predicate ProbesRead(probes: seq<(Var, Var)>, addrs: seq<Var>, env: Env, ma: Mem, mb: Mem) {
    |probes| == |addrs| && forall i :: 0 <= i < |addrs| ==>
      Val(env, probes[i].0) == Byte(ma, Val(env, addrs[i])) && Val(env, probes[i].1) == Byte(mb, Val(env, addrs[i]))
  }

  ghost predicate PairsBefore(probes: seq<(Var, Var)>, n: nat) {
    forall i :: 0 <= i < |probes| ==> MintedBefore(probes[i].0, n) && MintedBefore(probes[i].1, n)
  }

  lemma ProbesReadSame(probes: seq<(Var, Var)>, addrs: seq<Var>, env: Env, env': Env, n: nat, ma: Mem, mb: Mem)
    requires ProbesRead(probes, addrs, env, ma, mb) && SameBefore(env, env', n)
    requires PairsBefore(probes, n) && VarsBefore(addrs, n)
    ensures ProbesRead(probes, addrs, env', ma, mb)
  {
    hide Val, Byte, SameBefore;
    forall i | 0 <= i < |addrs|
      ensures Val(env', probes[i].0) == Byte(ma, Val(env', addrs[i])) && Val(env', probes[i].1) == Byte(mb, Val(env', addrs[i]))
    {
      assert addrs[i] in addrs;
      SameVal(env, env', n, addrs[i]);
      SameVal(env, env', n, probes[i].0);
      SameVal(env, env', n, probes[i].1);
    }
  }

  lemma ProbesReadSnoc(probes: seq<(Var, Var)>, addrs: seq<Var>, x: Var, y: Var, addr: Var, env: Env, ma: Mem, mb: Mem)
    requires ProbesRead(probes, addrs, env, ma, mb)
    requires Val(env, x) == Byte(ma, Val(env, addr)) && Val(env, y) == Byte(mb, Val(env, addr))
    ensures ProbesRead(probes + [(x, y)], addrs + [addr], env, ma, mb)
  {
    hide Val, Byte;
  }

  /** What probing one address does: registers stay, and both memories are read. */
  lemma ProbeOneSim(p: ElimState, a: seq<Cell>, b: seq<Cell>, probes: seq<(Var, Var)>, addr: Var,
                    inputs: Env, sem: Sem, m0: Mem, ma: Mem, mb: Mem)
    requires MintedBefore(addr, p.counter) && CellsBefore(a, p.counter) && CellsBefore(b, p.counter) && WellFormed(p)
    requires ProbeOne(p, a, b, probes, addr).Some?
    requires Holds(a, Run(p, inputs, sem), m0, ma) && Holds(b, Run(p, inputs, sem), m0, mb)
    requires var r := ProbeOne(p, a, b, probes, addr).value.0; Consistent(r.keys, Run(r, inputs, sem), m0)
    ensures
      var (r, more) := ProbeOne(p, a, b, probes, addr).value;
      var env := Run(r, inputs, sem);
      && |more| == |probes| + 1 && more[..|probes|] == probes
      && Val(env, more[|probes|].0) == Byte(ma, Val(env, addr)) && Val(env, more[|probes|].1) == Byte(mb, Val(env, addr))
      && MintedBefore(more[|probes|].0, r.counter) && MintedBefore(more[|probes|].1, r.counter)
      && Quiet(p, r, inputs, sem) && SameBefore(Run(p, inputs, sem), env, p.counter)
  {
    hide Run, Holds, Consistent, Val, Byte, Reaches, SameBefore, Quiet, CellsBefore;
    KeysBefore(p);
    hide WellFormed;
    var m, v := Mint(p, addr), MintedByte(p);
    var q := FoldSide(m, a, addr, v);
    var r := FoldSide(q, b, addr, v);
    ProbeSetup(p, a, b, addr, inputs, sem, m0, r);
    var env, env1, env2 := Run(m, inputs, sem), Run(q, inputs, sem), Run(r, inputs, sem);
    HoldsSame(a, Run(p, inputs, sem), env, p.counter, m0, ma);
    HoldsSame(b, Run(p, inputs, sem), env, p.counter, m0, mb);
    ReadSide(m, a, addr, v, inputs, sem, m0, ma);
    HoldsSame(b, env, env1, m.counter, m0, mb);
    SameVal(env, env1, m.counter, addr);
    SameVal(env, env1, m.counter, v);
    SideStays(m, q, b);
    ReadSide(q, b, addr, v, inputs, sem, m0, mb);
    SameVal(env1, env2, q.counter, addr);
    SameVal(env1, env2, q.counter, Fresh(m, "r", 8));
    QuietTrans(p, m, q, inputs, sem);
    QuietTrans(p, q, r, inputs, sem);
    SameTrans(Run(p, inputs, sem), env, env1, p.counter, m.counter);
    SameTrans(Run(p, inputs, sem), env1, env2, p.counter, q.counter);
  }

  /** The shared initial byte a probe is read over. */
  lemma ProbeSetup(p: ElimState, a: seq<Cell>, b: seq<Cell>, addr: Var, inputs: Env, sem: Sem, m0: Mem, r: ElimState)
    requires MintedBefore(addr, p.counter) && CellsBefore(a, p.counter) && CellsBefore(b, p.counter) && CellsBefore(p.keys, p.counter)
    requires r == FoldSide(FoldSide(Mint(p, addr), a, addr, MintedByte(p)), b, addr, MintedByte(p))
    requires Consistent(r.keys, Run(r, inputs, sem), m0)
    ensures
      var m := Mint(p, addr);
      var env := Run(m, inputs, sem);
      && Val(env, MintedByte(p)) == Byte(m0, Val(env, addr))
      && Quiet(p, m, inputs, sem) && SameBefore(Run(p, inputs, sem), env, p.counter)
      && CellsBefore(a, m.counter) && CellsBefore(b, m.counter)
      && Reaches(m, FoldSide(m, a, addr, MintedByte(p)))
  {
    var m, v := Mint(p, addr), MintedByte(p);
    var q := FoldSide(m, a, addr, v);
    assert CellsBefore(m.keys, m.counter) && CellsBefore(a, q.counter) && CellsBefore(b, q.counter);
    hide Run, Consistent, Val, Byte, Reaches, SameBefore, Quiet, CellsBefore, FoldSide, Mint;
    MintQuiet(p, addr, inputs, sem);
    MintSame(p, addr, inputs, sem);
    FoldSideReaches(m, a, addr, v);
    FoldSideReaches(q, b, addr, v);
    ReachesTrans(m, q, r);
    ConsistentBack(m, r, inputs, sem, m0);
    KeyByte(p, addr, inputs, sem, m0);
  }

  lemma MintSame(e: ElimState, addr: Var, inputs: Env, sem: Sem)
    requires MintedBefore(addr, e.counter)
    ensures SameBefore(Run(e, inputs, sem), Run(Mint(e, addr), inputs, sem), e.counter)
  {
    MintValue(e, addr, inputs, sem);
  }

  lemma {:induction false} ProbeAllSim(e: ElimState, a: seq<Cell>, b: seq<Cell>, addrs: seq<Var>,
                                       inputs: Env, sem: Sem, m0: Mem, ma: Mem, mb: Mem)
    requires VarsBefore(addrs, e.counter) && CellsBefore(a, e.counter) && CellsBefore(b, e.counter) && WellFormed(e)
    requires ProbeAll(e, a, b, addrs).Some?
    requires Holds(a, Run(e, inputs, sem), m0, ma) && Holds(b, Run(e, inputs, sem), m0, mb)
    requires var r := ProbeAll(e, a, b, addrs).value.0; Consistent(r.keys, Run(r, inputs, sem), m0)
    ensures
      var (r, probes) := ProbeAll(e, a, b, addrs).value;
      && ProbesRead(probes, addrs, Run(r, inputs, sem), ma, mb) && PairsBefore(probes, r.counter)
      && Quiet(e, r, inputs, sem) && SameBefore(Run(e, inputs, sem), Run(r, inputs, sem), e.counter)
    decreases |addrs|
  {
    hide Run, Holds, Consistent, Val, Byte, Reaches, SameBefore, Quiet, CellsBefore, WellFormed, ProbeOne;
    if addrs == [] {
      Nothing(e, inputs, sem);
    } else {
      var rest, addr := addrs[..|addrs| - 1], addrs[|addrs| - 1];
      var (p, probes) := ProbeAll(e, a, b, rest).value;
      var (r, more) := ProbeAll(e, a, b, addrs).value;
      ProbeAllReaches(e, a, b, rest);
      SideStays(e, p, a);
      SideStays(e, p, b);
      ReachesWellFormed(e, p);
      KeysBefore(p);
      assert addr in addrs;
      ProbeOneReaches(p, a, b, probes, addr);
      ReachesExtends(p, r);
      ConsistentBack(p, r, inputs, sem, m0);
      ProbeAllSim(e, a, b, rest, inputs, sem, m0, ma, mb);
      ProbeTail(e, p, r, a, b, probes, more, rest, addr, inputs, sem, m0, ma, mb);
      assert addrs == rest + [addr];
    }
  }

  lemma ProbeTail(e: ElimState, p: ElimState, r: ElimState, a: seq<Cell>, b: seq<Cell>, probes: seq<(Var, Var)>, more: seq<(Var, Var)>,
                  rest: seq<Var>, addr: Var, inputs: Env, sem: Sem, m0: Mem, ma: Mem, mb: Mem)
    requires ProbeOne(p, a, b, probes, addr) == Some((r, more)) && e.counter <= p.counter <= r.counter
    requires VarsBefore(rest + [addr], e.counter) && WellFormed(p)
    requires CellsBefore(a, e.counter) && CellsBefore(b, e.counter) && CellsBefore(a, p.counter) && CellsBefore(b, p.counter)
    requires Holds(a, Run(e, inputs, sem), m0, ma) && Holds(b, Run(e, inputs, sem), m0, mb)
    requires Consistent(r.keys, Run(r, inputs, sem), m0)
    requires ProbesRead(probes, rest, Run(p, inputs, sem), ma, mb) && PairsBefore(probes, p.counter)
    requires Quiet(e, p, inputs, sem) && SameBefore(Run(e, inputs, sem), Run(p, inputs, sem), e.counter)
    ensures ProbesRead(more, rest + [addr], Run(r, inputs, sem), ma, mb) && PairsBefore(more, r.counter)
    ensures Quiet(e, r, inputs, sem) && SameBefore(Run(e, inputs, sem), Run(r, inputs, sem), e.counter)
  {
    hide Run, Holds, Consistent, Val, Byte, SameBefore, Quiet, CellsBefore, WellFormed, ProbeOne, ProbesRead;
    assert addr in rest + [addr];
    assert forall v :: v in rest ==> v in rest + [addr];
    var env, env1, env2 := Run(e, inputs, sem), Run(p, inputs, sem), Run(r, inputs, sem);
    HoldsSame(a, env, env1, e.counter, m0, ma);
    HoldsSame(b, env, env1, e.counter, m0, mb);
    ProbeOneSim(p, a, b, probes, addr, inputs, sem, m0, ma, mb);
    ProbesReadSame(probes, rest, env1, env2, p.counter, ma, mb);
    var n := |probes|;
    ProbesReadSnoc(probes, rest, more[n].0, more[n].1, addr, env2, ma, mb);
    assert more == probes + [more[n]] && more[n] == (more[n].0, more[n].1);
    QuietTrans(e, p, r, inputs, sem);
    SameTrans(env, env1, env2, e.counter, p.counter);
  }
}
