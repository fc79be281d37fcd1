/** A machine in which register names are views: reading one reads its bits of the parent,
    writing one changes the parent. Lowerings that read a register only under the name they
    last wrote it under run on it as they do with a variable for every name. */
module EquivViews {
  import opened Bits
  import opened Common
  import opened Ir
  import opened Ssa
  import opened Layouts
  import opened Namespace
  import opened EquivQuery
  import opened EquivMeaning
  import opened EquivTheorem
  import opened EquivVerdict
  import opened EquivRegisters
  import opened EquivMachine
  import opened MemPlans

  // ---- The machine ----

  /** The machine once the name `x` is given `v`. */
  function WriteBack(arch: Arch, m: Env, x: Name, v: nat): Env {
    if x in arch.layouts then
      var l := arch.layouts[x];
      var bits := ParentWidth(arch, l.parent);
      m[l.parent := RegisterAfter(l, bits, Val(m, Var(l.parent, bits)), v)]
    else m[x := v]
  }

  predicate Defines(s: Stmt) {
    s.Assign? || s.LoadMem?
  }

  /** One statement: every name is read as its view, what is defined is written back. */
  function MachineStep(arch: Arch, s: Stmt, st: State, sem: Sem, k: nat): State {
    var seen := Step(s, State(StartEnv(arch, st.env), st.mem), sem, k);
    State(if Defines(s) then WriteBack(arch, st.env, s.dst.name, Get(seen.env, s.dst.name)) else st.env, seen.mem)
  }

  function MachineRun(ss: seq<Stmt>, arch: Arch, m: Env, m0: Mem, sem: Sem, k: nat): State {
    if ss == [] then State(m, m0)
    else
      var p := ss[..|ss| - 1];
      MachineStep(arch, ss[|ss| - 1], MachineRun(p, arch, m, m0, sem, k), sem, k + CountStmts(p))
  }

  // ---- Lowerings that spell registers one way ----

  /** No view's parent goes by this name without being a view itself. */
  predicate Apart(arch: Arch, x: Name) {
    forall y {:trigger arch.layouts[y]} :: y in arch.layouts ==> arch.layouts[y].parent != x
  }

  /** A view inside its parent, the low end of it where it zero-extends; or a name of no register. */
  predicate Proper(arch: Arch, x: Name) {
    if x in arch.layouts then
      var l := arch.layouts[x];
      x !in COMPARABLE_FLAGS && l.lo <= l.hi < ParentWidth(arch, l.parent) && l.hi < U16 && (l.zeroExtends ==> l.lo == 0)
    else Apart(arch, x)
  }

  function ReadAt(s: Stmt): set<Name> {
    match s
    case Assign(_, rhs) => Reads(rhs)
    case LoadMem(_, address, _) => Reads(address)
    case StoreMem(address, value, _) => Reads(address) + Reads(value)
    case Unsupported => {}
    case Nop => {}
  }

  /** `y` is not another name of the register `s` defines. */
  predicate NoAlias(arch: Arch, s: Stmt, y: Name) {
    Defines(s) && s.dst.name in arch.layouts && y in arch.layouts && arch.layouts[y].parent == arch.layouts[s.dst.name].parent ==> s.dst.name == y
  }

  predicate Unaliased(ss: seq<Stmt>, arch: Arch, y: Name) {
    forall j :: 0 <= j < |ss| ==> NoAlias(arch, ss[j], y)
  }

  /** A defined view is no wider than its bits. */
  predicate Narrow(arch: Arch, s: Stmt) {
    Defines(s) ==> Proper(arch, s.dst.name) && (s.dst.name in arch.layouts ==> s.dst.bits <= ViewWidth(arch.layouts[s.dst.name]))
  }

  /** Definitions fit their views, and a register defined so far is read only under the name
      it was defined under. */
  predicate Coherent(ss: seq<Stmt>, arch: Arch) {
    ss == [] || (var p, s := ss[..|ss| - 1], ss[|ss| - 1];
      Coherent(p, arch) && Narrow(arch, s) && forall y :: y in ReadAt(s) ==> Proper(arch, y) && Unaliased(p, arch, y))
  }

  // ---- Both runs, side by side ----

  /** The names that can still be read hold the same in both runs. */
  ghost predicate SameViews(ss: seq<Stmt>, arch: Arch, m: Env, env: Env) {
    forall y {:trigger View(arch, m, y)} {:trigger Get(env, y)} :: Proper(arch, y) && Unaliased(ss, arch, y) ==> View(arch, m, y) == Get(env, y)
  }

  lemma StartView(arch: Arch, m: Env, y: Name)
    ensures Get(StartEnv(arch, m), y) == View(arch, m, y)
  {
  }

  /** Reading back what was written through a view. */
  lemma WrittenView(arch: Arch, m: Env, x: Name, v: nat)
    requires Proper(arch, x) && (x in arch.layouts ==> v < Pow2(ViewWidth(arch.layouts[x])))
    ensures View(arch, WriteBack(arch, m, x, v), x) == v
    ensures x in arch.layouts ==>
      var l := arch.layouts[x];
      var bits := ParentWidth(arch, l.parent);
      Val(WriteBack(arch, m, x, v), Var(l.parent, bits)) == RegisterAfter(l, bits, Val(m, Var(l.parent, bits)), v)
  {
    if x in arch.layouts {
      var l := arch.layouts[x];
      var bits := ParentWidth(arch, l.parent);
      AfterReads(l, bits, Val(m, Var(l.parent, bits)), v);
      hide RegisterAfter, Pow2, Slice;
      SmallMod(RegisterAfter(l, bits, Val(m, Var(l.parent, bits)), v), Pow2(bits));
    }
  }

  lemma AfterReads(l: Layout, bits: nat, p: nat, v: nat)
    requires l.lo <= l.hi < bits && (l.zeroExtends ==> l.lo == 0) && v < Pow2(ViewWidth(l))
    ensures var r := RegisterAfter(l, bits, p, v); r < Pow2(bits) && Slice(r, l.lo, ViewWidth(l)) == v
  {
    var w := ViewWidth(l);
    Pow2Mono(w, bits);
    assert Pow2(0) == 1;
    hide Pow2;
    SmallMod(v, Pow2(w));
    SmallMod(v, Pow2(bits));
    if !l.zeroExtends && !(l.lo == 0 && l.hi + 1 >= bits) { PutIsLawful(p, l.lo, l.hi, bits, v); }
    hide Put;
  }

  /** A write is seen only through the names of its own register. */
  lemma OtherView(arch: Arch, m: Env, x: Name, v: nat, y: Name)
    requires Proper(arch, x) && Proper(arch, y) && x != y
    requires x in arch.layouts && y in arch.layouts ==> arch.layouts[x].parent != arch.layouts[y].parent
    ensures View(arch, WriteBack(arch, m, x, v), y) == View(arch, m, y)
  {
    hide RegisterAfter, Slice, Cut;
  }

  /** The value a statement computes is the same, and so is the memory it leaves. */
  lemma SameStep(ss: seq<Stmt>, arch: Arch, s: Stmt, m: State, st: State, sem: Sem, k: nat)
    requires SameViews(ss, arch, m.env, st.env) && m.mem == st.mem && SourceStmt(s)
    requires forall y :: y in ReadAt(s) ==> Proper(arch, y) && Unaliased(ss, arch, y)
    ensures
      var seen, now := Step(s, State(StartEnv(arch, m.env), m.mem), sem, k), Step(s, st, sem, k);
      seen.mem == now.mem && (Defines(s) ==> Get(seen.env, s.dst.name) == Get(now.env, s.dst.name) < Pow2(s.dst.bits))
  {
    hide Unaliased, Proper, Eval, LoadValue, StoreValue, Pow2, SourceExpr, View, StartEnv, Count;
    var e := StartEnv(arch, m.env);
    forall y | y in ReadAt(s) ensures Get(e, y) == Get(st.env, y) { StartView(arch, m.env, y); }
    match s
    case Assign(_, rhs) => EvalFrame(rhs, e, st.env, sem, k);
    case LoadMem(_, address, _) => EvalFrame(address, e, st.env, sem, k);
    case StoreMem(address, value, _) =>
      EvalFrame(address, e, st.env, sem, k);
      EvalFrame(value, e, st.env, sem, k + Count(address));
    case Unsupported =>
    case Nop =>
  }

  lemma StepViews(ss: seq<Stmt>, arch: Arch, s: Stmt, m: State, st: State, sem: Sem, k: nat)
    requires SameViews(ss, arch, m.env, st.env) && m.mem == st.mem && SourceStmt(s) && Narrow(arch, s)
    requires forall y :: y in ReadAt(s) ==> Proper(arch, y) && Unaliased(ss, arch, y)
    ensures SameViews(ss + [s], arch, MachineStep(arch, s, m, sem, k).env, Step(s, st, sem, k).env)
    ensures MachineStep(arch, s, m, sem, k).mem == Step(s, st, sem, k).mem
  {
    SameStep(ss, arch, s, m, st, sem, k);
    hide Step, View, WriteBack, StartEnv, Proper;
    forall y | Proper(arch, y) && Unaliased(ss + [s], arch, y)
      ensures View(arch, MachineStep(arch, s, m, sem, k).env, y) == Get(Step(s, st, sem, k).env, y)
    {
      assert Unaliased(ss, arch, y) && NoAlias(arch, s, y) by { UnaliasedSnoc(ss, s, arch, y); }
      StepKeeps(s, st, sem, k, y);
      if Defines(s) {
        var v := Get(Step(s, st, sem, k).env, s.dst.name);
        if y == s.dst.name {
          NarrowStep(arch, s, v);
          WrittenView(arch, m.env, y, v);
        } else {
          OtherView(arch, m.env, s.dst.name, v, y);
        }
      }
    }
  }

  lemma NarrowFits(arch: Arch, s: Stmt, v: nat)
    requires Defines(s) && Narrow(arch, s) && v < Pow2(s.dst.bits) && s.dst.name in arch.layouts
    ensures v < Pow2(ViewWidth(arch.layouts[s.dst.name]))
  {
    Pow2Mono(s.dst.bits, ViewWidth(arch.layouts[s.dst.name]));
  }

  lemma UnaliasedSnoc(ss: seq<Stmt>, s: Stmt, arch: Arch, y: Name)
    ensures Unaliased(ss + [s], arch, y) <==> Unaliased(ss, arch, y) && NoAlias(arch, s, y)
  {
    hide NoAlias;
    if Unaliased(ss + [s], arch, y) {
      assert (ss + [s])[|ss|] == s;
      forall j | 0 <= j < |ss| ensures NoAlias(arch, ss[j], y) { assert (ss + [s])[j] == ss[j]; }
    }
  }

  lemma StepKeeps(s: Stmt, st: State, sem: Sem, k: nat, y: Name)
    ensures !Defines(s) || s.dst.name != y ==> Get(Step(s, st, sem, k).env, y) == Get(st.env, y)
  {
    hide Eval, LoadValue, StoreValue, Pow2;
  }

  // ---- The registers the machine ends with ----

  /** A flag, or a whole register. */
  predicate IsKey(arch: Arch, key: Name) {
    key in COMPARABLE_FLAGS || exists x :: x in arch.layouts && arch.layouts[x].parent == key
  }

  /** Flags are names of their own. */
  predicate FlagsProper(arch: Arch) {
    forall x :: x in COMPARABLE_FLAGS ==> x !in arch.layouts
  }

  ghost predicate SameRegisters(ss: seq<Stmt>, arch: Arch, m: Env, m0: Mem, sem: Sem, k: nat, now: Env) {
    forall key {:trigger IsKey(arch, key)} :: IsKey(arch, key) ==> StartRegister(arch, now, key) == FinalRegister(ss, arch, m, m0, sem, k, key)
  }

  lemma KeyStep(arch: Arch, m: Env, s: Stmt, v: nat, key: Name)
    requires Lawful(arch) && FlagsProper(arch) && Defines(s) && Proper(arch, s.dst.name) && IsKey(arch, key)
    requires s.dst.name in arch.layouts ==> v < Pow2(ViewWidth(arch.layouts[s.dst.name]))
    ensures StartRegister(arch, WriteBack(arch, m, s.dst.name, v), key) ==
      if Lands(arch, s, key) then Landed(arch, s.dst.name, StartRegister(arch, m, key), v) else StartRegister(arch, m, key)
  {
    WrittenView(arch, m, s.dst.name, v);
    hide RegisterAfter, Slice, Pow2, Cut;
    if s.dst.name in arch.layouts { assert arch.layouts[s.dst.name].parent !in COMPARABLE_FLAGS; }
  }

  /** On a coherent lowering the machine ends with the registers that folding its definitions
      gives, and with the same memory. */
  lemma {:induction false} MachineRunIs(ss: seq<Stmt>, arch: Arch, m: Env, m0: Mem, sem: Sem, k: nat)
    requires Lawful(arch) && FlagsProper(arch) && SourceProgram(ss) && Coherent(ss, arch)
    ensures
      var now, st := MachineRun(ss, arch, m, m0, sem, k), SideRun(ss, arch, m, m0, sem, k);
      SameViews(ss, arch, now.env, st.env) && now.mem == st.mem && SameRegisters(ss, arch, m, m0, sem, k, now.env)
    decreases |ss|
  {
    hide Lawful, FlagsProper, Narrow, Proper, Unaliased, SameViews, IsKey, StartRegister, Step, WriteBack, StartEnv, Landed, Lands, SourceStmt, ReadAt, CountStmts, View;
    if ss == [] {
      NothingRun(arch, m, m0, sem, k);
    } else {
      var p, s := ss[..|ss| - 1], ss[|ss| - 1];
      assert ss == p + [s] && SourceStmt(s);
      MachineRunIs(p, arch, m, m0, sem, k);
      var now, st, j := MachineRun(p, arch, m, m0, sem, k), SideRun(p, arch, m, m0, sem, k), k + CountStmts(p);
      StepViews(p, arch, s, now, st, sem, j);
      SameStep(p, arch, s, now, st, sem, j);
      forall key | IsKey(arch, key)
        ensures StartRegister(arch, MachineStep(arch, s, now, sem, j).env, key) == FinalRegister(ss, arch, m, m0, sem, k, key)
      {
        if Defines(s) {
          NarrowStep(arch, s, Get(Step(s, st, sem, j).env, s.dst.name));
          KeyStep(arch, now.env, s, Get(Step(s, st, sem, j).env, s.dst.name), key);
        } else {
          NotLanding(arch, s, key);
        }
      }
    }
  }

  lemma NarrowStep(arch: Arch, s: Stmt, v: nat)
    requires Defines(s) && Narrow(arch, s) && v < Pow2(s.dst.bits)
    ensures Proper(arch, s.dst.name) && (s.dst.name in arch.layouts ==> v < Pow2(ViewWidth(arch.layouts[s.dst.name])))
  {
    hide Proper;
    if s.dst.name in arch.layouts { NarrowFits(arch, s, v); }
  }

  lemma NotLanding(arch: Arch, s: Stmt, key: Name)
    requires !Defines(s)
    ensures !Lands(arch, s, key)
  {
  }

  lemma NothingRun(arch: Arch, m: Env, m0: Mem, sem: Sem, k: nat)
    ensures
      var now, st := MachineRun([], arch, m, m0, sem, k), SideRun([], arch, m, m0, sem, k);
      SameViews([], arch, now.env, st.env) && now.mem == st.mem && SameRegisters([], arch, m, m0, sem, k, now.env)
  {
    hide StartRegister, View, StartEnv;
    forall y ensures Get(StartEnv(arch, m), y) == View(arch, m, y) { StartView(arch, m, y); }
  }

  // ---- The query, about two machines ----

  /** Run on two machines that start alike, the lowerings leave a compared register, flag or
      memory different. */
  ghost predicate RunsDiffer(a: seq<Stmt>, b: seq<Stmt>, arch: Arch, m: Env, m0: Mem, fp: FpModel, pa: seq<nat>, pb: seq<nat>) {
    var ma, mb := MachineRun(a, arch, m, m0, Sem(pa, fp, arch.ptr), 0), MachineRun(b, arch, m, m0, Sem(pb, fp, arch.ptr), 0);
    (exists key :: Shared(a, b, arch, key) && StartRegister(arch, ma.env, key) != StartRegister(arch, mb.env, key))
    || (MemoryCompared(a, b, arch) && MemoriesDiffer(ma.mem, mb.mem))
  }

  ghost predicate RunsAlwaysDiffer(a: seq<Stmt>, b: seq<Stmt>, arch: Arch, m: Env, m0: Mem, fp: FpModel) {
    forall pa, pb :: RunsDiffer(a, b, arch, m, m0, fp, pa, pb)
  }

  lemma SharedIsKey(a: seq<Stmt>, b: seq<Stmt>, arch: Arch, key: Name)
    requires Shared(a, b, arch, key)
    ensures IsKey(arch, key)
  {
    hide Convert, FinalDefs;
    var x, y :| ComparedOn(a, SideA, arch, x) && ComparedOn(b, SideB, arch, y) && KeyOf(arch, x) == key && KeyOf(arch, y) == key;
  }

  lemma RunsAreMachines(a: seq<Stmt>, b: seq<Stmt>, arch: Arch, m: Env, m0: Mem, fp: FpModel, pa: seq<nat>, pb: seq<nat>)
    requires Lawful(arch) && FlagsProper(arch) && SourceProgram(a) && SourceProgram(b) && Coherent(a, arch) && Coherent(b, arch)
    ensures RunsDiffer(a, b, arch, m, m0, fp, pa, pb) <==> MachinesDiffer(a, b, arch, m, m0, fp, pa, pb)
  {
    hide Lawful, FlagsProper, SourceProgram, Coherent, MachineRun, SideRun, FinalRegister, StartRegister, Shared, MemoryCompared, MemoriesDiffer, IsKey, SameViews;
    var p, q := Sem(pa, fp, arch.ptr), Sem(pb, fp, arch.ptr);
    MachineRunIs(a, arch, m, m0, p, 0);
    MachineRunIs(b, arch, m, m0, q, 0);
    forall key | Shared(a, b, arch, key) ensures IsKey(arch, key) { SharedIsKey(a, b, arch, key); }
  }

  /** For coherent lowerings whose compared definitions decide their registers, the query can be
      satisfied exactly when the two runs of the machine can be told apart, and then there is a
      start from which they can whatever the unknowns are. */
  lemma QueryMeansRuns(a: seq<Stmt>, b: seq<Stmt>, arch: Arch, addrs: seq<Var>, keys: seq<Name>, fa: map<Name, Expr>, fb: map<Name, Expr>, q: Query, fp: FpModel)
    requires Lawful(arch) && FlagsProper(arch) && SourceProgram(a) && SourceProgram(b) && IsQuery(a, b, arch, addrs, keys, fa, fb, q)
    requires Plainly(a, SideA, arch) && Plainly(b, SideB, arch) && Coherent(a, arch) && Coherent(b, arch)
    ensures Satisfiable(q, fp, arch.ptr, true) <==> exists m, m0, pa, pb :: RunsDiffer(a, b, arch, m, m0, fp, pa, pb)
    ensures Satisfiable(q, fp, arch.ptr, true) <==> exists m, m0 :: RunsAlwaysDiffer(a, b, arch, m, m0, fp)
  {
    hide IsQuery, Lawful, FlagsProper, SourceProgram, Plainly, Coherent, Satisfiable, RunsDiffer, MachinesDiffer;
    QueryMeansDifference(a, b, arch, addrs, keys, fa, fb, q, fp);
    forall m, m0, pa, pb ensures RunsDiffer(a, b, arch, m, m0, fp, pa, pb) <==> MachinesDiffer(a, b, arch, m, m0, fp, pa, pb) {
      RunsAreMachines(a, b, arch, m, m0, fp, pa, pb);
    }
    if Satisfiable(q, fp, arch.ptr, true) {
      var m, m0 :| AlwaysDiffer(a, b, arch, m, m0, fp);
      forall pa, pb ensures RunsDiffer(a, b, arch, m, m0, fp, pa, pb) { assert MachinesDiffer(a, b, arch, m, m0, fp, pa, pb); }
      assert RunsAlwaysDiffer(a, b, arch, m, m0, fp);
      assert RunsDiffer(a, b, arch, m, m0, fp, [], []);
    }
    if exists m, m0 :: RunsAlwaysDiffer(a, b, arch, m, m0, fp) {
      var m, m0 :| RunsAlwaysDiffer(a, b, arch, m, m0, fp);
      assert RunsDiffer(a, b, arch, m, m0, fp, [], []);
    }
    if exists m, m0, pa, pb :: RunsDiffer(a, b, arch, m, m0, fp, pa, pb) {
      var m, m0, pa, pb :| RunsDiffer(a, b, arch, m, m0, fp, pa, pb);
      assert MachinesDiffer(a, b, arch, m, m0, fp, pa, pb);
    }
  }
}
