/** Renaming temporaries does not change a verdict: the query of two lowerings and that of
    the same two lowerings with names outside the register tables swapped around have the
    same condition and mean the same. */
module EquivRename {
  import opened Bits
  import opened Common
  import opened Ir
  import opened Ssa
  import opened Layouts
  import opened Namespace
  import opened Taint
  import opened EquivQuery
  import opened EquivMeaning
  import opened EquivTheorem
  import opened EquivVerdict
  import opened MemPlans

  // ---- Renaming a lowering ----

  function MoveVar(v: Var, f: Name -> Name): Var {
    Var(f(v.name), v.bits)
  }

  function MoveExpr(e: Expr, f: Name -> Name): Expr {
    match e
    case Ref(v) => Ref(MoveVar(v, f))
    case Const(_, _) => e
    case FpConst(_, _, _) => e
    case Unknown(_) => e
    case Un(op, a) => Un(op, MoveExpr(a, f))
    case Bin(op, a, b) => Bin(op, MoveExpr(a, f), MoveExpr(b, f))
    case Ite(c, t, e') => Ite(MoveExpr(c, f), MoveExpr(t, f), MoveExpr(e', f))
  }

  function MoveStmt(s: Stmt, f: Name -> Name): Stmt {
    match s
    case Assign(dst, rhs) => Assign(MoveVar(dst, f), MoveExpr(rhs, f))
    case LoadMem(dst, address, bits) => LoadMem(MoveVar(dst, f), MoveExpr(address, f), bits)
    case StoreMem(address, value, bits) => StoreMem(MoveExpr(address, f), MoveExpr(value, f), bits)
    case Unsupported => s
    case Nop => s
  }

  function Move(ss: seq<Stmt>, f: Name -> Name): (r: seq<Stmt>)
    ensures |r| == |ss| && forall i :: 0 <= i < |ss| ==> r[i] == MoveStmt(ss[i], f)
  {
    if ss == [] then [] else Move(ss[..|ss| - 1], f) + [MoveStmt(ss[|ss| - 1], f)]
  }

  /** The renaming undoes itself, moves no name of the register tables and no flag, and
      touches only names a lifter writes. */
  ghost predicate Swaps(f: Name -> Name, arch: Arch) {
    && (forall x {:trigger f(x)} :: f(f(x)) == x && (IsSource(f(x)) <==> IsSource(x)) && (!IsSource(x) ==> f(x) == x))
    && (forall x {:trigger f(x)} :: x in COMPARABLE_FLAGS || x in arch.layouts ==> f(x) == x)
    && (forall x {:trigger arch.layouts[x]} :: x in arch.layouts ==> f(arch.layouts[x].parent) == arch.layouts[x].parent)
  }

  /** The same renaming of the versions of names. */
  function Lifted(f: Name -> Name): Name -> Name {
    (x: Name) => if x.Versioned? then Versioned(f(x.base), x.version) else f(x)
  }

  ghost predicate Injective(f: Name -> Name) {
    forall x, y {:trigger f(x), f(y)} :: f(x) == f(y) ==> x == y
  }

  lemma SwapsInjective(f: Name -> Name, arch: Arch)
    requires Swaps(f, arch)
    ensures Injective(f) && Injective(Lifted(f))
  {
    forall x, y | f(x) == f(y) ensures x == y { assert f(f(x)) == x && f(f(y)) == y; }
    var g := Lifted(f);
    forall x, y | g(x) == g(y) ensures x == y {
      assert !x.Versioned? ==> !f(x).Versioned?;
      assert !y.Versioned? ==> !f(y).Versioned?;
      if x.Versioned? && y.Versioned? { assert f(f(x.base)) == x.base && f(f(y.base)) == y.base; }
    }
  }

  lemma {:induction false} MoveExprBack(e: Expr, f: Name -> Name)
    requires forall x {:trigger f(x)} :: f(f(x)) == x
    ensures MoveExpr(MoveExpr(e, f), f) == e
    decreases e
  {
    match e
    case Ref(_) =>
    case Const(_, _) =>
    case FpConst(_, _, _) =>
    case Unknown(_) =>
    case Un(_, a) => MoveExprBack(a, f);
    case Bin(_, a, b) => MoveExprBack(a, f); MoveExprBack(b, f);
    case Ite(c, t, e') => MoveExprBack(c, f); MoveExprBack(t, f); MoveExprBack(e', f);
  }

  /** Moving twice is moving nothing. */
  lemma MoveBack(ss: seq<Stmt>, f: Name -> Name)
    requires forall x {:trigger f(x)} :: f(f(x)) == x
    ensures Move(Move(ss, f), f) == ss
  {
    hide Move, MoveStmt;
    forall i | 0 <= i < |ss| ensures Move(Move(ss, f), f)[i] == ss[i] { MoveStmtBack(ss[i], f); }
  }

  lemma MoveVarBack(v: Var, f: Name -> Name)
    requires f(f(v.name)) == v.name
    ensures MoveVar(MoveVar(v, f), f) == v
  {
  }

  lemma MoveStmtBack(s: Stmt, f: Name -> Name)
    requires forall x {:trigger f(x)} :: f(f(x)) == x
    ensures MoveStmt(MoveStmt(s, f), f) == s
  {
    hide MoveExpr, MoveVar;
    match s
    case Assign(dst, rhs) => MoveVarBack(dst, f); MoveExprBack(rhs, f);
    case LoadMem(dst, address, _) => MoveVarBack(dst, f); MoveExprBack(address, f);
    case StoreMem(address, value, _) => MoveExprBack(address, f); MoveExprBack(value, f);
    case Unsupported =>
    case Nop =>
  }

  lemma {:induction false} MoveSource(e: Expr, f: Name -> Name)
    requires SourceExpr(e) && forall x {:trigger f(x)} :: IsSource(f(x)) <==> IsSource(x)
    ensures SourceExpr(MoveExpr(e, f))
    decreases e
  {
    hide IsSource;
    match e
    case Ref(_) =>
    case Const(_, _) =>
    case FpConst(_, _, _) =>
    case Unknown(_) =>
    case Un(_, a) => MoveSource(a, f);
    case Bin(_, a, b) => MoveSource(a, f); MoveSource(b, f);
    case Ite(c, t, e') => MoveSource(c, f); MoveSource(t, f); MoveSource(e', f);
  }

  lemma MoveProgram(ss: seq<Stmt>, f: Name -> Name)
    requires SourceProgram(ss) && forall x {:trigger f(x)} :: IsSource(f(x)) <==> IsSource(x)
    ensures SourceProgram(Move(ss, f))
  {
    hide IsSource, SourceExpr;
    forall i | 0 <= i < |ss| ensures SourceStmt(Move(ss, f)[i]) {
      assert SourceStmt(ss[i]);
      match ss[i]
      case Assign(_, rhs) => MoveSource(rhs, f);
      case LoadMem(_, address, _) => MoveSource(address, f);
      case StoreMem(address, value, _) => MoveSource(address, f); MoveSource(value, f);
      case Unsupported =>
      case Nop =>
    }
  }

  lemma MovePrefix(ss: seq<Stmt>, f: Name -> Name)
    requires ss != []
    ensures Move(ss, f)[..|ss| - 1] == Move(ss[..|ss| - 1], f) && Move(ss, f)[|ss| - 1] == MoveStmt(ss[|ss| - 1], f)
  {
  }

  // ---- Running it ----

  /** `env'` holds under the new names what `env` holds under the old ones. */
  ghost predicate Through(f: Name -> Name, env: Env, env': Env) {
    forall x {:trigger Get(env, x)} {:trigger Get(env', f(x))} :: Get(env', f(x)) == Get(env, x)
  }

  lemma {:induction false} MoveKeepsValue(e: Expr, f: Name -> Name, env: Env, env': Env, sem: Sem, k: nat)
    requires Through(f, env, env')
    ensures Eval(MoveExpr(e, f), env', sem, k) == Eval(e, env, sem, k)
    ensures Count(MoveExpr(e, f)) == Count(e) && Width(MoveExpr(e, f)) == Width(e)
    decreases e
  {
    hide Eval, Count, Width, UnValue, BinValue, UnWidth, OpWidth, Pow2, Max;
    var out := MoveExpr(e, f);
    match e
    case Ref(v) => MovedRef(v, f, env, env', sem, k);
    case Const(_, _) => ConstantEverywhere(e, env, env', sem, k);
    case FpConst(_, _, _) => ConstantEverywhere(e, env, env', sem, k);
    case Unknown(_) => ConstantEverywhere(e, env, env', sem, k);
    case Un(op, a) =>
      UnParts(op, a, env, sem, k);
      UnParts(op, out.src, env', sem, k);
      MoveKeepsValue(a, f, env, env', sem, k);
    case Bin(op, a, b) =>
      BinParts(op, a, b, env, sem, k);
      BinParts(op, out.a, out.b, env', sem, k);
      MoveKeepsValue(a, f, env, env', sem, k);
      MoveKeepsValue(b, f, env, env', sem, k + Count(a));
    case Ite(c, t, e') =>
      IteParts(c, t, e', env, sem, k);
      IteParts(out.cond, out.thn, out.els, env', sem, k);
      MoveKeepsValue(c, f, env, env', sem, k);
      MoveKeepsValue(t, f, env, env', sem, k + Count(c));
      MoveKeepsValue(e', f, env, env', sem, k + Count(c) + Count(t));
  }

  lemma MovedRef(v: Var, f: Name -> Name, env: Env, env': Env, sem: Sem, k: nat)
    requires Through(f, env, env')
    ensures Eval(Ref(MoveVar(v, f)), env', sem, k) == Eval(Ref(v), env, sem, k)
    ensures Count(Ref(MoveVar(v, f))) == Count(Ref(v)) && Width(Ref(MoveVar(v, f))) == Width(Ref(v))
  {
    assert Get(env', f(v.name)) == Get(env, v.name);
  }

  lemma ThroughWrite(f: Name -> Name, env: Env, env': Env, x: Name, v: nat)
    requires Through(f, env, env') && Injective(f)
    ensures Through(f, env[x := v], env'[f(x) := v])
  {
    forall y ensures Get(env'[f(x) := v], f(y)) == Get(env[x := v], y) {
      assert Get(env', f(y)) == Get(env, y);
      assert f(x) == f(y) ==> x == y;
    }
  }

  ghost predicate Beside(f: Name -> Name, st: State, st': State) {
    Through(f, st.env, st'.env) && st.mem == st'.mem
  }

  lemma StepBeside(s: Stmt, f: Name -> Name, st: State, st': State, sem: Sem, k: nat)
    requires Beside(f, st, st') && Injective(f)
    ensures Beside(f, Step(s, st, sem, k), Step(MoveStmt(s, f), st', sem, k)) && CountStmt(MoveStmt(s, f)) == CountStmt(s)
  {
    hide Eval, Count, Cut, LoadValue, StoreValue, Through, Injective, MoveExpr;
    match s
    case Assign(dst, rhs) =>
      MoveKeepsValue(rhs, f, st.env, st'.env, sem, k);
      ThroughWrite(f, st.env, st'.env, dst.name, Cut(Eval(rhs, st.env, sem, k), dst.bits));
    case LoadMem(dst, address, bits) =>
      MoveKeepsValue(address, f, st.env, st'.env, sem, k);
      ThroughWrite(f, st.env, st'.env, dst.name,
        Cut(Cut(LoadValue(st.mem, Cut(Eval(address, st.env, sem, k), sem.ptr), ByteCount(bits), sem.ptr), bits), dst.bits));
    case StoreMem(address, value, bits) =>
      MoveKeepsValue(address, f, st.env, st'.env, sem, k);
      MoveKeepsValue(value, f, st.env, st'.env, sem, k + Count(address));
    case Unsupported =>
    case Nop =>
  }

  lemma {:induction false} ExecBeside(ss: seq<Stmt>, f: Name -> Name, st: State, st': State, sem: Sem, k: nat)
    requires Beside(f, st, st') && Injective(f)
    ensures Beside(f, Exec(ss, st, sem, k), Exec(Move(ss, f), st', sem, k)) && CountStmts(Move(ss, f)) == CountStmts(ss)
    decreases |ss|
  {
    hide Step, CountStmt, Beside, Injective, Move;
    if ss == [] {
      assert Move(ss, f) == [];
    } else {
      MovePrefix(ss, f);
      var p, s := ss[..|ss| - 1], ss[|ss| - 1];
      ExecBeside(p, f, st, st', sem, k);
      StepBeside(s, f, Exec(p, st, sem, k), Exec(Move(p, f), st', sem, k), sem, k + CountStmts(p));
    }
  }

  function MoveEnv(m: Env, f: Name -> Name): Env
    requires forall x {:trigger f(x)} :: f(f(x)) == x
  {
    map y | y in (set x | x in m :: f(x)) :: m[f(y)]
  }

  lemma MoveEnvThrough(m: Env, f: Name -> Name)
    requires forall x {:trigger f(x)} :: f(f(x)) == x
    ensures Through(f, m, MoveEnv(m, f))
  {
    var m' := MoveEnv(m, f);
    forall x ensures Get(m', f(x)) == Get(m, x) {
      assert f(x) in m' <==> x in m by {
        if f(x) in m' {
          var z :| z in m && f(z) == f(x);
          assert f(f(z)) == z && f(f(x)) == x;
        }
      }
    }
  }

  lemma StartThrough(f: Name -> Name, arch: Arch, m: Env)
    requires Swaps(f, arch)
    ensures Through(f, StartEnv(arch, m), StartEnv(arch, MoveEnv(m, f)))
  {
    hide Slice, Cut;
    var m' := MoveEnv(m, f);
    MoveEnvThrough(m, f);
    forall x ensures Get(StartEnv(arch, m'), f(x)) == Get(StartEnv(arch, m), x) {
      assert f(x) in arch.layouts <==> x in arch.layouts by { assert f(f(x)) == x; }
      assert Get(m', f(x)) == Get(m, x);
      if x in arch.layouts {
        var p := arch.layouts[x].parent;
        assert Get(m', f(p)) == Get(m, p);
      }
    }
  }

  /** The renamed side, from the renamed machine, runs beside the side itself. */
  lemma SideBeside(ss: seq<Stmt>, f: Name -> Name, arch: Arch, m: Env, m0: Mem, sem: Sem, k: nat)
    requires Swaps(f, arch)
    ensures Beside(f, SideRun(ss, arch, m, m0, sem, k), SideRun(Move(ss, f), arch, MoveEnv(m, f), m0, sem, k))
  {
    hide Exec, Swaps, StartEnv, Through, Injective;
    SwapsInjective(f, arch);
    assert forall x {:trigger f(x)} :: f(f(x)) == x by { SwapsBack(f, arch); }
    StartThrough(f, arch, m);
    ExecBeside(ss, f, State(StartEnv(arch, m), m0), State(StartEnv(arch, MoveEnv(m, f)), m0), sem, k);
  }

  lemma SwapsBack(f: Name -> Name, arch: Arch)
    requires Swaps(f, arch)
    ensures forall x {:trigger f(x)} :: f(f(x)) == x && (IsSource(f(x)) <==> IsSource(x))
    ensures forall x {:trigger f(x)} :: x in COMPARABLE_FLAGS || x in arch.layouts ==> f(x) == x
  {
    hide IsSource;
  }

  // ---- Its single-assignment form ----

  ghost predicate LatestMoved(f: Name -> Name, l: map<Name, nat>, l': map<Name, nat>) {
    forall x {:trigger x in l} {:trigger f(x) in l'} :: (x in l <==> f(x) in l') && (x in l ==> l'[f(x)] == l[x])
  }

  ghost predicate InputsMoved(f: Name -> Name, i: map<Name, Var>, i': map<Name, Var>) {
    forall x {:trigger x in i} {:trigger f(x) in i'} :: (x in i <==> f(x) in i') && (x in i ==> i'[f(x)] == MoveVar(i[x], f))
  }

  function MoveDefs(defs: seq<Var>, g: Name -> Name): (r: seq<Var>)
    ensures |r| == |defs| && forall i :: 0 <= i < |defs| ==> r[i] == MoveVar(defs[i], g)
  {
    if defs == [] then [] else MoveDefs(defs[..|defs| - 1], g) + [MoveVar(defs[|defs| - 1], g)]
  }

  ghost predicate SsaMoved(f: Name -> Name, s: Ssa, s': Ssa) {
    && LatestMoved(f, s.latest, s'.latest) && InputsMoved(f, s.inputs, s'.inputs)
    && s'.defs == MoveDefs(s.defs, Lifted(f)) && s'.statements == Move(s.statements, Lifted(f))
  }

  lemma {:induction false} ReadsMoved(e: Expr, f: Name -> Name, l: map<Name, nat>, l': map<Name, nat>)
    requires SourceExpr(e) && LatestMoved(f, l, l')
    ensures RenameReads(MoveExpr(e, f), l') == MoveExpr(RenameReads(e, l), Lifted(f))
    decreases e
  {
    hide LatestMoved;
    match e
    case Ref(v) => CurrentMoved(v.name, f, l, l');
    case Const(_, _) =>
    case FpConst(_, _, _) =>
    case Unknown(_) =>
    case Un(_, a) => ReadsMoved(a, f, l, l');
    case Bin(_, a, b) => ReadsMoved(a, f, l, l'); ReadsMoved(b, f, l, l');
    case Ite(c, t, e') => ReadsMoved(c, f, l, l'); ReadsMoved(t, f, l, l'); ReadsMoved(e', f, l, l');
  }

  lemma CurrentMoved(x: Name, f: Name -> Name, l: map<Name, nat>, l': map<Name, nat>)
    requires IsSource(x) && LatestMoved(f, l, l')
    ensures Current(l', f(x)) == Lifted(f)(Current(l, x))
  {
    assert x in l <==> f(x) in l';
  }

  lemma {:induction false} InputsStay(e: Expr, f: Name -> Name, l: map<Name, nat>, l': map<Name, nat>, i: map<Name, Var>, i': map<Name, Var>)
    requires LatestMoved(f, l, l') && InputsMoved(f, i, i') && Injective(f)
    ensures InputsMoved(f, AddInputs(e, l, i), AddInputs(MoveExpr(e, f), l', i'))
    decreases e
  {
    hide LatestMoved, InputsMoved, Injective;
    match e
    case Ref(v) => InputAdded(v, f, l, l', i, i');
    case Const(_, _) =>
    case FpConst(_, _, _) =>
    case Unknown(_) =>
    case Un(_, a) => InputsStay(a, f, l, l', i, i');
    case Bin(_, a, b) =>
      InputsStay(a, f, l, l', i, i');
      InputsStay(b, f, l, l', AddInputs(a, l, i), AddInputs(MoveExpr(a, f), l', i'));
    case Ite(c, t, e') =>
      InputsStay(c, f, l, l', i, i');
      var j, j' := AddInputs(c, l, i), AddInputs(MoveExpr(c, f), l', i');
      InputsStay(t, f, l, l', j, j');
      InputsStay(e', f, l, l', AddInputs(t, l, j), AddInputs(MoveExpr(t, f), l', j'));
  }

  lemma InputAdded(v: Var, f: Name -> Name, l: map<Name, nat>, l': map<Name, nat>, i: map<Name, Var>, i': map<Name, Var>)
    requires LatestMoved(f, l, l') && InputsMoved(f, i, i') && Injective(f)
    ensures InputsMoved(f, AddInputs(Ref(v), l, i), AddInputs(Ref(MoveVar(v, f)), l', i'))
  {
    var x := v.name;
    assert (x in l <==> f(x) in l') && (x in i <==> f(x) in i');
    var j, j' := AddInputs(Ref(v), l, i), AddInputs(Ref(MoveVar(v, f)), l', i');
    forall y ensures (y in j <==> f(y) in j') && (y in j ==> j'[f(y)] == MoveVar(j[y], f)) {
      assert y in i <==> f(y) in i';
      assert f(x) == f(y) ==> x == y;
    }
  }

  lemma LatestBumped(f: Name -> Name, l: map<Name, nat>, l': map<Name, nat>, x: Name)
    requires LatestMoved(f, l, l') && Injective(f)
    ensures NextVersion(l', f(x)) == NextVersion(l, x)
    ensures LatestMoved(f, l[x := NextVersion(l, x)], l'[f(x) := NextVersion(l', f(x))])
  {
    assert x in l <==> f(x) in l';
    var m, m' := l[x := NextVersion(l, x)], l'[f(x) := NextVersion(l', f(x))];
    forall y ensures (y in m <==> f(y) in m') && (y in m ==> m'[f(y)] == m[y]) {
      assert y in l <==> f(y) in l';
      assert f(x) == f(y) ==> x == y;
    }
  }

  lemma DefsSnoc(defs: seq<Var>, d: Var, g: Name -> Name)
    ensures MoveDefs(defs + [d], g) == MoveDefs(defs, g) + [MoveVar(d, g)]
  {
  }

  lemma MoveSnoc(ss: seq<Stmt>, s: Stmt, g: Name -> Name)
    ensures Move(ss + [s], g) == Move(ss, g) + [MoveStmt(s, g)]
  {
  }

  /** The statement a step emits, renamed. */
  lemma RenamedMoved(x: Stmt, f: Name -> Name, s: Ssa, s': Ssa)
    requires SourceStmt(x) && LatestMoved(f, s.latest, s'.latest) && Injective(f)
    ensures Renamed(s', MoveStmt(x, f)) == MoveStmt(Renamed(s, x), Lifted(f))
    ensures x.Assign? || x.LoadMem? ==> Bumped(s', MoveVar(x.dst, f)) == MoveVar(Bumped(s, x.dst), Lifted(f))
  {
    hide LatestMoved, Injective, SourceExpr, RenameReads, MoveExpr;
    match x
    case Assign(dst, rhs) =>
      ReadsMoved(rhs, f, s.latest, s'.latest);
      LatestBumped(f, s.latest, s'.latest, dst.name);
    case LoadMem(dst, address, _) =>
      ReadsMoved(address, f, s.latest, s'.latest);
      LatestBumped(f, s.latest, s'.latest, dst.name);
    case StoreMem(address, value, _) =>
      ReadsMoved(address, f, s.latest, s'.latest);
      ReadsMoved(value, f, s.latest, s'.latest);
    case Unsupported =>
    case Nop =>
  }

  lemma StepMoved(x: Stmt, f: Name -> Name, s: Ssa, s': Ssa)
    requires SourceStmt(x) && SsaMoved(f, s, s') && Injective(f)
    ensures SsaMoved(f, SsaStep(s, x), SsaStep(s', MoveStmt(x, f)))
  {
    RenamedMoved(x, f, s, s');
    MoveSnoc(s.statements, Renamed(s, x), Lifted(f));
    hide LatestMoved, InputsMoved, Injective, SourceExpr, Renamed, AddInputs, MoveExpr, Move, MoveDefs, Lifted;
    match x
    case Assign(dst, rhs) =>
      LatestBumped(f, s.latest, s'.latest, dst.name);
      InputsStay(rhs, f, s.latest, s'.latest, s.inputs, s'.inputs);
      DefsSnoc(s.defs, Bumped(s, dst), Lifted(f));
    case LoadMem(dst, address, _) =>
      LatestBumped(f, s.latest, s'.latest, dst.name);
      InputsStay(address, f, s.latest, s'.latest, s.inputs, s'.inputs);
      DefsSnoc(s.defs, Bumped(s, dst), Lifted(f));
    case StoreMem(address, value, _) =>
      InputsStay(address, f, s.latest, s'.latest, s.inputs, s'.inputs);
      InputsStay(value, f, s.latest, s'.latest, AddInputs(address, s.latest, s.inputs), AddInputs(MoveExpr(address, f), s'.latest, s'.inputs));
    case Unsupported =>
    case Nop =>
  }

  lemma {:induction false} ConvertMoved(ss: seq<Stmt>, f: Name -> Name)
    requires SourceProgram(ss) && Injective(f)
    ensures SsaMoved(f, Convert(ss), Convert(Move(ss, f)))
    decreases |ss|
  {
    hide SsaStep, SsaMoved, Injective, Move, SourceStmt;
    if ss == [] {
      NothingMoved(f);
    } else {
      MovePrefix(ss, f);
      var p, x := ss[..|ss| - 1], ss[|ss| - 1];
      ConvertMoved(p, f);
      StepMoved(x, f, Convert(p), Convert(Move(p, f)));
    }
  }

  lemma NothingMoved(f: Name -> Name)
    ensures SsaMoved(f, Convert([]), Convert(Move([], f)))
  {
  }

  // ---- Its taint ----

  ghost predicate SetMoved(g: Name -> Name, t: set<Name>, t': set<Name>) {
    forall x {:trigger x in t} {:trigger g(x) in t'} :: x in t <==> g(x) in t'
  }

  lemma {:induction false} TaintOfMoved(e: Expr, g: Name -> Name, t: set<Name>, t': set<Name>, depth: nat)
    requires SetMoved(g, t, t')
    ensures ExprIsTainted(MoveExpr(e, g), t', depth) == ExprIsTainted(e, t, depth)
    decreases e
  {
    hide SetMoved;
    match e
    case Ref(v) => assert v.name in t <==> g(v.name) in t' by { InMoved(g, t, t', v.name); }
    case Const(_, _) =>
    case FpConst(_, _, _) =>
    case Unknown(_) =>
    case Un(_, a) => TaintOfMoved(a, g, t, t', depth + 1);
    case Bin(_, a, b) => TaintOfMoved(a, g, t, t', depth + 1); TaintOfMoved(b, g, t, t', depth + 1);
    case Ite(c, x, y) => TaintOfMoved(c, g, t, t', depth + 1); TaintOfMoved(x, g, t, t', depth + 1); TaintOfMoved(y, g, t, t', depth + 1);
  }

  lemma InMoved(g: Name -> Name, t: set<Name>, t': set<Name>, x: Name)
    requires SetMoved(g, t, t')
    ensures x in t <==> g(x) in t'
  {
  }

  /** Both taints are there, or neither is; they mark the same names and latch together. */
  ghost predicate TaintMoved(g: Name -> Name, t: Option<Taint>, t': Option<Taint>) {
    (t.Some? <==> t'.Some?) && (t.Some? ==> SetMoved(g, t.value.defs, t'.value.defs) && t.value.memory == t'.value.memory)
  }

  lemma SetMore(g: Name -> Name, t: set<Name>, t': set<Name>, x: Name)
    requires SetMoved(g, t, t') && Injective(g)
    ensures SetMoved(g, t + {x}, t' + {g(x)})
  {
    forall y ensures y in t + {x} <==> g(y) in t' + {g(x)} {
      assert y in t <==> g(y) in t';
      assert g(x) == g(y) ==> x == y;
    }
  }

  lemma TaintStepMoved(s: Stmt, g: Name -> Name, t: Taint, t': Taint)
    requires SetMoved(g, t.defs, t'.defs) && t.memory == t'.memory && Injective(g)
    ensures TaintMoved(g, TaintStep(s, t), TaintStep(MoveStmt(s, g), t'))
  {
    hide SetMoved, Injective, MoveExpr, ExprIsTainted;
    match s
    case Assign(dst, rhs) => TaintOfMoved(rhs, g, t.defs, t'.defs, 0); SetMore(g, t.defs, t'.defs, dst.name);
    case LoadMem(dst, address, _) => TaintOfMoved(address, g, t.defs, t'.defs, 0); SetMore(g, t.defs, t'.defs, dst.name);
    case StoreMem(address, value, _) => TaintOfMoved(address, g, t.defs, t'.defs, 0); TaintOfMoved(value, g, t.defs, t'.defs, 0);
    case Unsupported =>
    case Nop =>
  }

  lemma {:induction false} TaintedMoved(ss: seq<Stmt>, g: Name -> Name)
    requires Injective(g)
    ensures TaintMoved(g, TaintedDefs(ss), TaintedDefs(Move(ss, g)))
    decreases |ss|
  {
    hide TaintStep, Injective, Move, SetMoved;
    if ss == [] {
      NoTaintMoved(g);
    } else {
      MovePrefix(ss, g);
      var p, s := ss[..|ss| - 1], ss[|ss| - 1];
      TaintedMoved(p, g);
      if TaintedDefs(p).Some? { TaintStepMoved(s, g, TaintedDefs(p).value, TaintedDefs(Move(p, g)).value); }
    }
  }

  lemma NoTaintMoved(g: Name -> Name)
    ensures TaintMoved(g, TaintedDefs([]), TaintedDefs(Move([], g)))
  {
  }

  // ---- Its final definitions ----

  ghost predicate FinalsMoved(f: Name -> Name, d: map<Name, Var>, d': map<Name, Var>) {
    forall x {:trigger x in d} {:trigger f(x) in d'} :: (x in d <==> f(x) in d') && (x in d ==> d'[f(x)] == MoveVar(d[x], Lifted(f)))
  }

  lemma {:induction false} FinalsOfMoved(defs: seq<Var>, f: Name -> Name)
    requires Injective(f) && forall x {:trigger f(x)} :: f(x).Versioned? <==> x.Versioned?
    ensures FinalsMoved(f, FinalDefs(defs), FinalDefs(MoveDefs(defs, Lifted(f))))
    decreases |defs|
  {
    hide FinalDefs, MoveDefs, MoveVar, Lifted, FinalsMoved, Injective;
    if defs == [] {
      NoFinalsMoved(f);
    } else {
      var p, d := defs[..|defs| - 1], defs[|defs| - 1];
      FinalsOfMoved(p, f);
      FinalsStep(p, d, f);
      FinalDefsSnoc(p, d);
      FinalDefsSnoc(MoveDefs(p, Lifted(f)), MoveVar(d, Lifted(f)));
      DefsSnoc(p, d, Lifted(f));
      assert p + [d] == defs;
    }
  }

  lemma NoFinalsMoved(f: Name -> Name)
    ensures FinalsMoved(f, FinalDefs([]), FinalDefs(MoveDefs([], Lifted(f))))
  {
  }

  lemma FinalsStep(p: seq<Var>, d: Var, f: Name -> Name)
    requires Injective(f) && FinalsMoved(f, FinalDefs(p), FinalDefs(MoveDefs(p, Lifted(f)))) && (f(d.name).Versioned? <==> d.name.Versioned?)
    ensures
      var x, y, e := FinalDefs(p), FinalDefs(MoveDefs(p, Lifted(f))), MoveVar(d, Lifted(f));
      (e.name.Versioned? <==> d.name.Versioned?)
      && FinalsMoved(f, if d.name.Versioned? then x[d.name.base := d] else x, if d.name.Versioned? then y[e.name.base := e] else y)
  {
    hide FinalDefs, MoveDefs;
    if d.name.Versioned? {
      var x, y, e, b := FinalDefs(p), FinalDefs(MoveDefs(p, Lifted(f))), MoveVar(d, Lifted(f)), d.name.base;
      assert e.name.base == f(b);
      forall z ensures (z in x[b := d] <==> f(z) in y[f(b) := e]) && (z in x[b := d] ==> y[f(b) := e][f(z)] == MoveVar(x[b := d][z], Lifted(f))) {
        assert z in x <==> f(z) in y;
        assert f(b) == f(z) ==> b == z;
      }
    }
  }

  // ---- What it is compared on ----

  /** Everything of a lowering the comparison looks at, before and after the renaming. */
  ghost predicate Twins(f: Name -> Name, s: Ssa, s': Ssa) {
    && SsaMoved(f, s, s') && FinalsMoved(f, FinalDefs(s.defs), FinalDefs(s'.defs))
    && TaintMoved(Lifted(f), TaintedDefs(s.statements), TaintedDefs(s'.statements))
  }

  lemma SideTwins(ss: seq<Stmt>, f: Name -> Name, arch: Arch)
    requires Swaps(f, arch) && SourceProgram(ss)
    ensures Twins(f, Convert(ss), Convert(Move(ss, f)))
  {
    hide SourceProgram, Move, MoveDefs, FinalDefs, TaintedDefs, FinalsMoved, TaintMoved, LatestMoved, InputsMoved, Injective;
    SwapsInjective(f, arch);
    ConvertMoved(ss, f);
    var s := Convert(ss);
    TaintedMoved(s.statements, Lifted(f));
    assert forall x {:trigger f(x)} :: f(x).Versioned? <==> x.Versioned?;
    FinalsOfMoved(s.defs, f);
  }

  /** A register or flag has the same final definition, tainted or not. */
  lemma FinalStays(ss: seq<Stmt>, f: Name -> Name, arch: Arch, x: Name)
    requires Swaps(f, arch) && SourceProgram(ss) && (x in COMPARABLE_FLAGS || x in arch.layouts)
    ensures
      var s, s' := Convert(ss), Convert(Move(ss, f));
      var d, d', t, t' := FinalDefs(s.defs), FinalDefs(s'.defs), TaintedDefs(s.statements), TaintedDefs(s'.statements);
      (x in d <==> x in d') && (x in d ==> d'[x] == d[x])
      && (t.Some? <==> t'.Some?) && (x in d && t.Some? ==> (d[x].name in t.value.defs <==> d[x].name in t'.value.defs))
  {
    hide SourceProgram, Convert, FinalDefs, TaintedDefs, SsaMoved;
    SideTwins(ss, f, arch);
    FinalDefsAreLatest(ss);
    var s, s' := Convert(ss), Convert(Move(ss, f));
    var d := FinalDefs(s.defs);
    assert f(x) == x;
    assert x in d <==> f(x) in FinalDefs(s'.defs);
    if x in d { assert Lifted(f)(d[x].name) == d[x].name; }
  }

  ghost predicate SameSelection(arch: Arch, d: map<Name, Var>, t: set<Name>, d': map<Name, Var>, t': set<Name>) {
    forall x {:trigger x in d'} {:trigger x in d} :: x in COMPARABLE_FLAGS || x in arch.layouts ==>
      (x in d <==> x in d') && (x in d ==> d'[x] == d[x] && (d[x].name in t <==> d[x].name in t'))
  }

  lemma EligibleStays(arch: Arch, d: map<Name, Var>, t: set<Name>, d': map<Name, Var>, t': set<Name>, x: Name)
    requires SameSelection(arch, d, t, d', t')
    ensures Eligible(arch, d', t', x) <==> Eligible(arch, d, t, x)
  {
  }

  lemma SpeaksStays(arch: Arch, d: map<Name, Var>, t: set<Name>, d': map<Name, Var>, t': set<Name>, side: Side, x: Name)
    requires SameSelection(arch, d, t, d', t')
    ensures x in d' && Speaks(arch, d', t', side, x) <==> x in d && Speaks(arch, d, t, side, x)
    ensures x in d && Speaks(arch, d, t, side, x) ==> FinalExpr(arch, d', side, x) == FinalExpr(arch, d, side, x)
  {
    EligibleStays(arch, d, t, d', t', x);
    EligibleHere(arch, d, t, x);
    EligibleHere(arch, d', t', x);
    forall y ensures Rival(arch, d', t', x, y) <==> Rival(arch, d, t, x, y) {
      EligibleStays(arch, d, t, d', t', y);
    }
    forall y ensures Rival(arch, d, t, x, y) ==> y in d { EligibleHere(arch, d, t, y); }
    forall y ensures Rival(arch, d', t', x, y) ==> y in d' { EligibleHere(arch, d', t', y); }
    hide Eligible, Rival, ParentSpaceValue;
  }

  lemma EligibleHere(arch: Arch, d: map<Name, Var>, t: set<Name>, x: Name)
    ensures Eligible(arch, d, t, x) ==> x in d && (x in COMPARABLE_FLAGS || x in arch.layouts)
  {
  }

  lemma SelectionStays(ss: seq<Stmt>, f: Name -> Name, arch: Arch)
    requires Swaps(f, arch) && SourceProgram(ss) && TaintedDefs(Convert(ss).statements).Some?
    ensures TaintedDefs(Convert(Move(ss, f)).statements).Some?
    ensures
      var s, s' := Convert(ss), Convert(Move(ss, f));
      SameSelection(arch, FinalDefs(s.defs), TaintedDefs(s.statements).value.defs, FinalDefs(s'.defs), TaintedDefs(s'.statements).value.defs)
      && TaintedDefs(s'.statements).value.memory == TaintedDefs(s.statements).value.memory
  {
    hide SourceProgram, Convert, FinalDefs, TaintedDefs, SsaMoved, FinalsMoved, SetMoved, Swaps, Move;
    SideTwins(ss, f, arch);
    forall x | x in COMPARABLE_FLAGS || x in arch.layouts
      ensures
        var s, s' := Convert(ss), Convert(Move(ss, f));
        var d, d', t, t' := FinalDefs(s.defs), FinalDefs(s'.defs), TaintedDefs(s.statements).value.defs, TaintedDefs(s'.statements).value.defs;
        (x in d <==> x in d') && (x in d ==> d'[x] == d[x] && (d[x].name in t <==> d[x].name in t'))
    {
      FinalStays(ss, f, arch, x);
    }
  }

  /** The two sides are compared on the same registers and flags. */
  lemma ComparedStays(ss: seq<Stmt>, f: Name -> Name, arch: Arch, side: Side, x: Name)
    requires Swaps(f, arch) && SourceProgram(ss) && TaintedDefs(Convert(ss).statements).Some?
    ensures ComparedOn(Move(ss, f), side, arch, x) <==> ComparedOn(ss, side, arch, x)
    ensures ComparedOn(ss, side, arch, x) ==> x in COMPARABLE_FLAGS || x in arch.layouts
  {
    hide SourceProgram, Convert, FinalDefs, TaintedDefs, Swaps, Move, SameSelection, Eligible;
    SelectionStays(ss, f, arch);
    var s, s' := Convert(ss), Convert(Move(ss, f));
    SpeaksStays(arch, FinalDefs(s.defs), TaintedDefs(s.statements).value.defs, FinalDefs(s'.defs), TaintedDefs(s'.statements).value.defs, side, x);
    EligibleHere(arch, FinalDefs(s.defs), TaintedDefs(s.statements).value.defs, x);
    hide Speaks;
  }

  /** The same expressions are what the sides say at the end. */
  lemma IsFinalsStays(ss: seq<Stmt>, f: Name -> Name, arch: Arch, side: Side, out: map<Name, Expr>)
    requires Swaps(f, arch) && SourceProgram(ss) && TaintedDefs(Convert(ss).statements).Some?
    requires IsFinals(arch, FinalDefs(Convert(ss).defs), TaintedDefs(Convert(ss).statements).value.defs, side, out)
    ensures TaintedDefs(Convert(Move(ss, f)).statements).Some?
    ensures IsFinals(arch, FinalDefs(Convert(Move(ss, f)).defs), TaintedDefs(Convert(Move(ss, f)).statements).value.defs, side, out)
  {
    hide SourceProgram, Convert, FinalDefs, TaintedDefs, Swaps, Move, SameSelection, Speaks, FinalExpr, KeyOf;
    SelectionStays(ss, f, arch);
    var s, s' := Convert(ss), Convert(Move(ss, f));
    FinalsTransfer(arch, FinalDefs(s.defs), TaintedDefs(s.statements).value.defs, FinalDefs(s'.defs), TaintedDefs(s'.statements).value.defs, side, out);
  }

  lemma FinalsTransfer(arch: Arch, d: map<Name, Var>, t: set<Name>, d': map<Name, Var>, t': set<Name>, side: Side, out: map<Name, Expr>)
    requires SameSelection(arch, d, t, d', t') && IsFinals(arch, d, t, side, out)
    ensures IsFinals(arch, d', t', side, out)
  {
    hide SameSelection, Speaks, FinalExpr, KeyOf;
    forall x ensures x in d' && Speaks(arch, d', t', side, x) <==> x in d && Speaks(arch, d, t, side, x) { SpeaksStays(arch, d, t, d', t', side, x); }
    forall x | x in d' && Speaks(arch, d', t', side, x)
      ensures FinalExpr(arch, d', side, x).Some? && KeyOf(arch, x) in out && out[KeyOf(arch, x)] == FinalExpr(arch, d', side, x).value
    {
      SpeaksStays(arch, d, t, d', t', side, x);
      SpeaksHas(arch, d', t', side, x);
    }
    forall key {:trigger key in out} | key in out
      ensures exists x {:trigger KeyOf(arch, x)} :: x in d' && Speaks(arch, d', t', side, x) && KeyOf(arch, x) == key
    {
      var x :| x in d && Speaks(arch, d, t, side, x) && KeyOf(arch, x) == key;
    }
  }

  lemma SpeaksHas(arch: Arch, d: map<Name, Var>, t: set<Name>, side: Side, x: Name)
    requires x in d && Speaks(arch, d, t, side, x)
    ensures FinalExpr(arch, d, side, x).Some?
  {
    hide FinalExpr, Eligible, Rival;
  }

  // ---- Whether its memory is compared ----

  lemma SimdStays(ss: seq<Stmt>, f: Name -> Name, arch: Arch)
    requires Swaps(f, arch) && SourceProgram(ss)
    ensures LacksSimdModel(Convert(Move(ss, f)), arch) <==> LacksSimdModel(Convert(ss), arch)
  {
    hide SourceProgram, Convert, FinalsMoved, TaintMoved, LatestMoved, Move;
    SideTwins(ss, f, arch);
    var s, s' := Convert(ss), Convert(Move(ss, f));
    forall x | x in arch.layouts ensures (x in s.inputs <==> x in s'.inputs) && (x in s.inputs ==> s.inputs[x].bits == s'.inputs[x].bits) {
      assert f(x) == x && (x in s.inputs <==> f(x) in s'.inputs);
    }
    if exists d :: d in s.defs && d.name.Versioned? && Mismatched(arch, d.name.base, d.bits) {
      var d :| d in s.defs && d.name.Versioned? && Mismatched(arch, d.name.base, d.bits);
      DefStays(d, s.defs, s'.defs, f, arch);
    }
    if exists d :: d in s'.defs && d.name.Versioned? && Mismatched(arch, d.name.base, d.bits) {
      var d :| d in s'.defs && d.name.Versioned? && Mismatched(arch, d.name.base, d.bits);
      DefCame(d, s.defs, s'.defs, f, arch);
    }
  }

  lemma DefStays(d: Var, defs: seq<Var>, defs': seq<Var>, f: Name -> Name, arch: Arch)
    requires Swaps(f, arch) && defs' == MoveDefs(defs, Lifted(f)) && d in defs && d.name.Versioned? && d.name.base in arch.layouts
    ensures d in defs'
  {
    hide IsSource;
    var i :| 0 <= i < |defs| && defs[i] == d;
    assert f(d.name.base) == d.name.base;
    assert defs'[i] == d;
  }

  lemma DefCame(d: Var, defs: seq<Var>, defs': seq<Var>, f: Name -> Name, arch: Arch)
    requires Swaps(f, arch) && defs' == MoveDefs(defs, Lifted(f)) && d in defs' && d.name.Versioned? && d.name.base in arch.layouts
    ensures d in defs
  {
    var i :| 0 <= i < |defs'| && defs'[i] == d;
    var e := defs[i];
    assert d == MoveVar(e, Lifted(f));
    assert !e.name.Versioned? ==> !f(e.name).Versioned?;
    assert f(f(e.name.base)) == e.name.base && f(d.name.base) == d.name.base;
    assert e == d;
  }

  lemma WritesStay(ss: seq<Stmt>, f: Name -> Name)
    ensures Writes(Move(ss, f)) <==> Writes(ss)
  {
    if Writes(ss) {
      var i :| 0 <= i < |ss| && ss[i].StoreMem? && ss[i].bits != 0;
      assert Move(ss, f)[i].StoreMem? && Move(ss, f)[i].bits != 0;
    }
  }

  lemma MemoryStays(a: seq<Stmt>, b: seq<Stmt>, f: Name -> Name, arch: Arch)
    requires Swaps(f, arch) && SourceProgram(a) && SourceProgram(b)
    requires TaintedDefs(Convert(a).statements).Some? && TaintedDefs(Convert(b).statements).Some?
    ensures MemoryCompared(Move(a, f), Move(b, f), arch) <==> MemoryCompared(a, b, arch)
    ensures
      var sa, sb, ua, ub := Convert(a), Convert(b), Convert(Move(a, f)), Convert(Move(b, f));
      TaintedDefs(ua.statements).Some? && TaintedDefs(ub.statements).Some?
      && (MemoryEnabled(ua, ub, TaintedDefs(ua.statements).value, TaintedDefs(ub.statements).value, arch)
        <==> MemoryEnabled(sa, sb, TaintedDefs(sa.statements).value, TaintedDefs(sb.statements).value, arch))
  {
    hide SourceProgram, Convert, TaintedDefs, Move, LacksSimdModel, Writes, Swaps, SameSelection, FinalDefs;
    SelectionStays(a, f, arch);
    SelectionStays(b, f, arch);
    SimdStays(a, f, arch);
    SimdStays(b, f, arch);
    WritesStay(a, f);
    WritesStay(b, f);
  }

  // ---- The difference ----

  lemma KeyValueStays(f: Name -> Name, arch: Arch, m: Env, x: Name, v: nat)
    requires Swaps(f, arch)
    ensures KeyValue(arch, MoveEnv(m, f), x, v) == KeyValue(arch, m, x, v)
  {
    hide RegisterAfter, IsSource;
    MoveEnvThrough(m, f);
    if x in arch.layouts {
      var p := arch.layouts[x].parent;
      assert f(p) == p && Get(MoveEnv(m, f), f(p)) == Get(m, p);
    }
  }

  lemma GetStays(f: Name -> Name, arch: Arch, env: Env, env': Env, x: Name)
    requires Swaps(f, arch) && Through(f, env, env') && (x in COMPARABLE_FLAGS || x in arch.layouts)
    ensures Get(env', x) == Get(env, x)
  {
    assert f(x) == x && Get(env', f(x)) == Get(env, x);
  }

  /** Lowerings that can differ still can under the new names. */
  lemma DifferMoved(a: seq<Stmt>, b: seq<Stmt>, f: Name -> Name, arch: Arch, m: Env, m0: Mem, fp: FpModel, pa: seq<nat>, pb: seq<nat>)
    requires Swaps(f, arch) && SourceProgram(a) && SourceProgram(b)
    requires TaintedDefs(Convert(a).statements).Some? && TaintedDefs(Convert(b).statements).Some?
    requires DifferFrom(a, b, arch, m, m0, fp, pa, pb)
    ensures DifferFrom(Move(a, f), Move(b, f), arch, MoveEnv(m, f), m0, fp, pa, pb)
  {
    hide SourceProgram, Convert, TaintedDefs, Move, Swaps, ComparedOn, KeyOf, KeyValue, SideRun, MemoryCompared, MemoriesDiffer, Through, MoveEnv;
    SwapsBack(f, arch);
    var p, q, m' := Sem(pa, fp, arch.ptr), Sem(pb, fp, arch.ptr), MoveEnv(m, f);
    var sa, sb, ua, ub := SideRun(a, arch, m, m0, p, 0), SideRun(b, arch, m, m0, q, 0), SideRun(Move(a, f), arch, m', m0, p, 0), SideRun(Move(b, f), arch, m', m0, q, 0);
    SideBeside(a, f, arch, m, m0, p, 0);
    SideBeside(b, f, arch, m, m0, q, 0);
    MemoryStays(a, b, f, arch);
    if FinalsDiffer(a, b, arch, m, sa, sb) {
      var x, y :| ComparedOn(a, SideA, arch, x) && ComparedOn(b, SideB, arch, y) && KeyOf(arch, x) == KeyOf(arch, y)
        && KeyValue(arch, m, x, Get(sa.env, x)) != KeyValue(arch, m, y, Get(sb.env, y));
      ComparedStays(a, f, arch, SideA, x);
      ComparedStays(b, f, arch, SideB, y);
      GetStays(f, arch, sa.env, ua.env, x);
      GetStays(f, arch, sb.env, ub.env, y);
      KeyValueStays(f, arch, m, x, Get(sa.env, x));
      KeyValueStays(f, arch, m, y, Get(sb.env, y));
      assert FinalsDiffer(Move(a, f), Move(b, f), arch, m', ua, ub);
    }
  }
}
