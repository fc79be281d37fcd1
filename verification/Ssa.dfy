/** Single-pass SSA renaming of one lowering: every definition gets a fresh
    version, every read follows the latest one, and nothing changes meaning. */
module Ssa {
  import opened Bits
  import opened Ir

  /** Names a lifter writes, as opposed to the ones later passes make up. */
  predicate IsSource(x: Name) {
    !x.Versioned? && !x.Sided? && !x.Minted?
  }

  predicate SourceExpr(e: Expr) {
    match e
    case Ref(v) => IsSource(v.name) && v.bits > 0
    case Const(_, _) => true
    case FpConst(_, _, _) => true
    case Unknown(_) => true
    case Un(_, a) => SourceExpr(a)
    case Bin(_, a, b) => SourceExpr(a) && SourceExpr(b)
    case Ite(c, t, f) => SourceExpr(c) && SourceExpr(t) && SourceExpr(f)
  }

  predicate SourceStmt(s: Stmt) {
    match s
    case Assign(dst, rhs) => IsSource(dst.name) && SourceExpr(rhs)
    case LoadMem(dst, address, bits) => IsSource(dst.name) && SourceExpr(address) && bits != 0
    case StoreMem(address, value, _) => SourceExpr(address) && SourceExpr(value)
    case Unsupported => true
    case Nop => true
  }

  /** What a lifter emits: source names only, no zero-width read and no zero-width load. */
  predicate SourceProgram(ss: seq<Stmt>) {
    forall i :: 0 <= i < |ss| ==> SourceStmt(ss[i])
  }

  // ---- The conversion ----

  /** The state of the pass: latest version per name, free inputs at the width
      first read, definitions in order, and the statements emitted. */
  datatype Ssa = Ssa(latest: map<Name, nat>, inputs: map<Name, Var>, defs: seq<Var>, statements: seq<Stmt>)

  const EMPTY := Ssa(map[], map[], [], [])

  /** The name a read of `x` refers to. */
  function Current(latest: map<Name, nat>, x: Name): Name {
    if x in latest then Versioned(x, latest[x]) else x
  }

  function NextVersion(latest: map<Name, nat>, x: Name): nat {
    if x in latest then latest[x] + 1 else 0
  }

  function RenameReads(e: Expr, latest: map<Name, nat>): Expr {
    match e
    case Ref(v) => Ref(Var(Current(latest, v.name), v.bits))
    case Const(_, _) => e
    case FpConst(_, _, _) => e
    case Unknown(_) => e
    case Un(op, a) => Un(op, RenameReads(a, latest))
    case Bin(op, a, b) => Bin(op, RenameReads(a, latest), RenameReads(b, latest))
    case Ite(c, t, f) => Ite(RenameReads(c, latest), RenameReads(t, latest), RenameReads(f, latest))
  }

  /** Variables read before any definition join the inputs, first width first. */
  function AddInputs(e: Expr, latest: map<Name, nat>, inputs: map<Name, Var>): map<Name, Var> {
    match e
    case Ref(v) => if v.name in latest || v.name in inputs then inputs else inputs[v.name := v]
    case Const(_, _) => inputs
    case FpConst(_, _, _) => inputs
    case Unknown(_) => inputs
    case Un(_, a) => AddInputs(a, latest, inputs)
    case Bin(_, a, b) => AddInputs(b, latest, AddInputs(a, latest, inputs))
    case Ite(c, t, f) => AddInputs(f, latest, AddInputs(t, latest, AddInputs(c, latest, inputs)))
  }

  function Bumped(s: Ssa, x: Var): Var {
    Var(Versioned(x.name, NextVersion(s.latest, x.name)), x.bits)
  }

  /** Record a definition of `x` made by statement `out`. */
  function Define(s: Ssa, x: Var, inputs: map<Name, Var>, out: Stmt): Ssa {
    Ssa(s.latest[x.name := NextVersion(s.latest, x.name)], inputs, s.defs + [Bumped(s, x)], s.statements + [out])
  }

  /** The statement a source statement becomes. */
  function Renamed(s: Ssa, x: Stmt): Stmt {
    match x
    case Assign(dst, rhs) => Assign(Bumped(s, dst), RenameReads(rhs, s.latest))
    case LoadMem(dst, address, bits) => LoadMem(Bumped(s, dst), RenameReads(address, s.latest), bits)
    case StoreMem(address, value, bits) => StoreMem(RenameReads(address, s.latest), RenameReads(value, s.latest), bits)
    case Unsupported => x
    case Nop => x
  }

  function SsaStep(s: Ssa, x: Stmt): Ssa {
    match x
    case Assign(dst, rhs) => Define(s, dst, AddInputs(rhs, s.latest, s.inputs), Renamed(s, x))
    case LoadMem(dst, address, _) => Define(s, dst, AddInputs(address, s.latest, s.inputs), Renamed(s, x))
    case StoreMem(address, value, _) =>
      s.(inputs := AddInputs(value, s.latest, AddInputs(address, s.latest, s.inputs)),
         statements := s.statements + [Renamed(s, x)])
    case Unsupported => s.(statements := s.statements + [Renamed(s, x)])
    case Nop => s.(statements := s.statements + [Renamed(s, x)])
  }

  function Convert(ss: seq<Stmt>): Ssa {
    if ss == [] then EMPTY else SsaStep(Convert(ss[..|ss| - 1]), ss[|ss| - 1])
  }

  /** The pass itself, over mutable tables. */
  method SsaConvert(ss: seq<Stmt>) returns (r: Ssa)
    ensures r == Convert(ss)
  {
    hide SsaStep;
    r := EMPTY;
    for i := 0 to |ss|
      invariant r == Convert(ss[..i])
    {
      assert ss[..i + 1][..i] == ss[..i];
      r := SsaStep(r, ss[i]);
    }
    assert ss[..|ss|] == ss;
  }

  // ---- Renaming keeps the meaning ----

  /** Each source name holds what its current version holds. */
  ghost predicate Tracks(latest: map<Name, nat>, env: Env, env': Env) {
    forall x {:trigger Get(env, x)} :: IsSource(x) ==> Get(env, x) == Get(env', Current(latest, x))
  }

  lemma {:induction false} RenameKeepsShape(e: Expr, latest: map<Name, nat>)
    ensures Count(RenameReads(e, latest)) == Count(e) && Width(RenameReads(e, latest)) == Width(e)
    decreases e
  {
    hide OpWidth, UnWidth;
    match e
    case Ref(v) =>
    case Const(_, _) =>
    case FpConst(_, _, _) =>
    case Unknown(_) =>
    case Un(op, a) => RenameKeepsShape(a, latest);
    case Bin(op, a, b) => RenameKeepsShape(a, latest); RenameKeepsShape(b, latest);
    case Ite(c, t, f) => RenameKeepsShape(c, latest); RenameKeepsShape(t, latest); RenameKeepsShape(f, latest);
  }

  lemma {:induction false} RenameKeepsValue(e: Expr, latest: map<Name, nat>, env: Env, env': Env, sem: Sem, k: nat)
    requires SourceExpr(e) && Tracks(latest, env, env')
    ensures Eval(RenameReads(e, latest), env', sem, k) == Eval(e, env, sem, k)
    ensures Count(RenameReads(e, latest)) == Count(e)
    decreases e
  {
    hide UnValue, BinValue, Width, Pow2, IsSource, Count, Eval;
    RenameKeepsShape(e, latest);
    var out := RenameReads(e, latest);
    match e
    case Ref(v) => RenamedRef(v, latest, env, env', sem, k);
    case Const(_, _) => ConstantEverywhere(e, env, env', sem, k);
    case FpConst(_, _, _) => ConstantEverywhere(e, env, env', sem, k);
    case Unknown(_) => ConstantEverywhere(e, env, env', sem, k);
    case Un(op, a) =>
      UnParts(op, a, env, sem, k);
      UnParts(op, out.src, env', sem, k);
      RenameKeepsShape(a, latest);
      RenameKeepsValue(a, latest, env, env', sem, k);
    case Bin(op, a, b) =>
      BinParts(op, a, b, env, sem, k);
      BinParts(op, out.a, out.b, env', sem, k);
      RenameKeepsShape(a, latest);
      RenameKeepsShape(b, latest);
      RenameKeepsValue(a, latest, env, env', sem, k);
      RenameKeepsValue(b, latest, env, env', sem, k + Count(a));
    case Ite(c, t, f) =>
      IteParts(c, t, f, env, sem, k);
      IteParts(out.cond, out.thn, out.els, env', sem, k);
      RenameKeepsShape(c, latest);
      RenameKeepsShape(t, latest);
      RenameKeepsValue(c, latest, env, env', sem, k);
      RenameKeepsValue(t, latest, env, env', sem, k + Count(c));
      RenameKeepsValue(f, latest, env, env', sem, k + Count(c) + Count(t));
  }

  lemma RenamedRef(v: Var, latest: map<Name, nat>, env: Env, env': Env, sem: Sem, k: nat)
    requires SourceExpr(Ref(v)) && Tracks(latest, env, env')
    ensures Eval(RenameReads(Ref(v), latest), env', sem, k) == Eval(Ref(v), env, sem, k)
  {
    hide IsSource;
    assert Get(env, v.name) == Get(env', Current(latest, v.name));
  }

  lemma ConstantEverywhere(e: Expr, env: Env, env': Env, sem: Sem, k: nat)
    requires e.Const? || e.FpConst? || e.Unknown?
    ensures Eval(e, env, sem, k) == Eval(e, env', sem, k)
  {
    hide Pow2;
  }

  lemma DefineTracks(latest: map<Name, nat>, x: Name, v: nat, env: Env, env': Env)
    requires IsSource(x) && Tracks(latest, env, env')
    ensures Tracks(latest[x := NextVersion(latest, x)], env[x := v], env'[Versioned(x, NextVersion(latest, x)) := v])
  {
    var n := NextVersion(latest, x);
    forall y | IsSource(y)
      ensures Get(env[x := v], y) == Get(env'[Versioned(x, n) := v], Current(latest[x := n], y))
    {
      if y != x { assert Get(env, y) == Get(env', Current(latest, y)); }
    }
  }

  /** The renamed program is in the state the source program is in. */
  ghost predicate Simulates(latest: map<Name, nat>, st: State, st': State) {
    Tracks(latest, st.env, st'.env) && st.mem == st'.mem
  }

  lemma StepSimulates(s: Ssa, x: Stmt, st: State, st': State, sem: Sem, k: nat)
    requires SourceStmt(x) && Simulates(s.latest, st, st')
    ensures Simulates(SsaStep(s, x).latest, Step(x, st, sem, k), Step(Renamed(s, x), st', sem, k))
    ensures CountStmt(Renamed(s, x)) == CountStmt(x)
  {
    hide Eval, LoadValue, StoreValue, Cut, Tracks, RenameReads, SourceExpr;
    match x
    case Assign(dst, rhs) =>
      RenameKeepsValue(rhs, s.latest, st.env, st'.env, sem, k);
      DefineTracks(s.latest, dst.name, Cut(Eval(rhs, st.env, sem, k), dst.bits), st.env, st'.env);
    case LoadMem(dst, address, bits) =>
      RenameKeepsValue(address, s.latest, st.env, st'.env, sem, k);
      var a := Cut(Eval(address, st.env, sem, k), sem.ptr);
      DefineTracks(s.latest, dst.name, Cut(Cut(LoadValue(st.mem, a, ByteCount(bits), sem.ptr), bits), dst.bits), st.env, st'.env);
    case StoreMem(address, value, bits) =>
      RenameKeepsValue(address, s.latest, st.env, st'.env, sem, k);
      RenameKeepsValue(value, s.latest, st.env, st'.env, sem, k + Count(address));
    case Unsupported =>
    case Nop =>
  }

  lemma TracksInitially(env: Env)
    ensures Tracks(EMPTY.latest, env, env)
  {
  }

  lemma StepShape(s: Ssa, x: Stmt)
    ensures SsaStep(s, x).statements == s.statements + [Renamed(s, x)]
  {
    hide Renamed, AddInputs;
  }

  /** From any state, the SSA form and the source program consume the same
      unknowns, end with the same memory, and every source name holds what its
      last version holds. */
  lemma {:induction false} ConvertKeepsMeaning(ss: seq<Stmt>, st: State, sem: Sem, k: nat)
    requires SourceProgram(ss)
    ensures Simulates(Convert(ss).latest, Exec(ss, st, sem, k), Exec(Convert(ss).statements, st, sem, k))
    ensures CountStmts(Convert(ss).statements) == CountStmts(ss)
    decreases |ss|
  {
    hide Step, SsaStep, Renamed, CountStmt, Tracks, SourceStmt;
    if ss == [] {
      TracksInitially(st.env);
    } else {
      var p, x := ss[..|ss| - 1], ss[|ss| - 1];
      var s := Convert(p);
      ConvertKeepsMeaning(p, st, sem, k);
      StepSimulates(s, x, Exec(p, st, sem, k), Exec(s.statements, st, sem, k), sem, k + CountStmts(p));
      StepShape(s, x);
      ExecAppend(s.statements, Renamed(s, x), st, sem, k);
    }
  }
}
