/** Giving each side of a comparison its own names while both read one shared
    machine state, and why the renamed side still computes what the lowering does. */
module Namespace {
  import opened Bits
  import opened Common
  import opened Ir
  import opened Ssa
  import opened Layouts
  import opened SsaForm
  import opened Taint

  const COMPARABLE_FLAGS: set<Name> := {Plain("ZF"), Plain("CF"), Plain("SF")}

  // ---- The renaming ----

  function SidedVar(v: Var, side: Side): Var {
    if v.name.Versioned? then Var(Sided(side, v.name.base, v.name.version), v.bits) else v
  }

  /** A register read before any definition becomes a slice of the shared parent. */
  function Substitute(v: Var, side: Side, arch: Arch): Expr {
    if v.name.Versioned? then Ref(SidedVar(v, side))
    else if v.name !in arch.layouts then Ref(v)
    else
      var l := arch.layouts[v.name];
      var bits := ParentWidth(arch, l.parent);
      if l.hi >= bits then Ref(v)
      else if l.lo == 0 && SaturatingAdd(l.hi, 1) == bits then Coerce(Ref(Var(l.parent, bits)), bits, v.bits)
      else Coerce(Un(Extract(l.hi, l.lo), Ref(Var(l.parent, bits))), ViewWidth(l), v.bits)
  }

  /** `None` when the tree is deeper than the recursion budget. */
  function NamespaceExpr(e: Expr, side: Side, arch: Arch, depth: nat): Option<Expr>
    decreases e
  {
    if depth > EXPR_DEPTH_BUDGET then None else
    match e
    case Ref(v) => Some(Substitute(v, side, arch))
    case Const(_, _) => Some(e)
    case FpConst(_, _, _) => Some(e)
    case Unknown(_) => Some(e)
    case Un(op, a) =>
      (match NamespaceExpr(a, side, arch, depth + 1)
       case None => None
       case Some(x) => Some(Un(op, x)))
    case Bin(op, a, b) =>
      var x, y := NamespaceExpr(a, side, arch, depth + 1), NamespaceExpr(b, side, arch, depth + 1);
      if x.None? || y.None? then None else Some(Bin(op, x.value, y.value))
    case Ite(c, t, f) =>
      var x, y, z := NamespaceExpr(c, side, arch, depth + 1), NamespaceExpr(t, side, arch, depth + 1), NamespaceExpr(f, side, arch, depth + 1);
      if x.None? || y.None? || z.None? then None else Some(Ite(x.value, y.value, z.value))
  }

  function NamespaceStmt(s: Stmt, side: Side, arch: Arch): Option<Stmt> {
    match s
    case Assign(dst, rhs) =>
      (match NamespaceExpr(rhs, side, arch, 0)
       case None => None
       case Some(x) => Some(Assign(SidedVar(dst, side), x)))
    case LoadMem(dst, address, bits) =>
      (match NamespaceExpr(address, side, arch, 0)
       case None => None
       case Some(x) => Some(LoadMem(SidedVar(dst, side), x, bits)))
    case StoreMem(address, value, bits) =>
      var x, y := NamespaceExpr(address, side, arch, 0), NamespaceExpr(value, side, arch, 0);
      if x.None? || y.None? then None else Some(StoreMem(x.value, y.value, bits))
    case Unsupported => Some(s)
    case Nop => Some(s)
  }

  function NamespaceAll(ss: seq<Stmt>, side: Side, arch: Arch): Option<seq<Stmt>> {
    if ss == [] then Some([]) else
    var p, s := NamespaceAll(ss[..|ss| - 1], side, arch), NamespaceStmt(ss[|ss| - 1], side, arch);
    if p.None? || s.None? then None else Some(p.value + [s.value])
  }

  /** One side's loop over its statements. */
  method NamespaceSide(ss: seq<Stmt>, side: Side, arch: Arch) returns (r: Option<seq<Stmt>>)
    ensures r == NamespaceAll(ss, side, arch)
  {
    hide NamespaceStmt;
    var out: seq<Stmt> := [];
    for i := 0 to |ss|
      invariant NamespaceAll(ss[..i], side, arch) == Some(out)
    {
      assert ss[..i + 1][..i] == ss[..i];
      var s := NamespaceStmt(ss[i], side, arch);
      if s.None? {
        Declined(ss, i + 1, side, arch);
        return None;
      }
      out := out + [s.value];
    }
    assert ss[..|ss|] == ss;
    return Some(out);
  }

  lemma {:induction false} Declined(ss: seq<Stmt>, n: nat, side: Side, arch: Arch)
    requires n <= |ss| && NamespaceAll(ss[..n], side, arch).None?
    ensures NamespaceAll(ss, side, arch).None?
    decreases |ss| - n
  {
    hide NamespaceStmt;
    if n < |ss| {
      assert ss[..n + 1][..n] == ss[..n];
      Declined(ss, n + 1, side, arch);
    } else {
      assert ss[..n] == ss;
    }
  }

  // ---- The shared machine state ----

  /** What the program relies on from its register tables. */
  predicate Lawful(arch: Arch) {
    arch.ptr > 0 && arch.simdBits > 0 && forall x {:trigger arch.layouts[x]} :: x in arch.layouts ==>
      var l := arch.layouts[x];
      l.lo <= l.hi < U16 && IsSource(l.parent) && l.parent !in COMPARABLE_FLAGS
      && (l.lo > 0 ==> l.hi < ParentWidth(arch, l.parent))
  }

  /** What the name `x` holds in the machine state `m`: a slice of its parent. */
  function View(arch: Arch, m: Env, x: Name): nat {
    if x !in arch.layouts then Get(m, x)
    else
      var l := arch.layouts[x];
      var bits := if l.parent in arch.simd then arch.simdBits else arch.ptr;
      if l.hi >= bits then Get(m, x) else Slice(Val(m, Var(l.parent, bits)), l.lo, ViewWidth(l))
  }

  /** Where a lowering finds the current value of `x`: its own latest version, or
      the shared state. */
  function Held(side: Side, arch: Arch, latest: map<Name, nat>, rho: Env, x: Name): nat {
    if x in latest then Get(rho, Sided(side, x, latest[x])) else View(arch, rho, x)
  }

  ghost predicate Linked(side: Side, arch: Arch, latest: map<Name, nat>, env: Env, rho: Env) {
    forall x {:trigger Get(env, x)} :: IsSource(x) ==> Get(env, x) == Held(side, arch, latest, rho, x)
  }

  // ---- Reading through the renaming ----

  lemma ParentReads(l: Layout, bits: nat, env: Env, sem: Sem, k: nat)
    requires l.lo <= l.hi < bits && l.hi < U16
    ensures
      var p := Ref(Var(l.parent, bits));
      var e := if l.lo == 0 && SaturatingAdd(l.hi, 1) == bits then p else Un(Extract(l.hi, l.lo), p);
      && Eval(e, env, sem, k) == Slice(Val(env, Var(l.parent, bits)), l.lo, ViewWidth(l))
      && Width(e) == ViewWidth(l) && Count(e) == 0
      && Eval(e, env, sem, k) < Pow2(ViewWidth(l))
  {
    var v := Var(l.parent, bits);
    SliceBelow(Val(env, v), l.lo, ViewWidth(l));
    SliceBelow(Get(env, l.parent), 0, bits);
    hide Pow2, Slice;
    ExtractRef(v, l.hi, l.lo, env, sem, k);
    if l.lo == 0 && l.hi + 1 == bits {
      SliceWhole(Val(env, v), bits);
    }
  }

  lemma SubstituteValue(v: Var, side: Side, arch: Arch, latest: map<Name, nat>, rho: Env, sem: Sem, k: nat)
    requires Lawful(arch) && IsSource(v.name) && v.bits > 0
    ensures
      var e := Substitute(Var(Current(latest, v.name), v.bits), side, arch);
      && Eval(e, rho, sem, k) == Cut(Held(side, arch, latest, rho, v.name), v.bits)
      && Width(e) == v.bits && Count(e) == 0
  {
    hide Pow2, Slice;
    if v.name !in latest && v.name in arch.layouts {
      var l := arch.layouts[v.name];
      var bits := ParentWidth(arch, l.parent);
      if l.hi < bits {
        ParentReads(l, bits, rho, sem, k);
        var p := Ref(Var(l.parent, bits));
        var e := if l.lo == 0 && SaturatingAdd(l.hi, 1) == bits then p else Un(Extract(l.hi, l.lo), p);
        CoerceValue(e, v.bits, rho, sem, k);
      }
    }
  }

  /** Two expressions of one value, width and number of unknowns. */
  ghost predicate Alike(x: Expr, rho: Env, e: Expr, env: Env, sem: Sem, k: nat) {
    Eval(x, rho, sem, k) == Eval(e, env, sem, k) && Width(x) == Width(e) && Count(x) == Count(e)
  }

  lemma AlikeUn(op: UnOp, x: Expr, rho: Env, a: Expr, env: Env, sem: Sem, k: nat)
    requires Alike(x, rho, a, env, sem, k)
    ensures Alike(Un(op, x), rho, Un(op, a), env, sem, k)
  {
    hide Eval, Width, Count, UnValue, UnWidth;
    UnParts(op, x, rho, sem, k);
    UnParts(op, a, env, sem, k);
  }

  lemma AlikeBin(op: BinOp, x: Expr, y: Expr, rho: Env, a: Expr, b: Expr, env: Env, sem: Sem, k: nat)
    requires Alike(x, rho, a, env, sem, k) && Alike(y, rho, b, env, sem, k + Count(a))
    ensures Alike(Bin(op, x, y), rho, Bin(op, a, b), env, sem, k)
  {
    hide Eval, Width, Count, BinValue, OpWidth;
    BinParts(op, x, y, rho, sem, k);
    BinParts(op, a, b, env, sem, k);
  }

  lemma AlikeIte(x: Expr, y: Expr, z: Expr, rho: Env, c: Expr, t: Expr, f: Expr, env: Env, sem: Sem, k: nat)
    requires Alike(x, rho, c, env, sem, k) && Alike(y, rho, t, env, sem, k + Count(c)) && Alike(z, rho, f, env, sem, k + Count(c) + Count(t))
    ensures Alike(Ite(x, y, z), rho, Ite(c, t, f), env, sem, k)
  {
    hide Eval, Width, Count, Max;
    IteParts(x, y, z, rho, sem, k);
    IteParts(c, t, f, env, sem, k);
  }

  lemma AlikeLeaf(e: Expr, rho: Env, env: Env, sem: Sem, k: nat)
    requires e.Const? || e.FpConst? || e.Unknown?
    ensures Alike(e, rho, e, env, sem, k)
  {
    hide Pow2;
  }

  lemma AlikeRef(v: Var, side: Side, arch: Arch, latest: map<Name, nat>, env: Env, rho: Env, sem: Sem, k: nat)
    requires Lawful(arch) && SourceExpr(Ref(v)) && Linked(side, arch, latest, env, rho)
    ensures Alike(Substitute(Var(Current(latest, v.name), v.bits), side, arch), rho, Ref(v), env, sem, k)
  {
    hide Lawful, Substitute, Pow2, Held, Linked, IsSource, Get;
    SubstituteValue(v, side, arch, latest, rho, sem, k);
    LinkedAt(side, arch, latest, env, rho, v.name);
  }

  /** The renamed expression's width, unknowns and value are the original's. */
  lemma {:induction false} NamespaceValue(e: Expr, side: Side, arch: Arch, depth: nat, latest: map<Name, nat>, env: Env, rho: Env, sem: Sem, k: nat)
    requires Lawful(arch) && SourceExpr(e) && Linked(side, arch, latest, env, rho)
    requires NamespaceExpr(RenameReads(e, latest), side, arch, depth).Some?
    ensures Alike(NamespaceExpr(RenameReads(e, latest), side, arch, depth).value, rho, e, env, sem, k)
    decreases e
  {
    hide Lawful, Substitute, Linked, IsSource, Alike, Count, Current;
    match e
    case Ref(v) => AlikeRef(v, side, arch, latest, env, rho, sem, k);
    case Const(_, _) => AlikeLeaf(e, rho, env, sem, k);
    case FpConst(_, _, _) => AlikeLeaf(e, rho, env, sem, k);
    case Unknown(_) => AlikeLeaf(e, rho, env, sem, k);
    case Un(op, a) =>
      NamespaceValue(a, side, arch, depth + 1, latest, env, rho, sem, k);
      AlikeUn(op, NamespaceExpr(RenameReads(a, latest), side, arch, depth + 1).value, rho, a, env, sem, k);
    case Bin(op, a, b) =>
      NamespaceValue(a, side, arch, depth + 1, latest, env, rho, sem, k);
      NamespaceValue(b, side, arch, depth + 1, latest, env, rho, sem, k + Count(a));
      AlikeBin(op, NamespaceExpr(RenameReads(a, latest), side, arch, depth + 1).value, NamespaceExpr(RenameReads(b, latest), side, arch, depth + 1).value, rho,
               a, b, env, sem, k);
    case Ite(c, t, f) =>
      NamespaceValue(c, side, arch, depth + 1, latest, env, rho, sem, k);
      NamespaceValue(t, side, arch, depth + 1, latest, env, rho, sem, k + Count(c));
      NamespaceValue(f, side, arch, depth + 1, latest, env, rho, sem, k + Count(c) + Count(t));
      AlikeIte(NamespaceExpr(RenameReads(c, latest), side, arch, depth + 1).value, NamespaceExpr(RenameReads(t, latest), side, arch, depth + 1).value,
               NamespaceExpr(RenameReads(f, latest), side, arch, depth + 1).value, rho, c, t, f, env, sem, k);
  }

  lemma LinkedAt(side: Side, arch: Arch, latest: map<Name, nat>, env: Env, rho: Env, x: Name)
    requires Linked(side, arch, latest, env, rho) && IsSource(x)
    ensures Get(env, x) == Held(side, arch, latest, rho, x)
  {
  }

  // ---- A whole side ----

  lemma DefineLinked(side: Side, arch: Arch, latest: map<Name, nat>, x: Name, v: nat, env: Env, rho: Env)
    requires Lawful(arch) && IsSource(x) && Linked(side, arch, latest, env, rho)
    ensures Linked(side, arch, latest[x := NextVersion(latest, x)], env[x := v], rho[Sided(side, x, NextVersion(latest, x)) := v])
  {
    hide Slice, Cut;
    var n := NextVersion(latest, x);
    forall y | IsSource(y)
      ensures Get(env[x := v], y) == Held(side, arch, latest[x := n], rho[Sided(side, x, n) := v], y)
    {
      if y != x { LinkedAt(side, arch, latest, env, rho, y); }
    }
  }

  /** The renamed side is in the state the lowering is in. */
  ghost predicate Follows(side: Side, arch: Arch, latest: map<Name, nat>, st: State, st': State) {
    Linked(side, arch, latest, st.env, st'.env) && st.mem == st'.mem
  }

  lemma NamespaceStepFollows(s: Ssa, x: Stmt, side: Side, arch: Arch, st: State, st': State, sem: Sem, k: nat)
    requires Lawful(arch) && SourceStmt(x) && Follows(side, arch, s.latest, st, st')
    requires NamespaceStmt(Renamed(s, x), side, arch).Some?
    ensures
      var y := NamespaceStmt(Renamed(s, x), side, arch).value;
      Follows(side, arch, SsaStep(s, x).latest, Step(x, st, sem, k), Step(y, st', sem, k)) && CountStmt(y) == CountStmt(x)
  {
    hide Lawful, Linked, Eval, Cut, LoadValue, StoreValue, SourceExpr, RenameReads, NamespaceExpr;
    match x
    case Assign(dst, rhs) =>
      NamespaceValue(rhs, side, arch, 0, s.latest, st.env, st'.env, sem, k);
      DefineLinked(side, arch, s.latest, dst.name, Cut(Eval(rhs, st.env, sem, k), dst.bits), st.env, st'.env);
    case LoadMem(dst, address, bits) =>
      NamespaceValue(address, side, arch, 0, s.latest, st.env, st'.env, sem, k);
      var a := Cut(Eval(address, st.env, sem, k), sem.ptr);
      DefineLinked(side, arch, s.latest, dst.name, Cut(Cut(LoadValue(st.mem, a, ByteCount(bits), sem.ptr), bits), dst.bits), st.env, st'.env);
    case StoreMem(address, value, bits) =>
      NamespaceValue(address, side, arch, 0, s.latest, st.env, st'.env, sem, k);
      NamespaceValue(value, side, arch, 0, s.latest, st.env, st'.env, sem, k + Count(address));
    case Unsupported =>
    case Nop =>
  }

  /** A side as it enters the query. */
  function Lowered(ss: seq<Stmt>, side: Side, arch: Arch): Option<seq<Stmt>> {
    NamespaceAll(Convert(ss).statements, side, arch)
  }

  lemma LoweredSnoc(ss: seq<Stmt>, side: Side, arch: Arch)
    requires ss != []
    ensures
      var p, x := ss[..|ss| - 1], ss[|ss| - 1];
      var q, s := Lowered(p, side, arch), NamespaceStmt(Renamed(Convert(p), x), side, arch);
      Lowered(ss, side, arch) == if q.None? || s.None? then None else Some(q.value + [s.value])
  {
    hide Renamed, NamespaceStmt, SsaStep;
    var p, x := ss[..|ss| - 1], ss[|ss| - 1];
    StepShape(Convert(p), x);
    var all := Convert(ss).statements;
    assert all[..|all| - 1] == Convert(p).statements;
  }

  /** Run from a state in which every register name holds its slice of the shared
      parents, the lowering and its renamed side stay together. */
  lemma {:induction false} LoweredFollows(ss: seq<Stmt>, side: Side, arch: Arch, env: Env, rho: Env, mem: Mem, sem: Sem, k: nat)
    requires Lawful(arch) && SourceProgram(ss) && Lowered(ss, side, arch).Some?
    requires Linked(side, arch, map[], env, rho)
    ensures
      var out := Lowered(ss, side, arch).value;
      && Follows(side, arch, Convert(ss).latest, Exec(ss, State(env, mem), sem, k), Exec(out, State(rho, mem), sem, k))
      && CountStmts(out) == CountStmts(ss)
    decreases |ss|
  {
    hide Lawful, Linked, Step, SsaStep, Renamed, NamespaceStmt, SourceStmt, CountStmt, Lowered;
    if ss == [] {
      LoweredNothing(side, arch);
    } else {
      var p, x := ss[..|ss| - 1], ss[|ss| - 1];
      LoweredSnoc(ss, side, arch);
      LoweredFollows(p, side, arch, env, rho, mem, sem, k);
      var q, y := Lowered(p, side, arch).value, NamespaceStmt(Renamed(Convert(p), x), side, arch).value;
      ExecAppend(q, y, State(rho, mem), sem, k);
      NamespaceStepFollows(Convert(p), x, side, arch, Exec(p, State(env, mem), sem, k), Exec(q, State(rho, mem), sem, k), sem, k + CountStmts(p));
    }
  }

  lemma LoweredNothing(side: Side, arch: Arch)
    ensures Lowered([], side, arch) == Some([])
  {
  }
}
