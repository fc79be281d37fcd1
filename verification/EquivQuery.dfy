/** Building the one formula whose satisfiability says whether two lowerings of an
    instruction can leave the machine in different states. */
module EquivQuery {
  import opened Bits
  import opened Common
  import opened Ir
  import opened Ssa
  import opened Layouts
  import opened Namespace
  import opened Taint
  import MemElim

  // ---- What each side says at the end ----

  /** The last version of every defined name, in definition order. */
  function FinalDefs(defs: seq<Var>): map<Name, Var> {
    if defs == [] then map[] else
    var p, d := FinalDefs(defs[..|defs| - 1]), defs[|defs| - 1];
    if d.name.Versioned? then p[d.name.base := d] else p
  }

  /** A whole parent register as this definition of one of its views leaves it. */
  function ParentSpaceValue(def: Var, side: Side, l: Layout, bits: nat): Option<Expr> {
    var piece := Ref(SidedVar(def, side));
    if l.zeroExtends || (l.lo == 0 && CheckedAdd(l.hi, 1).Some? && l.hi + 1 >= bits) then Some(Coerce(piece, def.bits, bits))
    else if CheckedAdd(l.hi, 1).None? then None
    else Some(Rebuild(Var(l.parent, bits), l.lo, l.hi, Coerce(piece, def.bits, ViewWidth(l))))
  }

  /** One side's definitions that may be compared: untainted, a modelled flag or a
      register, and not a vector register at a width its own view contradicts. */
  predicate Eligible(arch: Arch, finals: map<Name, Var>, tainted: set<Name>, x: Name) {
    x in finals && finals[x].name !in tainted &&
    (x in COMPARABLE_FLAGS ||
      (x in arch.layouts && (finals[x].bits == ViewWidth(arch.layouts[x]) || arch.layouts[x].parent !in arch.simd)))
  }

  /** What a definition speaks about: a flag, or the parent register. */
  function KeyOf(arch: Arch, x: Name): Name {
    if x in COMPARABLE_FLAGS || x !in arch.layouts then x else arch.layouts[x].parent
  }

  function FinalExpr(arch: Arch, finals: map<Name, Var>, side: Side, x: Name): Option<Expr>
    requires x in finals
  {
    if x in COMPARABLE_FLAGS || x !in arch.layouts then Some(Ref(SidedVar(finals[x], side)))
    else ParentSpaceValue(finals[x], side, arch.layouts[x], ParentWidth(arch, arch.layouts[x].parent))
  }

  /** Two definitions on one parent drop it. */
  predicate Rival(arch: Arch, finals: map<Name, Var>, tainted: set<Name>, x: Name, y: Name) {
    Eligible(arch, finals, tainted, y) && y != x && KeyOf(arch, y) == KeyOf(arch, x)
  }

  predicate Speaks(arch: Arch, finals: map<Name, Var>, tainted: set<Name>, side: Side, x: Name) {
    Eligible(arch, finals, tainted, x) && FinalExpr(arch, finals, side, x).Some?
    && forall y :: y in finals ==> !Rival(arch, finals, tainted, x, y)
  }

  /** One side's final definitions in parent coordinates. */
  ghost predicate IsFinals(arch: Arch, finals: map<Name, Var>, tainted: set<Name>, side: Side, out: map<Name, Expr>) {
    (forall x {:trigger KeyOf(arch, x)} :: x in finals && Speaks(arch, finals, tainted, side, x) ==>
      KeyOf(arch, x) in out && out[KeyOf(arch, x)] == FinalExpr(arch, finals, side, x).value)
    && (forall key {:trigger key in out} :: key in out ==>
      exists x {:trigger KeyOf(arch, x)} :: x in finals && Speaks(arch, finals, tainted, side, x) && KeyOf(arch, x) == key)
  }

  // ---- The condition ----

  /** "The two sides differ here", for every key both sides speak about. */
  function Terms(fa: map<Name, Expr>, fb: map<Name, Expr>, keys: seq<Name>): seq<Expr> {
    if keys == [] then [] else
    var p, key := Terms(fa, fb, keys[..|keys| - 1]), keys[|keys| - 1];
    if key in fa && key in fb then p + [Bin(Ne, fa[key], fb[key])] else p
  }

  function ProbeTerms(probes: seq<(Var, Var)>): seq<Expr> {
    if probes == [] then [] else
    ProbeTerms(probes[..|probes| - 1]) + [Bin(Ne, Ref(probes[|probes| - 1].0), Ref(probes[|probes| - 1].1))]
  }

  function Disjunction(terms: seq<Expr>): Option<Expr> {
    if terms == [] then None
    else if |terms| == 1 then Some(terms[0])
    else Some(Bin(BoolOr, Disjunction(terms[..|terms| - 1]).value, terms[|terms| - 1]))
  }

  function DifferCondition(fa: map<Name, Expr>, fb: map<Name, Expr>, probes: seq<(Var, Var)>, keys: seq<Name>): Option<Expr> {
    Disjunction(Terms(fa, fb, keys) + ProbeTerms(probes))
  }

  // ---- When two lowerings may be compared at all ----

  predicate Modelled(ss: seq<Stmt>) {
    forall i :: 0 <= i < |ss| ==> !ss[i].Unsupported?
  }

  /** Free inputs outside the register tables, with the width first read at. */
  function NoneInputs(inputs: map<Name, Var>, arch: Arch): map<Name, nat> {
    map x | x in inputs && x !in arch.layouts :: inputs[x].bits
  }

  /** A vector register at a width its own view contradicts. */
  predicate Mismatched(arch: Arch, x: Name, bits: nat) {
    x in arch.layouts && bits != ViewWidth(arch.layouts[x]) && arch.layouts[x].parent in arch.simd
  }

  predicate LacksSimdModel(s: Ssa, arch: Arch) {
    (exists x :: x in s.inputs && Mismatched(arch, x, s.inputs[x].bits))
    || (exists d :: d in s.defs && d.name.Versioned? && Mismatched(arch, d.name.base, d.bits))
  }

  /** Both sides must be silent about neither memory's writes nor its unknowns. */
  predicate MemoryEnabled(sa: Ssa, sb: Ssa, ta: Taint, tb: Taint, arch: Arch) {
    !ta.memory && !tb.memory && !LacksSimdModel(sa, arch) && !LacksSimdModel(sb, arch)
  }

  /** The formula: solve the statements so that the condition holds. */
  datatype Query = Query(statements: seq<Stmt>, condition: Expr)

  /** `q` is the query for `a` and `b`. Written addresses are probed in the order
      `addrs` and compared keys taken in the order `keys`; the source takes both
      in name order, and neither matters. */
  ghost predicate IsQuery(a: seq<Stmt>, b: seq<Stmt>, arch: Arch, addrs: seq<Var>, keys: seq<Name>,
                          fa: map<Name, Expr>, fb: map<Name, Expr>, q: Query)
  {
    var (sa, sb) := (Convert(a), Convert(b));
    var ta, tb, la, lb := TaintedDefs(sa.statements), TaintedDefs(sb.statements), Lowered(a, SideA, arch), Lowered(b, SideB, arch);
    && Modelled(a) && Modelled(b)
    && NoneInputs(sa.inputs, arch) == NoneInputs(sb.inputs, arch)
    && ta.Some? && tb.Some? && la.Some? && lb.Some?
    && IsFinals(arch, FinalDefs(sa.defs), ta.value.defs, SideA, fa)
    && IsFinals(arch, FinalDefs(sb.defs), tb.value.defs, SideB, fb)
    && (set key | key in keys) == fa.Keys
    && MemElim.Lists(addrs, MemElim.Written(la.value, lb.value, arch.ptr))
    && var plan := MemElim.Eliminate(la.value, lb.value, arch.ptr, MemoryEnabled(sa, sb, ta.value, tb.value, arch), addrs);
    && plan.Some?
    && DifferCondition(fa, fb, plan.value.probes, keys) == Some(q.condition)
    && q.statements == plan.value.statements
  }

  /** The two lowerings have a query at all. */
  ghost predicate HasQuery(a: seq<Stmt>, b: seq<Stmt>, arch: Arch) {
    exists addrs, keys, fa, fb, q :: IsQuery(a, b, arch, addrs, keys, fa, fb, q)
  }
}
