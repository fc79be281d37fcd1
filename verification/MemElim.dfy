/** Compiling memory away: both lowerings become plain assignments over a shared
    initial memory that exists only at the byte addresses they touch. */
module MemElim {
  import opened Bits
  import opened Ir
  import opened Common
  import opened Layouts

  const MEM_KEY_CAP := 256
  const MEM_STORE_CAP := 128

  /** A byte address and the byte there, both named by definitions. */
  datatype Cell = Cell(addr: Var, byte: Var)

  /** The state of the pass: the addresses seen with their shared initial byte,
      the statements so far, the free bytes minted, and the name counter. */
  datatype ElimState = ElimState(keys: seq<Cell>, statements: seq<Stmt>, free: seq<Var>, counter: nat)

  const START := ElimState([], [], [], 0)

  // ---- The pass as functions ----

  function Fresh(e: ElimState, tag: string, bits: nat): Var {
    Var(Minted(tag, e.counter), bits)
  }

  /** `src` materialised as the definition of a fresh name. */
  function Define(e: ElimState, tag: string, bits: nat, src: Expr): ElimState {
    e.(statements := e.statements + [Assign(Fresh(e, tag, bits), src)], counter := e.counter + 1)
  }

  /** Compare `addr` with each cell, the newest one outermost. */
  function Chain(addr: Var, cells: seq<Cell>, base: Expr): Expr {
    if cells == [] then base
    else
      var c := cells[|cells| - 1];
      Ite(Bin(Eq, Ref(addr), Ref(c.addr)), Ref(c.byte), Chain(addr, cells[..|cells| - 1], base))
  }

  /** The shared initial byte at `addr`; its name is the newest key's byte. */
  function Mem0(e: ElimState, addr: Var): Option<ElimState> {
    if |e.keys| >= MEM_KEY_CAP then None else Some(Mint(e, addr))
  }

  function Mint(e: ElimState, addr: Var): ElimState {
    var free := Fresh(e, "b", 8);
    var e' := e.(free := e.free + [free], counter := e.counter + 1);
    Define(e', "v", 8, Chain(addr, e.keys, Ref(free))).(keys := e.keys + [Cell(addr, Fresh(e', "v", 8))])
  }

  function MintedByte(e: ElimState): Var {
    Var(Minted("v", e.counter + 1), 8)
  }

  function FoldSide(e: ElimState, side: seq<Cell>, addr: Var, base: Var): ElimState {
    Define(e, "r", 8, Chain(addr, side, Ref(base)))
  }

  function ByteAddress(e: ElimState, base: Var, index: nat, ptr: nat): ElimState {
    Define(e, "a", ptr, Bin(Add, Ref(base), Const(index, ptr)))
  }

  /** The first `n` bytes of a store, each an address and a slice of `held`. */
  function StoreBytes(e: ElimState, side: seq<Cell>, base: Var, held: Var, bits: nat, n: nat, ptr: nat): (ElimState, seq<Cell>) {
    if n == 0 then (e, side) else
    var (p, cells) := StoreBytes(e, side, base, held, bits, n - 1, ptr);
    var q := ByteAddress(p, base, n - 1, ptr);
    var slice := Un(Extract(Min(8 * (n - 1) + 7, SaturatingSub(bits, 1)), 8 * (n - 1)), Ref(held));
    (Define(q, "sb", 8, slice), cells + [Cell(Fresh(p, "a", ptr), Fresh(q, "sb", 8))])
  }

  function ExpandStore(e: ElimState, side: seq<Cell>, address: Expr, value: Expr, bits: nat, ptr: nat): Option<(ElimState, seq<Cell>)> {
    if bits == 0 then Some((e, side))
    else if |side| + ByteCount(bits) > MEM_STORE_CAP then None
    else
      var e' := Define(e, "sa", ptr, address);
      Some(StoreBytes(Define(e', "sv", bits, value), side, Fresh(e, "sa", ptr), Fresh(e', "sv", bits), bits, ByteCount(bits), ptr))
  }

  /** The first `n` bytes of a load, named low byte first. */
  function LoadBytes(e: ElimState, side: seq<Cell>, base: Var, n: nat, ptr: nat): Option<(ElimState, seq<Var>)> {
    if n == 0 then Some((e, [])) else
    match LoadBytes(e, side, base, n - 1, ptr)
    case None => None
    case Some((p, bytes)) => LoadByte(p, side, bytes, base, n - 1, ptr)
  }

  function LoadByte(p: ElimState, side: seq<Cell>, bytes: seq<Var>, base: Var, i: nat, ptr: nat): Option<(ElimState, seq<Var>)> {
    var q, addr := ByteAddress(p, base, i, ptr), Fresh(p, "a", ptr);
    match Mem0(q, addr)
    case None => None
    case Some(m) => Some((FoldSide(m, side, addr, MintedByte(q)), bytes + [Fresh(m, "r", 8)]))
  }

  /** Little-endian: each byte sits above everything read so far. */
  function Assemble(bytes: seq<Var>): Expr
    requires bytes != []
  {
    var top := Ref(bytes[|bytes| - 1]);
    if |bytes| == 1 then top else Bin(Concat, top, Assemble(bytes[..|bytes| - 1]))
  }

  lemma {:induction false} LoadBytesLength(e: ElimState, side: seq<Cell>, base: Var, n: nat, ptr: nat)
    ensures var r := LoadBytes(e, side, base, n, ptr); r.Some? ==> |r.value.1| == n
    decreases n
  {
    if n > 0 { LoadBytesLength(e, side, base, n - 1, ptr); }
  }

  function ExpandLoad(e: ElimState, side: seq<Cell>, dst: Var, address: Expr, bits: nat, ptr: nat): Option<ElimState> {
    if bits == 0 then Some(e) else
    var n := ByteCount(bits);
    LoadBytesLength(Define(e, "la", ptr, address), side, Fresh(e, "la", ptr), n, ptr);
    match LoadBytes(Define(e, "la", ptr, address), side, Fresh(e, "la", ptr), n, ptr)
    case None => None
    case Some((p, bytes)) =>
      Some(p.(statements := p.statements + [Assign(dst, Coerce(Assemble(bytes), 8 * n, bits))]))
  }

  function SideStep(e: ElimState, side: seq<Cell>, s: Stmt, ptr: nat): Option<(ElimState, seq<Cell>)> {
    match s
    case StoreMem(address, value, bits) => ExpandStore(e, side, address, value, bits, ptr)
    case LoadMem(dst, address, bits) =>
      (match ExpandLoad(e, side, dst, address, bits, ptr)
       case None => None
       case Some(p) => Some((p, side)))
    case _ => Some((e.(statements := e.statements + [s]), side))
  }

  function RunSide(e: ElimState, ss: seq<Stmt>, ptr: nat): Option<(ElimState, seq<Cell>)> {
    if ss == [] then Some((e, [])) else
    match RunSide(e, ss[..|ss| - 1], ptr)
    case None => None
    case Some((p, side)) => SideStep(p, side, ss[|ss| - 1], ptr)
  }

  /** One probe pair per address: what each side left there. */
  function ProbeAll(e: ElimState, a: seq<Cell>, b: seq<Cell>, addrs: seq<Var>): Option<(ElimState, seq<(Var, Var)>)> {
    if addrs == [] then Some((e, [])) else
    match ProbeAll(e, a, b, addrs[..|addrs| - 1])
    case None => None
    case Some((p, probes)) => ProbeOne(p, a, b, probes, addrs[|addrs| - 1])
  }

  function ProbeOne(p: ElimState, a: seq<Cell>, b: seq<Cell>, probes: seq<(Var, Var)>, addr: Var): Option<(ElimState, seq<(Var, Var)>)> {
    match Mem0(p, addr)
    case None => None
    case Some(m) =>
      var q := FoldSide(m, a, addr, MintedByte(p));
      Some((FoldSide(q, b, addr, MintedByte(p)), probes + [(Fresh(m, "r", 8), Fresh(q, "r", 8))]))
  }

  /** The memory-free rewrite of both lowerings. */
  datatype MemPlan = MemPlan(statements: seq<Stmt>, freeBytes: seq<Var>, probes: seq<(Var, Var)>)

  function WrittenAt(a: seq<Cell>, b: seq<Cell>): set<Var> {
    set c | c in a + b :: c.addr
  }

  /** `order` lists every written address once; the source takes name order. */
  predicate Lists(order: seq<Var>, addrs: set<Var>) {
    (set v | v in order) == addrs && forall i, j :: 0 <= i < j < |order| ==> order[i] != order[j]
  }

  /** Memory is compared when it may be and both sides model some write. */
  predicate Compares(a: seq<Cell>, b: seq<Cell>, enabled: bool) {
    enabled && a != [] && b != []
  }

  /** Every address either side writes, when both sides can be rewritten. */
  function Written(sa: seq<Stmt>, sb: seq<Stmt>, ptr: nat): set<Var> {
    match RunSide(START, sa, ptr)
    case None => {}
    case Some((e, a)) =>
      match RunSide(e, sb, ptr)
      case None => {}
      case Some((_, b)) => WrittenAt(a, b)
  }

  /** The whole pass, taking the probes in the given order. */
  function Eliminate(sa: seq<Stmt>, sb: seq<Stmt>, ptr: nat, enabled: bool, order: seq<Var>): Option<MemPlan> {
    match RunSide(START, sa, ptr)
    case None => None
    case Some((e, a)) =>
      match RunSide(e, sb, ptr)
      case None => None
      case Some((f, b)) =>
        if !Compares(a, b, enabled) then Some(MemPlan(f.statements, f.free, []))
        else
          match ProbeAll(f, a, b, order)
          case None => None
          case Some((g, probes)) => Some(MemPlan(g.statements, g.free, probes))
  }

  // ---- The pass as micro-steps ----

  /** Everything the pass does to its state is a run of these three. */
  datatype Micro =
    | Pass(s: Stmt)
    | Def(tag: string, bits: nat, src: Expr)
    | Key(addr: Var)

  function Apply(e: ElimState, m: Micro): ElimState {
    match m
    case Pass(s) => e.(statements := e.statements + [s])
    case Def(tag, bits, src) => Define(e, tag, bits, src)
    case Key(addr) => Mint(e, addr)
  }

  function ApplyAll(e: ElimState, ms: seq<Micro>): ElimState {
    if ms == [] then e else Apply(ApplyAll(e, ms[..|ms| - 1]), ms[|ms| - 1])
  }

  /** A name this pass minted before the counter reached `n`, or someone else's. */
  predicate NameBefore(x: Name, n: nat) {
    x.Minted? ==> x.serial < n
  }

  predicate ReadsBelow(e: Expr, n: nat) {
    match e
    case Ref(v) => NameBefore(v.name, n)
    case Const(_, _) => true
    case FpConst(_, _, _) => true
    case Unknown(_) => true
    case Un(_, a) => ReadsBelow(a, n)
    case Bin(_, a, b) => ReadsBelow(a, n) && ReadsBelow(b, n)
    case Ite(c, t, f) => ReadsBelow(c, n) && ReadsBelow(t, n) && ReadsBelow(f, n)
  }

  predicate MintedBefore(v: Var, n: nat) {
    v.name.Minted? && v.name.serial < n
  }

  /** A statement with no memory effect and no minted name. */
  predicate Foreign(s: Stmt) {
    match s
    case Assign(dst, rhs) => !dst.name.Minted? && ReadsBelow(rhs, 0)
    case LoadMem(_, _, _) => false
    case StoreMem(_, _, _) => false
    case Unsupported => true
    case Nop => true
  }

  predicate ValidMicro(e: ElimState, m: Micro) {
    match m
    case Pass(s) => Foreign(s) || (s.Assign? && !s.dst.name.Minted? && ReadsBelow(s.rhs, e.counter))
    case Def(_, _, src) => ReadsBelow(src, e.counter)
    case Key(addr) => MintedBefore(addr, e.counter)
  }

  predicate ValidAll(e: ElimState, ms: seq<Micro>) {
    ms == [] || (ValidAll(e, ms[..|ms| - 1]) && ValidMicro(ApplyAll(e, ms[..|ms| - 1]), ms[|ms| - 1]))
  }

  /** A run of micro-steps leads from `e` to `e'`. */
  ghost predicate Reaches(e: ElimState, e': ElimState) {
    exists ms :: ValidAll(e, ms) && ApplyAll(e, ms) == e'
  }

  lemma ReachesSelf(e: ElimState)
    ensures Reaches(e, e)
  {
    assert ValidAll(e, []) && ApplyAll(e, []) == e;
  }

  lemma ReachesStep(e: ElimState, e': ElimState, m: Micro)
    requires Reaches(e, e') && ValidMicro(e', m)
    ensures Reaches(e, Apply(e', m))
  {
    hide Apply, ValidMicro;
    var ms :| ValidAll(e, ms) && ApplyAll(e, ms) == e';
    assert (ms + [m])[..|ms|] == ms;
    assert ValidAll(e, ms + [m]) && ApplyAll(e, ms + [m]) == Apply(e', m);
  }

  lemma {:induction false} ReachesTrans(e: ElimState, e': ElimState, e'': ElimState)
    requires Reaches(e, e') && Reaches(e', e'')
    ensures Reaches(e, e'')
  {
    hide Apply, ValidMicro;
    var ms :| ValidAll(e', ms) && ApplyAll(e', ms) == e'';
    ReachesAll(e, e', ms);
  }

  lemma {:induction false} ReachesAll(e: ElimState, e': ElimState, ms: seq<Micro>)
    requires Reaches(e, e') && ValidAll(e', ms)
    ensures Reaches(e, ApplyAll(e', ms))
    decreases |ms|
  {
    hide Apply, ValidMicro, Reaches;
    if ms != [] {
      ReachesAll(e, e', ms[..|ms| - 1]);
      ReachesStep(e, ApplyAll(e', ms[..|ms| - 1]), ms[|ms| - 1]);
    }
  }
}
