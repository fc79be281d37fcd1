/** A direct ESIL interpreter over radare2's own registers and flags, looked up under
    the token's spelling: operands are read when used, computed values when made, and
    a block whose condition is zero is skipped. */
module EsilInterp {
  import opened Bits
  import opened Common
  import opened Ir
  import opened EsilNumbers
  import M = EsilMachine

  // ---- Registers and flags ----

  /** The flag a token names. `nf` and `vf` are ARM's spellings of `sf` and `of`, and
      the capitals are how the rest of the program spells the same five. */
  function FlagOf(x: Name): Option<Name> {
    if x == Plain("cf") || x == Plain("CF") then Some(Plain("cf"))
    else if x == Plain("zf") || x == Plain("ZF") then Some(Plain("zf"))
    else if x == Plain("sf") || x == Plain("nf") || x == Plain("SF") then Some(Plain("sf"))
    else if x == Plain("of") || x == Plain("vf") || x == Plain("OF") then Some(Plain("of"))
    else if x == Plain("pf") || x == Plain("PF") then Some(Plain("pf"))
    else None
  }

  /** The name is bits of a general register that is as wide as a pointer. */
  predicate IsPart(a: M.EsilArch, x: Name) {
    x in a.arch.layouts && a.arch.layouts[x].parent !in a.arch.simd && a.arch.layouts[x].hi < a.arch.ptr
  }

  predicate ReadsZero(a: M.EsilArch, x: Name) {
    FlagOf(x).None? && IsPart(a, x) && a.arch.layouts[x].parent in a.zeros
  }

  function PartWidth(lo: nat, hi: nat): nat {
    (if hi >= lo then hi - lo else 0) + 1
  }

  /** A flag is one bit, a part as wide as it is placed, any other register as wide as
      its table says or else a pointer. */
  function WidthOf(a: M.EsilArch, x: Name): nat {
    if FlagOf(x).Some? then 1
    else if IsPart(a, x) then PartWidth(a.arch.layouts[x].lo, a.arch.layouts[x].hi)
    else if x in a.widths then a.widths[x]
    else a.arch.ptr
  }

  function Part(x: nat, lo: nat, width: nat): nat {
    x / Pow2(lo) % Pow2(width)
  }

  function Look(a: M.EsilArch, env: Env, x: Name): nat {
    if FlagOf(x).Some? then Get(env, FlagOf(x).value) % 2
    else if ReadsZero(a, x) then 0
    else if IsPart(a, x) then
      var l := a.arch.layouts[x];
      Part(Get(env, l.parent), l.lo, PartWidth(l.lo, l.hi))
    else Get(env, x) % Pow2(WidthOf(a, x))
  }

  /** `was` with the bits from `lo` on, `width` of them, replaced by `v`. */
  function Replaced(was: nat, lo: nat, width: nat, v: nat): nat {
    PartBelow(was, lo, width);
    was - Part(was, lo, width) * Pow2(lo) + v * Pow2(lo)
  }

  lemma PartBelow(was: nat, lo: nat, width: nat)
    ensures Part(was, lo, width) * Pow2(lo) <= was
  {
    hide Pow2;
    QuotientBelow(was, Pow2(lo), Pow2(width));
  }

  lemma QuotientBelow(x: nat, p: nat, w: nat)
    requires p > 0 && w > 0
    ensures x / p % w * p <= x
  {
    var q := x / p;
    assert q % w <= q;
    assert x == q * p + x % p;
    MulMono(q % w, q, p);
  }

  lemma MulMono(x: nat, y: nat, z: nat)
    requires x <= y
    ensures x * z <= y * z
  {
  }

  /** The registers after `v` is put in `x`: a 32-bit alias of a 64-bit register
      clears the rest of it, any other part leaves the rest alone. */
  function Put(a: M.EsilArch, env: Env, x: Name, v: nat): Env {
    if FlagOf(x).Some? then env[FlagOf(x).value := v]
    else if !IsPart(a, x) then env[x := v]
    else
      var l, ptr := a.arch.layouts[x], a.arch.ptr;
      if (l.lo == 0 && l.hi + 1 == ptr) || (l.zeroExtends && ptr == 64) then env[l.parent := v]
      else env[l.parent := Replaced(Get(env, l.parent) % Pow2(ptr), l.lo, PartWidth(l.lo, l.hi), v)]
  }

  // ---- The interpreter ----

  /** A register on the stack is its name; a number remembers whether it was written out. */
  datatype Entry = Named(x: Name) | Known(value: nat, bits: nat, literal: bool)

  /** `depth` blocks are being executed; inside them `skip` are being skipped. */
  datatype Run = Run(regs: Env, mem: Mem, stack: seq<Entry>, ctx: Option<Ctx>, depth: nat, skip: nat)

  function BitsOf(a: M.EsilArch, e: Entry): nat {
    match e
    case Named(x) => WidthOf(a, x)
    case Known(_, bits, _) => bits
  }

  function ValueOf(a: M.EsilArch, regs: Env, e: Entry): nat {
    match e
    case Named(x) => Look(a, regs, x)
    case Known(v, _, _) => v
  }

  /** The width an entry brings with it; a number written out brings none. */
  function OwnBits(a: M.EsilArch, e: Entry): Option<nat> {
    match e
    case Named(x) => Some(WidthOf(a, x))
    case Known(_, bits, literal) => if literal then None else Some(bits)
  }

  /** The `k`-th entry from the top. */
  function At(i: Run, k: nat): Entry
    requires k < |i.stack|
  {
    i.stack[|i.stack| - 1 - k]
  }

  function Pushed(i: Run, e: Entry): Run {
    i.(stack := i.stack + [e])
  }

  function Dropped(i: Run, n: nat): Run
    requires n <= |i.stack|
  {
    i.(stack := i.stack[..|i.stack| - n])
  }

  predicate Answers(op: M.EsilOp) {
    op.Less? || op.LessEq? || op.Greater? || op.GreaterEq?
  }

  /** The operators that have an assigning form. */
  predicate Assigns(op: M.EsilOp) {
    op.Plus? || op.Minus? || op.Times? || op.BAnd? || op.BOr? || op.BXor? || op.ShiftL? || op.ShiftR?
  }

  function RunArith(i: Run, op: M.EsilOp, a: M.EsilArch): Option<Run> {
    if |i.stack| < 2 then None else
    var l, r := At(i, 0), At(i, 1);
    var v := ArithNum(op, ValueOf(a, i.regs, l), BitsOf(a, l), ValueOf(a, i.regs, r), BitsOf(a, r));
    Some(Pushed(Dropped(i, 2), Known(v, if Answers(op) then 1 else Max(BitsOf(a, l), BitsOf(a, r)), false)))
  }

  /** `$z` and `$p` take nothing; `$s`, `$c`, `$b` and `$o` take a bit number written out. */
  function RunFlag(i: Run, suffix: string): Option<Run> {
    if i.ctx.None? then None
    else if suffix == "z" || suffix == "p" then
      match FlagNum(suffix, i.ctx.value, 0)
      case None => None
      case Some(v) => Some(Pushed(i, Known(v, 1, false)))
    else if i.stack == [] || At(i, 0).Named? || !At(i, 0).literal then None
    else
      match FlagNum(suffix, i.ctx.value, At(i, 0).value)
      case None => None
      case Some(v) => Some(Pushed(Dropped(i, 1), Known(v, 1, false)))
  }

  /** A write to the zero register is dropped, what it says of the flags is not. */
  function RunSet(i: Run, compound: Option<M.EsilOp>, seeds: bool, a: M.EsilArch): Option<Run> {
    if |i.stack| < 2 || At(i, 0).Known? || (compound.Some? && !Assigns(compound.value)) then None else
    var x, bits := At(i, 0).x, WidthOf(a, At(i, 0).x);
    var was, y := Look(a, i.regs, x), FitNum(ValueOf(a, i.regs, At(i, 1)), BitsOf(a, At(i, 1)), bits);
    var now := if compound.None? then y else ArithNum(compound.value, was, bits, y, bits);
    var j := Dropped(i, 2).(ctx := if seeds then Some(Ctx(was, now, bits)) else i.ctx);
    Some(if ReadsZero(a, x) then j else j.(regs := Put(a, j.regs, x, now)))
  }

  /** The first entry that brings a width decides at which one the two are compared. */
  function RunCompare(i: Run, a: M.EsilArch): Option<Run> {
    if |i.stack| < 2 then None else
    var l, r := At(i, 0), At(i, 1);
    var bits := if OwnBits(a, l).Some? then OwnBits(a, l).value
                else if OwnBits(a, r).Some? then OwnBits(a, r).value
                else Max(BitsOf(a, l), BitsOf(a, r));
    var x, y := FitNum(ValueOf(a, i.regs, l), BitsOf(a, l), bits), FitNum(ValueOf(a, i.regs, r), BitsOf(a, r), bits);
    Some(Dropped(i, 2).(ctx := Some(Ctx(x, Wrap(x - y, bits), bits))))
  }

  function RunLoad(i: Run, size: nat, a: M.EsilArch): Option<Run> {
    if i.stack == [] then None else
    var at := ValueOf(a, i.regs, At(i, 0)) % Pow2(a.arch.ptr);
    Some(Pushed(Dropped(i, 1), Known(LoadValue(i.mem, at, size, a.arch.ptr), 8 * size, false)))
  }

  function RunStore(i: Run, size: nat, a: M.EsilArch): Option<Run> {
    if |i.stack| < 2 then None else
    var at, x := ValueOf(a, i.regs, At(i, 0)) % Pow2(a.arch.ptr), FitNum(ValueOf(a, i.regs, At(i, 1)), BitsOf(a, At(i, 1)), 8 * size);
    Some(Dropped(i, 2).(mem := StoreValue(i.mem, at, x, size, a.arch.ptr)))
  }

  /** One token; `None` when the interpreter is stuck. */
  function RunToken(i: Run, t: M.Token, a: M.EsilArch): Option<Run> {
    if i.skip > 0 then
      Some(if t.Open? then i.(skip := i.skip + 1) else if t.Close? then i.(skip := i.skip - 1) else i)
    else
      match t
      case Literal(value) => Some(Pushed(i, Known(value % Pow2(a.arch.ptr), a.arch.ptr, true)))
      case Operand(name) => Some(Pushed(i, Named(name)))
      case Flag(suffix) => RunFlag(i, suffix)
      case Arith(op) => RunArith(i, op, a)
      case Not =>
        if i.stack == [] then None
        else Some(Pushed(Dropped(i, 1), Known(Bit(ValueOf(a, i.regs, At(i, 0)) == 0), 1, false)))
      case Compare => RunCompare(i, a)
      case NegAssign =>
        if i.stack == [] || At(i, 0).Known? then None
        else Some(Dropped(i, 1).(regs := Put(a, i.regs, At(i, 0).x, Bit(Look(a, i.regs, At(i, 0).x) == 0))))
      case Set(compound, seeds) => RunSet(i, compound, seeds, a)
      case Load(size) => RunLoad(i, size, a)
      case Store(size) => RunStore(i, size, a)
      case Open =>
        if i.stack == [] then None
        else if ValueOf(a, i.regs, At(i, 0)) != 0 then Some(Dropped(i, 1).(depth := i.depth + 1))
        else Some(Dropped(i, 1).(skip := 1))
      case Close => if i.depth == 0 then None else Some(i.(depth := i.depth - 1))
      case Junk(_) => None
  }

  function RunTokens(i: Run, ts: seq<M.Token>, a: M.EsilArch): Option<Run> {
    if ts == [] then Some(i) else
    match RunTokens(i, ts[..|ts| - 1], a)
    case None => None
    case Some(j) => RunToken(j, ts[|ts| - 1], a)
  }

  function StartRun(regs: Env, mem: Mem): Run {
    Run(regs, mem, [], None, 0, 0)
  }
}
