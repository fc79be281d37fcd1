/** The ESIL stack machine as functions: each token rewrites the stack, the
    statements emitted so far, the flag context and the open blocks. */
module EsilMachine {
  import opened Bits
  import opened Common
  import opened Ir
  import opened Layouts
  import opened RegView
  import opened Flags

  // ---- Tokens and register tables ----

  datatype EsilOp = Plus | Minus | Times | Divide | Modulo | BAnd | BOr | BXor | ShiftL | ShiftR
                  | Less | LessEq | Greater | GreaterEq

  /** `Set` is every assignment: `=`, `:=`, which seeds no flags, and `op=`. */
  datatype Token =
    | Literal(value: nat)
    | Operand(name: Name)
    | Flag(suffix: string)
    | Arith(op: EsilOp)
    | Not
    | Compare
    | NegAssign
    | Set(compound: Option<EsilOp>, seeds: bool)
    | Load(size: nat)
    | Store(size: nat)
    | Open
    | Close
    | Junk(text: string)

  datatype EsilError = UnknownToken | StackUnderflow | UnsupportedControlFlow | InvalidAssignmentTarget | UnsupportedFlag

  /** The register tables, the hardwired zero registers, the widths of names outside
      the tables, and whether `CF` is stored complemented. */
  datatype EsilArch = EsilArch(arch: Arch, zeros: set<Name>, widths: map<Name, nat>, complement: bool)

  function Canonical(x: Name): Name {
    if x == Plain("zf") then Plain("ZF")
    else if x == Plain("cf") then Plain("CF")
    else if x == Plain("sf") || x == Plain("nf") then Plain("SF")
    else if x == Plain("of") || x == Plain("vf") then Plain("OF")
    else if x == Plain("pf") then Plain("PF")
    else x
  }

  /** The tables place `x` in a general register no wider than a pointer. */
  predicate Placed(a: EsilArch, x: Name) {
    x in a.arch.layouts && a.arch.layouts[x].parent !in a.arch.simd && a.arch.layouts[x].hi < a.arch.ptr
  }

  function RegisterRef(a: EsilArch, x: Name): RegRef {
    if Placed(a, x) then
      var l := a.arch.layouts[x];
      RegRef(Var(l.parent, a.arch.ptr), l.lo, l.hi, l.zeroExtends && a.arch.ptr == 64, l.parent in a.zeros, false)
    else WholeRef(Var(x, if x in a.widths then a.widths[x] else a.arch.ptr))
  }

  /** The operand a register token pushes. */
  function OperandRef(a: EsilArch, x: Name): RegRef {
    var name := Canonical(x);
    RegisterRef(a, name).(invert := name == Plain("CF") && a.complement)
  }

  // ---- The machine ----

  datatype StackValue = InRegister(r: RegRef) | Computed(expr: Expr, bits: nat)

  /** A seeded flag context named but not yet emitted: both halves belong at `at`. */
  datatype Pending = Pending(at: nat, was: Option<(Var, Expr)>, cur: Option<(Var, Expr)>)

  datatype Block = Block(cond: Expr, start: nat, memOp: bool)

  datatype Machine = Machine(stack: seq<StackValue>, statements: seq<Stmt>, ctx: Option<FlagCtx>, blocks: seq<Block>,
                             pending: Option<Pending>)

  const FRESH := Machine([], [], None, [], None)

  function ValueBits(v: StackValue): nat {
    match v
    case InRegister(r) => RegBits(r)
    case Computed(_, bits) => bits
  }

  function ValueExpr(v: StackValue): Expr {
    match v
    case InRegister(r) => ReadExpr(r)
    case Computed(e, _) => e
  }

  /** A bare constant carries no architectural width. */
  function ArchitecturalBits(v: StackValue): Option<nat> {
    match v
    case InRegister(r) => Some(RegBits(r))
    case Computed(e, bits) => if e.Const? then None else Some(bits)
  }

  function Widen(v: StackValue, to: nat): Expr {
    Coerce(ValueExpr(v), ValueBits(v), to)
  }

  function WidenSigned(v: StackValue, to: nat): Expr {
    var e, from := ValueExpr(v), ValueBits(v);
    if from == to then e
    else if from < to then Un(SignExtend(to), e)
    else Un(Extract(SaturatingSub(to, 1), 0), e)
  }

  function ToBit(v: StackValue): Expr {
    if ValueBits(v) == 1 then ValueExpr(v)
    else Ite(Bin(Eq, ValueExpr(v), Const(0, ValueBits(v))), Const(0, 1), Const(1, 1))
  }

  function Top(m: Machine): StackValue
    requires m.stack != []
  {
    m.stack[|m.stack| - 1]
  }

  function Second(m: Machine): StackValue
    requires |m.stack| >= 2
  {
    m.stack[|m.stack| - 2]
  }

  function Drop(m: Machine, n: nat): Machine
    requires n <= |m.stack|
  {
    m.(stack := m.stack[..|m.stack| - n])
  }

  function PushTo(m: Machine, v: StackValue): Machine {
    m.(stack := m.stack + [v])
  }

  function Emit(m: Machine, s: Stmt): Machine {
    m.(statements := m.statements + [s])
  }

  function IsCompare(op: EsilOp): bool {
    op.Less? || op.LessEq? || op.Greater? || op.GreaterEq?
  }

  /** The second token of `a,b,OP` is the left operand, so it is on top. */
  function ArithExpr(op: EsilOp, lhs: StackValue, rhs: StackValue): Expr {
    var bits := Max(ValueBits(lhs), ValueBits(rhs));
    match op
    case Plus => Bin(Add, Widen(lhs, bits), Widen(rhs, bits))
    case Minus => Bin(Sub, Widen(lhs, bits), Widen(rhs, bits))
    case Times => Bin(Mul, Widen(lhs, bits), Widen(rhs, bits))
    case Divide => Bin(UDiv, Widen(lhs, bits), Widen(rhs, bits))
    case Modulo => Bin(URem, Widen(lhs, bits), Widen(rhs, bits))
    case BAnd => Bin(And, Widen(lhs, bits), Widen(rhs, bits))
    case BOr => Bin(Or, Widen(lhs, bits), Widen(rhs, bits))
    case BXor => Bin(Xor, Widen(lhs, bits), Widen(rhs, bits))
    case ShiftL => Bin(Shl, Widen(lhs, bits), Widen(rhs, bits))
    case ShiftR => Bin(LShr, Widen(lhs, bits), Widen(rhs, bits))
    case Less => Bin(Slt, WidenSigned(lhs, bits), WidenSigned(rhs, bits))
    case LessEq => Bin(Sle, WidenSigned(lhs, bits), WidenSigned(rhs, bits))
    case Greater => Bin(Slt, WidenSigned(rhs, bits), WidenSigned(lhs, bits))
    case GreaterEq => Bin(Sle, WidenSigned(rhs, bits), WidenSigned(lhs, bits))
  }

  function ApplyArith(m: Machine, op: EsilOp): Result<Machine, EsilError> {
    if |m.stack| < 2 then Err(StackUnderflow) else
    var bits := Max(ValueBits(Top(m)), ValueBits(Second(m)));
    Ok(PushTo(Drop(m, 2), Computed(ArithExpr(op, Top(m), Second(m)), if IsCompare(op) then 1 else bits)))
  }

  function ApplyNot(m: Machine): Result<Machine, EsilError> {
    if m.stack == [] then Err(StackUnderflow) else
    var v := Top(m);
    Ok(PushTo(Drop(m, 1), Computed(AsBit(Bin(Eq, ValueExpr(v), Const(0, ValueBits(v)))), 1)))
  }

  // ---- Flags ----

  function TempVar(prefix: string, m: Machine, bits: nat): Var {
    Var(Temp(prefix, |m.statements|), bits)
  }

  /** Name both halves of the context now; emit neither. */
  function Seed(m: Machine, r: RegRef, value: Expr): Machine {
    var bits := RegBits(r);
    var was, cur := TempVar("old", m, bits), TempVar("cur", m, bits);
    m.(pending := Some(Pending(|m.statements|, Some((was, ReadExpr(r))), Some((cur, value)))),
       ctx := Some(FlagCtx(Ref(was), Ref(cur), bits)))
  }

  function Shifted(blocks: seq<Block>, at: nat): seq<Block> {
    if blocks == [] then [] else
    var b := blocks[|blocks| - 1];
    Shifted(blocks[..|blocks| - 1], at) + [if b.start > at then b.(start := b.start + 1) else b]
  }

  /** Splice a snapshot in ahead of the write it precedes. */
  function InsertSnapshot(m: Machine, at: nat, t: Var, src: Expr): Machine {
    if at > |m.statements| then m else
    m.(statements := m.statements[..at] + [Assign(t, src)] + m.statements[at..], blocks := Shifted(m.blocks, at))
  }

  function MaterialiseCur(m: Machine): Machine {
    if m.pending.None? || m.pending.value.cur.None? then m else
    var p := m.pending.value;
    InsertSnapshot(m, p.at, p.cur.value.0, p.cur.value.1).(pending := Some(p.(cur := None)))
  }

  function MaterialiseWas(m: Machine): Machine {
    if m.pending.None? || m.pending.value.was.None? then m else
    var p := m.pending.value;
    InsertSnapshot(m, p.at, p.was.value.0, p.was.value.1).(pending := Some(p.(was := None)))
  }

  /** The literal bit index a parametric flag pops. */
  function FlagIndex(v: StackValue): Option<nat> {
    match v
    case InRegister(_) => None
    case Computed(e, _) => if e.Const? && e.value <= U16 then Some(e.value) else None
  }

  function FlagExpr(suffix: string, ctx: FlagCtx, n: nat): Option<Expr> {
    if suffix == "z" then Some(ZeroFlag(ctx))
    else if suffix == "p" then ParityFlag(ctx)
    else if suffix == "s" then SignFlag(ctx, n)
    else if suffix == "c" then CarryFlag(ctx, n)
    else if suffix == "b" then BorrowFlag(ctx, n)
    else if suffix == "o" then OverflowFlag(ctx, n)
    else None
  }

  /** `$z` and `$p` pop nothing, the others their bit index. */
  predicate IsIndexed(suffix: string) {
    suffix == "s" || suffix == "c" || suffix == "b" || suffix == "o"
  }

  predicate NeedsWas(suffix: string) {
    suffix == "c" || suffix == "b" || suffix == "o"
  }

  function ApplyFlag(m: Machine, suffix: string): Result<Machine, EsilError> {
    if m.ctx.None? then Err(UnsupportedFlag) else
    var cur := MaterialiseCur(m);
    if !IsIndexed(suffix) then
      match FlagExpr(suffix, m.ctx.value, 0)
      case None => Err(UnsupportedFlag)
      case Some(e) => Ok(PushTo(cur, Computed(e, 1)))
    else if m.stack == [] then Err(StackUnderflow)
    else
      var index := FlagIndex(Top(m));
      if index.None? then Err(UnsupportedFlag) else
      var both := if NeedsWas(suffix) then MaterialiseWas(Drop(cur, 1)) else Drop(cur, 1);
      match FlagExpr(suffix, m.ctx.value, index.value)
      case None => Err(UnsupportedFlag)
      case Some(e) => Ok(PushTo(both, Computed(e, 1)))
  }

  /** `==` seeds the context in place and pushes nothing. */
  function ApplyCompare(m: Machine): Result<Machine, EsilError> {
    if |m.stack| < 2 then Err(StackUnderflow) else
    var lhs, rhs := Top(m), Second(m);
    var bits := CompareBits(lhs, rhs);
    Ok(Drop(m, 2).(ctx := Some(FlagCtx(Widen(lhs, bits), Bin(Sub, Widen(lhs, bits), Widen(rhs, bits)), bits))))
  }

  function CompareBits(lhs: StackValue, rhs: StackValue): nat {
    if ArchitecturalBits(lhs).Some? then ArchitecturalBits(lhs).value
    else if ArchitecturalBits(rhs).Some? then ArchitecturalBits(rhs).value
    else Max(ValueBits(lhs), ValueBits(rhs))
  }

  // ---- Writes ----

  function CompoundOp(op: EsilOp): Option<BinOp> {
    match op
    case Plus => Some(Add)
    case Minus => Some(Sub)
    case Times => Some(Mul)
    case BAnd => Some(And)
    case BOr => Some(Or)
    case BXor => Some(Xor)
    case ShiftL => Some(Shl)
    case ShiftR => Some(LShr)
    case _ => None
  }

  function AssignedExpr(r: RegRef, value: Expr, compound: Option<EsilOp>): Option<Expr> {
    if compound.None? then Some(value)
    else if CompoundOp(compound.value).None? then None
    else Some(Bin(CompoundOp(compound.value).value, ReadExpr(r), value))
  }

  function ApplySet(m: Machine, compound: Option<EsilOp>, seeds: bool): Result<Machine, EsilError> {
    if |m.stack| < 2 then Err(StackUnderflow)
    else if Top(m).Computed? then Err(InvalidAssignmentTarget)
    else
      var r := Top(m).r;
      match AssignedExpr(r, Widen(Second(m), RegBits(r)), compound)
      case None => Err(UnknownToken)
      case Some(e) =>
        var seeded := if seeds then Seed(Drop(m, 2), r, e) else Drop(m, 2);
        Ok(if r.zero then seeded else Emit(seeded, Assign(r.variable, WriteExpr(r, e))))
  }

  function NegatedExpr(r: RegRef): Expr {
    Ite(Bin(Eq, ReadExpr(r), Const(0, RegBits(r))), Const(1, RegBits(r)), Const(0, RegBits(r)))
  }

  function ApplyNegAssign(m: Machine): Result<Machine, EsilError> {
    if m.stack == [] then Err(StackUnderflow)
    else if Top(m).Computed? then Err(InvalidAssignmentTarget)
    else Ok(Emit(Drop(m, 1), Assign(Top(m).r.variable, WriteExpr(Top(m).r, NegatedExpr(Top(m).r)))))
  }

  // ---- Memory and blocks ----

  function MarkMemOp(m: Machine): Machine {
    if m.blocks == [] then m else
    var n := |m.blocks| - 1;
    m.(blocks := m.blocks[..n] + [m.blocks[n].(memOp := true)])
  }

  function ApplyLoad(m: Machine, size: nat): Result<Machine, EsilError> {
    if m.stack == [] then Err(StackUnderflow) else
    var dst := TempVar("ld", m, 8 * size);
    Ok(PushTo(MarkMemOp(Emit(Drop(m, 1), LoadMem(dst, ValueExpr(Top(m)), 8 * size))), InRegister(WholeRef(dst))))
  }

  function ApplyStore(m: Machine, size: nat): Result<Machine, EsilError> {
    if |m.stack| < 2 then Err(StackUnderflow)
    else Ok(MarkMemOp(Emit(Drop(m, 2), StoreMem(ValueExpr(Top(m)), Widen(Second(m), 8 * size), 8 * size))))
  }

  function OpenBlock(m: Machine): Result<Machine, EsilError> {
    if m.stack == [] then Err(StackUnderflow)
    else Ok(Drop(m, 1).(blocks := m.blocks + [Block(ToBit(Top(m)), |m.statements|, false)]))
  }

  /** An assignment that happens only under `cond`. */
  function Guarded(s: Stmt, cond: Expr): Stmt {
    if s.Assign? then Assign(s.dst, Ite(cond, s.rhs, Ref(s.dst))) else s
  }

  function GuardFrom(ss: seq<Stmt>, start: nat, cond: Expr): seq<Stmt> {
    if |ss| <= start then ss
    else GuardFrom(ss[..|ss| - 1], start, cond) + [Guarded(ss[|ss| - 1], cond)]
  }

  function CloseBlock(m: Machine): Result<Machine, EsilError> {
    if m.blocks == [] then Err(UnsupportedControlFlow) else
    var b := m.blocks[|m.blocks| - 1];
    if b.memOp then Err(UnsupportedControlFlow)
    else Ok(m.(blocks := m.blocks[..|m.blocks| - 1], statements := GuardFrom(m.statements, b.start, b.cond)))
  }

  // ---- The lift ----

  function StepToken(m: Machine, t: Token, a: EsilArch): Result<Machine, EsilError> {
    match t
    case Literal(value) => Ok(PushTo(m, Computed(Const(value, a.arch.ptr), a.arch.ptr)))
    case Operand(name) => Ok(PushTo(m, InRegister(OperandRef(a, name))))
    case Flag(suffix) => ApplyFlag(m, suffix)
    case Arith(op) => ApplyArith(m, op)
    case Not => ApplyNot(m)
    case Compare => ApplyCompare(m)
    case NegAssign => ApplyNegAssign(m)
    case Set(compound, seeds) => ApplySet(m, compound, seeds)
    case Load(size) => ApplyLoad(m, size)
    case Store(size) => ApplyStore(m, size)
    case Open => OpenBlock(m)
    case Close => CloseBlock(m)
    case Junk(_) => Err(UnknownToken)
  }

  function Steps(ts: seq<Token>, a: EsilArch): Result<Machine, EsilError> {
    if ts == [] then Ok(FRESH) else
    match Steps(ts[..|ts| - 1], a)
    case Err(e) => Err(e)
    case Ok(m) => StepToken(m, ts[|ts| - 1], a)
  }

  /** The statements of a whole token stream; an unclosed block declines. */
  function LiftEsil(ts: seq<Token>, a: EsilArch): Result<seq<Stmt>, EsilError> {
    match Steps(ts, a)
    case Err(e) => Err(e)
    case Ok(m) => if m.blocks == [] then Ok(m.statements) else Err(UnsupportedControlFlow)
  }
}
