/** The P-code lifter: one statement per data-flow operation, over canonical variable
    names, each variable at the width its latest definition gave it. */
module Pcode {
  import opened Bits
  import opened Common
  import opened Ir

  datatype Arch = X86 | X8664 | Arm | Aarch64

  datatype Varnode =
    | Register(text: string)
    | UniqueSpace(offset: nat, size: nat)
    | Constant(value: nat, width: Option<nat>)
    | Ram(inner: Varnode)
    | CodeAddr(address: nat)

  datatype PcodeOp = PcodeOp(out: Option<Varnode>, opcode: string, inputs: seq<Varnode>)

  datatype PcodeInsn = PcodeInsn(address: nat, ops: seq<PcodeOp>)

  datatype PcodeError = ParseFailure | UnsupportedOpcode | BadVarnode | Arity

  datatype Opcode =
    | Copy | IntAdd | IntSub | IntMult | IntAnd | IntOr | IntXor | IntLeft | IntRight | IntSright
    | IntNegate | Int2Comp | IntZext | IntSext
    | IntEqual | IntNotEqual | IntLess | IntLessEqual | IntSless | IntSlessEqual
    | BoolNegate | BoolConj | BoolDisj | BoolParity | Subpiece
    | Load | Store | Flow | Unmodelled

  predicate IsControl(s: string) {
    s in ["BRANCH", "CBRANCH", "BRANCHIND", "CALL", "CALLIND", "CALLOTHER", "RETURN"]
  }

  /** The opcodes by their spelling; control flow defines nothing. */
  function OpcodeOf(s: string): Opcode {
    if s == "STORE" then Store
    else if IsControl(s) then Flow
    else if s == "LOAD" then Load
    else if s == "COPY" then Copy
    else ArithmeticOf(s)
  }

  function ArithmeticOf(s: string): Opcode {
    if s == "INT_ADD" then IntAdd
    else if s == "INT_SUB" then IntSub
    else if s == "INT_MULT" then IntMult
    else if s == "INT_AND" then IntAnd
    else if s == "INT_OR" then IntOr
    else if s == "INT_XOR" then IntXor
    else if s == "INT_LEFT" then IntLeft
    else if s == "INT_RIGHT" then IntRight
    else if s == "INT_SRIGHT" then IntSright
    else ExtensionOf(s)
  }

  function ExtensionOf(s: string): Opcode {
    if s == "INT_NEGATE" then IntNegate
    else if s == "INT_2COMP" then Int2Comp
    else if s == "INT_ZEXT" then IntZext
    else if s == "INT_SEXT" then IntSext
    else TruthOf(s)
  }

  function TruthOf(s: string): Opcode {
    if s == "INT_EQUAL" then IntEqual
    else if s == "INT_NOTEQUAL" then IntNotEqual
    else if s == "INT_LESS" then IntLess
    else if s == "INT_LESSEQUAL" then IntLessEqual
    else if s == "INT_SLESS" then IntSless
    else if s == "INT_SLESSEQUAL" then IntSlessEqual
    else if s == "BOOL_NEGATE" then BoolNegate
    else if s == "BOOL_AND" then BoolConj
    else if s == "BOOL_OR" then BoolDisj
    else if s == "BOOL_XOR" then BoolParity
    else if s == "SUBPIECE" then Subpiece
    else Unmodelled
  }

  // ---- Widths and names ----

  function PtrBits(a: Arch): nat {
    if a.X86? || a.Arm? then 32 else 64
  }

  predicate AllDigits(s: string) {
    forall k :: 0 <= k < |s| ==> '0' <= s[k] <= '9'
  }

  const FLAGS: seq<string> := ["ZR", "tmpZR", "NG", "tmpNG", "CY", "tmpCY", "OV", "tmpOV"]

  function RegisterBits(r: string, a: Arch): (w: nat)
    ensures w == 1 || w == 32 || w == 64
  {
    if r in FLAGS then 1
    else if r != "" && r[0] == 'x' && AllDigits(r[1..]) then 64
    else if r != "" && r[0] == 'w' && AllDigits(r[1..]) then 32
    else PtrBits(a)
  }

  function ByteBits(size: nat): nat {
    Min(size * 8, U16)
  }

  /** A varnode's own width, before any definition overrides it. */
  function Natural(vn: Varnode, a: Arch): nat {
    match vn
    case UniqueSpace(_, size) => Max(ByteBits(size), 1)
    case Constant(_, None) => 64
    case Constant(_, Some(s)) => Max(ByteBits(s), 1)
    case Register(r) => RegisterBits(r, a)
    case Ram(_) => 64
    case CodeAddr(_) => 64
  }

  /** Only the Z flag meets the canonical flag model; the others keep names of their own. */
  function MapRegister(r: string): string {
    if r == "ZR" || r == "tmpZR" then "ZF"
    else if r == "NG" || r == "tmpNG" then "pc_ng"
    else if r == "CY" || r == "tmpCY" then "pc_cy"
    else if r == "OV" || r == "tmpOV" then "pc_ov"
    else r
  }

  /** A varnode's variable. What no variable spells, the program prints behind a
      question mark; here those names are kept apart by constructor. */
  function VarName(vn: Varnode): Name {
    match vn
    case UniqueSpace(offset, size) => Unique(offset, size)
    case Register(r) => Plain(MapRegister(r))
    case Constant(v, None) => Minted("?const", v)
    case Constant(v, Some(s)) => Versioned(Minted("?const", v), s)
    case Ram(inner) => Sided(SideA, VarName(inner), 0)
    case CodeAddr(v) => Minted("?code", v)
  }

  // ---- The machine ----

  datatype Machine = Machine(widths: map<Name, nat>, statements: seq<Stmt>)

  const START := Machine(map[], [])

  function VarWidth(a: Arch, widths: map<Name, nat>, vn: Varnode): nat {
    if VarName(vn) in widths then widths[VarName(vn)] else Natural(vn, a)
  }

  /** The width an operand brings to a binary operation; a size-less constant brings none. */
  function OperandBits(a: Arch, vn: Varnode): Option<nat> {
    if vn.Constant? && vn.width.None? then None else Some(Natural(vn, a))
  }

  function Read(a: Arch, widths: map<Name, nat>, vn: Varnode): Result<Expr, PcodeError> {
    match vn
    case Constant(value, size) => Ok(Const(value, if size.Some? then ByteBits(size.value) else PtrBits(a)))
    case Register(_) => Ok(Ref(Var(VarName(vn), VarWidth(a, widths, vn))))
    case UniqueSpace(_, _) => Ok(Ref(Var(VarName(vn), VarWidth(a, widths, vn))))
    case _ => Err(BadVarnode)
  }

  /** A size-less constant takes the width of its co-operand. */
  function ReadOperand(a: Arch, widths: map<Name, nat>, vn: Varnode, hint: nat): Result<Expr, PcodeError> {
    if vn.Constant? && vn.width.None? then Ok(Const(vn.value, hint)) else Read(a, widths, vn)
  }

  function ReadMemAddr(a: Arch, widths: map<Name, nat>, vn: Varnode): Result<Expr, PcodeError> {
    match vn
    case Ram(inner) => Read(a, widths, inner)
    case Register(_) => Read(a, widths, vn)
    case UniqueSpace(_, _) => Read(a, widths, vn)
    case _ => Err(BadVarnode)
  }

  /** The width a co-operand lends to a size-less constant. */
  function Hint(a: Arch, other: Varnode): nat {
    var w := OperandBits(a, other);
    if w.Some? then w.value else PtrBits(a)
  }

  function Binary(a: Arch, widths: map<Name, nat>, inputs: seq<Varnode>, op: BinOp): Result<Expr, PcodeError> {
    if |inputs| != 2 then Err(Arity) else
    var x := ReadOperand(a, widths, inputs[0], Hint(a, inputs[1]));
    if x.Err? then x else
    var y := ReadOperand(a, widths, inputs[1], Hint(a, inputs[0]));
    if y.Err? then y else Ok(Bin(op, x.value, y.value))
  }

  function Unary(a: Arch, widths: map<Name, nat>, inputs: seq<Varnode>): Result<Expr, PcodeError> {
    if |inputs| != 1 then Err(Arity) else Read(a, widths, inputs[0])
  }

  function AllOnes(bits: nat): nat {
    Ones(Min(bits, 128))
  }

  /** The IR operation of a two-operand opcode. */
  function IrOp(code: Opcode): Option<BinOp> {
    match code
    case IntAdd => Some(Add)
    case IntSub => Some(Sub)
    case IntMult => Some(Mul)
    case IntAnd => Some(And)
    case IntOr => Some(Or)
    case IntXor => Some(Xor)
    case IntLeft => Some(Shl)
    case IntRight => Some(LShr)
    case IntSright => Some(AShr)
    case IntEqual => Some(Eq)
    case IntNotEqual => Some(Ne)
    case IntLess => Some(Ult)
    case IntLessEqual => Some(Ule)
    case IntSless => Some(Slt)
    case IntSlessEqual => Some(Sle)
    case BoolConj => Some(And)
    case BoolDisj => Some(Or)
    case BoolParity => Some(Xor)
    case _ => None
  }

  /** What a one-operand opcode makes of its operand. */
  function UnaryExpr(code: Opcode, x: Expr, out: nat): Option<Expr> {
    match code
    case Copy => Some(x)
    case IntNegate => Some(Bin(Xor, x, Const(AllOnes(out), out)))
    case Int2Comp => Some(Bin(Sub, Const(0, out), x))
    case IntZext => Some(Un(ZeroExtend(out), x))
    case IntSext => Some(Un(SignExtend(out), x))
    case BoolNegate => Some(Ite(Bin(Eq, x, Const(0, 1)), Const(1, 1), Const(0, 1)))
    case _ => None
  }

  function PieceOf(a: Arch, widths: map<Name, nat>, inputs: seq<Varnode>, out: nat): Result<Expr, PcodeError> {
    if |inputs| != 2 then Err(Arity)
    else if !inputs[1].Constant? then Err(BadVarnode)
    else
      var src := Read(a, widths, inputs[0]);
      if src.Err? then src
      else if inputs[1].value * 8 > U16 then Err(BadVarnode)
      else
        var lo := inputs[1].value * 8;
        Ok(Un(Extract(SaturatingAdd(lo, SaturatingSub(out, 1)), lo), src.value))
  }

  /** The value expression of a defining opcode. */
  function EvalOp(a: Arch, widths: map<Name, nat>, code: Opcode, inputs: seq<Varnode>, out: nat): Result<Expr, PcodeError> {
    if IrOp(code).Some? then Binary(a, widths, inputs, IrOp(code).value)
    else if UnaryExpr(code, Const(0, 0), out).Some? then
      var x := Unary(a, widths, inputs);
      if x.Err? then x else Ok(UnaryExpr(code, x.value, out).value)
    else if code.Subpiece? then PieceOf(a, widths, inputs, out)
    else Err(UnsupportedOpcode)
  }

  function ExprBits(e: Expr, fallback: nat): nat {
    match e
    case Const(_, bits) => bits
    case Ref(v) => v.bits
    case Un(ZeroExtend(n), _) => n
    case Un(SignExtend(n), _) => n
    case Un(Extract(hi, lo), _) => SaturatingAdd(SaturatingSub(hi, lo), 1)
    case Bin(op, _, _) => if op.Eq? || op.Ne? || op.Ult? || op.Ule? || op.Slt? || op.Sle? then 1 else fallback
    case Ite(_, t, _) => ExprBits(t, fallback)
    case _ => fallback
  }

  function Define(m: Machine, out: Varnode, bits: nat, s: Stmt): Machine {
    Machine(m.widths[VarName(out) := bits], m.statements + [s])
  }

  function LiftStore(a: Arch, m: Machine, inputs: seq<Varnode>): Result<Machine, PcodeError> {
    if |inputs| != 2 then Err(Arity) else
    var addr := ReadMemAddr(a, m.widths, inputs[0]);
    if addr.Err? then Err(addr.error) else
    var value := Read(a, m.widths, inputs[1]);
    if value.Err? then Err(value.error)
    else Ok(m.(statements := m.statements + [StoreMem(addr.value, value.value, VarWidth(a, m.widths, inputs[1]))]))
  }

  function LiftLoad(a: Arch, m: Machine, out: Varnode, inputs: seq<Varnode>): Result<Machine, PcodeError> {
    if |inputs| != 1 then Err(Arity) else
    var addr := ReadMemAddr(a, m.widths, inputs[0]);
    if addr.Err? then Err(addr.error) else
    var bits := Natural(out, a);
    Ok(Define(m, out, bits, LoadMem(Var(VarName(out), bits), addr.value, bits)))
  }

  function LiftDefining(a: Arch, m: Machine, code: Opcode, op: PcodeOp): Result<Machine, PcodeError> {
    if op.out.None? then Err(Arity)
    else if code.Load? then LiftLoad(a, m, op.out.value, op.inputs)
    else
      var natural := Natural(op.out.value, a);
      var e := EvalOp(a, m.widths, code, op.inputs, natural);
      if e.Err? then Err(e.error) else
      var bits := ExprBits(e.value, natural);
      Ok(Define(m, op.out.value, bits, Assign(Var(VarName(op.out.value), bits), e.value)))
  }

  function LiftOp(a: Arch, m: Machine, op: PcodeOp): Result<Machine, PcodeError> {
    var code := OpcodeOf(op.opcode);
    if code.Store? then LiftStore(a, m, op.inputs)
    else if code.Flow? then Ok(m)
    else LiftDefining(a, m, code, op)
  }

  function LiftOps(a: Arch, ops: seq<PcodeOp>): Result<Machine, PcodeError> {
    if ops == [] then Ok(START) else
    var m := LiftOps(a, ops[..|ops| - 1]);
    if m.Err? then m else LiftOp(a, m.value, ops[|ops| - 1])
  }

  /** The operations of a listing, one instruction after the other. */
  function OpsOf(insns: seq<PcodeInsn>): seq<PcodeOp> {
    if insns == [] then [] else OpsOf(insns[..|insns| - 1]) + insns[|insns| - 1].ops
  }

  // ---- Every variable is read at the width of its latest definition ----

  function Target(s: Stmt): Option<Var> {
    match s
    case Assign(dst, _) => Some(dst)
    case LoadMem(dst, _, _) => Some(dst)
    case _ => None
  }

  function LatestWidth(ss: seq<Stmt>, x: Name): Option<nat> {
    if ss == [] then None else
    var t := Target(ss[|ss| - 1]);
    if t.Some? && t.value.name == x then Some(t.value.bits) else LatestWidth(ss[..|ss| - 1], x)
  }

  function Refs(e: Expr): set<Var> {
    match e
    case Ref(v) => {v}
    case Un(_, x) => Refs(x)
    case Bin(_, x, y) => Refs(x) + Refs(y)
    case Ite(c, x, y) => Refs(c) + Refs(x) + Refs(y)
    case _ => {}
  }

  function StmtRefs(s: Stmt): set<Var> {
    match s
    case Assign(_, e) => Refs(e)
    case LoadMem(_, e, _) => Refs(e)
    case StoreMem(e, f, _) => Refs(e) + Refs(f)
    case _ => {}
  }

  ghost predicate WidthsAreLatest(m: Machine) {
    forall x :: LatestWidth(m.statements, x) == if x in m.widths then Some(m.widths[x]) else None
  }

  /** A variable is a varnode's, at the width its latest definition gave it or else its own. */
  ghost predicate AtLatest(a: Arch, ss: seq<Stmt>, v: Var) {
    LatestWidth(ss, v.name) == Some(v.bits) || (LatestWidth(ss, v.name) == None && exists vn :: VarName(vn) == v.name && Natural(vn, a) == v.bits)
  }

  ghost predicate ReadsAtLatest(a: Arch, ss: seq<Stmt>) {
    forall i: nat, v :: i < |ss| && v in StmtRefs(ss[i]) ==> AtLatest(a, ss[..i], v)
  }

  lemma LatestAppend(ss: seq<Stmt>, s: Stmt, x: Name)
    ensures LatestWidth(ss + [s], x) == if Target(s).Some? && Target(s).value.name == x then Some(Target(s).value.bits) else LatestWidth(ss, x)
  {
    assert (ss + [s])[..|ss|] == ss;
  }

  lemma ReadIsLatest(a: Arch, m: Machine, vn: Varnode, v: Var)
    requires WidthsAreLatest(m)
    requires var e := Read(a, m.widths, vn); e.Ok? && v in Refs(e.value)
    ensures AtLatest(a, m.statements, v)
  {
    assert v == Var(VarName(vn), VarWidth(a, m.widths, vn));
    assert LatestWidth(m.statements, v.name) == if v.name in m.widths then Some(m.widths[v.name]) else None;
  }

  lemma EvalIsLatest(a: Arch, m: Machine, code: Opcode, inputs: seq<Varnode>, out: nat, v: Var)
    requires WidthsAreLatest(m)
    requires var e := EvalOp(a, m.widths, code, inputs, out); e.Ok? && v in Refs(e.value)
    ensures AtLatest(a, m.statements, v)
  {
    hide WidthsAreLatest, AtLatest, VarWidth, VarName, Natural, Pow2;
    if IrOp(code).Some? {
      var x, y := ReadOperand(a, m.widths, inputs[0], Hint(a, inputs[1])), ReadOperand(a, m.widths, inputs[1], Hint(a, inputs[0]));
      if v in Refs(x.value) {
        ReadIsLatest(a, m, inputs[0], v);
      } else {
        ReadIsLatest(a, m, inputs[1], v);
      }
    } else {
      assert v in Refs(Read(a, m.widths, inputs[0]).value);
      ReadIsLatest(a, m, inputs[0], v);
    }
  }

  lemma AppendReads(a: Arch, ss: seq<Stmt>, s: Stmt)
    requires ReadsAtLatest(a, ss)
    requires forall v :: v in StmtRefs(s) ==> AtLatest(a, ss, v)
    ensures ReadsAtLatest(a, ss + [s])
  {
    hide AtLatest, StmtRefs;
    forall i: nat, v | i < |ss + [s]| && v in StmtRefs((ss + [s])[i])
      ensures AtLatest(a, (ss + [s])[..i], v)
    {
      assert (ss + [s])[..i] == if i < |ss| then ss[..i] else ss;
    }
  }

  lemma DefineKeepsWidths(a: Arch, m: Machine, out: Varnode, bits: nat, s: Stmt)
    requires WidthsAreLatest(m) && ReadsAtLatest(a, m.statements)
    requires Target(s) == Some(Var(VarName(out), bits))
    requires forall v :: v in StmtRefs(s) ==> AtLatest(a, m.statements, v)
    ensures WidthsAreLatest(Define(m, out, bits, s)) && ReadsAtLatest(a, Define(m, out, bits, s).statements)
  {
    AppendReads(a, m.statements, s);
    hide ReadsAtLatest, AtLatest, StmtRefs, VarName;
    forall x
      ensures LatestWidth(m.statements + [s], x) == if x in m.widths[VarName(out) := bits] then Some(m.widths[VarName(out) := bits][x]) else None
    {
      LatestAppend(m.statements, s, x);
      assert LatestWidth(m.statements, x) == if x in m.widths then Some(m.widths[x]) else None;
    }
  }

  lemma StoreKeepsWidths(a: Arch, m: Machine, op: PcodeOp)
    requires WidthsAreLatest(m) && ReadsAtLatest(a, m.statements)
    requires LiftStore(a, m, op.inputs).Ok?
    ensures var n := LiftStore(a, m, op.inputs).value; WidthsAreLatest(n) && ReadsAtLatest(a, n.statements)
  {
    var n := LiftStore(a, m, op.inputs).value;
    var s := n.statements[|m.statements|];
    forall v | v in StmtRefs(s)
      ensures AtLatest(a, m.statements, v)
    {
      AddressIsLatest(a, m, op.inputs[0], v);
      if v in Refs(s.value) {
        ReadIsLatest(a, m, op.inputs[1], v);
      }
    }
    AppendReads(a, m.statements, s);
    hide ReadsAtLatest, AtLatest;
    forall x
      ensures LatestWidth(n.statements, x) == if x in m.widths then Some(m.widths[x]) else None
    {
      LatestAppend(m.statements, s, x);
    }
  }

  lemma AddressIsLatest(a: Arch, m: Machine, vn: Varnode, v: Var)
    requires WidthsAreLatest(m)
    ensures var e := ReadMemAddr(a, m.widths, vn); e.Ok? && v in Refs(e.value) ==> AtLatest(a, m.statements, v)
  {
    hide AtLatest, WidthsAreLatest;
    var e := ReadMemAddr(a, m.widths, vn);
    if e.Ok? && v in Refs(e.value) {
      ReadIsLatest(a, m, if vn.Ram? then vn.inner else vn, v);
    }
  }

  lemma OpKeepsWidths(a: Arch, m: Machine, op: PcodeOp)
    requires WidthsAreLatest(m) && ReadsAtLatest(a, m.statements)
    requires LiftOp(a, m, op).Ok?
    ensures var n := LiftOp(a, m, op).value; WidthsAreLatest(n) && ReadsAtLatest(a, n.statements)
  {
    hide WidthsAreLatest, ReadsAtLatest, OpcodeOf, AtLatest, EvalOp, ReadMemAddr, Natural, VarName;
    var code := OpcodeOf(op.opcode);
    if code.Store? {
      StoreKeepsWidths(a, m, op);
    } else if code.Load? {
      var out, bits := op.out.value, Natural(op.out.value, a);
      var s := LoadMem(Var(VarName(out), bits), ReadMemAddr(a, m.widths, op.inputs[0]).value, bits);
      forall v | v in StmtRefs(s)
        ensures AtLatest(a, m.statements, v)
      {
        AddressIsLatest(a, m, op.inputs[0], v);
      }
      DefineKeepsWidths(a, m, out, bits, s);
    } else if !code.Flow? {
      var out := op.out.value;
      var e := EvalOp(a, m.widths, code, op.inputs, Natural(out, a)).value;
      var bits := ExprBits(e, Natural(out, a));
      var s := Assign(Var(VarName(out), bits), e);
      forall v | v in StmtRefs(s)
        ensures AtLatest(a, m.statements, v)
      {
        EvalIsLatest(a, m, code, op.inputs, Natural(out, a), v);
      }
      DefineKeepsWidths(a, m, out, bits, s);
    }
  }

  /** In every lift of every operation list, typed or not, each variable occurrence carries the
      width of its latest definition, and its varnode's own width when there is none. */
  lemma {:induction false} LiftReadsAtLatest(a: Arch, ops: seq<PcodeOp>)
    requires LiftOps(a, ops).Ok?
    ensures var m := LiftOps(a, ops).value; WidthsAreLatest(m) && ReadsAtLatest(a, m.statements)
    decreases |ops|
  {
    hide LiftOp, AtLatest;
    if ops != [] {
      LiftReadsAtLatest(a, ops[..|ops| - 1]);
      hide WidthsAreLatest, ReadsAtLatest;
      OpKeepsWidths(a, LiftOps(a, ops[..|ops| - 1]).value, ops[|ops| - 1]);
    }
  }
}
