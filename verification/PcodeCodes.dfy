/** The interpreter by decoded opcode, between the lifter, which decodes, and the interpreter of
    the operations' text. */
module PcodeCodes {
  import opened Bits
  import opened Common
  import opened Ir
  import opened Pcode

  predicate IsVar(vn: Varnode) {
    vn.Register? || vn.UniqueSpace?
  }

  predicate Sizeless(vn: Varnode) {
    vn.Constant? && vn.width.None?
  }

  /** The width of an operand standing beside `other`. */
  function OwnBits(a: Arch, vn: Varnode, other: Varnode): nat {
    if Sizeless(vn) then Natural(other, a) else Natural(vn, a)
  }

  function NumOf(a: Arch, vn: Varnode, env: Env): nat {
    if vn.Constant? && vn.width.Some? then Cut(vn.value, ByteBits(vn.width.value))
    else if IsVar(vn) then Cut(Get(env, VarName(vn)), Natural(vn, a))
    else 0
  }

  function OperandNum(a: Arch, vn: Varnode, other: Varnode, env: Env): nat {
    if Sizeless(vn) then Cut(vn.value, Natural(other, a)) else NumOf(a, vn, env)
  }

  function AddressNum(a: Arch, vn: Varnode, env: Env): nat {
    var at := if vn.Ram? then vn.inner else vn;
    if Sizeless(at) then Cut(at.value, PtrBits(a)) else NumOf(a, at, env)
  }

  function Halved(x: nat, n: nat): nat {
    DivNat(x, Pow2(n));
    x / Pow2(n)
  }

  /** Two operands of `wx` and `wy` bits, an output of `out`. */
  function BinaryNum(code: Opcode, x: nat, wx: nat, y: nat, wy: nat, out: nat): nat {
    match code
    case IntAdd => Wrap(x + y, out)
    case IntSub => Wrap(x - y, out)
    case IntMult => Wrap(x * y, out)
    case IntAnd => BitAnd(x, y)
    case IntOr => BitOr(x, y)
    case IntXor => BitXor(x, y)
    case IntLeft => Wrap(x * Pow2(y), out)
    case IntRight => Halved(x, y)
    case IntSright => Wrap(ToSigned(x, wx) / Pow2(y), out)
    case IntEqual => Bit(x == y)
    case IntNotEqual => Bit(x != y)
    case IntLess => Bit(x < y)
    case IntLessEqual => Bit(x <= y)
    case IntSless => Bit(ToSigned(x, wx) < ToSigned(y, wy))
    case IntSlessEqual => Bit(ToSigned(x, wx) <= ToSigned(y, wy))
    case BoolConj => Bit(x == 1 && y == 1)
    case BoolDisj => Bit(x == 1 || y == 1)
    case BoolParity => Bit(x != y)
    case _ => 0
  }

  function UnaryNum(code: Opcode, x: nat, wx: nat, out: nat): nat {
    match code
    case IntNegate => Wrap(-1 - x, out)
    case Int2Comp => Wrap(-(x as int), out)
    case IntSext => Wrap(ToSigned(x, wx), out)
    case BoolNegate => Bit(x == 0)
    case _ => x
  }

  /** The value a defining operation gives its output; a lone bare constant is as wide as the output. */
  function ResultNum(a: Arch, code: Opcode, inputs: seq<Varnode>, out: nat, env: Env): nat {
    if IrOp(code).Some? && |inputs| == 2 then
      var p, q := inputs[0], inputs[1];
      BinaryNum(code, OperandNum(a, p, q, env), OwnBits(a, p, q), OperandNum(a, q, p, env), OwnBits(a, q, p), out)
    else if code.Subpiece? && |inputs| == 2 && inputs[1].Constant? then
      Slice(NumOf(a, inputs[0], env), 8 * inputs[1].value, out)
    else if |inputs| == 1 then
      if Sizeless(inputs[0]) then UnaryNum(code, Cut(inputs[0].value, out), out, out)
      else UnaryNum(code, NumOf(a, inputs[0], env), Natural(inputs[0], a), out)
    else 0
  }

  predicate Unary1(code: Opcode) {
    code.Copy? || code.IntNegate? || code.Int2Comp? || code.IntZext? || code.IntSext? || code.BoolNegate?
  }

  /** The operation computes a value and has the operands it needs. */
  predicate Supplied(code: Opcode, inputs: seq<Varnode>) {
    if IrOp(code).Some? then |inputs| == 2
    else if Unary1(code) then |inputs| == 1
    else code.Subpiece? && |inputs| == 2 && inputs[1].Constant?
  }

  function CodeRun(a: Arch, op: PcodeOp, st: State, ptr: nat): State {
    var code := OpcodeOf(op.opcode);
    if code.Flow? then st
    else if code.Store? then
      if |op.inputs| != 2 then st else
      var at := Cut(AddressNum(a, op.inputs[0], st.env), ptr);
      st.(mem := StoreValue(st.mem, at, NumOf(a, op.inputs[1], st.env), ByteCount(Natural(op.inputs[1], a)), ptr))
    else if op.out.None? || !IsVar(op.out.value) then st
    else
      var x, w := VarName(op.out.value), Natural(op.out.value, a);
      if code.Load? then
        if |op.inputs| != 1 then st else
        var at := Cut(AddressNum(a, op.inputs[0], st.env), ptr);
        st.(env := st.env[x := Cut(LoadValue(st.mem, at, ByteCount(w), ptr), w)])
      else if !Supplied(code, op.inputs) then st
      else st.(env := st.env[x := ResultNum(a, code, op.inputs, w, st.env)])
  }

  function CodeRuns(a: Arch, ops: seq<PcodeOp>, st: State, ptr: nat): State {
    if ops == [] then st else CodeRun(a, ops[|ops| - 1], CodeRuns(a, ops[..|ops| - 1], st, ptr), ptr)
  }

  // ---- Operation lists of consistent width ----

  /** The machine reads the operand's value: its variable has its own width, or holds a boolean. */
  predicate Fits(a: Arch, widths: map<Name, nat>, bools: set<Name>, vn: Varnode) {
    if IsVar(vn) then VarWidth(a, widths, vn) == Natural(vn, a) || VarName(vn) in bools
    else vn.Constant? && vn.width.Some? && 0 < vn.width.value <= 255 && VarWidth(a, widths, vn) == Natural(vn, a)
  }

  predicate Exact(a: Arch, widths: map<Name, nat>, vn: Varnode) {
    Fits(a, widths, {}, vn)
  }

  /** An operand of a two-operand operation: a size-less constant needs a co-operand with a size. */
  predicate FitsBeside(a: Arch, widths: map<Name, nat>, bools: set<Name>, vn: Varnode, other: Varnode) {
    if Sizeless(vn) then !Sizeless(other) else Fits(a, widths, bools, vn)
  }

  predicate ExactBeside(a: Arch, widths: map<Name, nat>, vn: Varnode, other: Varnode) {
    FitsBeside(a, widths, {}, vn, other)
  }

  predicate FitsAddress(a: Arch, widths: map<Name, nat>, bools: set<Name>, vn: Varnode) {
    if vn.Ram? then Sizeless(vn.inner) || Fits(a, widths, bools, vn.inner) else IsVar(vn) && Fits(a, widths, bools, vn)
  }

  predicate IsBoolean(a: Arch, bools: set<Name>, vn: Varnode) {
    if IsVar(vn) then VarName(vn) in bools || Natural(vn, a) == 1 else vn.Constant? && vn.value <= 1
  }

  /** The width a read of the operand is given. */
  function ReadBits(a: Arch, widths: map<Name, nat>, vn: Varnode, other: Varnode): nat {
    if IsVar(vn) then VarWidth(a, widths, vn) else OwnBits(a, vn, other)
  }

  predicate Modular(code: Opcode) {
    code.IntAdd? || code.IntSub? || code.IntMult? || code.IntAnd? || code.IntOr? || code.IntXor?
  }

  predicate Compares(code: Opcode) {
    code.IntEqual? || code.IntNotEqual? || code.IntLess? || code.IntLessEqual? || code.IntSless? || code.IntSlessEqual?
  }

  predicate Logical(code: Opcode) {
    code.BoolConj? || code.BoolDisj? || code.BoolParity?
  }

  predicate BinaryTyped(a: Arch, widths: map<Name, nat>, bools: set<Name>, code: Opcode, x: Varnode, y: Varnode, out: nat) {
    && FitsBeside(a, widths, bools, x, y) && FitsBeside(a, widths, bools, y, x)
    && (Modular(code) ==> ExactBeside(a, widths, x, y) && ExactBeside(a, widths, y, x) && OwnBits(a, x, y) == OwnBits(a, y, x) == out)
    && (code.IntLeft? ==> ExactBeside(a, widths, x, y))
    && (code.IntLeft? || code.IntRight? ==> OwnBits(a, x, y) == out)
    && (code.IntSright? ==> ExactBeside(a, widths, x, y) && OwnBits(a, x, y) == out && ReadBits(a, widths, y, x) <= out)
    && (code.IntSless? || code.IntSlessEqual? ==> ExactBeside(a, widths, x, y) && ExactBeside(a, widths, y, x))
    && (Compares(code) ==> out <= 8)
    && (Logical(code) ==> IsBoolean(a, bools, x) && IsBoolean(a, bools, y))
  }

  /** A size-less constant on its own is read at the pointer width and means its low bits
      at the output's: the two must be one number. */
  predicate LoneTyped(a: Arch, code: Opcode, v: nat, out: nat) {
    && Cut(v, PtrBits(a)) == Cut(v, out)
    && (code.IntNegate? ==> out <= 128)
    && (code.IntSext? ==> out <= PtrBits(a))
    && (code.BoolNegate? ==> v <= 1 && out <= 8)
  }

  predicate UnaryTyped(a: Arch, widths: map<Name, nat>, bools: set<Name>, code: Opcode, x: Varnode, out: nat) {
    if Sizeless(x) then LoneTyped(a, code, x.value, out)
    else
      && Fits(a, widths, bools, x)
      && (code.Copy? ==> Natural(x, a) == out)
      && (code.IntNegate? ==> Exact(a, widths, x) && Natural(x, a) == out <= 128)
      && (code.Int2Comp? ==> Exact(a, widths, x) && Natural(x, a) == out)
      && (code.IntZext? ==> Natural(x, a) <= out)
      && (code.IntSext? ==> Exact(a, widths, x) && Natural(x, a) <= out)
      && (code.BoolNegate? ==> IsBoolean(a, bools, x) && out <= 8)
  }

  predicate DefinesTyped(a: Arch, widths: map<Name, nat>, bools: set<Name>, code: Opcode, inputs: seq<Varnode>, out: nat) {
    if IrOp(code).Some? then |inputs| == 2 && BinaryTyped(a, widths, bools, code, inputs[0], inputs[1], out)
    else if Unary1(code) then |inputs| == 1 && UnaryTyped(a, widths, bools, code, inputs[0], out)
    else
      && code.Subpiece? && |inputs| == 2 && Exact(a, widths, inputs[0]) && inputs[1].Constant?
      && 8 * inputs[1].value + out <= Natural(inputs[0], a)
  }

  predicate OpTyped(a: Arch, widths: map<Name, nat>, bools: set<Name>, op: PcodeOp) {
    var code := OpcodeOf(op.opcode);
    if code.Flow? then true
    else if code.Store? then
      |op.inputs| == 2 && FitsAddress(a, widths, bools, op.inputs[0]) && Fits(a, widths, bools, op.inputs[1])
      && ByteCount(VarWidth(a, widths, op.inputs[1])) == ByteCount(Natural(op.inputs[1], a))
    else
      && op.out.Some? && IsVar(op.out.value)
      && (if code.Load? then |op.inputs| == 1 && FitsAddress(a, widths, bools, op.inputs[0])
          else DefinesTyped(a, widths, bools, code, op.inputs, Natural(op.out.value, a)))
  }

  /** The operation's output is a truth value. */
  predicate YieldsBoolean(a: Arch, bools: set<Name>, code: Opcode, inputs: seq<Varnode>) {
    Compares(code) || Logical(code) || code.BoolNegate? || (code.Copy? && |inputs| == 1 && IsBoolean(a, bools, inputs[0]))
  }

  function BoolsAfter(a: Arch, bools: set<Name>, op: PcodeOp): set<Name> {
    var code := OpcodeOf(op.opcode);
    if code.Flow? || code.Store? || op.out.None? then bools
    else if YieldsBoolean(a, bools, code, op.inputs) then bools + {VarName(op.out.value)}
    else bools - {VarName(op.out.value)}
  }

  function Bools(a: Arch, ops: seq<PcodeOp>): set<Name> {
    if ops == [] then {} else BoolsAfter(a, Bools(a, ops[..|ops| - 1]), ops[|ops| - 1])
  }

  /** Operands and outputs agree in width, truth values reach a wider reading only where their
      value is all that counts, and a bare constant stands alone only where it means the same
      number at the pointer width and at its output's. */
  predicate CodesTyped(a: Arch, ops: seq<PcodeOp>) {
    ops == [] ||
    (var rest := ops[..|ops| - 1];
     CodesTyped(a, rest) &&
     match LiftOps(a, rest)
     case Ok(m) => OpTyped(a, m.widths, Bools(a, rest), ops[|ops| - 1])
     case Err(_) => false)
  }
}
