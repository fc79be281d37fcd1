/** A direct P-code interpreter, from the text of an operation to numbers: what each opcode does
    to operands of its own declared widths, which widths its results have, and the operation
    lists that say what they mean to it. Nothing here is shared with the lifter. */
module PcodeInterp {
  import opened Bits
  import opened Common
  import opened Ir
  import opened Pcode

  // ---- Where varnodes live, and how wide they are ----

  function PointerWidth(a: Arch): nat {
    match a
    case X86 => 32
    case X8664 => 64
    case Arm => 32
    case Aarch64 => 64
  }

  predicate IsFlag(r: string) {
    || r == "ZR" || r == "NG" || r == "CY" || r == "OV"
    || r == "tmpZR" || r == "tmpNG" || r == "tmpCY" || r == "tmpOV"
  }

  /** The letter and nothing but decimal digits. */
  predicate Numbered(r: string, letter: char) {
    |r| >= 1 && r[0] == letter && forall k :: 1 <= k < |r| ==> '0' <= r[k] <= '9'
  }

  function RegisterWidth(a: Arch, r: string): nat {
    if IsFlag(r) then 1
    else if Numbered(r, 'x') then 64
    else if Numbered(r, 'w') then 32
    else PointerWidth(a)
  }

  /** Sixteen bits hold a width. */
  function BytesWide(n: nat): nat {
    if 8 * n <= 65535 then 8 * n else 65535
  }

  function WidthOf(a: Arch, vn: Varnode): nat {
    match vn
    case Register(r) => RegisterWidth(a, r)
    case UniqueSpace(_, n) => if n == 0 then 1 else BytesWide(n)
    case Constant(_, Some(n)) => if n == 0 then 1 else BytesWide(n)
    case _ => 64
  }

  predicate Holds(vn: Varnode) {
    vn.Register? || vn.UniqueSpace?
  }

  /** The variable that stands for a register or temporary: the zero flag is the canonical one. */
  function Cell(vn: Varnode): Name
    requires Holds(vn)
  {
    match vn
    case UniqueSpace(offset, n) => Unique(offset, n)
    case Register(r) =>
      if r == "ZR" || r == "tmpZR" then Plain("ZF")
      else if r == "NG" || r == "tmpNG" then Plain("pc_ng")
      else if r == "CY" || r == "tmpCY" then Plain("pc_cy")
      else if r == "OV" || r == "tmpOV" then Plain("pc_ov")
      else Plain(r)
  }

  // ---- Operands ----

  predicate Bare(vn: Varnode) {
    vn.Constant? && vn.width.None?
  }

  /** What the operand holds, a constant with a size included. */
  function Contents(a: Arch, vn: Varnode, env: Env): nat {
    if vn.Constant? && vn.width.Some? then vn.value % Pow2(BytesWide(vn.width.value))
    else if Holds(vn) then Get(env, Cell(vn)) % Pow2(WidthOf(a, vn))
    else 0
  }

  /** A bare constant takes the width of what it stands beside. */
  function BesideWidth(a: Arch, vn: Varnode, other: Varnode): nat {
    if Bare(vn) then WidthOf(a, other) else WidthOf(a, vn)
  }

  function Beside(a: Arch, vn: Varnode, other: Varnode, env: Env): nat {
    if Bare(vn) then vn.value % Pow2(WidthOf(a, other)) else Contents(a, vn, env)
  }

  /** On its own it is as wide as the output. */
  function AloneWidth(a: Arch, vn: Varnode, out: nat): nat {
    if Bare(vn) then out else WidthOf(a, vn)
  }

  function Alone(a: Arch, vn: Varnode, out: nat, env: Env): nat {
    if Bare(vn) then vn.value % Pow2(out) else Contents(a, vn, env)
  }

  /** The address a `LOAD` or `STORE` names, through a `ram` varnode or directly. */
  function Address(a: Arch, vn: Varnode, env: Env): nat {
    var at := if vn.Ram? then vn.inner else vn;
    if Bare(at) then at.value % Pow2(PointerWidth(a)) else Contents(a, at, env)
  }

  // ---- The table of operations ----

  function Truth(b: bool): nat {
    if b then 1 else 0
  }

  function Signed(x: nat, w: nat): int {
    if w > 0 && x >= Pow2(w - 1) then x - Pow2(w) else x
  }

  /** Two operands of `wx` and `wy` bits, an output of `out`. */
  function OfTwo(opcode: string, x: nat, wx: nat, y: nat, wy: nat, out: nat): Option<nat> {
    if opcode == "INT_ADD" then Some((x + y) % Pow2(out))
    else if opcode == "INT_SUB" then Some((x - y) % Pow2(out))
    else if opcode == "INT_MULT" then Some(x * y % Pow2(out))
    else if opcode == "INT_AND" then Some(BitAnd(x, y))
    else if opcode == "INT_OR" then Some(BitOr(x, y))
    else if opcode == "INT_XOR" then Some(BitXor(x, y))
    else if opcode == "INT_LEFT" then Some(x * Pow2(y) % Pow2(out))
    else if opcode == "INT_RIGHT" then Some(Quotient(x, y))
    else if opcode == "INT_SRIGHT" then Some(Signed(x, wx) / Pow2(y) % Pow2(out))
    else if opcode == "INT_EQUAL" then Some(Truth(x == y))
    else if opcode == "INT_NOTEQUAL" then Some(Truth(x != y))
    else if opcode == "INT_LESS" then Some(Truth(x < y))
    else if opcode == "INT_LESSEQUAL" then Some(Truth(x <= y))
    else if opcode == "INT_SLESS" then Some(Truth(Signed(x, wx) < Signed(y, wy)))
    else if opcode == "INT_SLESSEQUAL" then Some(Truth(Signed(x, wx) <= Signed(y, wy)))
    else if opcode == "BOOL_AND" then Some(Truth(x == 1 && y == 1))
    else if opcode == "BOOL_OR" then Some(Truth(x == 1 || y == 1))
    else if opcode == "BOOL_XOR" then Some(Truth(x != y))
    else None
  }

  function Quotient(x: nat, n: nat): nat {
    DivNat(x, Pow2(n));
    x / Pow2(n)
  }

  function OfOne(opcode: string, x: nat, wx: nat, out: nat): Option<nat> {
    if opcode == "COPY" || opcode == "INT_ZEXT" then Some(x)
    else if opcode == "INT_SEXT" then Some(Signed(x, wx) % Pow2(out))
    else if opcode == "INT_NEGATE" then Some((-1 - x) % Pow2(out))
    else if opcode == "INT_2COMP" then Some(-(x as int) % Pow2(out))
    else if opcode == "BOOL_NEGATE" then Some(Truth(x == 0))
    else None
  }

  /** The number an operation leaves in its output, if it is one that does. */
  function Result(a: Arch, opcode: string, inputs: seq<Varnode>, out: nat, env: Env): Option<nat> {
    if |inputs| == 1 then OfOne(opcode, Alone(a, inputs[0], out, env), AloneWidth(a, inputs[0], out), out)
    else if |inputs| != 2 then None
    else if opcode == "SUBPIECE" then
      if inputs[1].Constant? then Some(Quotient(Contents(a, inputs[0], env), 8 * inputs[1].value) % Pow2(out)) else None
    else OfTwo(opcode, Beside(a, inputs[0], inputs[1], env), BesideWidth(a, inputs[0], inputs[1]),
                       Beside(a, inputs[1], inputs[0], env), BesideWidth(a, inputs[1], inputs[0]), out)
  }

  // ---- Running ----

  /** An operation outside the table, or without what it needs, leaves everything as it was. */
  function RunOp(a: Arch, op: PcodeOp, st: State, ptr: nat): State {
    if op.opcode == "STORE" then
      if |op.inputs| != 2 then st else
      var at := Address(a, op.inputs[0], st.env) % Pow2(ptr);
      st.(mem := StoreValue(st.mem, at, Contents(a, op.inputs[1], st.env), (WidthOf(a, op.inputs[1]) + 7) / 8, ptr))
    else if op.out.None? || !Holds(op.out.value) then st
    else
      var x, w := Cell(op.out.value), WidthOf(a, op.out.value);
      if op.opcode == "LOAD" then
        if |op.inputs| != 1 then st else
        var at := Address(a, op.inputs[0], st.env) % Pow2(ptr);
        st.(env := st.env[x := LoadValue(st.mem, at, (w + 7) / 8, ptr) % Pow2(w)])
      else
        match Result(a, op.opcode, op.inputs, w, st.env)
        case None => st
        case Some(v) => st.(env := st.env[x := v])
  }

  function RunOps(a: Arch, ops: seq<PcodeOp>, st: State, ptr: nat): State {
    if ops == [] then st else RunOp(a, ops[|ops| - 1], RunOps(a, ops[..|ops| - 1], st, ptr), ptr)
  }

  // ---- Operation lists of consistent width ----

  predicate IsModular(s: string) {
    s == "INT_ADD" || s == "INT_SUB" || s == "INT_MULT" || s == "INT_AND" || s == "INT_OR" || s == "INT_XOR"
  }

  predicate IsSignedCompare(s: string) {
    s == "INT_SLESS" || s == "INT_SLESSEQUAL"
  }

  predicate IsCompare(s: string) {
    s == "INT_EQUAL" || s == "INT_NOTEQUAL" || s == "INT_LESS" || s == "INT_LESSEQUAL" || IsSignedCompare(s)
  }

  predicate IsLogical(s: string) {
    s == "BOOL_AND" || s == "BOOL_OR" || s == "BOOL_XOR"
  }

  predicate TakesTwo(s: string) {
    IsModular(s) || IsCompare(s) || IsLogical(s) || s == "INT_LEFT" || s == "INT_RIGHT" || s == "INT_SRIGHT"
  }

  predicate TakesOne(s: string) {
    s == "COPY" || s == "INT_NEGATE" || s == "INT_2COMP" || s == "INT_ZEXT" || s == "INT_SEXT" || s == "BOOL_NEGATE"
  }

  predicate IsFlow(s: string) {
    s == "BRANCH" || s == "CBRANCH" || s == "BRANCHIND" || s == "CALL" || s == "CALLIND" || s == "CALLOTHER" || s == "RETURN"
  }

  /** The width a variable was last given, its own if none. */
  function GivenWidth(a: Arch, widths: map<Name, nat>, vn: Varnode): nat
    requires Holds(vn)
  {
    if Cell(vn) in widths then widths[Cell(vn)] else WidthOf(a, vn)
  }

  /** The operand has its own width, or is a constant of at least a byte. */
  predicate Exactly(a: Arch, widths: map<Name, nat>, vn: Varnode) {
    if Holds(vn) then GivenWidth(a, widths, vn) == WidthOf(a, vn) else vn.Constant? && vn.width.Some? && 0 < vn.width.value <= 255
  }

  /** Or is a truth value, whose number does not depend on the width. */
  predicate Suits(a: Arch, widths: map<Name, nat>, bools: set<Name>, vn: Varnode) {
    Exactly(a, widths, vn) || (Holds(vn) && Cell(vn) in bools)
  }

  predicate SuitsBeside(a: Arch, widths: map<Name, nat>, bools: set<Name>, vn: Varnode, other: Varnode) {
    if Bare(vn) then !Bare(other) else Suits(a, widths, bools, vn)
  }

  predicate ExactlyBeside(a: Arch, widths: map<Name, nat>, vn: Varnode, other: Varnode) {
    if Bare(vn) then !Bare(other) else Exactly(a, widths, vn)
  }

  predicate SuitsAddress(a: Arch, widths: map<Name, nat>, bools: set<Name>, vn: Varnode) {
    if vn.Ram? then Bare(vn.inner) || Suits(a, widths, bools, vn.inner) else Holds(vn) && Suits(a, widths, bools, vn)
  }

  predicate IsTruth(a: Arch, bools: set<Name>, vn: Varnode) {
    if Holds(vn) then Cell(vn) in bools || WidthOf(a, vn) == 1 else vn.Constant? && vn.value <= 1
  }

  /** The width a shift amount is read at. */
  function AmountWidth(a: Arch, widths: map<Name, nat>, vn: Varnode, other: Varnode): nat {
    if Holds(vn) then GivenWidth(a, widths, vn) else BesideWidth(a, vn, other)
  }

  predicate TwoTyped(a: Arch, widths: map<Name, nat>, bools: set<Name>, s: string, x: Varnode, y: Varnode, out: nat) {
    && SuitsBeside(a, widths, bools, x, y) && SuitsBeside(a, widths, bools, y, x)
    && (IsModular(s) ==> ExactlyBeside(a, widths, x, y) && ExactlyBeside(a, widths, y, x) && BesideWidth(a, x, y) == BesideWidth(a, y, x) == out)
    && (s == "INT_LEFT" ==> ExactlyBeside(a, widths, x, y))
    && (s == "INT_LEFT" || s == "INT_RIGHT" ==> BesideWidth(a, x, y) == out)
    && (s == "INT_SRIGHT" ==> ExactlyBeside(a, widths, x, y) && BesideWidth(a, x, y) == out && AmountWidth(a, widths, y, x) <= out)
    && (IsSignedCompare(s) ==> ExactlyBeside(a, widths, x, y) && ExactlyBeside(a, widths, y, x))
    && (IsCompare(s) ==> out <= 8)
    && (IsLogical(s) ==> IsTruth(a, bools, x) && IsTruth(a, bools, y))
  }

  /** A bare constant on its own is one number at the pointer's width and at the output's. */
  predicate BareTyped(a: Arch, s: string, v: nat, out: nat) {
    && v % Pow2(PointerWidth(a)) == v % Pow2(out)
    && (s == "INT_NEGATE" ==> out <= 128)
    && (s == "INT_SEXT" ==> out <= PointerWidth(a))
    && (s == "BOOL_NEGATE" ==> v <= 1 && out <= 8)
  }

  predicate OneTyped(a: Arch, widths: map<Name, nat>, bools: set<Name>, s: string, x: Varnode, out: nat) {
    if Bare(x) then BareTyped(a, s, x.value, out)
    else
      && Suits(a, widths, bools, x)
      && (s == "COPY" ==> WidthOf(a, x) == out)
      && (s == "INT_NEGATE" ==> Exactly(a, widths, x) && WidthOf(a, x) == out <= 128)
      && (s == "INT_2COMP" ==> Exactly(a, widths, x) && WidthOf(a, x) == out)
      && (s == "INT_ZEXT" ==> WidthOf(a, x) <= out)
      && (s == "INT_SEXT" ==> Exactly(a, widths, x) && WidthOf(a, x) <= out)
      && (s == "BOOL_NEGATE" ==> IsTruth(a, bools, x) && out <= 8)
  }

  predicate OpTyped(a: Arch, widths: map<Name, nat>, bools: set<Name>, op: PcodeOp) {
    var s, xs := op.opcode, op.inputs;
    if IsFlow(s) then true
    else if s == "STORE" then
      |xs| == 2 && SuitsAddress(a, widths, bools, xs[0]) && Suits(a, widths, bools, xs[1])
      && (Holds(xs[1]) ==> (GivenWidth(a, widths, xs[1]) + 7) / 8 == (WidthOf(a, xs[1]) + 7) / 8)
    else
      op.out.Some? && Holds(op.out.value) && var out := WidthOf(a, op.out.value);
      if s == "LOAD" then |xs| == 1 && SuitsAddress(a, widths, bools, xs[0])
      else if TakesTwo(s) then |xs| == 2 && TwoTyped(a, widths, bools, s, xs[0], xs[1], out)
      else if TakesOne(s) then |xs| == 1 && OneTyped(a, widths, bools, s, xs[0], out)
      else s == "SUBPIECE" && |xs| == 2 && Exactly(a, widths, xs[0]) && xs[1].Constant? && 8 * xs[1].value + out <= WidthOf(a, xs[0])
  }

  predicate Defines(op: PcodeOp) {
    !IsFlow(op.opcode) && op.opcode != "STORE" && op.out.Some? && Holds(op.out.value)
  }

  /** An answer is one bit wide, a copy as wide as what it copies, anything else as its output. */
  function ResultWidth(a: Arch, widths: map<Name, nat>, op: PcodeOp): nat
    requires Defines(op)
  {
    if IsCompare(op.opcode) || op.opcode == "BOOL_NEGATE" then 1
    else if op.opcode == "COPY" && |op.inputs| == 1 then
      var x := op.inputs[0];
      if Bare(x) then PointerWidth(a)
      else if Holds(x) then GivenWidth(a, widths, x)
      else WidthOf(a, x)
    else WidthOf(a, op.out.value)
  }

  function WidthsAfter(a: Arch, widths: map<Name, nat>, op: PcodeOp): map<Name, nat> {
    if Defines(op) then widths[Cell(op.out.value) := ResultWidth(a, widths, op)] else widths
  }

  function Widths(a: Arch, ops: seq<PcodeOp>): map<Name, nat> {
    if ops == [] then map[] else WidthsAfter(a, Widths(a, ops[..|ops| - 1]), ops[|ops| - 1])
  }

  predicate Answers(a: Arch, bools: set<Name>, op: PcodeOp) {
    || IsCompare(op.opcode) || IsLogical(op.opcode) || op.opcode == "BOOL_NEGATE"
    || (op.opcode == "COPY" && |op.inputs| == 1 && IsTruth(a, bools, op.inputs[0]))
  }

  function BoolsAfter(a: Arch, bools: set<Name>, op: PcodeOp): set<Name> {
    if !Defines(op) then bools
    else if Answers(a, bools, op) then bools + {Cell(op.out.value)}
    else bools - {Cell(op.out.value)}
  }

  /** The variables that hold truth values. */
  function Bools(a: Arch, ops: seq<PcodeOp>): set<Name> {
    if ops == [] then {} else BoolsAfter(a, Bools(a, ops[..|ops| - 1]), ops[|ops| - 1])
  }

  /** Operands and outputs agree in width, truth values reach a wider reading only where their
      value is all that counts, and a bare constant stands alone only where it means the same
      number at the pointer width and at its output's. */
  predicate Typed(a: Arch, ops: seq<PcodeOp>) {
    ops == [] || var rest := ops[..|ops| - 1];
    Typed(a, rest) && OpTyped(a, Widths(a, rest), Bools(a, rest), ops[|ops| - 1])
  }
}
