/** Which P-code listings the lifter accepts, from the text of the opcodes and the
    kinds of the operands. */
module PcodeAccept {
  import opened Bits
  import opened Common
  import opened Ir
  import opened Pcode
  import opened PcodeDecode
  import C = PcodeCodes
  import I = PcodeInterp

  predicate Readable(vn: Varnode) {
    vn.Register? || vn.UniqueSpace? || vn.Constant?
  }

  /** A register or a temporary holds an address; so does what is inside `ram(..)`. */
  predicate Addressable(vn: Varnode) {
    vn.Register? || vn.UniqueSpace? || (vn.Ram? && Readable(vn.inner))
  }

  /** The operation has the operands its opcode asks for, and an output unless it
      stores or jumps. */
  predicate WellShaped(op: PcodeOp) {
    var s, n := op.opcode, |op.inputs|;
    if I.IsFlow(s) then true
    else if s == "STORE" then n == 2 && Addressable(op.inputs[0]) && Readable(op.inputs[1])
    else if op.out.None? then false
    else if s == "LOAD" then n == 1 && Addressable(op.inputs[0])
    else if I.TakesTwo(s) then n == 2 && Readable(op.inputs[0]) && Readable(op.inputs[1])
    else if I.TakesOne(s) then n == 1 && Readable(op.inputs[0])
    else s == "SUBPIECE" && n == 2 && Readable(op.inputs[0]) && op.inputs[1].Constant? && op.inputs[1].value * 8 <= 65535
  }

  /** Whether a one-operand opcode has an expression does not depend on the width. */
  lemma UnaryIff(code: Opcode, out: nat)
    ensures UnaryExpr(code, Const(0, 0), out).Some? <==> C.Unary1(code)
  {
    hide AllOnes;
  }

  // ---- Operands ----

  lemma ReadIff(a: Arch, widths: map<Name, nat>, vn: Varnode, hint: nat)
    ensures (Read(a, widths, vn).Ok? <==> Readable(vn)) && (ReadOperand(a, widths, vn, hint).Ok? <==> Readable(vn))
    ensures ReadMemAddr(a, widths, vn).Ok? <==> Addressable(vn)
  {
    hide VarWidth, VarName;
  }

  lemma EvalIff(a: Arch, widths: map<Name, nat>, code: Opcode, inputs: seq<Varnode>, out: nat)
    ensures EvalOp(a, widths, code, inputs, out).Ok? <==>
      if IrOp(code).Some? then |inputs| == 2 && Readable(inputs[0]) && Readable(inputs[1])
      else if UnaryExpr(code, Const(0, 0), out).Some? then |inputs| == 1 && Readable(inputs[0])
      else code.Subpiece? && |inputs| == 2 && Readable(inputs[0]) && inputs[1].Constant? && inputs[1].value * 8 <= 65535
  {
    hide Read, ReadOperand, Hint, IrOp, UnaryExpr, Readable;
    if |inputs| > 0 { ReadIff(a, widths, inputs[0], if |inputs| > 1 then Hint(a, inputs[1]) else 0); }
    if |inputs| > 1 { ReadIff(a, widths, inputs[1], Hint(a, inputs[0])); }
  }

  // ---- Operations ----

  lemma OperationIff(a: Arch, m: Machine, op: PcodeOp)
    ensures LiftOp(a, m, op).Ok? <==> WellShaped(op)
  {
    hide OpcodeOf, I.IsFlow, EvalOp, ReadMemAddr, Read, VarWidth, Natural, ExprBits, I.TakesTwo, I.TakesOne, IrOp, UnaryExpr, C.Unary1, C.Modular, C.Compares,
         C.Logical, I.IsModular, I.IsCompare, I.IsLogical, Addressable, Readable;
    var s := op.opcode;
    KindsAre(s);
    if |op.inputs| > 0 { ReadIff(a, m.widths, op.inputs[0], 0); }
    if |op.inputs| > 1 { ReadIff(a, m.widths, op.inputs[1], 0); }
    if op.out.Some? {
      UnaryIff(OpcodeOf(s), Natural(op.out.value, a));
      EvalIff(a, m.widths, OpcodeOf(s), op.inputs, Natural(op.out.value, a));
    }
  }

  /** A listing is lifted exactly when each of its operations is well shaped, whatever
      came before it. */
  lemma {:induction false} AcceptsIff(a: Arch, ops: seq<PcodeOp>)
    ensures LiftOps(a, ops).Ok? <==> forall k :: 0 <= k < |ops| ==> WellShaped(ops[k])
    decreases |ops|
  {
    hide LiftOp, WellShaped;
    if ops != [] {
      var p := ops[..|ops| - 1];
      AcceptsIff(a, p);
      assert forall k :: 0 <= k < |p| ==> p[k] == ops[k];
      if LiftOps(a, p).Ok? { OperationIff(a, LiftOps(a, p).value, ops[|ops| - 1]); }
    }
  }
}
