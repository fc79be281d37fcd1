/** The P-code lifter as it runs: one object whose width table and statements grow
    operation by operation, each method proved against the function of its name. */
module PcodePass {
  import opened Common
  import opened Ir
  import Spec = Pcode
  import opened Pcode

  class Machine {
    const a: Arch
    var widths: map<Name, nat>
    var statements: seq<Stmt>

    ghost function Now(): Spec.Machine
      reads this
    {
      Spec.Machine(widths, statements)
    }

    constructor (a: Arch)
      ensures Now() == START && this.a == a
    {
      this.a := a;
      widths, statements := map[], [];
    }

    /** Record the width `out` is now defined at. */
    method Define(out: Varnode, bits: nat) returns (dst: Var)
      modifies this`widths
      ensures dst == Var(VarName(out), bits) && widths == old(widths)[VarName(out) := bits]
    {
      widths := widths[VarName(out) := bits];
      dst := Var(VarName(out), bits);
    }

    method LiftStore(op: PcodeOp) returns (e: Option<PcodeError>)
      modifies this`statements
      ensures e.None? ==> Spec.LiftStore(a, old(Now()), op.inputs) == Ok(Now())
      ensures e.Some? ==> Spec.LiftStore(a, old(Now()), op.inputs) == Err(e.value)
    {
      if |op.inputs| != 2 { return Some(Arity); }
      var addr := ReadMemAddr(a, widths, op.inputs[0]);
      if addr.Err? { return Some(addr.error); }
      var value := Read(a, widths, op.inputs[1]);
      if value.Err? { return Some(value.error); }
      statements := statements + [StoreMem(addr.value, value.value, VarWidth(a, widths, op.inputs[1]))];
      return None;
    }

    method LiftDefining(op: PcodeOp) returns (e: Option<PcodeError>)
      modifies this`widths, this`statements
      ensures e.None? ==> Spec.LiftDefining(a, old(Now()), OpcodeOf(op.opcode), op) == Ok(Now())
      ensures e.Some? ==> Spec.LiftDefining(a, old(Now()), OpcodeOf(op.opcode), op) == Err(e.value)
    {
      hide OpcodeOf, EvalOp, ReadMemAddr, Natural, VarName, ExprBits;
      if op.out.None? { return Some(Arity); }
      var out := op.out.value;
      var code := OpcodeOf(op.opcode);
      if code.Load? {
        if |op.inputs| != 1 { return Some(Arity); }
        var addr := ReadMemAddr(a, widths, op.inputs[0]);
        if addr.Err? { return Some(addr.error); }
        var bits := Natural(out, a);
        var dst := Define(out, bits);
        statements := statements + [LoadMem(dst, addr.value, bits)];
        return None;
      }
      var outBits := Natural(out, a);
      var expr := EvalOp(a, widths, code, op.inputs, outBits);
      if expr.Err? { return Some(expr.error); }
      var dst := Define(out, ExprBits(expr.value, outBits));
      statements := statements + [Assign(dst, expr.value)];
      return None;
    }

    method Step(op: PcodeOp) returns (e: Option<PcodeError>)
      modifies this`widths, this`statements
      ensures e.None? ==> LiftOp(a, old(Now()), op) == Ok(Now())
      ensures e.Some? ==> LiftOp(a, old(Now()), op) == Err(e.value)
    {
      hide OpcodeOf, Spec.LiftStore, Spec.LiftDefining;
      match OpcodeOf(op.opcode) {
        case Store => e := LiftStore(op);
        case Flow => e := None;
        case _ => e := LiftDefining(op);
      }
    }
  }

  lemma OpsStep(a: Arch, ops: seq<PcodeOp>, j: nat)
    requires j < |ops|
    ensures LiftOps(a, ops[..j]).Ok? ==> LiftOps(a, ops[..j + 1]) == LiftOp(a, LiftOps(a, ops[..j]).value, ops[j])
  {
    hide LiftOp;
    assert ops[..j + 1][..j] == ops[..j];
  }

  /** A list that fails somewhere fails with the error of its first failing operation. */
  lemma {:induction false} FirstErrorWins(a: Arch, xs: seq<PcodeOp>, ys: seq<PcodeOp>)
    ensures LiftOps(a, xs).Err? ==> LiftOps(a, xs + ys) == LiftOps(a, xs)
    decreases |ys|
  {
    hide LiftOp;
    if ys == [] {
      assert xs + ys == xs;
    } else {
      FirstErrorWins(a, xs, ys[..|ys| - 1]);
      assert (xs + ys)[..|xs + ys| - 1] == xs + ys[..|ys| - 1];
    }
  }

  lemma {:induction false} OpsPrefix(insns: seq<PcodeInsn>, i: nat)
    requires i <= |insns|
    ensures OpsOf(insns[..i]) <= OpsOf(insns)
    decreases |insns|
  {
    if i == |insns| {
      assert insns[..i] == insns;
    } else {
      OpsPrefix(insns[..|insns| - 1], i);
      assert insns[..|insns| - 1][..i] == insns[..i];
    }
  }

  /** Where the operations of instruction `i` stand in the whole list. */
  lemma InsnIsNext(insns: seq<PcodeInsn>, i: nat)
    requires i < |insns|
    ensures |OpsOf(insns[..i + 1])| == |OpsOf(insns[..i])| + |insns[i].ops| <= |OpsOf(insns)|
    ensures forall j :: 0 <= j < |insns[i].ops| ==> OpsOf(insns)[|OpsOf(insns[..i])| + j] == insns[i].ops[j]
  {
    OpsPrefix(insns, i + 1);
    assert insns[..i + 1][..i] == insns[..i];
    assert OpsOf(insns[..i + 1]) == OpsOf(insns[..i]) + insns[i].ops;
  }

  /** The machine stands where lifting the first `i` instructions leads. */
  ghost predicate Lifted(m: Machine, insns: seq<PcodeInsn>, i: nat)
    reads m
  {
    i <= |insns| && |OpsOf(insns[..i])| <= |OpsOf(insns)| && LiftOps(m.a, OpsOf(insns)[..|OpsOf(insns[..i])|]) == Ok(m.Now())
  }

  lemma NothingLifted(m: Machine, insns: seq<PcodeInsn>)
    requires m.Now() == START
    ensures Lifted(m, insns, 0)
  {
    assert OpsOf(insns[..0]) == [];
    assert OpsOf(insns)[..0] == [];
  }

  lemma AllLifted(m: Machine, insns: seq<PcodeInsn>)
    requires Lifted(m, insns, |insns|)
    ensures LiftOps(m.a, OpsOf(insns)) == Ok(m.Now())
  {
    assert insns[..|insns|] == insns;
    var ops := OpsOf(insns);
    assert ops[..|ops|] == ops;
  }

  /** The operations of one instruction, the `n` before them already lifted. */
  method LiftInsn(m: Machine, insn: seq<PcodeOp>, ghost ops: seq<PcodeOp>, ghost n: nat) returns (e: Option<PcodeError>)
    requires n + |insn| <= |ops| && forall j :: 0 <= j < |insn| ==> ops[n + j] == insn[j]
    requires LiftOps(m.a, ops[..n]) == Ok(m.Now())
    modifies m
    ensures e.None? ==> LiftOps(m.a, ops[..n + |insn|]) == Ok(m.Now())
    ensures e.Some? ==> LiftOps(m.a, ops) == Err(e.value)
  {
    hide *;
    for j := 0 to |insn|
      invariant LiftOps(m.a, ops[..n + j]) == Ok(m.Now())
    {
      OpsStep(m.a, ops, n + j);
      e := m.Step(insn[j]);
      if e.Some? {
        FirstErrorWins(m.a, ops[..n + j + 1], ops[n + j + 1..]);
        assert ops[..n + j + 1] + ops[n + j + 1..] == ops;
        return;
      }
    }
    e := None;
  }

  method NextInsn(m: Machine, insns: seq<PcodeInsn>, i: nat) returns (e: Option<PcodeError>)
    requires i < |insns| && Lifted(m, insns, i)
    modifies m
    ensures e.None? ==> Lifted(m, insns, i + 1)
    ensures e.Some? ==> LiftOps(m.a, OpsOf(insns)) == Err(e.value)
  {
    hide LiftOps, OpsOf, m.Now;
    InsnIsNext(insns, i);
    e := LiftInsn(m, insns[i].ops, OpsOf(insns), |OpsOf(insns[..i])|);
  }

  /** The lift of a parsed listing: the statements, or the error of the first operation declined. */
  method LiftPcode(insns: seq<PcodeInsn>, a: Arch) returns (r: Result<seq<Stmt>, PcodeError>)
    ensures r.Ok? <==> LiftOps(a, OpsOf(insns)).Ok?
    ensures r.Ok? ==> r.value == LiftOps(a, OpsOf(insns)).value.statements
    ensures r.Err? ==> r.error == LiftOps(a, OpsOf(insns)).error
  {
    hide LiftOps, OpsOf, Lifted;
    var m := new Machine(a);
    NothingLifted(m, insns);
    for i := 0 to |insns|
      invariant Lifted(m, insns, i) && m.a == a
    {
      var e := NextInsn(m, insns, i);
      if e.Some? {
        return Err(e.value);
      }
    }
    AllLifted(m, insns);
    return Ok(m.statements);
  }
}
