/** The lift refines the interpreter of the operations' text: decoding an opcode, naming a
    varnode and giving it a width are what the interpreter's own tables say. */
module PcodeDecode {
  import opened Bits
  import opened Common
  import opened Ir
  import opened Pcode
  import I = PcodeInterp
  import C = PcodeCodes
  import P = PcodeProof

  // ---- Spellings ----

  /** The text each decoded opcode has. */
  function Spelling(code: Opcode): string {
    match code
    case Copy => "COPY"
    case IntAdd => "INT_ADD"
    case IntSub => "INT_SUB"
    case IntMult => "INT_MULT"
    case IntAnd => "INT_AND"
    case IntOr => "INT_OR"
    case IntXor => "INT_XOR"
    case IntLeft => "INT_LEFT"
    case IntRight => "INT_RIGHT"
    case IntSright => "INT_SRIGHT"
    case IntNegate => "INT_NEGATE"
    case Int2Comp => "INT_2COMP"
    case IntZext => "INT_ZEXT"
    case IntSext => "INT_SEXT"
    case IntEqual => "INT_EQUAL"
    case IntNotEqual => "INT_NOTEQUAL"
    case IntLess => "INT_LESS"
    case IntLessEqual => "INT_LESSEQUAL"
    case IntSless => "INT_SLESS"
    case IntSlessEqual => "INT_SLESSEQUAL"
    case BoolNegate => "BOOL_NEGATE"
    case BoolConj => "BOOL_AND"
    case BoolDisj => "BOOL_OR"
    case BoolParity => "BOOL_XOR"
    case Subpiece => "SUBPIECE"
    case Load => "LOAD"
    case Store => "STORE"
    case Flow => ""
    case Unmodelled => ""
  }

  /** What tells the texts apart: the length, the first letter, the last but one and the fifth. */
  function Marks(code: Opcode): (nat, char, char, char) {
    match code
    case Copy => (4, 'C', 'P', ' ')
    case IntAdd => (7, 'I', 'D', 'A')
    case IntSub => (7, 'I', 'U', 'S')
    case IntMult => (8, 'I', 'L', 'M')
    case IntAnd => (7, 'I', 'N', 'A')
    case IntOr => (6, 'I', 'O', 'O')
    case IntXor => (7, 'I', 'O', 'X')
    case IntLeft => (8, 'I', 'F', 'L')
    case IntRight => (9, 'I', 'H', 'R')
    case IntSright => (10, 'I', 'H', 'S')
    case IntNegate => (10, 'I', 'T', 'N')
    case Int2Comp => (9, 'I', 'M', '2')
    case IntZext => (8, 'I', 'X', 'Z')
    case IntSext => (8, 'I', 'X', 'S')
    case IntEqual => (9, 'I', 'A', 'E')
    case IntNotEqual => (12, 'I', 'A', 'N')
    case IntLess => (8, 'I', 'S', 'L')
    case IntLessEqual => (13, 'I', 'A', 'L')
    case IntSless => (9, 'I', 'S', 'S')
    case IntSlessEqual => (14, 'I', 'A', 'S')
    case BoolNegate => (11, 'B', 'T', '_')
    case BoolConj => (8, 'B', 'N', '_')
    case BoolDisj => (7, 'B', 'O', '_')
    case BoolParity => (8, 'B', 'O', '_')
    case Subpiece => (8, 'S', 'C', 'I')
    case Load => (4, 'L', 'A', ' ')
    case Store => (5, 'S', 'R', 'E')
    case Flow => (0, ' ', ' ', ' ')
    case Unmodelled => (0, ' ', ' ', ' ')
  }

  lemma MarksAre(code: Opcode)
    requires !code.Flow? && !code.Unmodelled?
    ensures var s := Spelling(code); |s| >= 4 && Marks(code) == (|s|, s[0], s[|s| - 2], if |s| > 4 then s[4] else ' ')
  {
  }

  lemma MarksTell(c: Opcode, d: Opcode)
    requires !c.Flow? && !c.Unmodelled? && !d.Flow? && !d.Unmodelled? && Marks(c) == Marks(d)
    ensures c == d
  {
  }

  lemma OneSpelling(c: Opcode, d: Opcode)
    requires !c.Flow? && !c.Unmodelled? && !d.Flow? && !d.Unmodelled? && Spelling(c) == Spelling(d)
    ensures c == d
  {
    hide Spelling, Marks;
    MarksAre(c);
    MarksAre(d);
    MarksTell(c, d);
  }

  lemma DecodesFlow()
    ensures OpcodeOf("BRANCH") == OpcodeOf("CBRANCH") == OpcodeOf("BRANCHIND") == OpcodeOf("CALL") == Flow
    ensures OpcodeOf("CALLIND") == OpcodeOf("CALLOTHER") == OpcodeOf("RETURN") == Flow
  {
    var flows := ["BRANCH", "CBRANCH", "BRANCHIND", "CALL", "CALLIND", "CALLOTHER", "RETURN"];
    assert flows[0] == "BRANCH" && flows[1] == "CBRANCH" && flows[2] == "BRANCHIND" && flows[3] == "CALL" && flows[4] == "CALLIND";
    assert flows[5] == "CALLOTHER" && flows[6] == "RETURN";
  }

  lemma SpellingIsNoFlow(code: Opcode)
    requires !code.Flow? && !code.Unmodelled?
    ensures !I.IsFlow(Spelling(code))
  {
    var s := Spelling(code);
    assert s[0] == 'C' ==> s == "COPY";
    assert s[0] == 'B' ==> s[1] == 'O';
  }

  /** Every text of the table is in the decoder's. */
  lemma DecodesSome(s: string, code: Opcode)
    requires !code.Flow? && !code.Unmodelled? && s == Spelling(code)
    ensures !OpcodeOf(s).Unmodelled?
  {
    hide IsControl;
  }

  predicate Spells(code: Opcode, s: string) {
    code.Flow? || code.Unmodelled? || s == Spelling(code)
  }

  lemma TruthSpelled(s: string)
    ensures Spells(TruthOf(s), s)
  {
  }

  lemma ExtensionSpelled(s: string)
    ensures Spells(ExtensionOf(s), s)
  {
    TruthSpelled(s);
    hide TruthOf;
  }

  lemma ArithmeticSpelled(s: string)
    ensures Spells(ArithmeticOf(s), s)
  {
    ExtensionSpelled(s);
    hide ExtensionOf;
  }

  lemma SpellingOf(s: string)
    ensures var code := OpcodeOf(s); !code.Flow? && !code.Unmodelled? ==> s == Spelling(code)
  {
    ArithmeticSpelled(s);
    hide ArithmeticOf, IsControl;
  }

  /** Decoding is right: an opcode other than control flow has one text. */
  lemma DecodesIff(s: string, code: Opcode)
    requires !code.Flow? && !code.Unmodelled?
    ensures OpcodeOf(s) == code <==> s == Spelling(code)
  {
    hide OpcodeOf, Spelling, I.IsFlow;
    SpellingOf(s);
    if s == Spelling(code) {
      DecodesSome(s, code);
      SpellingIsNoFlow(code);
      FlowIff(s);
      OneSpelling(OpcodeOf(s), code);
    }
  }

  lemma FlowIff(s: string)
    ensures OpcodeOf(s).Flow? <==> I.IsFlow(s)
  {
    DecodesFlow();
    if OpcodeOf(s).Flow? { FlowOf(s); }
    hide OpcodeOf;
  }

  lemma FlowOf(s: string)
    requires OpcodeOf(s).Flow?
    ensures I.IsFlow(s)
  {
    assert s in ["BRANCH", "CBRANCH", "BRANCHIND", "CALL", "CALLIND", "CALLOTHER", "RETURN"];
  }

  /** The same by kinds of operations. */
  lemma KindsAre(s: string)
    ensures var c := OpcodeOf(s);
      && (C.Modular(c) <==> I.IsModular(s)) && (C.Compares(c) <==> I.IsCompare(s)) && (C.Logical(c) <==> I.IsLogical(s))
      && (c.IntLeft? <==> s == "INT_LEFT") && (c.IntRight? <==> s == "INT_RIGHT") && (c.IntSright? <==> s == "INT_SRIGHT")
      && (c.IntSless? || c.IntSlessEqual? <==> I.IsSignedCompare(s))
    ensures var c := OpcodeOf(s);
      && (IrOp(c).Some? <==> I.TakesTwo(s)) && (C.Unary1(c) <==> I.TakesOne(s)) && (c.Subpiece? <==> s == "SUBPIECE")
      && (c.Load? <==> s == "LOAD") && (c.Store? <==> s == "STORE") && (c.Flow? <==> I.IsFlow(s))
      && (c.Copy? <==> s == "COPY") && (c.IntNegate? <==> s == "INT_NEGATE") && (c.Int2Comp? <==> s == "INT_2COMP")
      && (c.IntZext? <==> s == "INT_ZEXT") && (c.IntSext? <==> s == "INT_SEXT") && (c.BoolNegate? <==> s == "BOOL_NEGATE")
  {
    hide OpcodeOf, I.IsFlow;
    FlowIff(s);
    EachIs(s);
  }

  lemma EachIs(s: string)
    ensures var c := OpcodeOf(s);
      && (c.IntAdd? <==> s == "INT_ADD") && (c.IntSub? <==> s == "INT_SUB") && (c.IntMult? <==> s == "INT_MULT")
      && (c.IntAnd? <==> s == "INT_AND") && (c.IntOr? <==> s == "INT_OR") && (c.IntXor? <==> s == "INT_XOR")
      && (c.IntLeft? <==> s == "INT_LEFT") && (c.IntRight? <==> s == "INT_RIGHT") && (c.IntSright? <==> s == "INT_SRIGHT")
      && (c.IntEqual? <==> s == "INT_EQUAL") && (c.IntNotEqual? <==> s == "INT_NOTEQUAL") && (c.IntLess? <==> s == "INT_LESS")
      && (c.IntLessEqual? <==> s == "INT_LESSEQUAL") && (c.IntSless? <==> s == "INT_SLESS") && (c.IntSlessEqual? <==> s == "INT_SLESSEQUAL")
      && (c.BoolConj? <==> s == "BOOL_AND") && (c.BoolDisj? <==> s == "BOOL_OR") && (c.BoolParity? <==> s == "BOOL_XOR")
    ensures var c := OpcodeOf(s);
      && (c.Copy? <==> s == "COPY") && (c.IntNegate? <==> s == "INT_NEGATE") && (c.Int2Comp? <==> s == "INT_2COMP")
      && (c.IntZext? <==> s == "INT_ZEXT") && (c.IntSext? <==> s == "INT_SEXT") && (c.BoolNegate? <==> s == "BOOL_NEGATE")
      && (c.Subpiece? <==> s == "SUBPIECE") && (c.Load? <==> s == "LOAD") && (c.Store? <==> s == "STORE")
  {
    hide OpcodeOf;
    SumIs(s);
    BitsIs(s);
    ShiftIs(s);
    EqualIs(s);
    OrderIs(s);
    TruthIs(s);
    CopyIs(s);
    ExtendIs(s);
    AccessIs(s);
  }

  lemma SumIs(s: string)
    ensures var c := OpcodeOf(s); (c.IntAdd? <==> s == "INT_ADD") && (c.IntSub? <==> s == "INT_SUB") && (c.IntMult? <==> s == "INT_MULT")
  {
    hide OpcodeOf;
    DecodesIff(s, IntAdd);
    DecodesIff(s, IntSub);
    DecodesIff(s, IntMult);
  }

  lemma BitsIs(s: string)
    ensures var c := OpcodeOf(s); (c.IntAnd? <==> s == "INT_AND") && (c.IntOr? <==> s == "INT_OR") && (c.IntXor? <==> s == "INT_XOR")
  {
    hide OpcodeOf;
    DecodesIff(s, IntAnd);
    DecodesIff(s, IntOr);
    DecodesIff(s, IntXor);
  }

  lemma ShiftIs(s: string)
    ensures var c := OpcodeOf(s); (c.IntLeft? <==> s == "INT_LEFT") && (c.IntRight? <==> s == "INT_RIGHT") && (c.IntSright? <==> s == "INT_SRIGHT")
  {
    hide OpcodeOf;
    DecodesIff(s, IntLeft);
    DecodesIff(s, IntRight);
    DecodesIff(s, IntSright);
  }

  lemma EqualIs(s: string)
    ensures var c := OpcodeOf(s); (c.IntEqual? <==> s == "INT_EQUAL") && (c.IntNotEqual? <==> s == "INT_NOTEQUAL") && (c.IntLess? <==> s == "INT_LESS")
  {
    hide OpcodeOf;
    DecodesIff(s, IntEqual);
    DecodesIff(s, IntNotEqual);
    DecodesIff(s, IntLess);
  }

  lemma OrderIs(s: string)
    ensures var c := OpcodeOf(s); (c.IntLessEqual? <==> s == "INT_LESSEQUAL") && (c.IntSless? <==> s == "INT_SLESS") && (c.IntSlessEqual? <==> s == "INT_SLESSEQUAL")
  {
    hide OpcodeOf;
    DecodesIff(s, IntLessEqual);
    DecodesIff(s, IntSless);
    DecodesIff(s, IntSlessEqual);
  }

  lemma TruthIs(s: string)
    ensures var c := OpcodeOf(s); (c.BoolConj? <==> s == "BOOL_AND") && (c.BoolDisj? <==> s == "BOOL_OR") && (c.BoolParity? <==> s == "BOOL_XOR")
  {
    hide OpcodeOf;
    DecodesIff(s, BoolConj);
    DecodesIff(s, BoolDisj);
    DecodesIff(s, BoolParity);
  }

  lemma CopyIs(s: string)
    ensures var c := OpcodeOf(s); (c.Copy? <==> s == "COPY") && (c.IntNegate? <==> s == "INT_NEGATE") && (c.Int2Comp? <==> s == "INT_2COMP")
  {
    hide OpcodeOf;
    DecodesIff(s, Copy);
    DecodesIff(s, IntNegate);
    DecodesIff(s, Int2Comp);
  }

  lemma ExtendIs(s: string)
    ensures var c := OpcodeOf(s); (c.IntZext? <==> s == "INT_ZEXT") && (c.IntSext? <==> s == "INT_SEXT") && (c.BoolNegate? <==> s == "BOOL_NEGATE")
  {
    hide OpcodeOf;
    DecodesIff(s, IntZext);
    DecodesIff(s, IntSext);
    DecodesIff(s, BoolNegate);
  }

  lemma AccessIs(s: string)
    ensures var c := OpcodeOf(s); (c.Subpiece? <==> s == "SUBPIECE") && (c.Load? <==> s == "LOAD") && (c.Store? <==> s == "STORE")
  {
    hide OpcodeOf;
    DecodesIff(s, Subpiece);
    DecodesIff(s, Load);
    DecodesIff(s, Store);
  }

  // ---- Widths, names and operands ----

  lemma RegisterIs(a: Arch, r: string)
    ensures RegisterBits(r, a) == I.RegisterWidth(a, r)
  {
    assert r in FLAGS <==> I.IsFlag(r) by { FlagIs(r); }
    DigitsAfter(r);
    hide I.IsFlag, AllDigits, I.Numbered;
    assert PtrBits(a) == I.PointerWidth(a);
  }

  lemma FlagIs(r: string)
    ensures r in FLAGS <==> I.IsFlag(r)
  {
    assert FLAGS[0] == "ZR" && FLAGS[1] == "tmpZR" && FLAGS[2] == "NG" && FLAGS[3] == "tmpNG";
    assert FLAGS[4] == "CY" && FLAGS[5] == "tmpCY" && FLAGS[6] == "OV" && FLAGS[7] == "tmpOV";
  }

  lemma DigitsAfter(r: string)
    ensures I.Numbered(r, 'x') <==> r != "" && r[0] == 'x' && AllDigits(r[1..])
    ensures I.Numbered(r, 'w') <==> r != "" && r[0] == 'w' && AllDigits(r[1..])
  {
    if r != "" {
      assert forall k :: 1 <= k < |r| ==> r[k] == r[1..][k - 1];
      assert forall k :: 0 <= k < |r| - 1 ==> r[1..][k] == r[k + 1];
    }
  }

  lemma WidthIs(a: Arch, vn: Varnode)
    ensures Natural(vn, a) == I.WidthOf(a, vn) && PtrBits(a) == I.PointerWidth(a)
    ensures C.IsVar(vn) <==> I.Holds(vn)
    ensures C.Sizeless(vn) <==> I.Bare(vn)
  {
    if vn.Register? { RegisterIs(a, vn.text); }
    hide RegisterBits, I.RegisterWidth;
  }

  lemma NameIs(vn: Varnode)
    requires I.Holds(vn)
    ensures VarName(vn) == I.Cell(vn) && (VarName(vn).Plain? || VarName(vn).Unique?)
  {
  }

  lemma ContentsAre(a: Arch, vn: Varnode, env: Env)
    ensures C.NumOf(a, vn, env) == I.Contents(a, vn, env)
    ensures C.AddressNum(a, vn, env) == I.Address(a, vn, env)
  {
    WidthIs(a, vn);
    if I.Holds(vn) { NameIs(vn); }
    if vn.Ram? {
      WidthIs(a, vn.inner);
      if I.Holds(vn.inner) { NameIs(vn.inner); }
    }
    hide Natural, I.WidthOf, VarName, I.Cell, Pow2;
  }

  lemma BesideIs(a: Arch, vn: Varnode, other: Varnode, env: Env)
    ensures C.OperandNum(a, vn, other, env) == I.Beside(a, vn, other, env)
    ensures C.OwnBits(a, vn, other) == I.BesideWidth(a, vn, other)
  {
    WidthIs(a, vn);
    WidthIs(a, other);
    ContentsAre(a, vn, env);
    hide Natural, I.WidthOf, VarName, I.Cell, Pow2, C.NumOf, I.Contents;
  }

  // ---- Numbers ----

  lemma TwoIs(s: string, x: nat, wx: nat, y: nat, wy: nat, out: nat)
    ensures var c := OpcodeOf(s);
      I.OfTwo(s, x, wx, y, wy, out) == if IrOp(c).Some? then Some(C.BinaryNum(c, x, wx, y, wy, out)) else None
  {
    hide OpcodeOf, BitAnd, BitOr, BitXor, Pow2;
    EachIs(s);
    SignedIs(x, wx);
    SignedIs(y, wy);
    hide ToSigned, I.Signed;
  }

  lemma SignedIs(x: nat, w: nat)
    ensures ToSigned(x, w) == I.Signed(x, w)
  {
  }

  lemma OneIs(s: string, x: nat, wx: nat, out: nat)
    ensures var c := OpcodeOf(s);
      I.OfOne(s, x, wx, out) == if C.Unary1(c) then Some(C.UnaryNum(c, x, wx, out)) else None
  {
    hide OpcodeOf, Pow2;
    EachIs(s);
    SignedIs(x, wx);
    hide ToSigned, I.Signed;
  }

  lemma ResultIs(a: Arch, s: string, inputs: seq<Varnode>, out: nat, env: Env)
    ensures var c := OpcodeOf(s);
      I.Result(a, s, inputs, out, env) == if C.Supplied(c, inputs) then Some(C.ResultNum(a, c, inputs, out, env)) else None
  {
    hide OpcodeOf, I.OfTwo, I.OfOne, C.BinaryNum, C.UnaryNum, I.Contents, C.NumOf, Natural, I.WidthOf, Pow2, I.TakesTwo, I.TakesOne, IrOp, C.Unary1;
    KindsAre(s);
    OneKind(OpcodeOf(s));
    if |inputs| == 1 {
      var x := inputs[0];
      WidthIs(a, x);
      ContentsAre(a, x, env);
      OneIs(s, I.Alone(a, x, out, env), I.AloneWidth(a, x, out), out);
    } else if |inputs| == 2 {
      var x, y := inputs[0], inputs[1];
      BesideIs(a, x, y, env);
      BesideIs(a, y, x, env);
      ContentsAre(a, x, env);
      TwoIs(s, I.Beside(a, x, y, env), I.BesideWidth(a, x, y), I.Beside(a, y, x, env), I.BesideWidth(a, y, x), out);
    }
  }

  lemma OneKind(c: Opcode)
    ensures !(IrOp(c).Some? && C.Unary1(c)) && (c.Subpiece? ==> IrOp(c).None? && !C.Unary1(c))
    ensures C.Unary1(c) || c.Subpiece? ==> IrOp(c).None?
  {
  }

  // ---- Runs ----

  /** The two interpreters take the same step. */
  lemma RunIs(a: Arch, op: PcodeOp, st: State, ptr: nat)
    ensures I.RunOp(a, op, st, ptr) == C.CodeRun(a, op, st, ptr)
  {
    hide OpcodeOf, I.Result, C.ResultNum, C.Supplied, I.Contents, C.NumOf, I.Address, C.AddressNum, Natural, I.WidthOf, VarName, I.Cell, Pow2, LoadValue, StoreValue;
    KindsAre(op.opcode);
    FlowIsNoOther(op.opcode);
    hide I.IsFlow;
    if |op.inputs| >= 1 { ContentsAre(a, op.inputs[0], st.env); }
    if |op.inputs| >= 2 {
      ContentsAre(a, op.inputs[1], st.env);
      WidthIs(a, op.inputs[1]);
    }
    if op.out.Some? {
      WidthIs(a, op.out.value);
      if I.Holds(op.out.value) { NameIs(op.out.value); }
      ResultIs(a, op.opcode, op.inputs, Natural(op.out.value, a), st.env);
    }
  }

  /** Control flow computes nothing. */
  lemma FlowIsNoOther(s: string)
    ensures I.IsFlow(s) ==> OpcodeOf(s).Flow? && forall inputs :: !C.Supplied(OpcodeOf(s), inputs)
  {
    FlowIff(s);
    hide OpcodeOf, I.IsFlow;
  }

  lemma {:induction false} RunsAre(a: Arch, ops: seq<PcodeOp>, st: State, ptr: nat)
    ensures I.RunOps(a, ops, st, ptr) == C.CodeRuns(a, ops, st, ptr)
    decreases |ops|
  {
    hide I.RunOp, C.CodeRun;
    if ops != [] {
      RunsAre(a, ops[..|ops| - 1], st, ptr);
      RunIs(a, ops[|ops| - 1], C.CodeRuns(a, ops[..|ops| - 1], st, ptr), ptr);
    }
  }

  // ---- Typing ----

  /** Only registers and temporaries have been given a width. */
  predicate OnlyCells(widths: map<Name, nat>) {
    forall x :: x in widths ==> x.Plain? || x.Unique?
  }

  lemma SuitsIs(a: Arch, widths: map<Name, nat>, bools: set<Name>, vn: Varnode)
    requires OnlyCells(widths)
    ensures C.Fits(a, widths, bools, vn) <==> I.Suits(a, widths, bools, vn)
    ensures C.Exact(a, widths, vn) <==> I.Exactly(a, widths, vn)
    ensures I.Holds(vn) ==> VarWidth(a, widths, vn) == I.GivenWidth(a, widths, vn)
    ensures !I.Holds(vn) ==> VarWidth(a, widths, vn) == I.WidthOf(a, vn)
    ensures C.IsBoolean(a, bools, vn) <==> I.IsTruth(a, bools, vn)
  {
    WidthIs(a, vn);
    if I.Holds(vn) { NameIs(vn); } else { NoCell(vn, widths); }
    hide Natural, I.WidthOf, VarName, I.Cell;
  }

  lemma NoCell(vn: Varnode, widths: map<Name, nat>)
    requires OnlyCells(widths) && !I.Holds(vn)
    ensures VarName(vn) !in widths
  {
  }

  lemma SuitsBesideIs(a: Arch, widths: map<Name, nat>, bools: set<Name>, vn: Varnode, other: Varnode)
    requires OnlyCells(widths)
    ensures C.FitsBeside(a, widths, bools, vn, other) <==> I.SuitsBeside(a, widths, bools, vn, other)
    ensures C.ExactBeside(a, widths, vn, other) <==> I.ExactlyBeside(a, widths, vn, other)
    ensures C.ReadBits(a, widths, vn, other) == I.AmountWidth(a, widths, vn, other)
    ensures C.OwnBits(a, vn, other) == I.BesideWidth(a, vn, other)
  {
    WidthIs(a, vn);
    WidthIs(a, other);
    BesideIs(a, vn, other, map[]);
    SuitsIs(a, widths, bools, vn);
    hide Natural, I.WidthOf, VarName, I.Cell, C.Fits, I.Suits, VarWidth, I.GivenWidth, C.OwnBits, I.BesideWidth, I.Exactly, C.OperandNum, I.Beside;
  }

  lemma TwoTypedIs(a: Arch, widths: map<Name, nat>, bools: set<Name>, s: string, x: Varnode, y: Varnode, out: nat)
    requires OnlyCells(widths)
    ensures C.BinaryTyped(a, widths, bools, OpcodeOf(s), x, y, out) <==> I.TwoTyped(a, widths, bools, s, x, y, out)
  {
    KindsAre(s);
    SuitsBesideIs(a, widths, bools, x, y);
    SuitsBesideIs(a, widths, bools, y, x);
    SuitsIs(a, widths, bools, x);
    SuitsIs(a, widths, bools, y);
    hide OpcodeOf, C.FitsBeside, I.SuitsBeside, C.ExactBeside, I.ExactlyBeside, C.ReadBits, I.AmountWidth, C.OwnBits, I.BesideWidth, C.IsBoolean, I.IsTruth,
         I.IsModular, I.IsCompare, I.IsLogical, I.IsSignedCompare, C.Fits, I.Suits, C.Modular, C.Compares, C.Logical, C.Exact, I.Exactly;
  }

  lemma OneTypedIs(a: Arch, widths: map<Name, nat>, bools: set<Name>, s: string, x: Varnode, out: nat)
    requires OnlyCells(widths)
    ensures C.UnaryTyped(a, widths, bools, OpcodeOf(s), x, out) <==> I.OneTyped(a, widths, bools, s, x, out)
  {
    KindsAre(s);
    WidthIs(a, x);
    SuitsIs(a, widths, bools, x);
    hide OpcodeOf, Natural, I.WidthOf, PtrBits, I.PointerWidth, C.IsBoolean, I.IsTruth, C.Fits, I.Suits, C.Exact, I.Exactly, Pow2;
  }

  lemma AddressTypedIs(a: Arch, widths: map<Name, nat>, bools: set<Name>, vn: Varnode)
    requires OnlyCells(widths)
    ensures C.FitsAddress(a, widths, bools, vn) <==> I.SuitsAddress(a, widths, bools, vn)
  {
    SuitsIs(a, widths, bools, vn);
    WidthIs(a, vn);
    if vn.Ram? {
      SuitsIs(a, widths, bools, vn.inner);
      WidthIs(a, vn.inner);
    }
    hide C.Fits, I.Suits;
  }

  lemma OpTypedIs(a: Arch, widths: map<Name, nat>, bools: set<Name>, op: PcodeOp)
    requires OnlyCells(widths)
    ensures C.OpTyped(a, widths, bools, op) <==> I.OpTyped(a, widths, bools, op)
  {
    var s, xs := op.opcode, op.inputs;
    KindsAre(s);
    OneKind(OpcodeOf(s));
    hide OpcodeOf, Natural, I.WidthOf, VarWidth, I.GivenWidth, C.FitsAddress, I.SuitsAddress, C.Fits, I.Suits, C.Exact, I.Exactly, C.BinaryTyped, I.TwoTyped,
         C.UnaryTyped, I.OneTyped, I.IsFlow, I.TakesTwo, I.TakesOne, IrOp, C.Unary1;
    if |xs| >= 1 {
      AddressTypedIs(a, widths, bools, xs[0]);
      SuitsIs(a, widths, bools, xs[0]);
      WidthIs(a, xs[0]);
    }
    if |xs| >= 2 {
      SuitsIs(a, widths, bools, xs[1]);
      WidthIs(a, xs[1]);
    }
    if op.out.Some? {
      WidthIs(a, op.out.value);
      var out := Natural(op.out.value, a);
      if |xs| == 1 { OneTypedIs(a, widths, bools, s, xs[0], out); }
      if |xs| == 2 { TwoTypedIs(a, widths, bools, s, xs[0], xs[1], out); }
    }
  }

  /** A typed operation is a truth value to one exactly when it is to the other. */
  lemma BoolsAfterIs(a: Arch, widths: map<Name, nat>, bools: set<Name>, op: PcodeOp)
    requires I.OpTyped(a, widths, bools, op) && OnlyCells(widths)
    ensures C.BoolsAfter(a, bools, op) == I.BoolsAfter(a, bools, op)
  {
    KindsAre(op.opcode);
    OpOut(a, widths, bools, op);
    if op.out.Some? && I.Holds(op.out.value) { NameIs(op.out.value); }
    if |op.inputs| == 1 { SuitsIs(a, widths, bools, op.inputs[0]); }
    hide OpcodeOf, VarName, I.Cell, I.OpTyped, C.IsBoolean, I.IsTruth, I.IsFlow, C.Fits, I.Suits, C.Exact, I.Exactly;
  }

  lemma OpOut(a: Arch, widths: map<Name, nat>, bools: set<Name>, op: PcodeOp)
    requires I.OpTyped(a, widths, bools, op)
    ensures I.IsFlow(op.opcode) || op.opcode == "STORE" || I.Defines(op)
  {
    hide I.IsFlow, I.TwoTyped, I.OneTyped, I.SuitsAddress, I.Suits, I.Exactly;
  }

  /** And is given the width the lifter gives it. */
  lemma WidthsAfterIs(a: Arch, m: Machine, bools: set<Name>, op: PcodeOp)
    requires I.OpTyped(a, m.widths, bools, op) && OnlyCells(m.widths) && LiftOp(a, m, op).Ok?
    ensures LiftOp(a, m, op).value.widths == I.WidthsAfter(a, m.widths, op) && OnlyCells(I.WidthsAfter(a, m.widths, op))
  {
    hide OpcodeOf, I.OpTyped, I.IsFlow, I.ResultWidth, VarName, I.Cell, Natural, I.WidthOf, OnlyCells, LiftOp;
    OpOut(a, m.widths, bools, op);
    if I.Defines(op) {
      var out := op.out.value;
      NameIs(out);
      if op.opcode == "LOAD" {
        LoadWidth(a, m, op);
      } else {
        ValueWidth(a, m, op);
        ResultWidthIs(a, m, bools, op);
      }
      OneMoreCell(m.widths, I.Cell(out), I.ResultWidth(a, m.widths, op));
    } else {
      NoWidth(a, m, op);
    }
  }

  /** Neither control flow nor a store gives a width. */
  lemma NoWidth(a: Arch, m: Machine, op: PcodeOp)
    requires (I.IsFlow(op.opcode) || op.opcode == "STORE") && LiftOp(a, m, op).Ok?
    ensures LiftOp(a, m, op).value.widths == m.widths
  {
    KindsAre(op.opcode);
    hide OpcodeOf, I.IsFlow, LiftDefining;
  }

  lemma ValueWidth(a: Arch, m: Machine, op: PcodeOp)
    requires I.Defines(op) && op.opcode != "LOAD" && LiftOp(a, m, op).Ok?
    ensures
      var w, e := Natural(op.out.value, a), EvalOp(a, m.widths, OpcodeOf(op.opcode), op.inputs, Natural(op.out.value, a));
      e.Ok? && LiftOp(a, m, op).value.widths == m.widths[VarName(op.out.value) := ExprBits(e.value, w)]
  {
    KindsAre(op.opcode);
    hide OpcodeOf, I.IsFlow, EvalOp, ExprBits, Natural, VarName, LiftStore, LiftLoad;
  }

  lemma OneMoreCell(widths: map<Name, nat>, x: Name, bits: nat)
    requires OnlyCells(widths) && (x.Plain? || x.Unique?)
    ensures OnlyCells(widths[x := bits])
  {
  }

  lemma LoadWidth(a: Arch, m: Machine, op: PcodeOp)
    requires I.Defines(op) && op.opcode == "LOAD" && LiftOp(a, m, op).Ok?
    ensures LiftOp(a, m, op).value.widths == m.widths[VarName(op.out.value) := I.ResultWidth(a, m.widths, op)]
  {
    KindsAre(op.opcode);
    WidthIs(a, op.out.value);
    LoadOnly();
    hide OpcodeOf, I.WidthOf, Natural, VarName, I.IsFlow, I.IsCompare, EvalOp;
  }

  lemma LoadOnly()
    ensures !I.IsCompare("LOAD") && "LOAD" != "COPY" && "LOAD" != "BOOL_NEGATE"
  {
    assert "LOAD"[0] == 'L';
  }

  lemma ResultWidthIs(a: Arch, m: Machine, bools: set<Name>, op: PcodeOp)
    requires I.OpTyped(a, m.widths, bools, op) && OnlyCells(m.widths) && I.Defines(op) && op.opcode != "LOAD"
    requires EvalOp(a, m.widths, OpcodeOf(op.opcode), op.inputs, Natural(op.out.value, a)).Ok?
    ensures ExprBits(EvalOp(a, m.widths, OpcodeOf(op.opcode), op.inputs, Natural(op.out.value, a)).value, Natural(op.out.value, a))
         == I.ResultWidth(a, m.widths, op)
  {
    hide OpcodeOf, I.IsFlow, I.TwoTyped, VarName, I.Cell, I.Exactly, Natural, I.WidthOf, EvalOp, I.OneTyped, ExprBits, I.ResultWidth;
    var s, out := op.opcode, Natural(op.out.value, a);
    KindsAre(s);
    OneKind(OpcodeOf(s));
    WidthIs(a, op.out.value);
    TypedKinds(a, m.widths, bools, op);
    hide I.OpTyped;
    if I.TakesTwo(s) {
      TwoWidth(a, m.widths, op, out);
    } else if I.TakesOne(s) {
      OneWidth(a, m.widths, bools, op, out);
    } else {
      PieceWidth(a, m.widths, op, out);
    }
  }

  lemma TypedKinds(a: Arch, widths: map<Name, nat>, bools: set<Name>, op: PcodeOp)
    requires I.OpTyped(a, widths, bools, op) && I.Defines(op) && op.opcode != "LOAD"
    ensures I.TakesTwo(op.opcode) ==> |op.inputs| == 2
    ensures !I.TakesTwo(op.opcode) && I.TakesOne(op.opcode) ==> |op.inputs| == 1 && I.OneTyped(a, widths, bools, op.opcode, op.inputs[0], I.WidthOf(a, op.out.value))
    ensures !I.TakesTwo(op.opcode) && !I.TakesOne(op.opcode) ==> op.opcode == "SUBPIECE" && |op.inputs| == 2 && op.inputs[1].Constant?
    ensures !I.TakesTwo(op.opcode) && !I.TakesOne(op.opcode) ==> 8 * op.inputs[1].value + I.WidthOf(a, op.out.value) <= I.WidthOf(a, op.inputs[0])
  {
    hide I.IsFlow, I.TakesTwo, I.TakesOne, I.OneTyped, I.TwoTyped, I.WidthOf, I.Exactly;
  }

  lemma TwoWidth(a: Arch, widths: map<Name, nat>, op: PcodeOp, out: nat)
    requires I.Defines(op) && I.TakesTwo(op.opcode) && |op.inputs| == 2 && out == I.WidthOf(a, op.out.value)
    requires EvalOp(a, widths, OpcodeOf(op.opcode), op.inputs, out).Ok?
    ensures ExprBits(EvalOp(a, widths, OpcodeOf(op.opcode), op.inputs, out).value, out) == I.ResultWidth(a, widths, op)
  {
    var code := OpcodeOf(op.opcode);
    KindsAre(op.opcode);
    TwoOnly(op.opcode);
    hide OpcodeOf, I.WidthOf, ReadOperand, ExprBits, IrOp, I.TakesTwo, I.IsCompare;
    P.CodeWidth(code, EvalOp(a, widths, code, op.inputs, out).value.a, EvalOp(a, widths, code, op.inputs, out).value.b, out);
  }

  lemma TwoOnly(s: string)
    requires I.TakesTwo(s)
    ensures s != "COPY" && s != "BOOL_NEGATE"
  {
    KindsAre(s);
    OneKind(OpcodeOf(s));
    hide OpcodeOf, I.TakesTwo, IrOp;
  }

  lemma OneWidth(a: Arch, widths: map<Name, nat>, bools: set<Name>, op: PcodeOp, out: nat)
    requires I.Defines(op) && I.TakesOne(op.opcode) && |op.inputs| == 1 && out == I.WidthOf(a, op.out.value) && OnlyCells(widths)
    requires I.OneTyped(a, widths, bools, op.opcode, op.inputs[0], out)
    requires EvalOp(a, widths, OpcodeOf(op.opcode), op.inputs, out).Ok?
    ensures ExprBits(EvalOp(a, widths, OpcodeOf(op.opcode), op.inputs, out).value, out) == I.ResultWidth(a, widths, op)
  {
    hide OpcodeOf, I.WidthOf, Natural, VarName, I.Cell, I.OneTyped, PtrBits, I.PointerWidth, I.IsCompare, I.TakesOne, Read, UnaryExpr, ExprBits, I.ResultWidth;
    var code, x := OpcodeOf(op.opcode), op.inputs[0];
    OneEval(a, widths, op, out);
    if op.opcode == "COPY" {
      CopyWidth(a, widths, bools, op, out);
    } else {
      OtherWidth(a, widths, op, Read(a, widths, x).value, out);
    }
  }

  lemma OneEval(a: Arch, widths: map<Name, nat>, op: PcodeOp, out: nat)
    requires I.TakesOne(op.opcode) && |op.inputs| == 1 && EvalOp(a, widths, OpcodeOf(op.opcode), op.inputs, out).Ok?
    ensures
      var code, x := OpcodeOf(op.opcode), Read(a, widths, op.inputs[0]);
      x.Ok? && EvalOp(a, widths, code, op.inputs, out).value == UnaryExpr(code, x.value, out).value && C.Unary1(code) && UnaryExpr(code, x.value, out).Some?
  {
    KindsAre(op.opcode);
    OneKind(OpcodeOf(op.opcode));
    hide OpcodeOf, I.TakesOne, Read;
  }

  lemma CopyWidth(a: Arch, widths: map<Name, nat>, bools: set<Name>, op: PcodeOp, out: nat)
    requires I.Defines(op) && op.opcode == "COPY" && |op.inputs| == 1 && OnlyCells(widths) && Read(a, widths, op.inputs[0]).Ok?
    requires I.OneTyped(a, widths, bools, op.opcode, op.inputs[0], out)
    ensures UnaryExpr(OpcodeOf(op.opcode), Read(a, widths, op.inputs[0]).value, out) == Some(Read(a, widths, op.inputs[0]).value)
    ensures ExprBits(Read(a, widths, op.inputs[0]).value, out) == I.ResultWidth(a, widths, op)
  {
    var x := op.inputs[0];
    KindsAre(op.opcode);
    WidthIs(a, x);
    if I.Holds(x) { NameIs(x); }
    CopyTyped(a, widths, bools, op.opcode, x, out);
    hide OpcodeOf, I.WidthOf, Natural, VarName, I.Cell, I.OneTyped, PtrBits, I.PointerWidth, I.IsCompare;
    CopyOnly();
  }

  lemma CopyOnly()
    ensures !I.IsCompare("COPY") && "COPY" != "BOOL_NEGATE"
  {
    assert "COPY"[0] == 'C';
  }

  lemma OtherWidth(a: Arch, widths: map<Name, nat>, op: PcodeOp, x: Expr, out: nat)
    requires I.Defines(op) && I.TakesOne(op.opcode) && op.opcode != "COPY" && out == I.WidthOf(a, op.out.value)
    ensures UnaryExpr(OpcodeOf(op.opcode), x, out).Some? && ExprBits(UnaryExpr(OpcodeOf(op.opcode), x, out).value, out) == I.ResultWidth(a, widths, op)
  {
    KindsAre(op.opcode);
    OneOnly(op.opcode);
    hide OpcodeOf, I.WidthOf, I.Cell, I.IsCompare, I.TakesOne;
  }

  lemma CopyTyped(a: Arch, widths: map<Name, nat>, bools: set<Name>, s: string, x: Varnode, out: nat)
    requires I.OneTyped(a, widths, bools, s, x, out) && OnlyCells(widths)
    ensures !I.Bare(x) ==> I.Holds(x) || (x.Constant? && x.width.Some? && 0 < x.width.value <= 255 && I.WidthOf(a, x) == ByteBits(x.width.value))
  {
  }

  lemma OneOnly(s: string)
    requires I.TakesOne(s)
    ensures !I.IsCompare(s)
  {
    KindsAre(s);
    OneKind(OpcodeOf(s));
    CompareTakesTwo(s);
    hide OpcodeOf, I.TakesOne, I.IsCompare, I.TakesTwo;
  }

  lemma CompareTakesTwo(s: string)
    ensures I.IsCompare(s) ==> I.TakesTwo(s)
  {
    hide I.IsCompare;
  }

  lemma PieceWidth(a: Arch, widths: map<Name, nat>, op: PcodeOp, out: nat)
    requires I.Defines(op) && op.opcode == "SUBPIECE" && |op.inputs| == 2 && op.inputs[1].Constant? && out == I.WidthOf(a, op.out.value)
    requires 8 * op.inputs[1].value + out <= I.WidthOf(a, op.inputs[0])
    requires EvalOp(a, widths, OpcodeOf(op.opcode), op.inputs, out).Ok?
    ensures ExprBits(EvalOp(a, widths, OpcodeOf(op.opcode), op.inputs, out).value, out) == I.ResultWidth(a, widths, op)
  {
    KindsAre(op.opcode);
    OneKind(OpcodeOf(op.opcode));
    WidthIs(a, op.inputs[0]);
    P.NaturalSmall(op.inputs[0], a);
    WidthIs(a, op.out.value);
    P.NaturalPositive(op.out.value, a);
    PieceOnly();
    hide OpcodeOf, I.WidthOf, Natural, IrOp;
    var lo := op.inputs[1].value * 8;
    assert SaturatingAdd(lo, SaturatingSub(out, 1)) == lo + out - 1;
  }

  lemma PieceOnly()
    ensures !I.IsCompare("SUBPIECE") && "SUBPIECE" != "COPY" && "SUBPIECE" != "BOOL_NEGATE"
  {
    assert "SUBPIECE"[0] == 'S';
  }

  /** A list is typed for one exactly when it is for the other, and then both know the same
      widths and truth values. */
  lemma {:induction false} TypedIs(a: Arch, ops: seq<PcodeOp>)
    ensures I.Typed(a, ops) <==> C.CodesTyped(a, ops)
    ensures I.Typed(a, ops) ==> LiftOps(a, ops).Ok? && LiftOps(a, ops).value.widths == I.Widths(a, ops) && OnlyCells(I.Widths(a, ops)) && C.Bools(a, ops) == I.Bools(a, ops)
    decreases |ops|
  {
    hide I.OpTyped, C.OpTyped, LiftOp, I.WidthsAfter, I.BoolsAfter, C.BoolsAfter, OnlyCells;
    if ops == [] {
      NothingGiven();
    } else {
      var rest, op := ops[..|ops| - 1], ops[|ops| - 1];
      TypedIs(a, rest);
      if I.Typed(a, rest) {
        OpTypedIs(a, I.Widths(a, rest), I.Bools(a, rest), op);
        if I.Typed(a, ops) {
          P.TypedRuns(a, ops, State(map[], map[]), Sem([], FpModel((_, _, _) => 0, (_, _, _, _) => 0), 64));
          WidthsAfterIs(a, LiftOps(a, rest).value, I.Bools(a, rest), op);
          BoolsAfterIs(a, I.Widths(a, rest), I.Bools(a, rest), op);
        }
      }
    }
  }

  lemma NothingGiven()
    ensures OnlyCells(map[])
  {
  }

  /** The lift of a typed list succeeds, and from every state its statements end in exactly the
      registers, flags, temporaries and memory the interpreter of the list's text ends in. */
  lemma LiftRefines(a: Arch, insns: seq<PcodeInsn>, st: State, sem: Sem)
    requires I.Typed(a, OpsOf(insns))
    ensures var r := LiftOps(a, OpsOf(insns));
            r.Ok? && Exec(r.value.statements, st, sem, 0) == I.RunOps(a, OpsOf(insns), st, sem.ptr)
  {
    TypedIs(a, OpsOf(insns));
    RunsAre(a, OpsOf(insns), st, sem.ptr);
    P.TypedRuns(a, OpsOf(insns), st, sem);
  }
}
