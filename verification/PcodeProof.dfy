/** The P-code lift refines the interpreter on every operation list of consistent width. */
module PcodeProof {
  import opened Bits
  import opened Common
  import opened Ir
  import opened Pcode
  import opened PcodeCodes

  /** Names said to hold truth values do. */
  ghost predicate Held(widths: map<Name, nat>, bools: set<Name>, env: Env) {
    forall x :: x in bools ==> x in widths && widths[x] >= 1 && Get(env, x) <= 1
  }

  lemma NaturalPositive(vn: Varnode, a: Arch)
    ensures Natural(vn, a) >= 1
  {
  }

  lemma SmallFits(x: nat, w: nat)
    requires x <= 1 && w >= 1
    ensures Cut(x, w) == x
  {
    Pow2Mono(1, w);
    assert Pow2(1) == 2;
    SmallMod(x, Pow2(w));
  }

  lemma CutBound(x: nat, w: nat)
    ensures Cut(x, w) < Pow2(w)
  {
  }

  /** What a read of the operand is: quiet, of the announced width, with the interpreter's value. */
  ghost predicate ReadsAs(e: Expr, w: nat, v: nat, env: Env, sem: Sem, k: nat) {
    Count(e) == 0 && Width(e) == w && Eval(e, env, sem, k) == v
  }

  lemma ReadValue(a: Arch, widths: map<Name, nat>, bools: set<Name>, vn: Varnode, env: Env, sem: Sem, k: nat)
    requires Fits(a, widths, bools, vn) && Held(widths, bools, env)
    ensures var e := Read(a, widths, vn);
            e.Ok? && ReadsAs(e.value, if IsVar(vn) then VarWidth(a, widths, vn) else Natural(vn, a), NumOf(a, vn, env), env, sem, k)
    ensures NumOf(a, vn, env) < Pow2(Natural(vn, a))
    ensures IsVar(vn) && VarName(vn) in bools ==> NumOf(a, vn, env) <= 1
  {
    hide Pow2;
    NaturalPositive(vn, a);
    if IsVar(vn) {
      var x := Get(env, VarName(vn));
      CutBound(x, Natural(vn, a));
      if VarName(vn) in bools {
        SmallFits(x, VarWidth(a, widths, vn));
        SmallFits(x, Natural(vn, a));
      }
    } else {
      CutBound(vn.value, ByteBits(vn.width.value));
    }
  }

  lemma OperandValue(a: Arch, widths: map<Name, nat>, bools: set<Name>, vn: Varnode, other: Varnode, env: Env, sem: Sem, k: nat)
    requires FitsBeside(a, widths, bools, vn, other) && Held(widths, bools, env)
    ensures var e := ReadOperand(a, widths, vn, Hint(a, other));
            e.Ok? && ReadsAs(e.value, ReadBits(a, widths, vn, other), OperandNum(a, vn, other, env), env, sem, k)
    ensures OperandNum(a, vn, other, env) < Pow2(OwnBits(a, vn, other))
    ensures IsBoolean(a, bools, vn) ==> OperandNum(a, vn, other, env) <= 1
    ensures ExactBeside(a, widths, vn, other) ==> ReadBits(a, widths, vn, other) == OwnBits(a, vn, other)
  {
    hide Pow2;
    if Sizeless(vn) {
      NaturalPositive(other, a);
      CutBound(vn.value, Natural(other, a));
      if vn.value <= 1 {
        SmallFits(vn.value, Natural(other, a));
      }
    } else {
      ReadValue(a, widths, bools, vn, env, sem, k);
      if IsBoolean(a, bools, vn) {
        BooleanValue(a, widths, bools, vn, env);
      }
    }
  }

  lemma BooleanValue(a: Arch, widths: map<Name, nat>, bools: set<Name>, vn: Varnode, env: Env)
    requires Fits(a, widths, bools, vn) && Held(widths, bools, env) && IsBoolean(a, bools, vn)
    ensures NumOf(a, vn, env) <= 1
  {
    NaturalPositive(vn, a);
    if IsVar(vn) && Natural(vn, a) == 1 {
      assert Pow2(1) == 2;
    } else if IsVar(vn) {
      SmallFits(Get(env, VarName(vn)), Natural(vn, a));
    } else {
      SmallFits(vn.value, ByteBits(vn.width.value));
    }
  }

  // ---- One operation on numbers ----

  lemma AndBound(x: nat, y: nat, w: nat)
    requires x < Pow2(w)
    ensures BitAnd(x, y) < Pow2(w)
  {
    AndLe(x, y);
  }

  lemma WrapCut(z: int, w: nat)
    ensures Cut(Wrap(z, w), w) == Wrap(z, w)
  {
    SmallMod(Wrap(z, w), Pow2(w));
  }

  /** The two operations at one width. */
  lemma ModularNum(code: Opcode, x: nat, y: nat, w: nat, fp: FpModel)
    requires Modular(code) && x < Pow2(w) && y < Pow2(w)
    ensures Cut(BinValue(IrOp(code).value, w, w, x, y, fp), w) == BinaryNum(code, x, w, y, w, w)
  {
    hide Pow2;
    match code
    case IntAdd => WrapCut(x + y, w);
    case IntSub => WrapCut((x as int) - (y as int), w);
    case IntMult => WrapCut(x * y, w);
    case IntAnd => AndBound(x, y, w); SmallMod(BitAnd(x, y), Pow2(w));
    case IntOr => OrBound(x, y, w); SmallMod(BitOr(x, y), Pow2(w));
    case IntXor => XorBound(x, y, w); SmallMod(BitXor(x, y), Pow2(w));
  }

  /** Shifting left at a wider width and cutting is shifting at the output's width. */
  lemma LeftNum(x: nat, wx: nat, y: nat, wy: nat, out: nat, fp: FpModel)
    requires out <= Max(wx, wy)
    ensures Cut(BinValue(Shl, wx, wy, x, y, fp), out) == BinaryNum(IntLeft, x, wx, y, wy, out)
  {
    hide Pow2;
    CutCut(x * Pow2(y), out, Max(wx, wy));
  }

  lemma HalvedBound(x: nat, y: nat, w: nat)
    requires x < Pow2(w)
    ensures Halved(x, y) < Pow2(w)
  {
    DivLe(x, Pow2(y));
  }

  lemma DivLe(x: nat, d: nat)
    requires d >= 1
    ensures 0 <= x / d <= x
  {
    var q := x / d;
    assert x == q * d + x % d;
    assert q <= x by {
      if q >= 1 {
        MulGe(d, q);
        assert d * q == q * d;
      }
    }
  }

  lemma RightNum(x: nat, wx: nat, y: nat, wy: nat, out: nat, fp: FpModel)
    requires x < Pow2(out)
    ensures Cut(BinValue(LShr, wx, wy, x, y, fp), out) == BinaryNum(IntRight, x, wx, y, wy, out)
  {
    hide Pow2;
    HalvedBound(x, y, out);
    SmallMod(Halved(x, y), Pow2(out));
  }

  lemma SrightNum(x: nat, y: nat, wy: nat, out: nat, fp: FpModel)
    requires wy <= out
    ensures Cut(BinValue(AShr, out, wy, x, y, fp), out) == BinaryNum(IntSright, x, out, y, wy, out)
  {
    hide Pow2;
    WrapCut(ToSigned(x, out) / Pow2(y), out);
  }

  lemma BitCut(b: bool, w: nat)
    requires w >= 1
    ensures Cut(Bit(b), w) == Bit(b)
  {
    SmallFits(Bit(b), w);
  }

  lemma LogicalNum(code: Opcode, x: nat, wx: nat, y: nat, wy: nat, out: nat, fp: FpModel)
    requires Logical(code) && x <= 1 && y <= 1 && out >= 1
    ensures Cut(BinValue(IrOp(code).value, wx, wy, x, y, fp), out) == BinaryNum(code, x, wx, y, wy, out)
  {
    assert BitAnd(x, y) == Bit(x == 1 && y == 1) && BitOr(x, y) == Bit(x == 1 || y == 1) && BitXor(x, y) == Bit(x != y);
    hide Pow2, BitAnd, BitOr, BitXor;
    BitCut(x == 1 && y == 1, out);
    BitCut(x == 1 || y == 1, out);
    BitCut(x != y, out);
  }

  /** A two-operand operation, whatever width its expression is given. */
  lemma BinaryNums(code: Opcode, x: nat, rx: nat, ox: nat, y: nat, ry: nat, oy: nat, out: nat, fp: FpModel)
    requires IrOp(code).Some? && x < Pow2(ox) && y < Pow2(oy) && out >= 1
    requires Modular(code) ==> rx == ox == out && ry == oy == out
    requires code.IntLeft? ==> rx == ox
    requires code.IntLeft? || code.IntRight? ==> ox == out
    requires code.IntSright? ==> rx == ox == out && ry <= out
    requires code.IntSless? || code.IntSlessEqual? ==> rx == ox && ry == oy
    requires Logical(code) ==> x <= 1 && y <= 1
    ensures var op := IrOp(code).value;
            Cut(BinValue(op, rx, ry, x, y, fp), if Compares(code) then 1 else out) == BinaryNum(code, x, ox, y, oy, out)
  {
    hide Pow2, BinaryNum, BinValue;
    if Modular(code) {
      ModularNum(code, x, y, out, fp);
    } else if code.IntLeft? {
      LeftNum(x, rx, y, ry, out, fp);
      LeftWidths(x, rx, ox, y, ry, oy, out);
    } else if code.IntRight? {
      RightNum(x, rx, y, ry, out, fp);
      RightWidths(x, rx, ox, y, ry, oy, out);
    } else if code.IntSright? {
      SrightNum(x, y, ry, out, fp);
      SrightWidths(x, ox, y, ry, oy, out);
    } else if Logical(code) {
      LogicalNum(code, x, rx, y, ry, out, fp);
      LogicalWidths(code, x, rx, ox, y, ry, oy, out);
    } else {
      ComparesNum(code, x, rx, ox, y, ry, oy, out, fp);
    }
  }

  lemma LeftWidths(x: nat, rx: nat, ox: nat, y: nat, ry: nat, oy: nat, out: nat)
    ensures BinaryNum(IntLeft, x, rx, y, ry, out) == BinaryNum(IntLeft, x, ox, y, oy, out)
  {
  }

  lemma RightWidths(x: nat, rx: nat, ox: nat, y: nat, ry: nat, oy: nat, out: nat)
    ensures BinaryNum(IntRight, x, rx, y, ry, out) == BinaryNum(IntRight, x, ox, y, oy, out)
  {
  }

  lemma SrightWidths(x: nat, ox: nat, y: nat, ry: nat, oy: nat, out: nat)
    ensures BinaryNum(IntSright, x, ox, y, ry, out) == BinaryNum(IntSright, x, ox, y, oy, out)
  {
  }

  lemma LogicalWidths(code: Opcode, x: nat, rx: nat, ox: nat, y: nat, ry: nat, oy: nat, out: nat)
    requires Logical(code)
    ensures BinaryNum(code, x, rx, y, ry, out) == BinaryNum(code, x, ox, y, oy, out)
  {
  }

  lemma ComparesNum(code: Opcode, x: nat, rx: nat, ox: nat, y: nat, ry: nat, oy: nat, out: nat, fp: FpModel)
    requires Compares(code)
    requires code.IntSless? || code.IntSlessEqual? ==> rx == ox && ry == oy
    ensures Cut(BinValue(IrOp(code).value, rx, ry, x, y, fp), 1) == BinaryNum(code, x, ox, y, oy, out)
  {
    BitCut(BinaryNum(code, x, ox, y, oy, out) == 1, 1);
    hide Pow2, ToSigned, Cut;
  }

  // ---- One operation on expressions ----

  /** The expression a definition assigns: quiet, and worth `v` at the width it defines. */
  ghost predicate Defines(e: Expr, out: nat, v: nat, env: Env, sem: Sem, k: nat) {
    Count(e) == 0 && ExprBits(e, out) >= 1 && Cut(Eval(e, env, sem, k), ExprBits(e, out)) == v
  }

  /** What typing says of the widths and values of a two-operand operation. */
  lemma BinaryFacts(a: Arch, widths: map<Name, nat>, bools: set<Name>, code: Opcode, p: Varnode, q: Varnode, out: nat, env: Env, sem: Sem, k: nat)
    requires IrOp(code).Some? && BinaryTyped(a, widths, bools, code, p, q, out) && Held(widths, bools, env)
    ensures var x, y := OperandNum(a, p, q, env), OperandNum(a, q, p, env);
            var rx, ry, ox, oy := ReadBits(a, widths, p, q), ReadBits(a, widths, q, p), OwnBits(a, p, q), OwnBits(a, q, p);
            && (Modular(code) ==> rx == ox == out && ry == oy == out)
            && (code.IntLeft? ==> rx == ox) && (code.IntLeft? || code.IntRight? ==> ox == out)
            && (code.IntSright? ==> rx == ox == out && ry <= out)
            && (code.IntSless? || code.IntSlessEqual? ==> rx == ox && ry == oy)
            && (Logical(code) ==> x <= 1 && y <= 1) && x < Pow2(ox) && y < Pow2(oy)
  {
    hide Pow2, FitsBeside, ReadOperand, OwnBits, OperandNum, Hint, IsBoolean, ReadBits, Held, IrOp, ReadsAs;
    OperandValue(a, widths, bools, p, q, env, sem, k);
    OperandValue(a, widths, bools, q, p, env, sem, k);
  }

  lemma BinaryLift(a: Arch, widths: map<Name, nat>, code: Opcode, inputs: seq<Varnode>, out: nat)
    requires IrOp(code).Some? && |inputs| == 2
    requires ReadOperand(a, widths, inputs[0], Hint(a, inputs[1])).Ok? && ReadOperand(a, widths, inputs[1], Hint(a, inputs[0])).Ok?
    ensures EvalOp(a, widths, code, inputs, out) ==
            Ok(Bin(IrOp(code).value, ReadOperand(a, widths, inputs[0], Hint(a, inputs[1])).value, ReadOperand(a, widths, inputs[1], Hint(a, inputs[0])).value))
  {
    hide ReadOperand, Hint, IrOp;
  }

  lemma BinaryResult(a: Arch, code: Opcode, inputs: seq<Varnode>, out: nat, env: Env)
    requires IrOp(code).Some? && |inputs| == 2
    ensures ResultNum(a, code, inputs, out, env) ==
            BinaryNum(code, OperandNum(a, inputs[0], inputs[1], env), OwnBits(a, inputs[0], inputs[1]),
                      OperandNum(a, inputs[1], inputs[0], env), OwnBits(a, inputs[1], inputs[0]), out)
  {
    hide BinaryNum, OperandNum, OwnBits, IrOp;
  }

  lemma BinaryFits(a: Arch, widths: map<Name, nat>, bools: set<Name>, code: Opcode, x: Varnode, y: Varnode, out: nat)
    requires BinaryTyped(a, widths, bools, code, x, y, out)
    ensures FitsBeside(a, widths, bools, x, y) && FitsBeside(a, widths, bools, y, x)
  {
    hide FitsBeside, OwnBits, IsBoolean, ReadBits;
  }

  lemma BinaryDefines(a: Arch, widths: map<Name, nat>, bools: set<Name>, code: Opcode, inputs: seq<Varnode>, out: nat, env: Env, sem: Sem, k: nat)
    requires IrOp(code).Some? && |inputs| == 2 && out >= 1
    requires BinaryTyped(a, widths, bools, code, inputs[0], inputs[1], out) && Held(widths, bools, env)
    ensures var e := EvalOp(a, widths, code, inputs, out);
            e.Ok? && Defines(e.value, out, ResultNum(a, code, inputs, out, env), env, sem, k)
    ensures Compares(code) || Logical(code) ==> ResultNum(a, code, inputs, out, env) <= 1
  {
    hide *;
    var p, q := inputs[0], inputs[1];
    BinaryFits(a, widths, bools, code, p, q, out);
    OperandValue(a, widths, bools, p, q, env, sem, k);
    OperandValue(a, widths, bools, q, p, env, sem, k);
    BinaryFacts(a, widths, bools, code, p, q, out, env, sem, k);
    BinaryLift(a, widths, code, inputs, out);
    BinaryResult(a, code, inputs, out, env);
    var x, y := OperandNum(a, p, q, env), OperandNum(a, q, p, env);
    var rx, ry := ReadBits(a, widths, p, q), ReadBits(a, widths, q, p);
    BinaryNums(code, x, rx, OwnBits(a, p, q), y, ry, OwnBits(a, q, p), out, sem.fp);
    var ex, ey := ReadOperand(a, widths, p, Hint(a, q)).value, ReadOperand(a, widths, q, Hint(a, p)).value;
    BinaryEval(code, ex, ey, rx, x, ry, y, env, sem, k);
    CodeWidth(code, ex, ey, out);
    TruthNum(code, x, OwnBits(a, p, q), y, OwnBits(a, q, p), out);
    DefinesMade(Bin(IrOp(code).value, ex, ey), out, if Compares(code) then 1 else out, ResultNum(a, code, inputs, out, env), env, sem, k);
  }

  lemma DefinesMade(e: Expr, out: nat, w: nat, v: nat, env: Env, sem: Sem, k: nat)
    requires Count(e) == 0 && ExprBits(e, out) == w >= 1 && Cut(Eval(e, env, sem, k), w) == v
    ensures Defines(e, out, v, env, sem, k)
  {
    hide Eval, Count, ExprBits, Pow2;
  }

  lemma BinaryEval(code: Opcode, ex: Expr, ey: Expr, rx: nat, x: nat, ry: nat, y: nat, env: Env, sem: Sem, k: nat)
    requires IrOp(code).Some? && ReadsAs(ex, rx, x, env, sem, k) && ReadsAs(ey, ry, y, env, sem, k)
    ensures var e := Bin(IrOp(code).value, ex, ey);
            Count(e) == 0 && Eval(e, env, sem, k) == BinValue(IrOp(code).value, rx, ry, x, y, sem.fp)
  {
    hide BinValue, Pow2;
  }

  lemma CodeWidth(code: Opcode, ex: Expr, ey: Expr, out: nat)
    requires IrOp(code).Some?
    ensures ExprBits(Bin(IrOp(code).value, ex, ey), out) == if Compares(code) then 1 else out
  {
  }

  lemma TruthNum(code: Opcode, x: nat, wx: nat, y: nat, wy: nat, out: nat)
    ensures Compares(code) || Logical(code) ==> BinaryNum(code, x, wx, y, wy, out) <= 1
  {
    hide Pow2, ToSigned;
  }

  /** Flipping every bit of a value is taking it from all ones. */
  lemma {:induction false} XorOnes(x: nat, w: nat)
    requires x < Pow2(w)
    ensures BitXor(x, Ones(w)) == Ones(w) - x
    decreases w
  {
    if w > 0 && x > 0 {
      assert Ones(w) % 2 == 1 && Ones(w) / 2 == Ones(w - 1);
      XorOnes(x / 2, w - 1);
    }
  }

  lemma NegateNum(x: nat, w: nat)
    requires x < Pow2(w)
    ensures BitXor(x, Ones(w)) == Wrap(-1 - x, w) && Cut(Ones(w), w) == Ones(w)
  {
    XorOnes(x, w);
    hide Pow2;
    SmallMod(Ones(w), Pow2(w));
    ModAddMul(-1 - x, 1, Pow2(w));
    SmallMod(Ones(w) - x, Pow2(w));
  }

  lemma CopyDefines(a: Arch, widths: map<Name, nat>, bools: set<Name>, vn: Varnode, out: nat, env: Env, sem: Sem, k: nat)
    requires UnaryTyped(a, widths, bools, Copy, vn, out) && !Sizeless(vn) && Held(widths, bools, env)
    ensures var e := Read(a, widths, vn);
            e.Ok? && Defines(e.value, out, NumOf(a, vn, env), env, sem, k)
    ensures IsBoolean(a, bools, vn) ==> NumOf(a, vn, env) <= 1
  {
    hide Pow2;
    ReadValue(a, widths, bools, vn, env, sem, k);
    NaturalPositive(vn, a);
    if IsBoolean(a, bools, vn) {
      BooleanValue(a, widths, bools, vn, env);
    }
    var e := Read(a, widths, vn).value;
    var w := ExprBits(e, out);
    if IsVar(vn) {
      CutCut(Get(env, VarName(vn)), w, w);
    } else {
      CutCut(vn.value, w, w);
    }
  }

  lemma UnaryDefines(a: Arch, widths: map<Name, nat>, bools: set<Name>, code: Opcode, vn: Varnode, out: nat, env: Env, sem: Sem, k: nat)
    requires Unary1(code) && !code.Copy? && out >= 1
    requires UnaryTyped(a, widths, bools, code, vn, out) && !Sizeless(vn) && Held(widths, bools, env)
    ensures var x := Read(a, widths, vn);
            x.Ok? && Defines(UnaryExpr(code, x.value, out).value, out, UnaryNum(code, NumOf(a, vn, env), Natural(vn, a), out), env, sem, k)
    ensures code.BoolNegate? ==> UnaryNum(code, NumOf(a, vn, env), Natural(vn, a), out) <= 1
  {
    hide Pow2, Natural, IsBoolean, Held, ReadsAs, NumOf;
    ReadValue(a, widths, bools, vn, env, sem, k);
    var x, v := Read(a, widths, vn).value, NumOf(a, vn, env);
    var w := if IsVar(vn) then VarWidth(a, widths, vn) else Natural(vn, a);
    assert code.IntNegate? || code.Int2Comp? || code.IntSext? ==> w == Natural(vn, a);
    hide Read, Fits;
    UnaryValue(code, x, w, v, out, env, sem, k, Natural(vn, a));
  }

  lemma UnaryValue(code: Opcode, x: Expr, w: nat, v: nat, out: nat, env: Env, sem: Sem, k: nat, own: nat)
    requires Unary1(code) && !code.Copy? && out >= 1 && ReadsAs(x, w, v, env, sem, k) && v < Pow2(own)
    requires code.IntNegate? || code.Int2Comp? ==> w == own == out
    requires code.IntNegate? ==> out <= 128
    requires code.IntSext? ==> w == own <= out
    requires code.IntZext? ==> own <= out
    ensures Defines(UnaryExpr(code, x, out).value, out, UnaryNum(code, v, own, out), env, sem, k)
  {
    hide Pow2, BitXor, ToSigned, ReadsAs, Defines, UnaryExpr, UnaryNum;
    match code
    case IntNegate => NegateValue(x, v, out, env, sem, k);
    case Int2Comp => ComplementValue(x, v, out, env, sem, k);
    case IntZext => ZextValue(x, w, v, own, out, env, sem, k);
    case IntSext => SextValue(x, v, own, out, env, sem, k);
    case BoolNegate => NotValue(x, w, v, own, out, env, sem, k);
  }

  lemma NegateValue(x: Expr, v: nat, w: nat, env: Env, sem: Sem, k: nat)
    requires ReadsAs(x, w, v, env, sem, k) && v < Pow2(w) && 1 <= w <= 128
    ensures Defines(UnaryExpr(IntNegate, x, w).value, w, UnaryNum(IntNegate, v, w, w), env, sem, k)
  {
    hide Pow2, BitXor, Ones;
    NegateNum(v, w);
    WrapCut(-1 - v, w);
    var ones := Const(AllOnes(w), w);
    assert AllOnes(w) == Ones(w) && Eval(ones, env, sem, k) == Cut(Ones(w), w);
    var e := Bin(Xor, x, ones);
    assert Eval(e, env, sem, k) == BinValue(Xor, w, w, v, Ones(w), sem.fp) == BitXor(v, Ones(w));
    assert UnaryNum(IntNegate, v, w, w) == Wrap(-1 - v, w);
    assert ExprBits(e, w) == w && Count(e) == 0;
    assert UnaryExpr(IntNegate, x, w) == Some(e);
  }

  lemma ComplementValue(x: Expr, v: nat, w: nat, env: Env, sem: Sem, k: nat)
    requires ReadsAs(x, w, v, env, sem, k) && w >= 1
    ensures Defines(UnaryExpr(Int2Comp, x, w).value, w, UnaryNum(Int2Comp, v, w, w), env, sem, k)
  {
    hide Pow2;
    WrapCut(-(v as int), w);
    SmallMod(0, Pow2(w));
    var zero := Const(0, w);
    assert Eval(zero, env, sem, k) == 0;
    var e := Bin(Sub, zero, x);
    assert Eval(e, env, sem, k) == BinValue(Sub, w, w, 0, v, sem.fp) == Wrap(0 - (v as int), w);
  }

  lemma ZextValue(x: Expr, w: nat, v: nat, own: nat, out: nat, env: Env, sem: Sem, k: nat)
    requires ReadsAs(x, w, v, env, sem, k) && v < Pow2(own) && own <= out && out >= 1
    ensures Defines(UnaryExpr(IntZext, x, out).value, out, UnaryNum(IntZext, v, own, out), env, sem, k)
  {
    hide Pow2;
    CutSmall(v, own, out);
  }

  lemma SextValue(x: Expr, v: nat, w: nat, out: nat, env: Env, sem: Sem, k: nat)
    requires ReadsAs(x, w, v, env, sem, k) && out >= 1
    ensures Defines(UnaryExpr(IntSext, x, out).value, out, UnaryNum(IntSext, v, w, out), env, sem, k)
  {
    hide Pow2, ToSigned;
    WrapCut(ToSigned(v, w), out);
  }

  lemma NotValue(x: Expr, w: nat, v: nat, own: nat, out: nat, env: Env, sem: Sem, k: nat)
    requires ReadsAs(x, w, v, env, sem, k)
    ensures Defines(UnaryExpr(BoolNegate, x, out).value, out, UnaryNum(BoolNegate, v, own, out), env, sem, k)
  {
    hide *;
    var c, one, zero := Bin(Eq, x, Const(0, 1)), Const(1, 1), Const(0, 1);
    ZeroTest(x, w, v, env, sem, k);
    BitConst(true, env, sem, k);
    BitConst(false, env, sem, k);
    IteParts(c, one, zero, env, sem, k);
    BitCut(v == 0, 1);
    NotShape(x, v, own, out);
    BitIs();
    BitDefines(Ite(c, one, zero), out, Bit(v == 0), env, sem, k);
  }

  lemma BitIs()
    ensures Bit(true) == 1 && Bit(false) == 0
  {
  }

  /** The comparison with zero, as a condition. */
  lemma ZeroTest(x: Expr, w: nat, v: nat, env: Env, sem: Sem, k: nat)
    requires ReadsAs(x, w, v, env, sem, k)
    ensures Count(Bin(Eq, x, Const(0, 1))) == 0 && Eval(Bin(Eq, x, Const(0, 1)), env, sem, k) == Bit(v == 0)
  {
    BitConst(false, env, sem, k);
    hide Eval, Count, Width, BinValue, OpWidth;
    BinParts(Eq, x, Const(0, 1), env, sem, k);
    EqualsBit(w, v, sem.fp);
    ConstWidth(0, 1);
    BitIs();
  }

  lemma ConstWidth(v: nat, bits: nat)
    ensures Width(Const(v, bits)) == bits
  {
  }

  lemma EqualsBit(w: nat, v: nat, fp: FpModel)
    ensures BinValue(Eq, w, 1, v, 0, fp) == Bit(v == 0)
  {
  }

  lemma BitConst(b: bool, env: Env, sem: Sem, k: nat)
    ensures Eval(Const(Bit(b), 1), env, sem, k) == Bit(b) && Count(Const(Bit(b), 1)) == 0
  {
    BitCut(b, 1);
    hide Pow2;
  }

  lemma NotShape(x: Expr, v: nat, own: nat, out: nat)
    ensures UnaryExpr(BoolNegate, x, out) == Some(Ite(Bin(Eq, x, Const(0, 1)), Const(1, 1), Const(0, 1)))
    ensures UnaryNum(BoolNegate, v, own, out) == Bit(v == 0)
    ensures ExprBits(Ite(Bin(Eq, x, Const(0, 1)), Const(1, 1), Const(0, 1)), out) == 1
  {
  }

  lemma BitDefines(e: Expr, out: nat, v: nat, env: Env, sem: Sem, k: nat)
    requires Count(e) == 0 && ExprBits(e, out) == 1 && Eval(e, env, sem, k) == v && Cut(v, 1) == v
    ensures Defines(e, out, v, env, sem, k)
  {
    hide Count, ExprBits, Eval, Cut;
  }

  lemma PieceDefines(a: Arch, widths: map<Name, nat>, inputs: seq<Varnode>, out: nat, env: Env, sem: Sem, k: nat)
    requires DefinesTyped(a, widths, {}, Subpiece, inputs, out) && out >= 1
    ensures var e := EvalOp(a, widths, Subpiece, inputs, out);
            e.Ok? && Defines(e.value, out, ResultNum(a, Subpiece, inputs, out, env), env, sem, k)
  {
    hide Pow2;
    var vn := inputs[0];
    ReadValue(a, widths, {}, vn, env, sem, k);
    NaturalSmall(vn, a);
    var lo := inputs[1].value * 8;
    assert SaturatingAdd(lo, SaturatingSub(out, 1)) == lo + out - 1;
    hide Natural, Fits, NumOf;
    CutCut(NumOf(a, vn, env) / Pow2(lo), out, out);
  }

  lemma NaturalSmall(vn: Varnode, a: Arch)
    ensures Natural(vn, a) <= U16
  {
  }

  lemma UnaryCase(a: Arch, widths: map<Name, nat>, code: Opcode, inputs: seq<Varnode>, out: nat, env: Env)
    requires Unary1(code) && |inputs| == 1 && Read(a, widths, inputs[0]).Ok? && !Sizeless(inputs[0])
    ensures IrOp(code) == None && UnaryExpr(code, Read(a, widths, inputs[0]).value, out).Some?
    ensures EvalOp(a, widths, code, inputs, out) == Ok(UnaryExpr(code, Read(a, widths, inputs[0]).value, out).value)
    ensures ResultNum(a, code, inputs, out, env) == UnaryNum(code, NumOf(a, inputs[0], env), Natural(inputs[0], a), out)
    ensures code.Copy? ==> UnaryNum(code, NumOf(a, inputs[0], env), Natural(inputs[0], a), out) == NumOf(a, inputs[0], env)
    ensures code.Copy? ==> UnaryExpr(code, Read(a, widths, inputs[0]).value, out).value == Read(a, widths, inputs[0]).value
  {
    hide Pow2, NumOf, Natural, Read, ToSigned;
  }

  // ---- A constant without a size, on its own ----

  lemma LoneSext(v: nat, p: nat, out: nat)
    requires Cut(v, p) == Cut(v, out) && 1 <= out <= p
    ensures Cut(Wrap(ToSigned(Cut(v, p), p), out), out) == Wrap(ToSigned(Cut(v, out), out), out)
  {
    hide Pow2, ToSigned;
    var c := Cut(v, p);
    CutBound(v, p);
    CutBound(v, out);
    WrapSigned(c, p);
    WrapSigned(c, out);
    CutCut(ToSigned(c, p), out, p);
    CutCut(v, out, out);
  }

  lemma LoneValue(code: Opcode, v: nat, p: nat, out: nat, env: Env, sem: Sem, k: nat)
    requires Unary1(code) && p >= 1 && out >= 1 && Cut(v, p) == Cut(v, out)
    requires (code.IntNegate? ==> out <= 128) && (code.IntSext? ==> out <= p)
    ensures Defines(UnaryExpr(code, Const(v, p), out).value, out, UnaryNum(code, Cut(v, out), out, out), env, sem, k)
  {
    hide Pow2, BitXor, ToSigned, Ones, UnaryNum, Defines, UnaryExpr, Cut;
    var x, c := Const(v, p), Cut(v, out);
    LoneReads(v, p, out, env, sem, k);
    CutBound(v, out);
    match code
    case Copy => LoneCopy(v, p, out, env, sem, k);
    case IntNegate => LoneNegate(v, p, out, env, sem, k);
    case Int2Comp => LoneComplement(v, p, out, env, sem, k);
    case IntZext => ZextValue(x, p, c, out, out, env, sem, k);
    case IntSext => LoneExtend(v, p, out, env, sem, k);
    case BoolNegate => NotValue(x, p, c, out, out, env, sem, k);
  }

  lemma LoneReads(v: nat, p: nat, out: nat, env: Env, sem: Sem, k: nat)
    requires Cut(v, p) == Cut(v, out)
    ensures ReadsAs(Const(v, p), p, Cut(v, out), env, sem, k)
  {
    hide Cut;
  }

  lemma LoneCopy(v: nat, p: nat, out: nat, env: Env, sem: Sem, k: nat)
    requires Cut(v, p) == Cut(v, out) && p >= 1
    ensures Defines(UnaryExpr(Copy, Const(v, p), out).value, out, UnaryNum(Copy, Cut(v, out), out, out), env, sem, k)
  {
    CutCut(v, p, p);
    hide Pow2;
  }

  lemma LoneNegate(v: nat, p: nat, out: nat, env: Env, sem: Sem, k: nat)
    requires Cut(v, p) == Cut(v, out) && 1 <= out <= 128
    ensures Defines(UnaryExpr(IntNegate, Const(v, p), out).value, out, UnaryNum(IntNegate, Cut(v, out), out, out), env, sem, k)
  {
    CutBound(v, out);
    hide Pow2, BitXor, Ones, Cut;
    var x, c, ones := Const(v, p), Cut(v, out), Const(AllOnes(out), out);
    NegateNum(c, out);
    WrapCut(-1 - (c as int), out);
    assert AllOnes(out) == Ones(out) && Eval(ones, env, sem, k) == Cut(Ones(out), out);
    var e := Bin(Xor, x, ones);
    assert Eval(e, env, sem, k) == BinValue(Xor, p, out, c, Ones(out), sem.fp) == BitXor(c, Ones(out));
    assert UnaryNum(IntNegate, c, out, out) == Wrap(-1 - (c as int), out);
    assert ExprBits(e, out) == out && Count(e) == 0;
    assert UnaryExpr(IntNegate, x, out) == Some(e);
  }

  lemma LoneComplement(v: nat, p: nat, out: nat, env: Env, sem: Sem, k: nat)
    requires Cut(v, p) == Cut(v, out) && out >= 1
    ensures Defines(UnaryExpr(Int2Comp, Const(v, p), out).value, out, UnaryNum(Int2Comp, Cut(v, out), out, out), env, sem, k)
  {
    var x, c, zero := Const(v, p), Cut(v, out), Const(0, out);
    var e, z := Bin(Sub, zero, x), 0 - (c as int);
    SmallMod(0, Pow2(out));
    assert Cut(Wrap(z, Max(out, p)), out) == Wrap(z, out) by { CutCut(z, out, Max(out, p)); }
    hide Pow2, Cut, Wrap;
    assert Eval(zero, env, sem, k) == Cut(0, out) == 0 && Eval(x, env, sem, k) == c;
    assert Eval(e, env, sem, k) == BinValue(Sub, out, p, 0, c, sem.fp) == Wrap(z, Max(out, p));
    assert UnaryNum(Int2Comp, c, out, out) == Wrap(z, out);
    hide BinValue, UnaryNum, Eval;
    assert ExprBits(e, out) == out && Count(e) == 0;
  }

  lemma LoneExtend(v: nat, p: nat, out: nat, env: Env, sem: Sem, k: nat)
    requires Cut(v, p) == Cut(v, out) && 1 <= out <= p
    ensures Defines(UnaryExpr(IntSext, Const(v, p), out).value, out, UnaryNum(IntSext, Cut(v, out), out, out), env, sem, k)
  {
    LoneSext(v, p, out);
    hide Pow2, ToSigned, Cut, Wrap;
    var x := Const(v, p);
    var e := Un(SignExtend(out), x);
    assert Eval(x, env, sem, k) == Cut(v, p) && Width(x) == p;
    assert Eval(e, env, sem, k) == UnValue(SignExtend(out), p, Cut(v, p), sem.fp) == Wrap(ToSigned(Cut(v, p), p), out);
    assert ExprBits(e, out) == out && Count(e) == 0;
  }

  lemma LoneCase(a: Arch, widths: map<Name, nat>, code: Opcode, inputs: seq<Varnode>, out: nat, env: Env)
    requires Unary1(code) && |inputs| == 1 && Sizeless(inputs[0])
    ensures IrOp(code) == None && UnaryExpr(code, Const(inputs[0].value, PtrBits(a)), out).Some?
    ensures EvalOp(a, widths, code, inputs, out) == Ok(UnaryExpr(code, Const(inputs[0].value, PtrBits(a)), out).value)
    ensures ResultNum(a, code, inputs, out, env) == UnaryNum(code, Cut(inputs[0].value, out), out, out)
  {
    hide Pow2, NumOf, Natural, ToSigned, Cut;
  }

  lemma LoneTruth(bools: set<Name>, code: Opcode, vn: Varnode, out: nat, a: Arch)
    requires Sizeless(vn) && out >= 1 && (code.BoolNegate? || (code.Copy? && IsBoolean(a, bools, vn)))
    ensures UnaryNum(code, Cut(vn.value, out), out, out) <= 1
  {
    if code.Copy? { SmallFits(vn.value, out); }
    hide Pow2;
  }

  lemma LoneDefines(a: Arch, widths: map<Name, nat>, bools: set<Name>, code: Opcode, inputs: seq<Varnode>, out: nat, env: Env, sem: Sem, k: nat)
    requires Unary1(code) && |inputs| == 1 && Sizeless(inputs[0]) && LoneTyped(a, code, inputs[0].value, out) && out >= 1
    ensures var e := EvalOp(a, widths, code, inputs, out);
            e.Ok? && Defines(e.value, out, ResultNum(a, code, inputs, out, env), env, sem, k)
    ensures YieldsBoolean(a, bools, code, inputs) ==> ResultNum(a, code, inputs, out, env) <= 1
  {
    hide Defines, EvalOp, ResultNum, UnaryExpr, UnaryNum, Pow2, Cut, IsBoolean;
    LoneCase(a, widths, code, inputs, out, env);
    LoneValue(code, inputs[0].value, PtrBits(a), out, env, sem, k);
    if YieldsBoolean(a, bools, code, inputs) { LoneTruth(bools, code, inputs[0], out, a); }
  }

  /** Every defining operation but a load gives its output what the interpreter does. */
  lemma DefinesValue(a: Arch, widths: map<Name, nat>, bools: set<Name>, code: Opcode, inputs: seq<Varnode>, out: nat, env: Env, sem: Sem, k: nat)
    requires DefinesTyped(a, widths, bools, code, inputs, out) && Held(widths, bools, env) && out >= 1
    ensures var e := EvalOp(a, widths, code, inputs, out);
            e.Ok? && Defines(e.value, out, ResultNum(a, code, inputs, out, env), env, sem, k)
    ensures YieldsBoolean(a, bools, code, inputs) ==> ResultNum(a, code, inputs, out, env) <= 1
  {
    hide BinaryTyped, UnaryTyped, Held, Defines, Fits, NumOf, IsBoolean, Pow2, Natural, Read, EvalOp, ResultNum, UnaryExpr, UnaryNum, Sizeless;
    if IrOp(code).Some? {
      BinaryDefines(a, widths, bools, code, inputs, out, env, sem, k);
    } else if Unary1(code) && Sizeless(inputs[0]) {
      LoneAdmitted(a, widths, bools, code, inputs[0], out);
      LoneDefines(a, widths, bools, code, inputs, out, env, sem, k);
    } else if Unary1(code) {
      if code.Copy? {
        CopyDefines(a, widths, bools, inputs[0], out, env, sem, k);
      } else {
        UnaryDefines(a, widths, bools, code, inputs[0], out, env, sem, k);
      }
      UnaryCase(a, widths, code, inputs, out, env);
    } else {
      PieceDefines(a, widths, inputs, out, env, sem, k);
    }
  }

  lemma LoneAdmitted(a: Arch, widths: map<Name, nat>, bools: set<Name>, code: Opcode, vn: Varnode, out: nat)
    requires UnaryTyped(a, widths, bools, code, vn, out) && Sizeless(vn)
    ensures LoneTyped(a, code, vn.value, out)
  {
  }

  // ---- Whole lists ----

  lemma DefinitionHolds(widths: map<Name, nat>, bools: set<Name>, env: Env, x: Name, bits: nat, v: nat, yes: bool)
    requires Held(widths, bools, env)
    requires yes ==> bits >= 1 && v <= 1
    ensures Held(widths[x := bits], if yes then bools + {x} else bools - {x}, env[x := v])
  {
  }

  ghost predicate Follows(m: Machine, st: State, sem: Sem, want: State) {
    CountStmts(m.statements) == 0 && Exec(m.statements, st, sem, 0) == want
  }

  lemma AddressValue(a: Arch, widths: map<Name, nat>, bools: set<Name>, vn: Varnode, env: Env, sem: Sem, k: nat)
    requires FitsAddress(a, widths, bools, vn) && Held(widths, bools, env)
    ensures var e := ReadMemAddr(a, widths, vn); e.Ok? && Count(e.value) == 0 && Eval(e.value, env, sem, k) == AddressNum(a, vn, env)
  {
    hide Pow2, Held;
    var at := if vn.Ram? then vn.inner else vn;
    if !Sizeless(at) {
      hide Natural, VarName;
      ReadValue(a, widths, bools, at, env, sem, k);
    }
  }

  lemma TypedSupplied(a: Arch, widths: map<Name, nat>, bools: set<Name>, code: Opcode, inputs: seq<Varnode>, out: nat)
    requires DefinesTyped(a, widths, bools, code, inputs, out)
    ensures Supplied(code, inputs)
  {
    hide BinaryTyped, UnaryTyped, Exact;
  }

  /** One defining operation but a load, run beside the interpreter. */
  lemma DefiningStep(a: Arch, m: Machine, bools: set<Name>, op: PcodeOp, st: State, sem: Sem, now: State)
    requires Follows(m, st, sem, now) && Held(m.widths, bools, now.env)
    requires var c := OpcodeOf(op.opcode); !c.Flow? && !c.Store? && !c.Load?
    requires OpTyped(a, m.widths, bools, op)
    ensures var r := LiftOp(a, m, op);
            && r.Ok? && Follows(r.value, st, sem, CodeRun(a, op, now, sem.ptr))
            && Held(r.value.widths, BoolsAfter(a, bools, op), CodeRun(a, op, now, sem.ptr).env)
  {
    hide OpcodeOf, EvalOp, ResultNum, DefinesTyped, Natural, VarName, YieldsBoolean, Held, Pow2, ExprBits;
    var code := OpcodeOf(op.opcode);
    var out := op.out.value;
    var w := Natural(out, a);
    NaturalPositive(out, a);
    DefinesValue(a, m.widths, bools, code, op.inputs, w, now.env, sem, 0);
    TypedSupplied(a, m.widths, bools, code, op.inputs, w);
    hide Supplied;
    var e := EvalOp(a, m.widths, code, op.inputs, w).value;
    var bits := ExprBits(e, w);
    var s := Assign(Var(VarName(out), bits), e);
    ExecAppend(m.statements, s, st, sem, 0);
    hide Eval, Exec, CountStmts, Count;
    DefinitionHolds(m.widths, bools, now.env, VarName(out), bits, ResultNum(a, code, op.inputs, w, now.env), YieldsBoolean(a, bools, code, op.inputs));
  }

  lemma LoadStep(a: Arch, m: Machine, bools: set<Name>, op: PcodeOp, st: State, sem: Sem, now: State)
    requires Follows(m, st, sem, now) && Held(m.widths, bools, now.env)
    requires OpcodeOf(op.opcode).Load? && OpTyped(a, m.widths, bools, op)
    ensures var r := LiftOp(a, m, op);
            && r.Ok? && Follows(r.value, st, sem, CodeRun(a, op, now, sem.ptr))
            && Held(r.value.widths, BoolsAfter(a, bools, op), CodeRun(a, op, now, sem.ptr).env)
  {
    hide OpcodeOf, FitsAddress, AddressNum, ReadMemAddr, Natural, VarName, Held, Pow2, LoadValue;
    var out := op.out.value;
    var w := Natural(out, a);
    NaturalPositive(out, a);
    AddressValue(a, m.widths, bools, op.inputs[0], now.env, sem, 0);
    var e := ReadMemAddr(a, m.widths, op.inputs[0]).value;
    var s := LoadMem(Var(VarName(out), w), e, w);
    ExecAppend(m.statements, s, st, sem, 0);
    var v := LoadValue(now.mem, Cut(AddressNum(a, op.inputs[0], now.env), sem.ptr), ByteCount(w), sem.ptr);
    CutCut(v, w, w);
    hide Eval, Exec, CountStmts, Count;
    assert YieldsBoolean(a, bools, Load, op.inputs) == false;
    DefinitionHolds(m.widths, bools, now.env, VarName(out), w, Cut(v, w), false);
  }

  lemma StoredValue(a: Arch, widths: map<Name, nat>, bools: set<Name>, vn: Varnode, env: Env, sem: Sem, k: nat)
    requires Fits(a, widths, bools, vn) && Held(widths, bools, env)
    ensures var e := Read(a, widths, vn); e.Ok? && Count(e.value) == 0 && VarWidth(a, widths, vn) >= 1
    ensures Cut(Eval(Read(a, widths, vn).value, env, sem, k), VarWidth(a, widths, vn)) == NumOf(a, vn, env)
  {
    hide Pow2;
    ReadValue(a, widths, bools, vn, env, sem, k);
    NaturalPositive(vn, a);
    hide Natural;
    var w := VarWidth(a, widths, vn);
    CutCut(if IsVar(vn) then Get(env, VarName(vn)) else vn.value, w, w);
  }

  lemma StoreStep(a: Arch, m: Machine, bools: set<Name>, op: PcodeOp, st: State, sem: Sem, now: State)
    requires Follows(m, st, sem, now) && Held(m.widths, bools, now.env)
    requires OpcodeOf(op.opcode).Store? && OpTyped(a, m.widths, bools, op)
    ensures var r := LiftOp(a, m, op);
            && r.Ok? && Follows(r.value, st, sem, CodeRun(a, op, now, sem.ptr))
            && Held(r.value.widths, BoolsAfter(a, bools, op), CodeRun(a, op, now, sem.ptr).env)
  {
    hide OpcodeOf, FitsAddress, AddressNum, ReadMemAddr, Natural, Held, Pow2, StoreValue, Fits, Read, NumOf, VarWidth, CodeRun;
    AddressValue(a, m.widths, bools, op.inputs[0], now.env, sem, 0);
    StoredValue(a, m.widths, bools, op.inputs[1], now.env, sem, 0);
    var w := VarWidth(a, m.widths, op.inputs[1]);
    var s := StoreMem(ReadMemAddr(a, m.widths, op.inputs[0]).value, Read(a, m.widths, op.inputs[1]).value, w);
    assert LiftOp(a, m, op) == Ok(m.(statements := m.statements + [s]));
    ExecAppend(m.statements, s, st, sem, 0);
    hide Exec, CountStmts, LiftOp;
    var at := Cut(AddressNum(a, op.inputs[0], now.env), sem.ptr);
    var v := NumOf(a, op.inputs[1], now.env);
    assert CountStmt(s) == 0;
    assert Step(s, now, sem, 0) == now.(mem := StoreValue(now.mem, at, v, ByteCount(w), sem.ptr));
    hide Eval, Count, Step, CountStmt;
    StoreRuns(a, op, now, sem.ptr);
  }

  lemma StoreRuns(a: Arch, op: PcodeOp, now: State, ptr: nat)
    requires OpcodeOf(op.opcode).Store? && |op.inputs| == 2
    ensures CodeRun(a, op, now, ptr) == now.(mem := StoreValue(now.mem, Cut(AddressNum(a, op.inputs[0], now.env), ptr),
                                                             NumOf(a, op.inputs[1], now.env), ByteCount(Natural(op.inputs[1], a)), ptr))
    ensures forall bools :: BoolsAfter(a, bools, op) == bools
  {
    hide OpcodeOf, AddressNum, NumOf, Natural, StoreValue, Pow2;
  }

  lemma {:induction false} TypedRuns(a: Arch, ops: seq<PcodeOp>, st: State, sem: Sem)
    requires CodesTyped(a, ops)
    ensures LiftOps(a, ops).Ok?
    ensures var m := LiftOps(a, ops).value;
            Follows(m, st, sem, CodeRuns(a, ops, st, sem.ptr)) && Held(m.widths, Bools(a, ops), CodeRuns(a, ops, st, sem.ptr).env)
    decreases |ops|
  {
    hide OpTyped, OpcodeOf, LiftOp, CodeRun, BoolsAfter;
    if ops != [] {
      var rest, op := ops[..|ops| - 1], ops[|ops| - 1];
      TypedRuns(a, rest, st, sem);
      hide Held, Follows;
      TypedStep(a, LiftOps(a, rest).value, Bools(a, rest), op, st, sem, CodeRuns(a, rest, st, sem.ptr));
    }
  }

  lemma TypedStep(a: Arch, m: Machine, bools: set<Name>, op: PcodeOp, st: State, sem: Sem, now: State)
    requires Follows(m, st, sem, now) && Held(m.widths, bools, now.env) && OpTyped(a, m.widths, bools, op)
    ensures var r := LiftOp(a, m, op);
            && r.Ok? && Follows(r.value, st, sem, CodeRun(a, op, now, sem.ptr))
            && Held(r.value.widths, BoolsAfter(a, bools, op), CodeRun(a, op, now, sem.ptr).env)
  {
    hide Held, Follows, OpTyped, OpcodeOf, LiftDefining, LiftStore;
    var code := OpcodeOf(op.opcode);
    if code.Store? {
      StoreStep(a, m, bools, op, st, sem, now);
    } else if code.Load? {
      LoadStep(a, m, bools, op, st, sem, now);
    } else if !code.Flow? {
      DefiningStep(a, m, bools, op, st, sem, now);
    }
  }
}
