/** One simplifier pass keeps an expression's width and the exact set of values
    it can take, shrinks it or leaves it alone, and how far it is idempotent. */
module SimplifyProof {
  import opened Bits
  import opened Ir
  import opened Common
  import opened Simplify

  // ---- Values are bounded, never missing, and unique without unknowns ----

  lemma ArithBound(op: BinOp, wa: nat, wb: nat, x: nat, y: nat)
    requires IsArith(op) && x < Pow2(wa) && y < Pow2(wb)
    ensures ArithValue(op, wa, wb, x, y) < Pow2(Max(wa, wb))
  {
    hide Pow2, ToSigned, TruncDiv, BitAnd, BitOr, BitXor;
    var w := Max(wa, wb);
    Pow2Mono(wa, w);
    Pow2Mono(wb, w);
    match op
    case UDiv => DivLe(x, y);
    case URem => DivLe(x, y);
    case LShr => DivLe(x, Pow2(y));
    case And => AndLe(x, y);
    case Or => OrBound(x, y, w);
    case Xor => XorBound(x, y, w);
    case _ => 
  }

  lemma DivLe(x: nat, d: nat)
    ensures d > 0 ==> 0 <= x / d <= x && x % d <= x
  {
    if d > 0 {
      var q := x / d;
      DivNat(x, d);
      assert x == q * d + x % d;
      MulGrow(q, d);
    }
  }

  lemma MulGrow(q: nat, d: nat)
    requires d > 0
    ensures q <= q * d
  {
    assert q * d == q + q * (d - 1);
    assert q * (d - 1) >= 0;
  }

  lemma BinBound(op: BinOp, wa: nat, wb: nat, x: nat, y: nat, fp: FpModel)
    requires x < Pow2(wa) && y < Pow2(wb)
    ensures BinValue(op, wa, wb, x, y, fp) < Pow2(OpWidth(op, wa, wb))
  {
    hide ArithValue, Join, ToSigned;
    if IsArith(op) {
      ArithBound(op, wa, wb, x, y);
    } else if op.Concat? {
      JoinBound(x, y, wa, wb);
    }
  }

  lemma UnBound(op: UnOp, w: nat, x: nat, fp: FpModel)
    ensures UnValue(op, w, x, fp) < Pow2(UnWidth(op, w))
  {
    hide ToSigned;
  }

  /** Every possible value fits the expression's width. */
  lemma {:induction false} ValsBounded(e: Expr, env: Env, fp: FpModel, v: nat)
    requires v in Vals(e, env, fp)
    ensures v < Pow2(Width(e))
    decreases e
  {
    hide UnValue, BinValue, OpWidth, UnWidth, Pow2;
    match e
    case Ref(_) =>
    case Const(_, _) =>
    case FpConst(_, _, _) =>
    case Unknown(_) =>
    case Un(op, a) =>
      var x :| x in Vals(a, env, fp) && v == UnValue(op, Width(a), x, fp);
      UnBound(op, Width(a), x, fp);
    case Bin(op, a, b) =>
      var x, y :| x in Vals(a, env, fp) && y in Vals(b, env, fp) && v == BinValue(op, Width(a), Width(b), x, y, fp);
      ValsBounded(a, env, fp, x);
      ValsBounded(b, env, fp, y);
      BinBound(op, Width(a), Width(b), x, y, fp);
    case Ite(c, t, f) =>
      Pow2Mono(Width(t), Width(e));
      Pow2Mono(Width(f), Width(e));
      if v in Vals(t, env, fp) { ValsBounded(t, env, fp, v); } else { ValsBounded(f, env, fp, v); }
  }

  lemma SomeValue(e: Expr, env: Env, fp: FpModel) returns (v: nat)
    ensures v in Vals(e, env, fp)
  {
    v := Eval(e, env, Sem([], fp, 0), 0);
    EvalInVals(e, env, Sem([], fp, 0), 0);
  }

  lemma {:induction false} OneValue(e: Expr, env: Env, fp: FpModel, v: nat, v': nat)
    requires !ContainsUnknown(e) && v in Vals(e, env, fp) && v' in Vals(e, env, fp)
    ensures v == v'
    decreases e
  {
    hide UnValue, BinValue, Width, Pow2;
    match e
    case Ref(_) =>
    case Const(_, _) =>
    case FpConst(_, _, _) =>
    case Un(op, a) =>
      var x :| x in Vals(a, env, fp) && v == UnValue(op, Width(a), x, fp);
      var x' :| x' in Vals(a, env, fp) && v' == UnValue(op, Width(a), x', fp);
      OneValue(a, env, fp, x, x');
    case Bin(op, a, b) => OnePair(op, a, b, env, fp, v, v');
    case Ite(c, t, f) => OneChoice(c, t, f, env, fp, v, v');
  }

  lemma {:induction false} OnePair(op: BinOp, a: Expr, b: Expr, env: Env, fp: FpModel, v: nat, v': nat)
    requires !ContainsUnknown(Bin(op, a, b)) && v in Vals(Bin(op, a, b), env, fp) && v' in Vals(Bin(op, a, b), env, fp)
    ensures v == v'
    decreases Bin(op, a, b), 0
  {
    hide BinValue, Width, Pow2;
    var x, y :| x in Vals(a, env, fp) && y in Vals(b, env, fp) && v == BinValue(op, Width(a), Width(b), x, y, fp);
    var x', y' :| x' in Vals(a, env, fp) && y' in Vals(b, env, fp) && v' == BinValue(op, Width(a), Width(b), x', y', fp);
    OneValue(a, env, fp, x, x');
    OneValue(b, env, fp, y, y');
  }

  lemma {:induction false} OneChoice(c: Expr, t: Expr, f: Expr, env: Env, fp: FpModel, v: nat, v': nat)
    requires !ContainsUnknown(Ite(c, t, f)) && v in Vals(Ite(c, t, f), env, fp) && v' in Vals(Ite(c, t, f), env, fp)
    ensures v == v'
    decreases Ite(c, t, f), 0
  {
    hide Width, Pow2;
    var C := Vals(c, env, fp);
    if x :| x in C && x != 0 {
      if 0 in C { OneValue(c, env, fp, x, 0); }
      OneValue(t, env, fp, v, v');
    } else {
      OneValue(f, env, fp, v, v');
    }
  }

  // ---- Each fold keeps width, sorting and the value set ----

  /** `r` may stand for `e`: still sorted, same width, same possible values. */
  ghost predicate Same(r: Expr, e: Expr, env: Env, fp: FpModel) {
    Sorted(r) && Width(r) == Width(e) && Vals(r, env, fp) == Vals(e, env, fp)
  }

  lemma MaskedCut(value: nat, bits: nat)
    requires value < Pow2(U128)
    ensures Masked(value, bits) == Cut(value, bits)
    ensures Cut(value, bits) < Pow2(U128)
  {
    hide Pow2, BitAnd;
    if bits >= U128 {
      AndOnes(value, U128);
      CutSmall(value, U128, bits);
      CutSmall(value, U128, U128);
    } else {
      AndOnes(value, bits);
      Pow2Mono(bits, U128);
    }
  }

  /** The result is the left operand whatever the right one is. */
  lemma KeepLeft(op: BinOp, a: Expr, b: Expr, env: Env, fp: FpModel)
    requires forall x, y :: x in Vals(a, env, fp) && y in Vals(b, env, fp) ==>
      BinValue(op, Width(a), Width(b), x, y, fp) == x
    ensures Vals(a, env, fp) == Vals(Bin(op, a, b), env, fp)
  {
    hide BinValue, Width, Pow2;
    var y := SomeValue(b, env, fp);
    forall x | x in Vals(a, env, fp) ensures x in Vals(Bin(op, a, b), env, fp) {
      assert BinValue(op, Width(a), Width(b), x, y, fp) == x;
    }
  }

  lemma KeepRight(op: BinOp, a: Expr, b: Expr, env: Env, fp: FpModel)
    requires forall x, y :: x in Vals(a, env, fp) && y in Vals(b, env, fp) ==>
      BinValue(op, Width(a), Width(b), x, y, fp) == y
    ensures Vals(b, env, fp) == Vals(Bin(op, a, b), env, fp)
  {
    hide BinValue, Width, Pow2;
    var x := SomeValue(a, env, fp);
    forall y | y in Vals(b, env, fp) ensures y in Vals(Bin(op, a, b), env, fp) {
      assert BinValue(op, Width(a), Width(b), x, y, fp) == y;
    }
  }

  /** The result is `c` whatever the operands are. */
  lemma Collapse(op: BinOp, a: Expr, b: Expr, c: nat, env: Env, fp: FpModel)
    requires forall x, y :: x in Vals(a, env, fp) && y in Vals(b, env, fp) ==>
      BinValue(op, Width(a), Width(b), x, y, fp) == c
    ensures Vals(Bin(op, a, b), env, fp) == iset{c}
  {
    hide BinValue, Width, Pow2;
    var x := SomeValue(a, env, fp);
    var y := SomeValue(b, env, fp);
    assert BinValue(op, Width(a), Width(b), x, y, fp) == c;
  }

  /** A constant stands for an expression that can only be that constant. */
  lemma ConstSame(c: nat, bits: nat, e: Expr, env: Env, fp: FpModel)
    requires Vals(e, env, fp) == iset{Cut(c, bits)} && Width(e) == bits
    requires c < Pow2(U128) && (bits == 1 ==> c < 2)
    ensures Same(Const(c, bits), e, env, fp)
  {
    hide Pow2;
    assert Vals(Const(c, bits), env, fp) == iset{Cut(c, bits)};
  }

  lemma ArithConst(op: BinOp, va: nat, ba: nat, vb: nat, bb: nat, r: nat, env: Env, fp: FpModel)
    requires Sorted(Bin(op, Const(va, ba), Const(vb, bb))) && IsArith(op)
    requires ArithValue(op, ba, ba, Cut(va, ba), Cut(vb, ba)) == Cut(r, ba)
    requires r < Pow2(U128) && (ba == 1 ==> r < 2)
    ensures Same(Const(r, ba), Bin(op, Const(va, ba), Const(vb, bb)), env, fp)
  {
    hide ArithValue, Pow2, Cut;
    var e := Bin(op, Const(va, ba), Const(vb, bb));
    Collapse(op, Const(va, ba), Const(vb, bb), Cut(r, ba), env, fp);
    hide Vals;
    ConstSame(r, ba, e, env, fp);
  }

  lemma MaskBelow(x: nat, w: nat)
    requires x < Pow2(U128)
    ensures var r := Masked(x, w); r == Cut(x, w) && r < Pow2(U128) && (w == 1 ==> r < 2) && Cut(r, w) == r
  {
    MaskedCut(x, w);
    hide Masked;
    assert Pow2(1) == 2;
    hide Pow2;
    SmallMod(Cut(x, w), Pow2(w));
  }

  /** Wrapping at 128 bits and masking to `w` is wrapping at `w`. */
  lemma WrapMask(s: int, w: nat)
    requires w <= U128
    ensures var r := Masked(Wrap(s, U128), w); r == Wrap(s, w) && r < Pow2(U128) && (w == 1 ==> r < 2) && Cut(r, w) == r
  {
    hide Masked, Pow2;
    MaskBelow(Wrap(s, U128), w);
    CutCut(s, w, U128);
  }

  /** Constant folding of an operator that wraps the integer result `s`. */
  lemma WrapConst(op: BinOp, a: Expr, b: Expr, s: int, env: Env, fp: FpModel)
    requires BothConst(a, b) && Sorted(Bin(op, a, b)) && IsArith(op) && a.bits <= U128
    requires ArithValue(op, a.bits, a.bits, Cut(a.value, a.bits), Cut(b.value, a.bits)) == Wrap(s, a.bits)
    ensures Same(Const(Masked(Wrap(s, U128), a.bits), a.bits), Bin(op, a, b), env, fp)
  {
    hide Masked, Pow2, ArithValue;
    WrapMask(s, a.bits);
    ArithConst(op, a.value, a.bits, b.value, b.bits, Masked(Wrap(s, U128), a.bits), env, fp);
  }

  lemma ZeroVals(z: Expr, env: Env, fp: FpModel)
    requires IsZero(z)
    ensures Vals(z, env, fp) == iset{0}
  {
    hide Pow2;
    SmallMod(0, Pow2(z.bits));
  }

  /** A right operand that can only be `n`, neutral for `op` at this width. */
  lemma NeutralRight(op: BinOp, a: Expr, b: Expr, n: nat, env: Env, fp: FpModel)
    requires IsArith(op) && Width(a) == Width(b) && Vals(b, env, fp) == iset{n}
    requires forall x: nat :: x < Pow2(Width(a)) ==> ArithValue(op, Width(a), Width(a), x, n) == x
    ensures Vals(a, env, fp) == Vals(Bin(op, a, b), env, fp)
  {
    hide Pow2, ArithValue, Width;
    forall x, y | x in Vals(a, env, fp) && y in Vals(b, env, fp)
      ensures BinValue(op, Width(a), Width(b), x, y, fp) == x
    {
      ValsBounded(a, env, fp, x);
    }
    KeepLeft(op, a, b, env, fp);
  }

  lemma NeutralLeft(op: BinOp, a: Expr, b: Expr, n: nat, env: Env, fp: FpModel)
    requires IsArith(op) && Width(a) == Width(b) && Vals(a, env, fp) == iset{n}
    requires forall y: nat :: y < Pow2(Width(b)) ==> ArithValue(op, Width(b), Width(b), n, y) == y
    ensures Vals(b, env, fp) == Vals(Bin(op, a, b), env, fp)
  {
    hide Pow2, ArithValue, Width;
    forall x, y | x in Vals(a, env, fp) && y in Vals(b, env, fp)
      ensures BinValue(op, Width(a), Width(b), x, y, fp) == y
    {
      ValsBounded(b, env, fp, y);
    }
    KeepRight(op, a, b, env, fp);
  }

  /** Zero is neutral on both sides of `+ | ^`, on the right of `-`. */
  lemma ZeroNeutral(op: BinOp, w: nat, x: nat)
    requires x < Pow2(w)
    ensures op.Add? || op.Or? || op.Xor? ==> ArithValue(op, w, w, 0, x) == x
    ensures op.Add? || op.Or? || op.Xor? || op.Sub? ==> ArithValue(op, w, w, x, 0) == x
  {
    WrapSmall(x, w);
    hide Pow2;
  }

  lemma ZeroLeft(op: BinOp, a: Expr, b: Expr, env: Env, fp: FpModel)
    requires op.Add? || op.Or? || op.Xor?
    requires IsZero(a) && Sorted(Bin(op, a, b))
    ensures Same(b, Bin(op, a, b), env, fp)
  {
    ZeroVals(a, env, fp);
    hide Pow2, ArithValue;
    forall y: nat | y < Pow2(Width(b)) ensures ArithValue(op, Width(b), Width(b), 0, y) == y {
      ZeroNeutral(op, Width(b), y);
    }
    NeutralLeft(op, a, b, 0, env, fp);
  }

  lemma ZeroRight(op: BinOp, a: Expr, b: Expr, env: Env, fp: FpModel)
    requires op.Add? || op.Or? || op.Xor? || op.Sub?
    requires IsZero(b) && Sorted(Bin(op, a, b))
    ensures Same(a, Bin(op, a, b), env, fp)
  {
    ZeroVals(b, env, fp);
    hide Pow2, ArithValue;
    forall x: nat | x < Pow2(Width(a)) ensures ArithValue(op, Width(a), Width(a), x, 0) == x {
      ZeroNeutral(op, Width(a), x);
    }
    NeutralRight(op, a, b, 0, env, fp);
  }

  /** Zero absorbs on both sides of `*` and `&`. */
  lemma ZeroAbsorbs(op: BinOp, a: Expr, b: Expr, bits: nat, env: Env, fp: FpModel)
    requires (op.Mul? || op.And?) && (IsZero(a) || IsZero(b)) && Sorted(Bin(op, a, b)) && bits == Width(a)
    ensures Same(Const(0, bits), Bin(op, a, b), env, fp)
  {
    if IsZero(a) { ZeroVals(a, env, fp); } else { ZeroVals(b, env, fp); }
    SmallMod(0, Pow2(bits));
    hide Pow2, Vals, BinValue;
    forall x, y | x in Vals(a, env, fp) && y in Vals(b, env, fp)
      ensures BinValue(op, Width(a), Width(b), x, y, fp) == 0
    {
      ZeroProduct(op, bits, x, y, fp);
    }
    Collapse(op, a, b, 0, env, fp);
    ConstSame(0, bits, Bin(op, a, b), env, fp);
  }

  lemma ZeroProduct(op: BinOp, w: nat, x: nat, y: nat, fp: FpModel)
    requires (op.Mul? || op.And?) && (x == 0 || y == 0)
    ensures BinValue(op, w, w, x, y, fp) == 0
  {
    SmallMod(0, Pow2(w));
    hide Pow2;
    AndZero(x);
    AndZero(y);
  }

  lemma OneNeutral(w: nat, x: nat)
    requires x < Pow2(w)
    ensures ArithValue(Mul, w, w, Cut(1, w), x) == x && ArithValue(Mul, w, w, x, Cut(1, w)) == x
  {
    WrapSmall(x, w);
    if w == 0 {
    } else {
      Pow2Mono(1, w);
      assert Pow2(1) == 2;
      SmallMod(1, Pow2(w));
      hide Pow2;
    }
  }

  lemma OneLeft(a: Expr, b: Expr, env: Env, fp: FpModel)
    requires IsOne(a) && Sorted(Bin(Mul, a, b))
    ensures Same(b, Bin(Mul, a, b), env, fp)
  {
    hide Pow2, ArithValue, Cut;
    forall y: nat | y < Pow2(Width(b)) ensures ArithValue(Mul, Width(b), Width(b), Cut(1, a.bits), y) == y {
      OneNeutral(Width(b), y);
    }
    NeutralLeft(Mul, a, b, Cut(1, a.bits), env, fp);
  }

  lemma OneRight(a: Expr, b: Expr, env: Env, fp: FpModel)
    requires IsOne(b) && Sorted(Bin(Mul, a, b))
    ensures Same(a, Bin(Mul, a, b), env, fp)
  {
    hide Pow2, ArithValue, Cut;
    forall x: nat | x < Pow2(Width(a)) ensures ArithValue(Mul, Width(a), Width(a), x, Cut(1, b.bits)) == x {
      OneNeutral(Width(a), x);
    }
    NeutralRight(Mul, a, b, Cut(1, b.bits), env, fp);
  }

  /** What an operator makes of one value met twice. */
  function Twice(op: BinOp, x: nat): nat {
    match op
    case And => x
    case Or => x
    case Eq => 1
    case _ => 0
  }

  lemma TwiceValue(op: BinOp, w: nat, x: nat, fp: FpModel)
    requires op.And? || op.Or? || op.Eq? || op.Sub? || op.Xor? || op.Ne?
    ensures BinValue(op, w, w, x, x, fp) == Twice(op, x)
  {
    AndSelf(x);
    OrSelf(x);
    XorSelf(x);
    SmallMod(0, Pow2(w));
    hide Pow2, BitAnd, BitOr, BitXor;
  }

  lemma SelfKeep(op: BinOp, a: Expr, env: Env, fp: FpModel)
    requires (op.And? || op.Or?) && !ContainsUnknown(a) && Sorted(a)
    ensures Same(a, Bin(op, a, a), env, fp)
  {
    hide Pow2, BinValue, Vals, ContainsUnknown, Sorted;
    forall x, y | x in Vals(a, env, fp) && y in Vals(a, env, fp)
      ensures BinValue(op, Width(a), Width(a), x, y, fp) == x
    {
      OneValue(a, env, fp, x, y);
      TwiceValue(op, Width(a), x, fp);
    }
    KeepLeft(op, a, a, env, fp);
  }

  /** A truth value or zero fits every width it is given. */
  lemma TwiceFits(op: BinOp, w: nat, bits: nat)
    requires op.Sub? || op.Xor? || op.Eq? || op.Ne?
    requires bits == OpWidth(op, w, w)
    ensures Cut(Twice(op, 0), bits) == Twice(op, 0) && Twice(op, 0) < 2
  {
    if op.Eq? { assert Pow2(1) == 2; } else { SmallMod(0, Pow2(bits)); }
  }

  lemma TwoFits()
    ensures 2 <= Pow2(U128)
  {
    Pow2Strict(0, U128);
    assert Pow2(0) == 1;
    hide Pow2;
  }

  lemma BinWidth(op: BinOp, a: Expr, b: Expr)
    ensures Width(Bin(op, a, b)) == OpWidth(op, Width(a), Width(b))
  {
    hide OpWidth;
  }

  lemma SameTwice(op: BinOp, a: Expr, env: Env, fp: FpModel)
    requires (op.Sub? || op.Xor? || op.Eq? || op.Ne?) && !ContainsUnknown(a)
    ensures Vals(Bin(op, a, a), env, fp) == iset{Twice(op, 0)}
  {
    hide Pow2, BinValue, Vals, ContainsUnknown, Width;
    forall x, y | x in Vals(a, env, fp) && y in Vals(a, env, fp)
      ensures BinValue(op, Width(a), Width(a), x, y, fp) == Twice(op, 0)
    {
      OneValue(a, env, fp, x, y);
      TwiceValue(op, Width(a), x, fp);
    }
    Collapse(op, a, a, Twice(op, 0), env, fp);
  }

  lemma SelfCollapse(op: BinOp, a: Expr, c: nat, bits: nat, env: Env, fp: FpModel)
    requires (op.Sub? || op.Xor? || op.Eq? || op.Ne?) && !ContainsUnknown(a) && Sorted(a)
    requires c == Twice(op, 0) && bits == Width(Bin(op, a, a))
    ensures Same(Const(c, bits), Bin(op, a, a), env, fp)
  {
    hide *;
    BinWidth(op, a, a);
    TwiceFits(op, Width(a), bits);
    TwoFits();
    SameTwice(op, a, env, fp);
    ConstSame(c, bits, Bin(op, a, a), env, fp);
  }

  // ---- Every fold, then the whole pass ----

  lemma FoldAddSame(a: Expr, b: Expr, env: Env, fp: FpModel)
    requires Sorted(Bin(Add, a, b))
    ensures Same(FoldAdd(a, b), Bin(Add, a, b), env, fp)
  {
    hide Pow2, Vals, Masked, Cut, Wrap, ContainsUnknown, BitAnd, BitOr, BitXor;
    if BothConst(a, b) && Max(a.bits, b.bits) <= U128 {
      MaskedCut(a.value, a.bits);
      MaskedCut(b.value, b.bits);
      WrapConst(Add, a, b, Masked(a.value, a.bits) + Masked(b.value, b.bits), env, fp);
    } else if IsZero(a) {
      ZeroLeft(Add, a, b, env, fp);
    } else if IsZero(b) {
      ZeroRight(Add, a, b, env, fp);
    }
  }

  lemma FoldSubSame(a: Expr, b: Expr, env: Env, fp: FpModel)
    requires Sorted(Bin(Sub, a, b))
    ensures Same(FoldSub(a, b), Bin(Sub, a, b), env, fp)
  {
    hide Pow2, Vals, Masked, Cut, Wrap, ContainsUnknown, BitAnd, BitOr, BitXor;
    if BothConst(a, b) && Max(a.bits, b.bits) <= U128 {
      MaskedCut(a.value, a.bits);
      MaskedCut(b.value, b.bits);
      WrapConst(Sub, a, b, Masked(a.value, a.bits) - Masked(b.value, b.bits), env, fp);
    } else if IsZero(b) {
      ZeroRight(Sub, a, b, env, fp);
    } else if SameValue(a, b) && ExprBits(a).Some? {
      ExprBitsExact(a);
      SelfCollapse(Sub, a, 0, Width(a), env, fp);
    }
  }

  lemma FoldMulSame(a: Expr, b: Expr, env: Env, fp: FpModel)
    requires Sorted(Bin(Mul, a, b))
    ensures Same(FoldMul(a, b), Bin(Mul, a, b), env, fp)
  {
    hide Pow2, Vals, Masked, Cut, Wrap, ContainsUnknown, BitAnd, BitOr, BitXor;
    if BothConst(a, b) && Max(a.bits, b.bits) <= U128 {
      MaskedCut(a.value, a.bits);
      MaskedCut(b.value, b.bits);
      WrapConst(Mul, a, b, Masked(a.value, a.bits) * Masked(b.value, b.bits), env, fp);
    } else if IsZero(a) || IsZero(b) {
      ZeroAbsorbs(Mul, a, b, Width(a), env, fp);
    } else if IsOne(a) {
      OneLeft(a, b, env, fp);
    } else if IsOne(b) {
      OneRight(a, b, env, fp);
    }
  }

  /** Folding two constants bit by bit, at any width. */
  lemma BitConst(op: BinOp, a: Expr, b: Expr, env: Env, fp: FpModel)
    requires BothConst(a, b) && Sorted(Bin(op, a, b)) && (op.And? || op.Or? || op.Xor?)
    ensures Same(FoldBin(op, a, b), Bin(op, a, b), env, fp)
  {
    hide Pow2, Vals, BitAnd, BitOr, BitXor, Masked, FoldAdd, FoldSub, FoldMul, FoldEq, FoldNe, ContainsUnknown;
    MaskedCut(a.value, a.bits);
    MaskedCut(b.value, b.bits);
    var w, x, y := a.bits, Cut(a.value, a.bits), Cut(b.value, a.bits);
    AndLe(x, y);
    OrBound(x, y, w);
    OrBound(x, y, U128);
    XorBound(x, y, w);
    XorBound(x, y, U128);
    var v := ArithValue(op, w, w, x, y);
    assert v < Pow2(w) && v < Pow2(U128);
    WrapSmall(v, w);
    MaskBelow(v, w);
    assert FoldBin(op, a, b) == Const(Masked(v, w), w);
    hide ArithValue;
    ArithConst(op, a.value, w, b.value, w, Masked(v, w), env, fp);
  }

  lemma FoldAndSame(a: Expr, b: Expr, env: Env, fp: FpModel)
    requires Sorted(Bin(And, a, b))
    ensures Same(FoldAnd(a, b), Bin(And, a, b), env, fp)
  {
    hide Pow2, Vals, Masked, Cut, Wrap, ContainsUnknown, BitAnd, BitOr, BitXor;
    if BothConst(a, b) {
      BitConst(And, a, b, env, fp);
    } else if IsZero(a) || IsZero(b) {
      ZeroAbsorbs(And, a, b, Width(a), env, fp);
    } else if SameValue(a, b) {
      SelfKeep(And, a, env, fp);
    }
  }

  lemma OrParts(a: Expr, b: Expr)
    requires Sorted(Bin(Or, a, b))
    ensures Sorted(a) && Sorted(b) && Width(a) == Width(b)
  {
    hide Width;
  }

  lemma OnesVals(a: Expr, b: Expr, c: Expr, env: Env, fp: FpModel)
    requires Sorted(Bin(Or, a, b)) && (c == a || c == b) && c.Const? && c.bits <= U128 && c.value == Ones(c.bits)
    ensures Vals(Bin(Or, a, b), env, fp) == iset{Ones(Width(a))} && Width(a) == Width(b) == c.bits
  {
    hide *;
    OrParts(a, b);
    OnesOnly(c, env, fp);
    forall x, y | x in Vals(a, env, fp) && y in Vals(b, env, fp)
      ensures BinValue(Or, Width(a), Width(b), x, y, fp) == Ones(Width(a))
    {
      OnesPair(a, b, c, x, y, env, fp);
    }
    Collapse(Or, a, b, Ones(Width(a)), env, fp);
  }

  lemma OnesPair(a: Expr, b: Expr, c: Expr, x: nat, y: nat, env: Env, fp: FpModel)
    requires Sorted(Bin(Or, a, b)) && (c == a || c == b) && c.Const? && c.bits <= U128 && c.value == Ones(c.bits)
    requires x in Vals(a, env, fp) && y in Vals(b, env, fp)
    ensures BinValue(Or, Width(a), Width(b), x, y, fp) == Ones(Width(a))
  {
    hide *;
    OrParts(a, b);
    OnesOnly(c, env, fp);
    ValsBounded(a, env, fp, x);
    ValsBounded(b, env, fp, y);
    OrValueOnes(x, y, Width(a), fp);
  }

  lemma OnesOnly(c: Expr, env: Env, fp: FpModel)
    requires c.Const? && c.value == Ones(c.bits)
    ensures Vals(c, env, fp) == iset{Ones(c.bits)} && Width(c) == c.bits
  {
    hide Pow2;
    SmallMod(Ones(c.bits), Pow2(c.bits));
  }

  lemma OnesAbsorb(a: Expr, b: Expr, c: Expr, env: Env, fp: FpModel)
    requires Sorted(Bin(Or, a, b)) && (c == a || c == b) && c.Const? && c.bits <= U128 && c.value == Ones(c.bits)
    ensures Same(c, Bin(Or, a, b), env, fp)
  {
    hide Pow2, Ones, BinValue, ArithValue, Vals, Sorted, Width;
    OrParts(a, b);
    OnesVals(a, b, c, env, fp);
    OnesOnly(c, env, fp);
    BinWidth(Or, a, b);
    assert OpWidth(Or, Width(a), Width(b)) == Width(a);
  }

  lemma OrValueOnes(x: nat, y: nat, w: nat, fp: FpModel)
    requires x < Pow2(w) && y < Pow2(w) && (x == Ones(w) || y == Ones(w))
    ensures BinValue(Or, w, w, x, y, fp) == Ones(w)
  {
    hide Pow2, BitOr;
    OrOnes(x, w);
    OrOnes(y, w);
  }

  lemma FoldOrSame(a: Expr, b: Expr, env: Env, fp: FpModel)
    requires Sorted(Bin(Or, a, b))
    ensures Same(FoldOr(a, b), Bin(Or, a, b), env, fp)
  {
    hide Pow2, Vals, Masked, Cut, Wrap, ContainsUnknown, BitAnd, BitOr, BitXor;
    if BothConst(a, b) {
      BitConst(Or, a, b, env, fp);
    } else if IsZero(a) {
      ZeroLeft(Or, a, b, env, fp);
    } else if IsZero(b) {
      ZeroRight(Or, a, b, env, fp);
    } else if Absorbs(a, b) {
      OnesAbsorb(a, b, a, env, fp);
    } else if Absorbs(b, a) {
      OnesAbsorb(a, b, b, env, fp);
    } else if SameValue(a, b) {
      SelfKeep(Or, a, env, fp);
    }
  }

  lemma FoldXorSame(a: Expr, b: Expr, env: Env, fp: FpModel)
    requires Sorted(Bin(Xor, a, b))
    ensures Same(FoldXor(a, b), Bin(Xor, a, b), env, fp)
  {
    hide Pow2, Vals, Masked, Cut, Wrap, ContainsUnknown, BitAnd, BitOr, BitXor;
    if BothConst(a, b) {
      BitConst(Xor, a, b, env, fp);
    } else if IsZero(a) {
      ZeroLeft(Xor, a, b, env, fp);
    } else if IsZero(b) {
      ZeroRight(Xor, a, b, env, fp);
    } else if SameValue(a, b) && ExprBits(a).Some? {
      ExprBitsExact(a);
      SelfCollapse(Xor, a, 0, Width(a), env, fp);
    }
  }

  lemma BitSorted(b: bool, env: Env, fp: FpModel)
    ensures Sorted(Const(Bit(b), 1)) && Vals(Const(Bit(b), 1), env, fp) == iset{Bit(b)}
  {
    assert Pow2(1) == 2;
    hide Pow2;
    Pow2Mono(1, U128);
  }

  lemma CompareConst(op: BinOp, a: Expr, b: Expr, env: Env, fp: FpModel)
    requires (op.Eq? || op.Ne?) && BothConst(a, b) && Sorted(Bin(op, a, b))
    ensures Same(FoldBin(op, a, b), Bin(op, a, b), env, fp)
  {
    var x, y := Cut(a.value, a.bits), Cut(b.value, b.bits);
    var r := if op.Eq? then x == y else x != y;
    CompareFolds(op, a, b);
    CompareVals(op, a, b, env, fp);
    hide *;
    BitSmall(r);
    BinWidth(op, a, b);
    CompareWidth(op, Width(a), Width(b));
    ConstSame(Bit(r), 1, Bin(op, a, b), env, fp);
  }

  lemma CompareWidth(op: BinOp, wa: nat, wb: nat)
    requires op.Eq? || op.Ne?
    ensures OpWidth(op, wa, wb) == 1
  {
  }

  lemma CompareFolds(op: BinOp, a: Expr, b: Expr)
    requires (op.Eq? || op.Ne?) && BothConst(a, b) && Sorted(Bin(op, a, b))
    ensures FoldBin(op, a, b) == Const(Bit(if op.Eq? then Cut(a.value, a.bits) == Cut(b.value, b.bits) else Cut(a.value, a.bits) != Cut(b.value, b.bits)), 1)
  {
    hide *;
    ConstantsFit(op, a, b);
    MaskedCut(a.value, a.bits);
    MaskedCut(b.value, b.bits);
    FoldedCompare(op, a, b);
  }

  lemma ConstantsFit(op: BinOp, a: Expr, b: Expr)
    requires BothConst(a, b) && Sorted(Bin(op, a, b))
    ensures a.Const? && b.Const? && Sorted(a) && Sorted(b)
    ensures a.value < Pow2(U128) && b.value < Pow2(U128)
  {
    hide Pow2;
  }

  lemma FoldedCompare(op: BinOp, a: Expr, b: Expr)
    requires (op.Eq? || op.Ne?) && BothConst(a, b)
    ensures FoldBin(op, a, b) ==
      Const(Bit(if op.Eq? then Masked(a.value, a.bits) == Masked(b.value, b.bits) else Masked(a.value, a.bits) != Masked(b.value, b.bits)), 1)
  {
    hide Masked;
  }

  lemma CompareVals(op: BinOp, a: Expr, b: Expr, env: Env, fp: FpModel)
    requires (op.Eq? || op.Ne?) && BothConst(a, b)
    ensures Vals(Bin(op, a, b), env, fp) ==
            iset{Bit(if op.Eq? then Cut(a.value, a.bits) == Cut(b.value, b.bits) else Cut(a.value, a.bits) != Cut(b.value, b.bits))}
  {
    hide Pow2, Cut;
    var x, y := Cut(a.value, a.bits), Cut(b.value, b.bits);
    assert Vals(a, env, fp) == iset{x} && Vals(b, env, fp) == iset{y};
    hide Vals;
    Collapse(op, a, b, Bit(if op.Eq? then x == y else x != y), env, fp);
  }

  lemma BitSmall(b: bool)
    ensures Cut(Bit(b), 1) == Bit(b) && Bit(b) < Pow2(U128)
  {
    assert Pow2(1) == 2;
    hide Pow2;
    Pow2Mono(1, U128);
  }

  lemma FoldCompareSame(op: BinOp, a: Expr, b: Expr, env: Env, fp: FpModel)
    requires (op.Eq? || op.Ne?) && Sorted(Bin(op, a, b))
    ensures Same(FoldBin(op, a, b), Bin(op, a, b), env, fp)
  {
    hide Pow2, Vals;
    if BothConst(a, b) {
      CompareConst(op, a, b, env, fp);
    } else if SameValue(a, b) {
      SelfCollapse(op, a, Twice(op, 0), 1, env, fp);
    }
  }

  /** Every binary fold keeps width, sorting and values. */
  lemma FoldBinSame(op: BinOp, a: Expr, b: Expr, env: Env, fp: FpModel)
    requires Sorted(Bin(op, a, b))
    ensures Same(FoldBin(op, a, b), Bin(op, a, b), env, fp)
  {
    hide Pow2, Vals, FoldAdd, FoldSub, FoldMul, FoldAnd, FoldOr, FoldXor, FoldEq, FoldNe, Width, Sorted;
    match op
    case Add => FoldAddSame(a, b, env, fp);
    case Sub => FoldSubSame(a, b, env, fp);
    case Mul => FoldMulSame(a, b, env, fp);
    case And => FoldAndSame(a, b, env, fp);
    case Or => FoldOrSame(a, b, env, fp);
    case Xor => FoldXorSame(a, b, env, fp);
    case Eq => FoldCompareSame(op, a, b, env, fp);
    case Ne => FoldCompareSame(op, a, b, env, fp);
    case _ =>
  }

  /** An operator that leaves every value of its operand alone. */
  lemma UnKeep(op: UnOp, a: Expr, env: Env, fp: FpModel)
    requires forall x :: x in Vals(a, env, fp) ==> UnValue(op, Width(a), x, fp) == x
    ensures Vals(a, env, fp) == Vals(Un(op, a), env, fp)
  {
    hide UnValue, Width, Pow2;
    forall x | x in Vals(a, env, fp) ensures x in Vals(Un(op, a), env, fp) {
      assert UnValue(op, Width(a), x, fp) == x;
    }
  }

  lemma FoldBoolNotSame(a: Expr, env: Env, fp: FpModel)
    requires Sorted(Un(BoolNot, a))
    ensures Same(FoldBoolNot(a), Un(BoolNot, a), env, fp)
  {
    assert Pow2(1) == 2;
    hide Pow2;
    if a.Un? && a.uop.BoolNot? {
      var s := a.src;
      forall x | x in Vals(s, env, fp) ensures Bit(Bit(x == 0) == 0) == x {
        ValsBounded(s, env, fp, x);
      }
      NotNot(s, env, fp);
    } else if a.Const? {
      SmallMod(a.value, Pow2(1));
      BitSorted(a.value == 0, env, fp);
      assert Vals(a, env, fp) == iset{a.value};
      assert UnValue(BoolNot, 1, a.value, fp) in Vals(Un(BoolNot, a), env, fp);
    }
  }

  lemma NotNot(s: Expr, env: Env, fp: FpModel)
    requires forall x :: x in Vals(s, env, fp) ==> Bit(Bit(x == 0) == 0) == x
    ensures Vals(s, env, fp) == Vals(Un(BoolNot, Un(BoolNot, s)), env, fp)
  {
    hide Width, Pow2;
    var N := Vals(Un(BoolNot, s), env, fp);
    forall x | x in Vals(s, env, fp) ensures x in Vals(Un(BoolNot, Un(BoolNot, s)), env, fp) {
      assert UnValue(BoolNot, Width(s), x, fp) in N;
      assert UnValue(BoolNot, 1, Bit(x == 0), fp) == x;
    }
  }

  lemma FoldExtractSame(a: Expr, hi: nat, lo: nat, env: Env, fp: FpModel)
    requires Sorted(Un(Extract(hi, lo), a))
    ensures Same(FoldExtract(a, hi, lo), Un(Extract(hi, lo), a), env, fp)
  {
    hide Pow2;
    ExprBitsExact(a);
    if IsWholeSlice(a, hi, lo) {
      forall x | x in Vals(a, env, fp) ensures UnValue(Extract(hi, lo), Width(a), x, fp) == x {
        ValsBounded(a, env, fp, x);
        SliceWhole(x, Width(a));
      }
      UnKeep(Extract(hi, lo), a, env, fp);
    } else if IsInnerSlice(a, hi) {
      ExprBitsExact(a.src);
      InnerSlice(a.src, a.uop.toBits, hi, lo, env, fp);
    }
  }

  lemma InnerSlice(s: Expr, n: nat, hi: nat, lo: nat, env: Env, fp: FpModel)
    requires lo <= hi < n
    ensures Vals(Un(Extract(hi, lo), s), env, fp) == Vals(Un(Extract(hi, lo), Un(ZeroExtend(n), s)), env, fp)
  {
    hide Pow2, Width, UnValue;
    var op, z := Extract(hi, lo), Un(ZeroExtend(n), s);
    forall x | x in Vals(s, env, fp)
      ensures UnValue(op, Width(s), x, fp) == UnValue(op, Width(z), UnValue(ZeroExtend(n), Width(s), x, fp), fp)
    {
      InnerSliceValue(x, n, hi, lo, Width(s), Width(z), fp);
    }
    forall v | v in Vals(Un(op, s), env, fp) ensures v in Vals(Un(op, z), env, fp) {
      var x :| x in Vals(s, env, fp) && v == UnValue(op, Width(s), x, fp);
      assert UnValue(ZeroExtend(n), Width(s), x, fp) in Vals(z, env, fp);
    }
    forall v | v in Vals(Un(op, z), env, fp) ensures v in Vals(Un(op, s), env, fp) {
      var y :| y in Vals(z, env, fp) && v == UnValue(op, Width(z), y, fp);
      var x :| x in Vals(s, env, fp) && y == UnValue(ZeroExtend(n), Width(s), x, fp);
    }
  }

  lemma InnerSliceValue(x: nat, n: nat, hi: nat, lo: nat, w: nat, w': nat, fp: FpModel)
    requires lo <= hi < n
    ensures UnValue(Extract(hi, lo), w, x, fp) == UnValue(Extract(hi, lo), w', UnValue(ZeroExtend(n), w, x, fp), fp)
  {
    hide Pow2, Slice, Cut;
    SliceCut(x, n, lo, hi - lo + 1);
  }

  lemma FoldExtendSame(op: UnOp, a: Expr, env: Env, fp: FpModel)
    requires (op.ZeroExtend? || op.SignExtend?) && Sorted(Un(op, a))
    ensures Same(FoldExtend(op, a), Un(op, a), env, fp)
  {
    hide Pow2;
    if ExprBits(a) == Some(op.toBits) {
      ExprBitsExact(a);
      forall x | x in Vals(a, env, fp) ensures UnValue(op, Width(a), x, fp) == x {
        ValsBounded(a, env, fp, x);
        WrapSmall(x, Width(a));
        WrapSigned(x, Width(a));
      }
      UnKeep(op, a, env, fp);
    }
  }

  lemma FoldUnSame(op: UnOp, a: Expr, env: Env, fp: FpModel)
    requires Sorted(Un(op, a))
    ensures Same(FoldUn(op, a), Un(op, a), env, fp)
  {
    hide Pow2, Vals, FoldBoolNot, FoldExtract, FoldExtend, Width, Sorted;
    match op
    case BoolNot => FoldBoolNotSame(a, env, fp);
    case Extract(hi, lo) => FoldExtractSame(a, hi, lo, env, fp);
    case ZeroExtend(_) => FoldExtendSame(op, a, env, fp);
    case SignExtend(_) => FoldExtendSame(op, a, env, fp);
    case _ =>
  }

  lemma FoldIteSame(c: Expr, t: Expr, f: Expr, env: Env, fp: FpModel)
    requires Sorted(Ite(c, t, f))
    ensures Same(FoldIte(c, t, f), Ite(c, t, f), env, fp)
  {
    hide Pow2, Vals, Sorted, Width;
    IteSorted(c, t, f);
    if c.Const? { ConstChoice(c, t, f, env, fp); }
  }

  lemma IteSorted(c: Expr, t: Expr, f: Expr)
    requires Sorted(Ite(c, t, f))
    ensures Sorted(t) && Sorted(f) && Width(t) == Width(f) == Width(Ite(c, t, f)) && (c.Const? ==> c.value < 2 && c.bits == 1)
  {
    hide Pow2;
  }

  /** A constant condition in range takes one branch. */
  lemma ConstChoice(c: Expr, t: Expr, f: Expr, env: Env, fp: FpModel)
    requires c.Const? && c.value < 2 && c.bits == 1
    ensures Vals(Ite(c, t, f), env, fp) == if c.value != 0 then Vals(t, env, fp) else Vals(f, env, fp)
  {
    assert Pow2(1) == 2;
    hide Pow2;
    SmallMod(c.value, Pow2(1));
    assert Vals(c, env, fp) == iset{c.value};
  }

  /** A pass keeps an expression sorted, keeps its width, and keeps exactly the
      values it can take, each unknown being chosen independently. */
  lemma {:induction false} SimplifyKeepsValues(e: Expr, env: Env, fp: FpModel)
    requires Sorted(e)
    ensures Same(SimplifyExpr(e), e, env, fp)
    decreases e
  {
    hide Pow2, FoldUn, FoldBin, FoldIte, IsArith;
    match e
    case Ref(_) =>
    case Const(_, _) =>
    case FpConst(_, _, _) =>
    case Unknown(_) =>
    case Un(op, a) =>
      SimplifyKeepsValues(a, env, fp);
      FoldUnSame(op, SimplifyExpr(a), env, fp);
    case Bin(op, a, b) =>
      SimplifyKeepsValues(a, env, fp);
      SimplifyKeepsValues(b, env, fp);
      FoldBinSame(op, SimplifyExpr(a), SimplifyExpr(b), env, fp);
    case Ite(c, t, f) =>
      SimplifyKeepsValues(c, env, fp);
      SimplifyKeepsValues(t, env, fp);
      SimplifyKeepsValues(f, env, fp);
      FoldIteSame(SimplifyExpr(c), SimplifyExpr(t), SimplifyExpr(f), env, fp);
  }

  /** The same, said of executions: a value is reachable before the pass if and
      only if it is reachable after it. */
  lemma SimplifySound(e: Expr, env: Env, fp: FpModel, ptr: nat, v: nat)
    requires Sorted(e)
    ensures (exists p :: Eval(e, env, Sem(p, fp, ptr), 0) == v) <==>
            (exists p :: Eval(SimplifyExpr(e), env, Sem(p, fp, ptr), 0) == v)
  {
    hide Pow2, Eval, Vals, SimplifyExpr, Sorted, Width;
    SimplifyKeepsValues(e, env, fp);
    var s := SimplifyExpr(e);
    if p :| Eval(e, env, Sem(p, fp, ptr), 0) == v {
      EvalInVals(e, env, Sem(p, fp, ptr), 0);
      var q := ValsWitness(s, env, fp, ptr, v);
    }
    if p :| Eval(s, env, Sem(p, fp, ptr), 0) == v {
      EvalInVals(s, env, Sem(p, fp, ptr), 0);
      var q := ValsWitness(e, env, fp, ptr, v);
    }
  }
}
