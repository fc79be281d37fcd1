/** The form one simplifying pass leaves behind: nothing it promises to fold is left. */
module SimplifyNormal {
  import opened Bits
  import opened Common
  import opened Ir
  import opened Simplify
  import SimplifyProof
  import SimplifyShape

  // ---- The form ----

  /** Every part of `e` has a width the program can write down. */
  predicate Narrow(e: Expr) {
    Width(e) <= 65535 &&
    match e
    case Un(_, a) => Narrow(a)
    case Bin(_, a, b) => Narrow(a) && Narrow(b)
    case Ite(c, t, f) => Narrow(c) && Narrow(t) && Narrow(f)
    case _ => true
  }

  /** One expression twice, and no unknown in it that could differ. */
  predicate Twice(a: Expr, b: Expr) {
    a == b && Count(a) == 0
  }

  predicate IsConst(e: Expr, value: nat) {
    e.Const? && e.value == value
  }

  /** All ones over at least the width of the other operand. */
  predicate Floods(c: Expr, other: Expr) {
    c.Const? && c.bits <= 128 && c.value + 1 == Pow2(c.bits) && Count(other) == 0 && Narrow(other) && Width(other) <= c.bits
  }

  predicate BinNormal(op: BinOp, a: Expr, b: Expr) {
    var consts := a.Const? && b.Const?;
    match op
    case Add => !(consts && Max(a.bits, b.bits) <= 128) && !IsConst(a, 0) && !IsConst(b, 0)
    case Sub => !(consts && Max(a.bits, b.bits) <= 128) && !IsConst(b, 0) && !(Twice(a, b) && Narrow(a))
    case Mul =>
      !(consts && Max(a.bits, b.bits) <= 128) && !IsConst(a, 0) && !IsConst(b, 0) && !IsConst(a, 1) && !IsConst(b, 1)
    case And => !consts && !IsConst(a, 0) && !IsConst(b, 0) && !Twice(a, b)
    case Or => !consts && !IsConst(a, 0) && !IsConst(b, 0) && !Twice(a, b) && !Floods(a, b) && !Floods(b, a)
    case Xor => !consts && !IsConst(a, 0) && !IsConst(b, 0) && !(Twice(a, b) && Narrow(a))
    case Eq => !consts && !Twice(a, b)
    case Ne => !consts && !Twice(a, b)
    case _ => true
  }

  predicate UnNormal(op: UnOp, a: Expr) {
    match op
    case BoolNot => !a.Const? && !(a.Un? && a.uop.BoolNot?)
    case ZeroExtend(n) => !(Count(a) == 0 && Narrow(a) && Width(a) == n)
    case SignExtend(n) => !(Count(a) == 0 && Narrow(a) && Width(a) == n)
    case _ => true
  }

  /** No arithmetic on two representable constants, no neutral or absorbing constant,
      no difference of one thing with itself, no double negation, no extension to the
      width there is, and no choice already made. */
  predicate Normal(e: Expr) {
    match e
    case Un(op, a) => Normal(a) && UnNormal(op, a)
    case Bin(op, a, b) => Normal(a) && Normal(b) && BinNormal(op, a, b)
    case Ite(c, t, f) => Normal(c) && Normal(t) && Normal(f) && !c.Const?
    case _ => true
  }

  // ---- Widths and unknowns ----

  lemma {:induction false} UnknownIff(e: Expr)
    ensures ContainsUnknown(e) <==> Count(e) > 0
    decreases e
  {
    match e
    case Un(_, a) => UnknownIff(a);
    case Bin(_, a, b) => UnknownIff(a); UnknownIff(b);
    case Ite(c, t, f) => UnknownIff(c); UnknownIff(t); UnknownIff(f);
    case _ =>
  }

  /** Without unknowns, and within what can be written down, the width is recovered. */
  lemma {:induction false} WidthRecovered(e: Expr)
    requires Sorted(e) && Narrow(e) && Count(e) == 0
    ensures ExprBits(e) == Some(Width(e))
    decreases e
  {
    hide Pow2, Max;
    ExprBitsExact(e);
    match e
    case Un(_, a) => WidthRecovered(a);
    case Bin(_, a, b) => WidthRecovered(a); WidthRecovered(b);
    case Ite(_, t, _) => WidthRecovered(t);
    case _ =>
  }

  // ---- What no fold changes is normal ----

  lemma TwiceIsSame(a: Expr, b: Expr)
    ensures Twice(a, b) ==> SameValue(a, b)
  {
    UnknownIff(a);
    hide ContainsUnknown, Count;
  }

  lemma Recovered(a: Expr)
    requires Sorted(a)
    ensures Count(a) == 0 && Narrow(a) ==> ExprBits(a) == Some(Width(a))
  {
    hide Sorted, ExprBits, Width, Count, Narrow;
    if Count(a) == 0 && Narrow(a) { WidthRecovered(a); }
  }

  lemma FloodsIsAbsorbs(c: Expr, other: Expr)
    requires Sorted(other)
    ensures Floods(c, other) ==> Absorbs(c, other)
  {
    Recovered(other);
    hide Sorted, ExprBits, Width, Count, Narrow, Pow2;
  }

  lemma Smaller(op: BinOp, a: Expr, b: Expr)
    ensures Bin(op, a, b) != a && Bin(op, a, b) != b
  {
    assert SimplifyShape.Size(Bin(op, a, b)) == 1 + SimplifyShape.Size(a) + SimplifyShape.Size(b);
    hide SimplifyShape.Size;
  }

  lemma SettledSum(op: BinOp, a: Expr, b: Expr)
    requires op.Add? || op.Sub? || op.Mul?
    requires FoldBin(op, a, b) == Bin(op, a, b) && Sorted(a)
    ensures BinNormal(op, a, b)
  {
    Smaller(op, a, b);
    TwiceIsSame(a, b);
    Recovered(a);
    hide ExprBits, Masked, Pow2, WidthMask, Sorted, Narrow, Width, Twice, SameValue, Max, Wrap;
  }

  lemma SettledBits(op: BinOp, a: Expr, b: Expr)
    requires op.And? || op.Or? || op.Xor? || op.Eq? || op.Ne?
    requires FoldBin(op, a, b) == Bin(op, a, b) && Sorted(a) && Sorted(b)
    ensures BinNormal(op, a, b)
  {
    Smaller(op, a, b);
    TwiceIsSame(a, b);
    Recovered(a);
    FloodsIsAbsorbs(a, b);
    FloodsIsAbsorbs(b, a);
    hide ExprBits, Masked, Pow2, WidthMask, Sorted, Narrow, Width, Twice, SameValue, Max, Absorbs, Floods;
  }

  lemma SettledUn(op: UnOp, a: Expr)
    requires FoldUn(op, a) == Un(op, a) && Sorted(a)
    ensures UnNormal(op, a)
  {
    Recovered(a);
    assert SimplifyShape.Size(Un(op, a)) == 1 + SimplifyShape.Size(a) && (a.Un? ==> SimplifyShape.Size(a) == 1 + SimplifyShape.Size(a.src));
    hide ExprBits, Sorted, Narrow, Width, Count, SimplifyShape.Size;
  }

  lemma SettledParts(e: Expr)
    requires SimplifyShape.FoldsSettled(e) && Sorted(e)
    ensures e.Un? ==> SimplifyShape.FoldsSettled(e.src) && Sorted(e.src) && (e.uop.Extract? || FoldUn(e.uop, e.src) == e)
    ensures e.Bin? ==>
      SimplifyShape.FoldsSettled(e.a) && SimplifyShape.FoldsSettled(e.b) && Sorted(e.a) && Sorted(e.b) && FoldBin(e.op, e.a, e.b) == e
    ensures e.Ite? ==>
      && SimplifyShape.FoldsSettled(e.cond) && SimplifyShape.FoldsSettled(e.thn) && SimplifyShape.FoldsSettled(e.els)
      && Sorted(e.cond) && Sorted(e.thn) && Sorted(e.els) && FoldIte(e.cond, e.thn, e.els) == e
  {
    hide FoldUn, FoldBin, FoldIte, Width, Pow2;
  }

  lemma SettledIte(c: Expr, t: Expr, f: Expr)
    requires FoldIte(c, t, f) == Ite(c, t, f)
    ensures !c.Const?
  {
    assert SimplifyShape.Size(Ite(c, t, f)) == 1 + SimplifyShape.Size(c) + SimplifyShape.Size(t) + SimplifyShape.Size(f);
    hide SimplifyShape.Size;
  }

  lemma {:induction false} SettledIsNormal(e: Expr)
    requires SimplifyShape.FoldsSettled(e) && Sorted(e)
    ensures Normal(e)
    decreases e
  {
    SettledParts(e);
    hide SimplifyShape.FoldsSettled, Sorted, FoldUn, FoldBin, FoldIte, BinNormal, UnNormal;
    match e
    case Un(op, a) =>
      SettledIsNormal(a);
      if op.Extract? { SliceNormal(op, a); } else { SettledUn(op, a); }
    case Bin(op, a, b) =>
      SettledIsNormal(a);
      SettledIsNormal(b);
      if op.Add? || op.Sub? || op.Mul? {
        SettledSum(op, a, b);
      } else if op.And? || op.Or? || op.Xor? || op.Eq? || op.Ne? {
        SettledBits(op, a, b);
      } else {
        OtherNormal(op, a, b);
      }
    case Ite(c, t, f) =>
      SettledIsNormal(c);
      SettledIsNormal(t);
      SettledIsNormal(f);
      SettledIte(c, t, f);
    case _ =>
  }

  lemma SliceNormal(op: UnOp, a: Expr)
    requires op.Extract?
    ensures UnNormal(op, a)
  {
  }

  lemma OtherNormal(op: BinOp, a: Expr, b: Expr)
    requires !op.Add? && !op.Sub? && !op.Mul? && !op.And? && !op.Or? && !op.Xor? && !op.Eq? && !op.Ne?
    ensures BinNormal(op, a, b)
  {
  }

  /** Whatever well-sorted term goes in, what comes out is in the form. */
  lemma PassIsNormal(e: Expr)
    requires Sorted(e)
    ensures Normal(SimplifyExpr(e))
  {
    hide Sorted, SimplifyExpr, SimplifyShape.FoldsSettled, Normal, Vals, Width;
    SimplifyShape.PassSettlesFolds(e);
    SimplifyProof.SimplifyKeepsValues(e, map[], FpModel((_, _, _) => 0, (_, _, _, _) => 0));
    SettledIsNormal(SimplifyExpr(e));
  }
}
