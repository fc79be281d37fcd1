/** How the simplifier behaves as a rewriting system: every pass shrinks or
    changes nothing, repeated passes settle, and exactly where one pass is not
    yet a fixed point. Also the exact reach of two unmasked folds. */
module SimplifyShape {
  import opened Bits
  import opened Ir
  import opened Common
  import opened Simplify

  function Size(e: Expr): (n: nat)
    ensures n >= 1
  {
    match e
    case Ref(_) => 1
    case Const(_, _) => 1
    case FpConst(_, _, _) => 1
    case Unknown(_) => 1
    case Un(_, a) => 1 + Size(a)
    case Bin(_, a, b) => 1 + Size(a) + Size(b)
    case Ite(c, t, f) => 1 + Size(c) + Size(t) + Size(f)
  }

  lemma FoldUnShrinks(op: UnOp, a: Expr)
    ensures FoldUn(op, a) == Un(op, a) || Size(FoldUn(op, a)) < Size(Un(op, a))
  {
    hide ExprBits;
  }

  lemma FoldBinShrinks(op: BinOp, a: Expr, b: Expr)
    ensures FoldBin(op, a, b) == Bin(op, a, b) || Size(FoldBin(op, a, b)) < Size(Bin(op, a, b))
  {
    hide ExprBits, Masked, Pow2, ContainsUnknown, WidthMask;
  }

  /** A pass returns its input or something strictly smaller. */
  lemma {:induction false} PassShrinks(e: Expr)
    ensures SimplifyExpr(e) == e || Size(SimplifyExpr(e)) < Size(e)
    decreases e
  {
    hide FoldUn, FoldBin;
    match e
    case Ref(_) =>
    case Const(_, _) =>
    case FpConst(_, _, _) =>
    case Unknown(_) =>
    case Un(op, a) =>
      PassShrinks(a);
      FoldUnShrinks(op, SimplifyExpr(a));
    case Bin(op, a, b) =>
      PassShrinks(a);
      PassShrinks(b);
      FoldBinShrinks(op, SimplifyExpr(a), SimplifyExpr(b));
    case Ite(c, t, f) =>
      PassShrinks(c);
      PassShrinks(t);
      PassShrinks(f);
  }

  function Passes(n: nat, e: Expr): Expr {
    if n == 0 then e else Passes(n - 1, SimplifyExpr(e))
  }

  /** As many passes as there are nodes always reach a fixed point. */
  lemma {:induction false} PassesSettle(n: nat, e: Expr)
    requires n + 1 >= Size(e)
    ensures SimplifyExpr(Passes(n, e)) == Passes(n, e)
    decreases n
  {
    hide SimplifyExpr;
    PassShrinks(e);
    if n > 0 {
      if SimplifyExpr(e) == e { StaysFixed(n, e); } else { PassesSettle(n - 1, SimplifyExpr(e)); }
    }
  }

  lemma {:induction false} StaysFixed(n: nat, e: Expr)
    requires SimplifyExpr(e) == e
    ensures Passes(n, e) == e
    decreases n
  {
    hide SimplifyExpr;
    if n > 0 { StaysFixed(n - 1, e); }
  }

  // ---- Where one pass is not enough ----

  /** A slice node one of whose two rewrites still applies. */
  predicate SliceFires(op: UnOp, a: Expr) {
    op.Extract? && (IsWholeSlice(a, op.hi, op.lo) || IsInnerSlice(a, op.hi))
  }

  /** No slice anywhere in `e` can still be rewritten. */
  predicate SlicesSettled(e: Expr) {
    match e
    case Ref(_) => true
    case Const(_, _) => true
    case FpConst(_, _, _) => true
    case Unknown(_) => true
    case Un(op, a) => SlicesSettled(a) && !SliceFires(op, a)
    case Bin(_, a, b) => SlicesSettled(a) && SlicesSettled(b)
    case Ite(c, t, f) => SlicesSettled(c) && SlicesSettled(t) && SlicesSettled(f)
  }

  /** Every node but the slices is one its own fold leaves alone. */
  predicate FoldsSettled(e: Expr) {
    match e
    case Ref(_) => true
    case Const(_, _) => true
    case FpConst(_, _, _) => true
    case Unknown(_) => true
    case Un(op, a) => FoldsSettled(a) && (op.Extract? || FoldUn(op, a) == e)
    case Bin(op, a, b) => FoldsSettled(a) && FoldsSettled(b) && FoldBin(op, a, b) == e
    case Ite(c, t, f) => FoldsSettled(c) && FoldsSettled(t) && FoldsSettled(f) && FoldIte(c, t, f) == e
  }

  lemma FoldUnSettled(op: UnOp, a: Expr)
    requires FoldsSettled(a)
    ensures FoldsSettled(FoldUn(op, a))
  {
    hide ExprBits;
  }

  lemma FoldBinSettled(op: BinOp, a: Expr, b: Expr)
    requires FoldsSettled(a) && FoldsSettled(b)
    ensures FoldsSettled(FoldBin(op, a, b))
  {
    var r := FoldBin(op, a, b);
    assert r == a || r == b || r.Const? || r == Bin(op, a, b) by {
      hide ExprBits, Masked, Pow2, ContainsUnknown, WidthMask, FoldsSettled;
    }
    hide FoldBin;
  }

  /** After one pass only slices can still be rewritten. */
  lemma {:induction false} PassSettlesFolds(e: Expr)
    ensures FoldsSettled(SimplifyExpr(e))
    decreases e
  {
    hide FoldUn, FoldBin;
    match e
    case Ref(_) =>
    case Const(_, _) =>
    case FpConst(_, _, _) =>
    case Unknown(_) =>
    case Un(op, a) =>
      PassSettlesFolds(a);
      FoldUnSettled(op, SimplifyExpr(a));
    case Bin(op, a, b) =>
      PassSettlesFolds(a);
      PassSettlesFolds(b);
      FoldBinSettled(op, SimplifyExpr(a), SimplifyExpr(b));
    case Ite(c, t, f) =>
      PassSettlesFolds(c);
      PassSettlesFolds(t);
      PassSettlesFolds(f);
  }

  lemma {:induction false} SettledIsFixed(e: Expr)
    requires FoldsSettled(e) && SlicesSettled(e)
    ensures SimplifyExpr(e) == e
    decreases e
  {
    hide FoldBin, ExprBits;
    match e
    case Ref(_) =>
    case Const(_, _) =>
    case FpConst(_, _, _) =>
    case Unknown(_) =>
    case Un(op, a) => SettledIsFixed(a);
    case Bin(op, a, b) => SettledIsFixed(a); SettledIsFixed(b);
    case Ite(c, t, f) => SettledIsFixed(c); SettledIsFixed(t); SettledIsFixed(f);
  }

  lemma {:induction false} FixedIsSettled(e: Expr)
    requires SimplifyExpr(e) == e
    ensures SlicesSettled(e)
    decreases e
  {
    hide FoldBin, FoldUn, ExprBits;
    match e
    case Ref(_) =>
    case Const(_, _) =>
    case FpConst(_, _, _) =>
    case Unknown(_) =>
    case Un(op, a) =>
      PassShrinks(a);
      FoldUnShrinks(op, SimplifyExpr(a));
      FixedIsSettled(a);
      if SliceFires(op, a) { FiringMoves(op, a); }
    case Bin(op, a, b) =>
      PassShrinks(a);
      PassShrinks(b);
      FoldBinShrinks(op, SimplifyExpr(a), SimplifyExpr(b));
      FixedIsSettled(a);
      FixedIsSettled(b);
    case Ite(c, t, f) =>
      PassShrinks(c);
      PassShrinks(t);
      PassShrinks(f);
      FixedIsSettled(c);
      FixedIsSettled(t);
      FixedIsSettled(f);
  }

  lemma FiringMoves(op: UnOp, a: Expr)
    requires SliceFires(op, a)
    ensures FoldUn(op, a) != Un(op, a)
  {
    hide ExprBits;
    assert Size(a) < Size(Un(op, a));
  }

  /** The fold of a slice node over the already simplified `s` leaves a slice that
      would fold again: `s` zero-extends something the slice lies inside of, and the
      slice of that something is whole or lies inside an extension in turn. */
  predicate LeavesSlice(op: UnOp, s: Expr) {
    op.Extract? && !IsWholeSlice(s, op.hi, op.lo) && IsInnerSlice(s, op.hi) && SliceFires(op, s.src)
  }

  /** The fold of a two-operand node drops its left, or right, operand. */
  predicate DropsLeft(op: BinOp, x: Expr, y: Expr) {
    var r := FoldBin(op, x, y);
    r != Bin(op, x, y) && r != x
  }

  predicate DropsRight(op: BinOp, x: Expr, y: Expr) {
    var r := FoldBin(op, x, y);
    r != Bin(op, x, y) && r != y
  }

  /** No part of `e` that survives the pass is a slice left to fold again. */
  predicate SettlesInOne(e: Expr) {
    match e
    case Ref(_) => true
    case Const(_, _) => true
    case FpConst(_, _, _) => true
    case Unknown(_) => true
    case Un(op, a) => SettlesInOne(a) && !LeavesSlice(op, SimplifyExpr(a))
    case Bin(op, a, b) =>
      var x, y := SimplifyExpr(a), SimplifyExpr(b);
      (DropsLeft(op, x, y) || SettlesInOne(a)) && (DropsRight(op, x, y) || SettlesInOne(b))
    case Ite(c, t, f) =>
      var x := SimplifyExpr(c);
      if x.Const? then SettlesInOne(if x.value == 0 then f else t)
      else SettlesInOne(c) && SettlesInOne(t) && SettlesInOne(f)
  }

  lemma FoldUnSlices(op: UnOp, s: Expr)
    ensures SlicesSettled(FoldUn(op, s)) <==> SlicesSettled(s) && !LeavesSlice(op, s)
  {
    hide ExprBits;
  }

  lemma FoldBinSlices(op: BinOp, x: Expr, y: Expr)
    ensures SlicesSettled(FoldBin(op, x, y)) <==>
      (DropsLeft(op, x, y) || SlicesSettled(x)) && (DropsRight(op, x, y) || SlicesSettled(y))
  {
    var r := FoldBin(op, x, y);
    assert r == x || r == y || r.Const? || r == Bin(op, x, y) by {
      hide ExprBits, Masked, Pow2, ContainsUnknown, WidthMask, SlicesSettled;
    }
    hide FoldBin;
  }

  /** The slices of a simplified term, read off the term itself. */
  lemma {:induction false} SettlesInOneIsSettled(e: Expr)
    ensures SettlesInOne(e) <==> SlicesSettled(SimplifyExpr(e))
    decreases e
  {
    hide FoldUn, FoldBin, LeavesSlice, DropsLeft, DropsRight, SliceFires;
    match e
    case Ref(_) =>
    case Const(_, _) =>
    case FpConst(_, _, _) =>
    case Unknown(_) =>
    case Un(op, a) =>
      SettlesInOneIsSettled(a);
      FoldUnSlices(op, SimplifyExpr(a));
    case Bin(op, a, b) =>
      SettlesInOneIsSettled(a);
      SettlesInOneIsSettled(b);
      FoldBinSlices(op, SimplifyExpr(a), SimplifyExpr(b));
    case Ite(c, t, f) =>
      SettlesInOneIsSettled(c);
      SettlesInOneIsSettled(t);
      SettlesInOneIsSettled(f);
  }

  lemma SettledIffFixed(e: Expr)
    ensures SimplifyExpr(SimplifyExpr(e)) == SimplifyExpr(e) <==> SlicesSettled(SimplifyExpr(e))
  {
    hide SimplifyExpr;
    var r := SimplifyExpr(e);
    PassSettlesFolds(e);
    if SlicesSettled(r) { SettledIsFixed(r); }
    if SimplifyExpr(r) == r { FixedIsSettled(r); }
  }

  /** The documented idempotence holds of `e` exactly when no slice in it, over its
      simplified operand, folds into one that folds again. */
  lemma IdempotentIff(e: Expr)
    ensures SimplifyExpr(SimplifyExpr(e)) == SimplifyExpr(e) <==> SettlesInOne(e)
  {
    hide SimplifyExpr;
    SettledIffFixed(e);
    SettlesInOneIsSettled(e);
  }

  predicate HasZeroExtend(e: Expr) {
    match e
    case Ref(_) => false
    case Const(_, _) => false
    case FpConst(_, _, _) => false
    case Unknown(_) => false
    case Un(op, a) => op.ZeroExtend? || HasZeroExtend(a)
    case Bin(_, a, b) => HasZeroExtend(a) || HasZeroExtend(b)
    case Ite(c, t, f) => HasZeroExtend(c) || HasZeroExtend(t) || HasZeroExtend(f)
  }

  predicate Clean(e: Expr) {
    !HasZeroExtend(e) && SlicesSettled(e)
  }

  lemma FoldBinClean(op: BinOp, a: Expr, b: Expr)
    requires Clean(a) && Clean(b)
    ensures Clean(FoldBin(op, a, b))
  {
    var r := FoldBin(op, a, b);
    assert r == a || r == b || r.Const? || r == Bin(op, a, b) by {
      hide ExprBits, Masked, Pow2, ContainsUnknown, WidthMask, HasZeroExtend, SlicesSettled;
    }
    hide FoldBin;
  }

  lemma FoldUnClean(op: UnOp, a: Expr)
    requires Clean(a) && !op.ZeroExtend?
    ensures Clean(FoldUn(op, a))
  {
    hide ExprBits;
  }

  lemma {:induction false} PassCleans(e: Expr)
    requires !HasZeroExtend(e)
    ensures Clean(SimplifyExpr(e))
    decreases e
  {
    hide FoldUn, FoldBin, ExprBits;
    match e
    case Ref(_) =>
    case Const(_, _) =>
    case FpConst(_, _, _) =>
    case Unknown(_) =>
    case Un(op, a) =>
      PassCleans(a);
      FoldUnClean(op, SimplifyExpr(a));
    case Bin(op, a, b) =>
      PassCleans(a);
      PassCleans(b);
      FoldBinClean(op, SimplifyExpr(a), SimplifyExpr(b));
    case Ite(c, t, f) =>
      PassCleans(c);
      PassCleans(t);
      PassCleans(f);
  }

  /** One pass is a fixed point on every term without a zero-extension. */
  lemma IdempotentWithoutZeroExtend(e: Expr)
    requires !HasZeroExtend(e)
    ensures SimplifyExpr(SimplifyExpr(e)) == SimplifyExpr(e)
  {
    hide SimplifyExpr;
    PassCleans(e);
    SettledIffFixed(e);
  }

  /** A term on which the documented idempotence fails. */
  lemma NotIdempotent()
    ensures exists e :: SimplifyExpr(SimplifyExpr(e)) != SimplifyExpr(e)
  {
    var x := Ref(Var(Plain("x"), 32));
    var e := Un(Extract(31, 0), Un(ZeroExtend(64), x));
    assert SimplifyExpr(e) == Un(Extract(31, 0), x);
    assert SimplifyExpr(SimplifyExpr(e)) == x;
    assert SimplifyExpr(SimplifyExpr(e)) != SimplifyExpr(e);
  }

  // ---- Folds that do not mask or match widths ----

  /** The folded conditional takes the values the conditional takes. */
  ghost predicate SameBranch(c: Expr, t: Expr, f: Expr, env: Env, fp: FpModel) {
    Vals(FoldIte(c, t, f), env, fp) == Vals(Ite(c, t, f), env, fp)
  }

  /** A conditional on a constant is folded by the constant as written, where the encoder
      takes it at its own width: the two agree, on every pair of branches, exactly when a
      constant that is not zero is not zero at that width either. */
  lemma ConstantConditionIff(value: nat, bits: nat, env: Env, fp: FpModel)
    ensures (forall t, f :: SameBranch(Const(value, bits), t, f, env, fp)) <==> (value == 0 || value % Pow2(bits) != 0)
  {
    SmallMod(0, Pow2(bits));
    assert Pow2(1) == 2;
    hide Pow2;
    var c := Const(value, bits);
    assert Vals(c, env, fp) == iset{Cut(value, bits)};
    if value != 0 && value % Pow2(bits) == 0 {
      assert Vals(Const(0, 1), env, fp) == iset{0} && Vals(Const(1, 1), env, fp) == iset{1};
      assert 1 in Vals(FoldIte(c, Const(1, 1), Const(0, 1)), env, fp);
      assert 1 !in Vals(Ite(c, Const(1, 1), Const(0, 1)), env, fp);
      assert !SameBranch(c, Const(1, 1), Const(0, 1), env, fp);
    } else {
      forall t, f ensures SameBranch(c, t, f, env, fp) { ConstantBranch(c, t, f, env, fp); }
    }
  }

  lemma ConstantBranch(c: Expr, t: Expr, f: Expr, env: Env, fp: FpModel)
    requires c.Const? && (c.value == 0 <==> Cut(c.value, c.bits) == 0)
    ensures SameBranch(c, t, f, env, fp)
  {
    hide Cut;
    assert Vals(c, env, fp) == iset{Cut(c.value, c.bits)};
    assert Vals(Ite(c, t, f), env, fp) == Select(Vals(c, env, fp), Vals(t, env, fp), Vals(f, env, fp));
  }

  /** The same of a negated constant. */
  lemma ConstantNegationIff(value: nat, bits: nat, env: Env, fp: FpModel)
    ensures Vals(FoldBoolNot(Const(value, bits)), env, fp) == Vals(Un(BoolNot, Const(value, bits)), env, fp)
      <==> (value == 0 || value % Pow2(bits) != 0)
  {
    SmallMod(0, Pow2(bits));
    assert Pow2(1) == 2;
    hide Pow2;
    var c, v := Const(value, bits), Bit(Cut(value, bits) == 0);
    assert UnValue(BoolNot, bits, Cut(value, bits), fp) == v;
    assert v in Vals(Un(BoolNot, c), env, fp);
    assert Vals(FoldBoolNot(c), env, fp) == iset{Bit(value == 0)};
    assert forall x :: x in Vals(Un(BoolNot, c), env, fp) ==> x == v;
  }

  /** A constant a fold drops, keeping the other operand; subtraction drops only a right one. */
  predicate Neutral(op: BinOp, c: Expr, left: bool) {
    (IsZero(c) && (op.Add? || op.Or? || op.Xor? || (op.Sub? && !left))) || (IsOne(c) && op.Mul?)
  }

  /** A constant a fold keeps, dropping the other operand. */
  predicate Absorbing(op: BinOp, c: Expr) {
    IsZero(c) && (op.Mul? || op.And?)
  }

  /** Dropping one of two operands, only one of them a constant, keeps the width of the
      node exactly when what is dropped was no wider than what stays. */
  lemma DroppedOperandWidthIff(op: BinOp, x: Expr, bits: nat, value: nat, left: bool)
    requires !x.Const?
    ensures
      var c := Const(value, bits);
      var a, b := if left then c else x, if left then x else c;
      (Neutral(op, c, left) ==> FoldBin(op, a, b) == x && (Width(x) == Width(Bin(op, a, b)) <==> bits <= Width(x)))
      && (Absorbing(op, c) ==> FoldBin(op, a, b) == Const(0, bits) && (bits == Width(Bin(op, a, b)) <==> Width(x) <= bits))
  {
    hide Width, ExprBits, Masked, ContainsUnknown, WidthMask, Pow2;
    var c := Const(value, bits);
    ArithWidth(op, x, c);
    ArithWidth(op, c, x);
  }

  lemma ArithWidth(op: BinOp, a: Expr, b: Expr)
    ensures IsArith(op) ==> Width(Bin(op, a, b)) == Max(Width(a), Width(b))
    ensures a.Const? ==> Width(a) == a.bits
    ensures b.Const? ==> Width(b) == b.bits
  {
  }

  /** So a dropped wide zero can change a signed comparison around it. */
  lemma WideZeroCounterexample(env: Env, sem: Sem, k: nat)
    requires Get(env, Plain("x")) == 128
    ensures
      var e := Bin(Slt, Bin(Add, Ref(Var(Plain("x"), 8)), Const(0, 16)), Const(0, 16));
      Eval(e, env, sem, k) == 0 && Eval(SimplifyExpr(e), env, sem, k) == 1
  {
    hide Pow2;
    var x, zero := Ref(Var(Plain("x"), 8)), Const(0, 16);
    var sum := Bin(Add, x, zero);
    SumDrops(x, zero);
    ByteAndWord();
    SmallMod(128, Pow2(8));
    SmallMod(128, Pow2(16));
    SmallMod(0, Pow2(16));
    hide SimplifyExpr;
    assert Eval(x, env, sem, k) == 128 && Eval(zero, env, sem, k) == 0;
    assert Eval(sum, env, sem, k) == 128 && Width(sum) == 16;
  }

  lemma SumDrops(x: Expr, zero: Expr)
    requires x.Ref? && zero == Const(0, 16)
    ensures SimplifyExpr(Bin(Slt, Bin(Add, x, zero), zero)) == Bin(Slt, x, zero)
  {
    hide Masked;
    assert SimplifyExpr(x) == x && SimplifyExpr(zero) == zero;
    assert SimplifyExpr(Bin(Add, x, zero)) == FoldBin(Add, x, zero) == x;
  }

  lemma ByteAndWord()
    ensures Pow2(7) == 128 && Pow2(8) == 256 && Pow2(15) == 32768 && Pow2(16) == 65536
  {
    assert Pow2(4) == 16;
    Pow2Add(4, 3);
    Pow2Add(7, 1);
    Pow2Add(8, 7);
    Pow2Add(8, 8);
  }
}
