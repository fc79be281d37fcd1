/** The peephole simplifier: `simplify_expr` and its folds, branch for branch. */
module Simplify {
  import opened Bits
  import opened Common
  import opened Ir

  const U128 := 128

  // ---- Helpers the folds share ----

  function WidthMask(bits: nat): nat {
    if bits >= U128 then Ones(U128) else Ones(bits)
  }

  function Masked(value: nat, bits: nat): nat {
    BitAnd(value, WidthMask(bits))
  }

  /** The width recovered from a node's structure alone. */
  function ExprBits(e: Expr): Option<nat> {
    match e
    case Ref(v) => Some(v.bits)
    case Const(_, bits) => Some(bits)
    case FpConst(_, eb, sb) => CheckedAdd(eb, sb)
    case Unknown(_) => None
    case Un(op, a) => UnBits(op, ExprBits(a))
    case Bin(op, a, b) => BinBits(op, ExprBits(a), ExprBits(b))
    case Ite(_, t, f) => if ExprBits(t).Some? then ExprBits(t) else ExprBits(f)
  }

  function UnBits(op: UnOp, w: Option<nat>): Option<nat> {
    match op
    case BoolNot => Some(1)
    case FIsNaN => Some(1)
    case Extract(hi, lo) => Some(SaturatingAdd(SaturatingSub(hi, lo), 1))
    case ZeroExtend(n) => Some(n)
    case SignExtend(n) => Some(n)
    case FpToSbv(_, bits) => Some(bits)
    case BvToFp(eb, sb) => CheckedAdd(eb, sb)
    case SbvToFp(_, eb, sb) => CheckedAdd(eb, sb)
    case FpToFp(_, eb, sb) => CheckedAdd(eb, sb)
    case _ => w
  }

  function BinBits(op: BinOp, wa: Option<nat>, wb: Option<nat>): Option<nat> {
    if op.Ror? || IsFpArith(op) then wa
    else if IsArith(op) then
      if wa.None? then None else Some(if wb.Some? then Max(wa.value, wb.value) else wa.value)
    else if op.Concat? then
      if wa.Some? && wb.Some? then CheckedAdd(wa.value, wb.value) else None
    else Some(1)
  }

  predicate ContainsUnknown(e: Expr) {
    match e
    case Ref(_) => false
    case Const(_, _) => false
    case FpConst(_, _, _) => false
    case Unknown(_) => true
    case Un(_, a) => ContainsUnknown(a)
    case Bin(_, a, b) => ContainsUnknown(a) || ContainsUnknown(b)
    case Ite(c, t, f) => ContainsUnknown(c) || ContainsUnknown(t) || ContainsUnknown(f)
  }

  predicate IsZero(e: Expr) {
    e.Const? && e.value == 0
  }

  predicate IsOne(e: Expr) {
    e.Const? && e.value == 1
  }

  /** Structurally equal and free of unknowns: the two sides are one value. */
  predicate SameValue(a: Expr, b: Expr) {
    a == b && !ContainsUnknown(a)
  }

  predicate BothConst(a: Expr, b: Expr) {
    a.Const? && b.Const?
  }

  // ---- The folds ----

  function FoldAdd(a: Expr, b: Expr): Expr {
    if BothConst(a, b) && Max(a.bits, b.bits) <= U128 then
      var w := Max(a.bits, b.bits);
      Const(Masked(Wrap(Masked(a.value, a.bits) + Masked(b.value, b.bits), U128), w), w)
    else if IsZero(a) then b
    else if IsZero(b) then a
    else Bin(Add, a, b)
  }

  function FoldSub(a: Expr, b: Expr): Expr {
    if BothConst(a, b) && Max(a.bits, b.bits) <= U128 then
      var w := Max(a.bits, b.bits);
      Const(Masked(Wrap(Masked(a.value, a.bits) - Masked(b.value, b.bits), U128), w), w)
    else if IsZero(b) then a
    else if SameValue(a, b) && ExprBits(a).Some? then Const(0, ExprBits(a).value)
    else Bin(Sub, a, b)
  }

  function FoldMul(a: Expr, b: Expr): Expr {
    if BothConst(a, b) && Max(a.bits, b.bits) <= U128 then
      var w := Max(a.bits, b.bits);
      Const(Masked(Wrap(Masked(a.value, a.bits) * Masked(b.value, b.bits), U128), w), w)
    else if IsZero(a) then Const(0, a.bits)
    else if IsZero(b) then Const(0, b.bits)
    else if IsOne(a) then b
    else if IsOne(b) then a
    else Bin(Mul, a, b)
  }

  function FoldAnd(a: Expr, b: Expr): Expr {
    if BothConst(a, b) then
      var w := Max(a.bits, b.bits);
      Const(Masked(BitAnd(Masked(a.value, a.bits), Masked(b.value, b.bits)), w), w)
    else if IsZero(a) then Const(0, a.bits)
    else if IsZero(b) then Const(0, b.bits)
    else if SameValue(a, b) then a
    else Bin(And, a, b)
  }

  /** A constant of all ones, representable, at least as wide as `other`. */
  predicate Absorbs(c: Expr, other: Expr) {
    c.Const? && c.bits <= U128 && c.value == WidthMask(c.bits)
    && ExprBits(other).Some? && c.bits >= ExprBits(other).value
  }

  function FoldOr(a: Expr, b: Expr): Expr {
    if BothConst(a, b) then
      var w := Max(a.bits, b.bits);
      Const(Masked(BitOr(Masked(a.value, a.bits), Masked(b.value, b.bits)), w), w)
    else if IsZero(a) then b
    else if IsZero(b) then a
    else if Absorbs(a, b) then Const(a.value, a.bits)
    else if Absorbs(b, a) then Const(b.value, b.bits)
    else if SameValue(a, b) then a
    else Bin(Or, a, b)
  }

  function FoldXor(a: Expr, b: Expr): Expr {
    if BothConst(a, b) then
      var w := Max(a.bits, b.bits);
      Const(Masked(BitXor(Masked(a.value, a.bits), Masked(b.value, b.bits)), w), w)
    else if IsZero(a) then b
    else if IsZero(b) then a
    else if SameValue(a, b) && ExprBits(a).Some? then Const(0, ExprBits(a).value)
    else Bin(Xor, a, b)
  }

  function FoldEq(a: Expr, b: Expr): Expr {
    if BothConst(a, b) then Const(Bit(Masked(a.value, a.bits) == Masked(b.value, b.bits)), 1)
    else if SameValue(a, b) then Const(1, 1)
    else Bin(Eq, a, b)
  }

  function FoldNe(a: Expr, b: Expr): Expr {
    if BothConst(a, b) then Const(Bit(Masked(a.value, a.bits) != Masked(b.value, b.bits)), 1)
    else if SameValue(a, b) then Const(0, 1)
    else Bin(Ne, a, b)
  }

  function FoldBin(op: BinOp, a: Expr, b: Expr): Expr {
    match op
    case Add => FoldAdd(a, b)
    case Sub => FoldSub(a, b)
    case Mul => FoldMul(a, b)
    case And => FoldAnd(a, b)
    case Or => FoldOr(a, b)
    case Xor => FoldXor(a, b)
    case Eq => FoldEq(a, b)
    case Ne => FoldNe(a, b)
    case _ => Bin(op, a, b)
  }

  function FoldBoolNot(inner: Expr): Expr {
    if inner.Un? && inner.uop.BoolNot? then inner.src
    else if inner.Const? then Const(Bit(inner.value == 0), 1)
    else Un(BoolNot, inner)
  }

  function FoldIte(c: Expr, t: Expr, f: Expr): Expr {
    if c.Const? then (if c.value == 0 then f else t) else Ite(c, t, f)
  }

  /** The slice is the whole of `src`. */
  predicate IsWholeSlice(src: Expr, hi: nat, lo: nat) {
    ExprBits(src).Some? && lo == 0 && SaturatingAdd(hi, 1) == ExprBits(src).value
  }

  /** The slice lies inside what `src` zero-extends. */
  predicate IsInnerSlice(src: Expr, hi: nat) {
    src.Un? && src.uop.ZeroExtend? && ExprBits(src.src).Some? && hi < ExprBits(src.src).value
  }

  function FoldExtract(src: Expr, hi: nat, lo: nat): Expr {
    if IsWholeSlice(src, hi, lo) then src
    else if IsInnerSlice(src, hi) then Un(Extract(hi, lo), src.src)
    else Un(Extract(hi, lo), src)
  }

  function FoldExtend(op: UnOp, src: Expr): Expr
    requires op.ZeroExtend? || op.SignExtend?
  {
    if ExprBits(src) == Some(op.toBits) then src else Un(op, src)
  }

  function FoldUn(op: UnOp, a: Expr): Expr {
    match op
    case BoolNot => FoldBoolNot(a)
    case Extract(hi, lo) => FoldExtract(a, hi, lo)
    case ZeroExtend(_) => FoldExtend(op, a)
    case SignExtend(_) => FoldExtend(op, a)
    case _ => Un(op, a)
  }

  /** One bottom-up pass. */
  function SimplifyExpr(e: Expr): Expr {
    match e
    case Ref(_) => e
    case Const(_, _) => e
    case FpConst(_, _, _) => e
    case Unknown(_) => e
    case Un(op, a) => FoldUn(op, SimplifyExpr(a))
    case Bin(op, a, b) => FoldBin(op, SimplifyExpr(a), SimplifyExpr(b))
    case Ite(c, t, f) => FoldIte(SimplifyExpr(c), SimplifyExpr(t), SimplifyExpr(f))
  }

  // ---- What it means for an expression to be well sorted ----

  predicate UnSorted(op: UnOp, w: nat) {
    match op
    case BoolNot => w == 1
    case Extract(hi, lo) => lo <= hi < w && hi < U16
    case _ => true
  }

  /** Operand widths agree, slices are in range, one-bit constants are 0 or 1.
      Wider constants may be out of range and any width is allowed. */
  predicate Sorted(e: Expr) {
    match e
    case Ref(_) => true
    case Const(value, bits) => value < Pow2(U128) && (bits == 1 ==> value < 2)
    case FpConst(_, _, _) => true
    case Unknown(_) => true
    case Un(op, a) => Sorted(a) && UnSorted(op, Width(a))
    case Bin(op, a, b) => Sorted(a) && Sorted(b) && (IsArith(op) ==> Width(a) == Width(b))
    case Ite(c, t, f) =>
      Sorted(c) && Sorted(t) && Sorted(f) && Width(t) == Width(f) && (Width(c) == 1 || c.Unknown?)
  }

  /** On well-sorted terms a recovered width is the encoder's width. */
  lemma {:induction false} ExprBitsExact(e: Expr)
    requires Sorted(e)
    ensures ExprBits(e).Some? ==> ExprBits(e).value == Width(e)
    decreases e
  {
    match e
    case Ref(_) =>
    case Const(_, _) =>
    case FpConst(_, _, _) =>
    case Unknown(_) =>
    case Un(op, a) => ExprBitsExact(a);
    case Bin(op, a, b) => ExprBitsExact(a); ExprBitsExact(b);
    case Ite(c, t, f) => ExprBitsExact(t); ExprBitsExact(f);
  }

  // ---- The set of values an expression may take ----

  ghost function Image1(op: UnOp, w: nat, A: iset<nat>, fp: FpModel): iset<nat> {
    iset x | x in A :: UnValue(op, w, x, fp)
  }

  ghost function Image2(op: BinOp, wa: nat, wb: nat, A: iset<nat>, B: iset<nat>, fp: FpModel): iset<nat> {
    iset x, y | x in A && y in B :: BinValue(op, wa, wb, x, y, fp)
  }

  ghost function Select(C: iset<nat>, T: iset<nat>, F: iset<nat>): iset<nat> {
    (if exists c :: c in C && c != 0 then T else iset{}) + (if 0 in C then F else iset{})
  }

  predicate Below(x: nat, n: nat) {
    x < n
  }

  /** Every value `e` can take when each unknown is chosen on its own. */
  ghost function Vals(e: Expr, env: Env, fp: FpModel): iset<nat> {
    match e
    case Ref(v) => iset{Val(env, v)}
    case Const(value, bits) => iset{Cut(value, bits)}
    case FpConst(p, eb, sb) => iset{Cut(p, eb + sb)}
    case Unknown(_) => iset x: nat | Below(x, Pow2(64))
    case Un(op, a) => Image1(op, Width(a), Vals(a, env, fp), fp)
    case Bin(op, a, b) => Image2(op, Width(a), Width(b), Vals(a, env, fp), Vals(b, env, fp), fp)
    case Ite(c, t, f) => Select(Vals(c, env, fp), Vals(t, env, fp), Vals(f, env, fp))
  }

  // ---- That set is exactly what the evaluator can produce ----

  lemma {:induction false} PicksMiddle(p: seq<nat>, q: seq<nat>, r: seq<nat>, j: nat)
    requires j <= |q|
    ensures SamePicks(p + q + r, |p| + j, q, j, |q| - j)
    decreases |q| - j
  {
    if j < |q| {
      PicksMiddle(p, q, r, j + 1);
      assert (p + q + r)[|p| + j] == q[j];
    }
  }

  lemma EvalWithin(e: Expr, p: seq<nat>, q: seq<nat>, r: seq<nat>, env: Env, fp: FpModel, ptr: nat)
    requires |q| == Count(e)
    ensures Eval(e, env, Sem(p + q + r, fp, ptr), |p|) == Eval(e, env, Sem(q, fp, ptr), 0)
  {
    PicksMiddle(p, q, r, 0);
    EvalPicks(e, env, Sem(p + q + r, fp, ptr), |p|, Sem(q, fp, ptr), 0);
  }

  lemma InImage1(op: UnOp, w: nat, A: iset<nat>, x: nat, fp: FpModel)
    requires x in A
    ensures UnValue(op, w, x, fp) in Image1(op, w, A, fp)
  {
    hide UnValue;
  }

  lemma InImage2(op: BinOp, wa: nat, wb: nat, A: iset<nat>, B: iset<nat>, x: nat, y: nat, fp: FpModel)
    requires x in A && y in B
    ensures BinValue(op, wa, wb, x, y, fp) in Image2(op, wa, wb, A, B, fp)
  {
    hide BinValue;
  }

  lemma InSelect(C: iset<nat>, T: iset<nat>, F: iset<nat>, c: nat, t: nat, f: nat)
    requires c in C && t in T && f in F
    ensures (if c != 0 then t else f) in Select(C, T, F)
  {
  }

  lemma {:induction false} EvalInVals(e: Expr, env: Env, sem: Sem, k: nat)
    ensures Eval(e, env, sem, k) in Vals(e, env, sem.fp)
    decreases e
  {
    hide UnValue, BinValue, Width, Pick, Pow2, Image1, Image2, Select;
    match e
    case Ref(_) =>
    case Const(_, _) =>
    case FpConst(_, _, _) =>
    case Unknown(_) =>
    case Un(op, a) =>
      EvalInVals(a, env, sem, k);
      InImage1(op, Width(a), Vals(a, env, sem.fp), Eval(a, env, sem, k), sem.fp);
    case Bin(op, a, b) =>
      EvalInVals(a, env, sem, k);
      EvalInVals(b, env, sem, k + Count(a));
      InImage2(op, Width(a), Width(b), Vals(a, env, sem.fp), Vals(b, env, sem.fp),
        Eval(a, env, sem, k), Eval(b, env, sem, k + Count(a)), sem.fp);
    case Ite(c, t, f) =>
      EvalInVals(c, env, sem, k);
      EvalInVals(t, env, sem, k + Count(c));
      EvalInVals(f, env, sem, k + Count(c) + Count(t));
      InSelect(Vals(c, env, sem.fp), Vals(t, env, sem.fp), Vals(f, env, sem.fp), Eval(c, env, sem, k),
        Eval(t, env, sem, k + Count(c)), Eval(f, env, sem, k + Count(c) + Count(t)));
  }

  /** Every value in the set is reached by some answers to the unknowns. */
  lemma {:induction false} ValsWitness(e: Expr, env: Env, fp: FpModel, ptr: nat, v: nat) returns (picks: seq<nat>)
    requires v in Vals(e, env, fp)
    ensures |picks| == Count(e) && Eval(e, env, Sem(picks, fp, ptr), 0) == v
    decreases e, 1
  {
    hide UnValue, BinValue, Width, Get, Pow2;
    match e
    case Ref(_) => picks := [];
    case Const(_, _) => picks := [];
    case FpConst(_, _, _) => picks := [];
    case Unknown(_) => picks := [v]; WrapSmall(v, 64);
    case Un(op, a) =>
      var x :| x in Vals(a, env, fp) && v == UnValue(op, Width(a), x, fp);
      picks := ValsWitness(a, env, fp, ptr, x);
    case Bin(op, a, b) => picks := PairWitness(op, a, b, env, fp, ptr, v);
    case Ite(c, t, f) => picks := SelectWitness(c, t, f, env, fp, ptr, v);
  }

  lemma {:induction false} PairWitness(op: BinOp, a: Expr, b: Expr, env: Env, fp: FpModel, ptr: nat, v: nat)
    returns (picks: seq<nat>)
    requires v in Vals(Bin(op, a, b), env, fp)
    ensures |picks| == Count(Bin(op, a, b)) && Eval(Bin(op, a, b), env, Sem(picks, fp, ptr), 0) == v
    decreases Bin(op, a, b), 0
  {
    hide UnValue, BinValue, Width, Pick, Pow2;
    var x, y :| x in Vals(a, env, fp) && y in Vals(b, env, fp) && v == BinValue(op, Width(a), Width(b), x, y, fp);
    var p := ValsWitness(a, env, fp, ptr, x);
    var q := ValsWitness(b, env, fp, ptr, y);
    picks := p + q;
    Splice(a, b, p, q, env, fp, ptr);
  }

  lemma Splice(a: Expr, b: Expr, p: seq<nat>, q: seq<nat>, env: Env, fp: FpModel, ptr: nat)
    requires |p| == Count(a) && |q| == Count(b)
    ensures Eval(a, env, Sem(p + q, fp, ptr), 0) == Eval(a, env, Sem(p, fp, ptr), 0)
    ensures Eval(b, env, Sem(p + q, fp, ptr), Count(a)) == Eval(b, env, Sem(q, fp, ptr), 0)
  {
    EvalWithin(a, [], p, q, env, fp, ptr);
    assert [] + p + q == p + q;
    EvalWithin(b, p, q, [], env, fp, ptr);
    assert p + q + [] == p + q;
  }

  lemma SpliceIte(c: Expr, t: Expr, f: Expr, p: seq<nat>, q: seq<nat>, r: seq<nat>, env: Env, fp: FpModel, ptr: nat)
    requires |p| == Count(c) && |q| == Count(t) && |r| == Count(f)
    ensures Eval(Ite(c, t, f), env, Sem(p + q + r, fp, ptr), 0) ==
      if Eval(c, env, Sem(p, fp, ptr), 0) != 0 then Eval(t, env, Sem(q, fp, ptr), 0) else Eval(f, env, Sem(r, fp, ptr), 0)
  {
    hide Pow2, UnValue, BinValue, Width, Pick, Get, Count;
    var picks := p + q + r;
    assert [] + p + (q + r) == picks;
    EvalWithin(c, [], p, q + r, env, fp, ptr);
    EvalWithin(t, p, q, r, env, fp, ptr);
    assert p + q + r + [] == picks;
    EvalWithin(f, p + q, r, [], env, fp, ptr);
  }

  lemma {:induction false} SelectWitness(c: Expr, t: Expr, f: Expr, env: Env, fp: FpModel, ptr: nat, v: nat)
    returns (picks: seq<nat>)
    requires v in Vals(Ite(c, t, f), env, fp)
    ensures |picks| == Count(Ite(c, t, f)) && Eval(Ite(c, t, f), env, Sem(picks, fp, ptr), 0) == v
    decreases Ite(c, t, f), 0
  {
    hide Eval, Pow2, Pick;
    var A, B := Vals(c, env, fp), Vals(t, env, fp);
    var p: seq<nat>, q: seq<nat>, r: seq<nat>;
    if v in B && exists y :: y in A && y != 0 {
      var x :| x in A && x != 0;
      p := ValsWitness(c, env, fp, ptr, x);
      q := ValsWitness(t, env, fp, ptr, v);
      r := seq(Count(f), i => 0);
    } else {
      p := ValsWitness(c, env, fp, ptr, 0);
      q := seq(Count(t), i => 0);
      r := ValsWitness(f, env, fp, ptr, v);
    }
    picks := p + q + r;
    SpliceIte(c, t, f, p, q, r, env, fp, ptr);
  }
}
