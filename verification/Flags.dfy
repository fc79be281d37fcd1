/** The flag tokens as formulas over the pair (old value, current value), and why
    they are the carries, borrows and overflows of the operation between the two. */
module Flags {
  import opened Bits
  import opened Common
  import opened Ir

  /** The value a destination held before the seeding operation and after it. */
  datatype FlagCtx = FlagCtx(was: Expr, cur: Expr, bits: nat)

  const PARITY_BITS := 8

  function AsBit(cond: Expr): Expr {
    Ite(cond, Const(1, 1), Const(0, 1))
  }

  function LowMask(n: nat, bits: nat): Option<Expr> {
    if bits == 0 || bits > 128 || CheckedAdd(n, 1).None? then None
    else Some(Const(Ones(Min(n + 1, bits)), bits))
  }

  function ZeroFlag(ctx: FlagCtx): Expr {
    AsBit(Bin(Eq, ctx.cur, Const(0, ctx.bits)))
  }

  function SignFlag(ctx: FlagCtx, n: nat): Option<Expr> {
    if n >= ctx.bits then None else Some(Un(Extract(n, n), ctx.cur))
  }

  function CarryFlag(ctx: FlagCtx, n: nat): Option<Expr> {
    match LowMask(n, ctx.bits)
    case None => None
    case Some(mask) => Some(AsBit(Bin(Ult, Bin(And, ctx.cur, mask), Bin(And, ctx.was, mask))))
  }

  function BorrowFlag(ctx: FlagCtx, n: nat): Option<Expr> {
    match LowMask(n, ctx.bits)
    case None => None
    case Some(mask) => Some(AsBit(Bin(Ult, Bin(And, ctx.was, mask), Bin(And, ctx.cur, mask))))
  }

  function OverflowFlag(ctx: FlagCtx, n: nat): Option<Expr> {
    if n == 0 then None else
    var into, outOf := CarryFlag(ctx, n - 1), CarryFlag(ctx, n);
    if into.None? || outOf.None? then None else Some(Bin(Xor, into.value, outOf.value))
  }

  /** The exclusive or of the low `top` bits. */
  function XorBits(cur: Expr, top: nat): Expr
    requires top > 0
  {
    var bit := Un(Extract(top - 1, top - 1), cur);
    if top == 1 then bit else Bin(Xor, XorBits(cur, top - 1), bit)
  }

  function ParityFlag(ctx: FlagCtx): Option<Expr> {
    if ctx.bits == 0 then None
    else Some(Bin(Xor, XorBits(ctx.cur, Min(PARITY_BITS, ctx.bits)), Const(1, 1)))
  }

  /** The accumulating loop behind `$p`. */
  method FoldParity(ctx: FlagCtx) returns (r: Option<Expr>)
    ensures r == ParityFlag(ctx)
  {
    if ctx.bits == 0 {
      return None;
    }
    var top := Min(PARITY_BITS, ctx.bits);
    var acc: Option<Expr> := None;
    for i := 0 to top
      invariant acc == if i == 0 then None else Some(XorBits(ctx.cur, i))
    {
      var bit := Un(Extract(i, i), ctx.cur);
      acc := Some(if acc.None? then bit else Bin(Xor, acc.value, bit));
    }
    return Some(Bin(Xor, acc.value, Const(1, 1)));
  }

  // ---- The same on numbers ----

  function BitAt(x: nat, n: nat): nat {
    Slice(x, n, 1)
  }

  /** The current value's low bits fell below the old ones. */
  function CarryNum(was: nat, cur: nat, n: nat, bits: nat): nat {
    Bit(Cut(cur, Min(n + 1, bits)) < Cut(was, Min(n + 1, bits)))
  }

  function BorrowNum(was: nat, cur: nat, n: nat, bits: nat): nat {
    Bit(Cut(was, Min(n + 1, bits)) < Cut(cur, Min(n + 1, bits)))
  }

  function OverflowNum(was: nat, cur: nat, n: nat, bits: nat): nat {
    if n == 0 then 0 else Bit(CarryNum(was, cur, n - 1, bits) != CarryNum(was, cur, n, bits))
  }

  /** How many of the low `top` bits are set. */
  function Ones8(x: nat, top: nat): nat {
    if top == 0 then 0 else Ones8(x, top - 1) + BitAt(x, top - 1)
  }

  // ---- The numbers are the real carries ----

  /** After `cur = was + v`, `$c(n)` is the carry out of bit `n`; an index past the
      register's top bit, `64,$c` on a 64-bit register, asks for the carry out of that. */
  lemma CarryIsCarry(was: nat, v: nat, n: nat, bits: nat)
    ensures
      var m := Min(n + 1, bits);
      CarryNum(was, Wrap(was + v, bits), n, bits) == Bit(Cut(was, m) + Cut(v, m) >= Pow2(m))
  {
    CutCut(was + v, Min(n + 1, bits), bits);
    hide Pow2;
    SumMod(was, v, Pow2(Min(n + 1, bits)));
  }

  /** After `cur = was - v`, `$b(n)` is the borrow bit `n` takes from above; `64,$b` on a
      64-bit register is the borrow of the whole subtraction. */
  lemma BorrowIsBorrow(was: nat, v: nat, n: nat, bits: nat)
    ensures
      var m := Min(n + 1, bits);
      BorrowNum(was, Wrap(was - v, bits), n, bits) == Bit(Cut(was, m) < Cut(v, m))
  {
    CutCut(was - v, Min(n + 1, bits), bits);
    hide Pow2;
    DifferenceMod(was, v, Pow2(Min(n + 1, bits)));
  }

  lemma SumMod(x: nat, y: nat, m: nat)
    requires m > 0
    ensures (x + y) % m == if x % m + y % m >= m then x % m + y % m - m else x % m + y % m
  {
    var a, b := x % m, y % m;
    var q := x / m + y / m;
    assert x + y == q * m + (a + b);
    if a + b >= m {
      DivModUnique(x + y, m, q + 1, a + b - m);
    } else {
      DivModUnique(x + y, m, q, a + b);
    }
  }

  lemma DifferenceMod(x: nat, y: nat, m: nat)
    requires m > 0
    ensures (x - y) % m == if x % m < y % m then x % m - y % m + m else x % m - y % m
  {
    var a, b := x % m, y % m;
    var q := x / m - y / m;
    assert x - y == q * m + (a - b);
    if a < b {
      DivModUnique(x - y, m, q - 1, a - b + m);
    } else {
      DivModUnique(x - y, m, q, a - b);
    }
  }

  /** The sum, or difference, of two `w`-bit signed values does not fit `w` bits. */
  predicate SignedOverflow(r: int, w: nat)
    requires w > 0
  {
    r + Pow2(w - 1) < 0 || r >= Pow2(w - 1)
  }

  lemma TopBit(x: nat, n: nat)
    ensures
      var a, l := Cut(x, n + 1), Cut(x, n);
      (a == l || a == l + Pow2(n)) && l < Pow2(n) && Pow2(n + 1) == 2 * Pow2(n)
      && ToSigned(a, n + 1) == (if a == l then l else l - Pow2(n))
  {
    CutCut(x, n, n + 1);
    assert Pow2(n + 1) == 2 * Pow2(n);
    hide Pow2;
    var a, h := Cut(x, n + 1), Pow2(n);
    assert a < 2 * h;
    if a >= h {
      DivModUnique(a, h, 1, a - h);
    } else {
      SmallMod(a, h);
    }
  }

  /** Signed overflow of the low `m` bits of `was + v` and of `was - v`. */
  predicate SumOverflows(was: nat, v: nat, m: nat)
    requires m > 0
  {
    SignedOverflow(ToSigned(Cut(was, m), m) + ToSigned(Cut(v, m), m), m)
  }

  predicate DifferenceOverflows(was: nat, v: nat, m: nat)
    requires m > 0
  {
    SignedOverflow(ToSigned(Cut(was, m), m) - ToSigned(Cut(v, m), m), m)
  }

  /** `$o(n)` answers with the signed overflow of the low `n + 1` bits, or of all of
      them when there are fewer. */
  predicate SumReported(was: nat, v: nat, n: nat, bits: nat)
    requires bits > 0
  {
    OverflowNum(was, Wrap(was + v, bits), n, bits) == Bit(SumOverflows(was, v, Min(n + 1, bits)))
  }

  predicate DifferenceReported(was: nat, v: nat, n: nat, bits: nat)
    requires bits > 0
  {
    OverflowNum(was, Wrap(was - v, bits), n, bits) == Bit(DifferenceOverflows(was, v, Min(n + 1, bits)))
  }

  /** Past the register's top bit both carries of `$o(n)` are the same one. */
  lemma OverflowPastTop(was: nat, cur: nat, n: nat, bits: nat)
    requires n >= bits
    ensures OverflowNum(was, cur, n, bits) == 0
  {
  }

  /** After an addition `$o(n)` reports signed overflow for every bit of the register,
      and past its top bit only where there is none to report. */
  lemma OverflowOfSum(was: nat, v: nat, n: nat, bits: nat)
    requires 0 < n && 0 < bits
    ensures SumReported(was, v, n, bits) <==> n < bits || !SumOverflows(was, v, bits)
  {
    if n < bits {
      CarryIsCarry(was, v, n, bits);
      CarryIsCarry(was, v, n - 1, bits);
      TopBit(was, n);
      TopBit(v, n);
      hide Pow2, Cut, ToSigned, CarryNum, Wrap;
    }
  }

  /** After a subtraction `$o(n)` reports signed overflow exactly when the low bits of
      the amount subtracted are not the lone sign bit; past the register's top bit only
      where there is none to report. */
  lemma OverflowOfDifference(was: nat, v: nat, n: nat, bits: nat)
    requires 0 < n && 0 < bits
    ensures DifferenceReported(was, v, n, bits) <==>
      if n < bits then Cut(v, n + 1) != Pow2(n) else !DifferenceOverflows(was, v, bits)
  {
    hide Pow2, Cut, Wrap, OverflowNum, DifferenceOverflows;
    if n < bits {
      BorrowedOverflow(was, v, n, bits);
    } else {
      OverflowPastTop(was, Wrap(was - v, bits), n, bits);
    }
  }

  lemma BorrowedOverflow(was: nat, v: nat, n: nat, bits: nat)
    requires 0 < n < bits
    ensures OverflowNum(was, Wrap(was - v, bits), n, bits) == Bit(DifferenceOverflows(was, v, n + 1)) <==> Cut(v, n + 1) != Pow2(n)
  {
    CutCut(was - v, n + 1, bits);
    CutCut(was - v, n, bits);
    TopBit(was, n);
    TopBit(v, n);
    hide Pow2, ToSigned;
    DifferenceMod(was, v, Pow2(n + 1));
    DifferenceMod(was, v, Pow2(n));
    hide Cut, Wrap;
  }

  /** The three old values that decide every overflow: the largest, the smallest and zero. */
  lemma Extremes(bits: nat)
    requires bits > 0
    ensures
      var h := Pow2(bits - 1);
      h > 0 && ToSigned(Cut(h - 1, bits), bits) == h - 1 && ToSigned(Cut(h, bits), bits) == -(h as int) && ToSigned(Cut(0, bits), bits) == 0
  {
    assert Pow2(bits) == 2 * Pow2(bits - 1);
    hide Pow2;
    var h := Pow2(bits - 1);
    SmallMod(h - 1, 2 * h);
    SmallMod(h, 2 * h);
    SmallMod(0, 2 * h);
  }

  lemma SignedRange(v: nat, bits: nat)
    requires bits > 0
    ensures
      var h, s := Pow2(bits - 1), ToSigned(Cut(v, bits), bits);
      -(h as int) <= s < h && (s == 0 <==> Cut(v, bits) == 0)
  {
    assert Pow2(bits) == 2 * Pow2(bits - 1);
    hide Pow2;
  }

  /** For which index and amount `$o` can be trusted after an addition, whatever the
      register held. */
  lemma SumTrusted(v: nat, n: nat, bits: nat)
    requires 0 < n && 0 < bits
    ensures (forall was: nat :: SumReported(was, v, n, bits)) <==> n < bits || Cut(v, bits) == 0
  {
    Extremes(bits);
    SignedRange(v, bits);
    forall was: nat ensures SumReported(was, v, n, bits) <==> n < bits || !SumOverflows(was, v, bits) {
      OverflowOfSum(was, v, n, bits);
    }
    hide Pow2, Cut, ToSigned, SumReported;
    var h := Pow2(bits - 1);
    if n >= bits && Cut(v, bits) != 0 {
      assert SumOverflows(h - 1, v, bits) || SumOverflows(h, v, bits);
      assert !SumReported(h - 1, v, n, bits) || !SumReported(h, v, n, bits);
    } else if n >= bits {
      forall was: nat ensures SumReported(was, v, n, bits) { SignedRange(was, bits); }
    }
  }

  /** The same after a subtraction. */
  lemma DifferenceTrusted(v: nat, n: nat, bits: nat)
    requires 0 < n && 0 < bits
    ensures (forall was: nat :: DifferenceReported(was, v, n, bits)) <==> if n < bits then Cut(v, n + 1) != Pow2(n) else Cut(v, bits) == 0
  {
    hide *;
    if n < bits {
      if Cut(v, n + 1) == Pow2(n) {
        OverflowOfDifference(0, v, n, bits);
      } else {
        forall was: nat ensures DifferenceReported(was, v, n, bits) { OverflowOfDifference(was, v, n, bits); }
      }
    } else if Cut(v, bits) != 0 {
      var h := Pow2(bits - 1);
      Extremes(bits);
      SomeOverflow(v, bits);
      OverflowOfDifference(h - 1, v, n, bits);
      OverflowOfDifference(h, v, n, bits);
    } else {
      forall was: nat ensures DifferenceReported(was, v, n, bits) {
        OverflowOfDifference(was, v, n, bits);
        NoOverflow(was, v, bits);
      }
    }
  }

  /** An amount that is not zero takes one of the extremes over the edge. */
  lemma SomeOverflow(v: nat, bits: nat)
    requires 0 < bits && Cut(v, bits) != 0
    ensures DifferenceOverflows(Pow2(bits - 1) - 1, v, bits) || DifferenceOverflows(Pow2(bits - 1), v, bits)
  {
    Extremes(bits);
    SignedRange(v, bits);
    hide Pow2, Cut, ToSigned;
  }

  lemma NoOverflow(was: nat, v: nat, bits: nat)
    requires 0 < bits && Cut(v, bits) == 0
    ensures !DifferenceOverflows(was, v, bits)
  {
    SignedRange(was, bits);
    SignedRange(v, bits);
    hide Pow2, Cut, ToSigned;
  }

  /** Subtracting the lone sign bit from zero reports no overflow where there is one. */
  lemma SignBitCounterexample()
    ensures OverflowNum(0, Wrap(0 - 128, 8), 7, 8) == 0 && DifferenceOverflows(0, 128, 8)
  {
    assert Pow2(7) == 128 && Pow2(8) == 256;
  }

  /** So does adding one to the largest value under `8,$o` on an eight-bit register,
      where `7,$o` reports it. */
  lemma PastTopCounterexample()
    ensures SumOverflows(127, 1, 8) && OverflowNum(127, Wrap(127 + 1, 8), 8, 8) == 0 && OverflowNum(127, Wrap(127 + 1, 8), 7, 8) == 1
  {
    assert Pow2(7) == 128 && Pow2(8) == 256;
  }

  // ---- The formulas compute the numbers ----

  /** The context's two expressions hold these values at its width. */
  ghost predicate CtxHolds(ctx: FlagCtx, was: nat, cur: nat, env: Env, sem: Sem, k: nat) {
    && Width(ctx.was) == ctx.bits && Width(ctx.cur) == ctx.bits && Count(ctx.was) == 0 && Count(ctx.cur) == 0
    && Eval(ctx.was, env, sem, k) == was && Eval(ctx.cur, env, sem, k) == cur
    && was < Pow2(ctx.bits) && cur < Pow2(ctx.bits)
  }

  lemma AsBitValue(c: Expr, env: Env, sem: Sem, k: nat)
    requires Count(c) == 0
    ensures Eval(AsBit(c), env, sem, k) == Bit(Eval(c, env, sem, k) != 0)
    ensures Width(AsBit(c)) == 1 && Count(AsBit(c)) == 0
  {
    assert Pow2(1) == 2;
    hide Pow2;
    assert Eval(Const(1, 1), env, sem, k) == 1 && Eval(Const(0, 1), env, sem, k) == 0;
  }

  lemma MaskedValue(e: Expr, m: nat, bits: nat, env: Env, sem: Sem, k: nat)
    requires m <= bits && Width(e) == bits && Count(e) == 0
    ensures Eval(Bin(And, e, Const(Ones(m), bits)), env, sem, k) == Cut(Eval(e, env, sem, k), m)
    ensures Count(Bin(And, e, Const(Ones(m), bits))) == 0
  {
    hide Pow2, BitAnd;
    AndOnes(Eval(e, env, sem, k), m);
    OnesFit(m, bits);
    hide Ones, Cut;
    assert Eval(Const(Ones(m), bits), env, sem, k) == Cut(Ones(m), bits);
  }

  lemma OnesFit(m: nat, bits: nat)
    requires m <= bits
    ensures Cut(Ones(m), bits) == Ones(m)
  {
    Pow2Mono(m, bits);
    hide Pow2;
    SmallMod(Ones(m), Pow2(bits));
  }

  lemma LessValue(x: Expr, y: Expr, env: Env, sem: Sem, k: nat)
    requires Count(x) == 0 && Count(y) == 0
    ensures Eval(AsBit(Bin(Ult, x, y)), env, sem, k) == Bit(Eval(x, env, sem, k) < Eval(y, env, sem, k))
    ensures Width(AsBit(Bin(Ult, x, y))) == 1 && Count(AsBit(Bin(Ult, x, y))) == 0
  {
    AsBitValue(Bin(Ult, x, y), env, sem, k);
  }

  lemma CarryValue(ctx: FlagCtx, n: nat, was: nat, cur: nat, env: Env, sem: Sem, k: nat)
    requires CtxHolds(ctx, was, cur, env, sem, k) && CarryFlag(ctx, n).Some?
    ensures var e := CarryFlag(ctx, n).value;
      Eval(e, env, sem, k) == CarryNum(was, cur, n, ctx.bits) && Width(e) == 1 && Count(e) == 0
    ensures var e := BorrowFlag(ctx, n).value;
      Eval(e, env, sem, k) == BorrowNum(was, cur, n, ctx.bits) && Width(e) == 1 && Count(e) == 0
  {
    hide Pow2, Cut, Eval, Width, Count, Ones, AsBit;
    var m := Min(n + 1, ctx.bits);
    MaskedValue(ctx.cur, m, ctx.bits, env, sem, k);
    MaskedValue(ctx.was, m, ctx.bits, env, sem, k);
    var x, y := Bin(And, ctx.cur, Const(Ones(m), ctx.bits)), Bin(And, ctx.was, Const(Ones(m), ctx.bits));
    LessValue(x, y, env, sem, k);
    LessValue(y, x, env, sem, k);
  }

  lemma XorBitValue(x: Expr, y: Expr, env: Env, sem: Sem, k: nat)
    requires Width(x) == 1 && Width(y) == 1 && Count(x) == 0 && Count(y) == 0
    requires Eval(x, env, sem, k) < 2 && Eval(y, env, sem, k) < 2
    ensures Eval(Bin(Xor, x, y), env, sem, k) == Bit(Eval(x, env, sem, k) != Eval(y, env, sem, k))
    ensures Width(Bin(Xor, x, y)) == 1 && Count(Bin(Xor, x, y)) == 0
  {
    var p, q := Eval(x, env, sem, k), Eval(y, env, sem, k);
    assert BitXor(p, q) == Bit(p != q) by { SmallXor(p, q); }
    hide BitXor;
  }

  lemma SmallXor(p: nat, q: nat)
    requires p < 2 && q < 2
    ensures BitXor(p, q) == Bit(p != q)
  {
    if p == 1 && q == 1 { assert BitXor(0, 0) == 0; }
  }

  lemma OverflowValue(ctx: FlagCtx, n: nat, was: nat, cur: nat, env: Env, sem: Sem, k: nat)
    requires CtxHolds(ctx, was, cur, env, sem, k) && OverflowFlag(ctx, n).Some?
    ensures var e := OverflowFlag(ctx, n).value;
      Eval(e, env, sem, k) == OverflowNum(was, cur, n, ctx.bits) && Width(e) == 1 && Count(e) == 0
  {
    hide CtxHolds, CarryFlag, Eval, Width, Count, Cut;
    CarryValue(ctx, n - 1, was, cur, env, sem, k);
    CarryValue(ctx, n, was, cur, env, sem, k);
    XorBitValue(CarryFlag(ctx, n - 1).value, CarryFlag(ctx, n).value, env, sem, k);
  }

  lemma ZeroValue(ctx: FlagCtx, was: nat, cur: nat, env: Env, sem: Sem, k: nat)
    requires CtxHolds(ctx, was, cur, env, sem, k)
    ensures var e := ZeroFlag(ctx); Eval(e, env, sem, k) == Bit(cur == 0) && Width(e) == 1 && Count(e) == 0
  {
    assert Cut(0, ctx.bits) == 0;
    hide Pow2, Cut, AsBit;
    AsBitValue(Bin(Eq, ctx.cur, Const(0, ctx.bits)), env, sem, k);
  }

  lemma BitExtract(e: Expr, n: nat, env: Env, sem: Sem, k: nat)
    ensures Eval(Un(Extract(n, n), e), env, sem, k) == BitAt(Eval(e, env, sem, k), n)
    ensures BitAt(Eval(e, env, sem, k), n) < 2
    ensures Width(Un(Extract(n, n), e)) == 1 && Count(Un(Extract(n, n), e)) == Count(e)
  {
    assert Pow2(1) == 2;
    hide Pow2;
  }

  lemma OnesStep(x: nat, top: nat)
    requires top > 0 && BitAt(x, top - 1) < 2
    ensures Ones8(x, top) % 2 == Bit(Ones8(x, top - 1) % 2 != BitAt(x, top - 1))
    ensures Ones8(x, 0) == 0
  {
    hide BitAt;
  }

  lemma {:induction false} XorBitsValue(cur: Expr, top: nat, env: Env, sem: Sem, k: nat)
    requires top > 0 && Count(cur) == 0
    ensures var e := XorBits(cur, top);
      Eval(e, env, sem, k) == Ones8(Eval(cur, env, sem, k), top) % 2 && Width(e) == 1 && Count(e) == 0
    decreases top
  {
    var bit := Un(Extract(top - 1, top - 1), cur);
    BitExtract(cur, top - 1, env, sem, k);
    OnesStep(Eval(cur, env, sem, k), top);
    hide Eval, Width, Count, BitAt, Ones8;
    if top > 1 {
      XorBitsValue(cur, top - 1, env, sem, k);
      XorBitValue(XorBits(cur, top - 1), bit, env, sem, k);
    }
  }

  /** `$p` is set when an even number of the low eight bits are. */
  lemma ParityValue(ctx: FlagCtx, was: nat, cur: nat, env: Env, sem: Sem, k: nat)
    requires CtxHolds(ctx, was, cur, env, sem, k) && ctx.bits > 0
    ensures var e := ParityFlag(ctx).value;
      Eval(e, env, sem, k) == Bit(Ones8(cur, Min(8, ctx.bits)) % 2 == 0) && Width(e) == 1 && Count(e) == 0
  {
    var top := Min(PARITY_BITS, ctx.bits);
    assert Eval(Const(1, 1), env, sem, k) == 1 by { assert Pow2(1) == 2; }
    assert Width(Const(1, 1)) == 1 && Count(Const(1, 1)) == 0;
    XorBitsValue(ctx.cur, top, env, sem, k);
    hide Eval, Width, Count, XorBits, Ones8;
    XorBitValue(XorBits(ctx.cur, top), Const(1, 1), env, sem, k);
  }
}
