/** Naturals as bit-vectors: powers of two, the bitwise operations, and the
    two's-complement reading, with the arithmetic facts the models below use. */
module Bits {

  function Pow2(n: nat): (p: nat)
    ensures p >= 1
  {
    if n == 0 then 1 else 2 * Pow2(n - 1)
  }

  function Max(a: nat, b: nat): nat {
    if a >= b then a else b
  }

  function Min(a: nat, b: nat): nat {
    if a <= b then a else b
  }

  function Bit(b: bool): (r: nat) {
    if b then 1 else 0
  }

  /** The low `bits` bits of `x`. */
  function Cut(x: nat, bits: nat): nat {
    x % Pow2(bits)
  }

  /** Bits `lo .. lo + width - 1` of `x`. */
  function Slice(x: nat, lo: nat, width: nat): nat {
    x / Pow2(lo) % Pow2(width)
  }

  /** An integer modulo 2^bits. */
  function Wrap(x: int, bits: nat): nat {
    x % Pow2(bits)
  }

  function Ones(bits: nat): nat {
    Pow2(bits) - 1
  }

  /** `high` placed above a `lowBits`-wide `low`. */
  function Join(high: nat, low: nat, lowBits: nat): nat {
    high * Pow2(lowBits) + low
  }

  /** Two's-complement reading of a `w`-bit value. */
  function ToSigned(x: nat, w: nat): int {
    if w > 0 && x >= Pow2(w - 1) then x - Pow2(w) else x
  }

  /** Division truncated towards zero, as SMT-LIB's `bvsdiv`. */
  function TruncDiv(a: int, b: int): int
    requires b != 0
  {
    if a >= 0 then
      if b > 0 then a / b else -(a / (-b))
    else
      if b > 0 then -((-a) / b) else (-a) / (-b)
  }

  function SignedDiv(x: int, y: int, w: nat): nat {
    if y == 0 then (if x >= 0 then Ones(w) else Wrap(1, w)) else Wrap(TruncDiv(x, y), w)
  }

  /** The remainder takes the dividend's sign. */
  function SignedRem(x: int, y: int, w: nat): nat {
    if y == 0 then Wrap(x, w) else Wrap(x - TruncDiv(x, y) * y, w)
  }

  function ShiftLeft(x: nat, n: nat, w: nat): nat {
    Wrap(x * Pow2(n), w)
  }

  function ShiftRight(x: nat, n: nat): nat {
    DivNat(x, Pow2(n));
    x / Pow2(n)
  }

  function ShiftRightSigned(x: int, n: nat, w: nat): nat {
    Wrap(x / Pow2(n), w)
  }

  function RotateRight(x: nat, n: nat, w: nat): nat {
    if w == 0 then 0 else Wrap(x / Pow2(n % w) + x * Pow2(w - n % w), w)
  }

  function BitAnd(x: nat, y: nat): nat
    decreases x
  {
    if x == 0 then 0 else 2 * BitAnd(x / 2, y / 2) + Bit(x % 2 == 1 && y % 2 == 1)
  }

  function BitOr(x: nat, y: nat): nat
    decreases x + y
  {
    if x == 0 then y else if y == 0 then x else
    2 * BitOr(x / 2, y / 2) + Max(x % 2, y % 2)
  }

  function BitXor(x: nat, y: nat): nat
    decreases x + y
  {
    if x == 0 then y else if y == 0 then x else
    2 * BitXor(x / 2, y / 2) + Bit(x % 2 != y % 2)
  }

  // ---- powers of two ----

  lemma {:induction false} Pow2Add(m: nat, n: nat)
    ensures Pow2(m + n) == Pow2(m) * Pow2(n)
  {
    if m > 0 {
      Pow2Add(m - 1, n);
      calc {
        Pow2(m + n);
        2 * Pow2(m - 1 + n);
        2 * (Pow2(m - 1) * Pow2(n));
        (2 * Pow2(m - 1)) * Pow2(n);
      }
    }
  }

  lemma {:induction false} Pow2Mono(m: nat, n: nat)
    requires m <= n
    ensures Pow2(m) <= Pow2(n)
  {
    if m < n { Pow2Mono(m, n - 1); }
  }

  lemma {:induction false} Pow2Strict(m: nat, n: nat)
    requires m < n
    ensures 2 * Pow2(m) <= Pow2(n)
  {
    Pow2Mono(m + 1, n);
  }

  // ---- division and remainder ----

  lemma DivNat(x: nat, d: nat)
    requires d > 0
    ensures 0 <= x / d
  {
    MulFar(x / d, d);
  }

  lemma DivModUnique(x: int, d: int, q: int, r: int)
    requires d > 0 && 0 <= r < d && x == q * d + r
    ensures x / d == q && x % d == r
  {
    var q', r' := x / d, x % d;
    var k := q' - q;
    assert k * d == r - r' by {
      assert x == q' * d + r';
      assert k * d == q' * d - q * d;
    }
    MulFar(k, d);
  }

  lemma MulFar(k: int, d: int)
    requires d >= 0
    ensures k >= 1 ==> k * d >= d
    ensures k <= -1 ==> k * d <= -d
  {
    if k >= 1 { MulGe(k, d); }
    if k <= -1 {
      MulGe(-k, d);
      assert (-k) * d == -(k * d);
    }
  }

  lemma MulGe(k: int, d: int)
    requires k >= 1 && d >= 0
    ensures k * d >= d
  {
    assert k * d == d + (k - 1) * d;
    assert (k - 1) * d >= 0;
  }

  lemma ModAddMul(x: int, k: int, d: int)
    requires d > 0
    ensures (x + k * d) % d == x % d
  {
    var q, r := x / d, x % d;
    assert x + k * d == (q + k) * d + r;
    DivModUnique(x + k * d, d, q + k, r);
  }

  lemma ModMod(x: int, a: int, b: int)
    requires a > 0 && b > 0
    ensures b * a > 0 && x % (b * a) % a == x % a
  {
    assert b * a > 0;
    var q, r := x / (b * a), x % (b * a);
    assert x == r + (q * b) * a;
    ModAddMul(r, q * b, a);
  }

  /** Reducing to `n` bits and then to `m <= n` bits is reducing to `m` bits. */
  lemma CutCut(x: int, m: nat, n: nat)
    requires m <= n
    ensures x % Pow2(n) % Pow2(m) == x % Pow2(m)
  {
    Pow2Add(n - m, m);
    ModMod(x, Pow2(m), Pow2(n - m));
  }

  lemma SmallMod(x: nat, d: nat)
    requires x < d
    ensures x % d == x && x / d == 0
  {
  }

  lemma CutSmall(x: nat, m: nat, n: nat)
    requires m <= n && x < Pow2(m)
    ensures x < Pow2(n) && x % Pow2(n) == x
  {
    Pow2Mono(m, n);
    SmallMod(x, Pow2(n));
  }

  // ---- bitwise operations ----

  /** Masking with `n` ones keeps the low `n` bits. */
  lemma {:induction false} AndOnes(x: nat, n: nat)
    ensures BitAnd(x, Ones(n)) == Cut(x, n)
    decreases n
  {
    if n == 0 {
      AndZero(x);
    } else {
      var m := Pow2(n - 1);
      assert Ones(n) / 2 == Ones(n - 1) && Ones(n) % 2 == 1;
      AndOnes(x / 2, n - 1);
      HalfMod(x, m);
    }
  }

  lemma HalfMod(x: nat, m: nat)
    requires m > 0
    ensures x % (2 * m) == 2 * (x / 2 % m) + x % 2
  {
    var q, r := x / 2 / m, x / 2 % m;
    assert x / 2 == q * m + r;
    assert x == q * (2 * m) + (2 * r + x % 2);
    DivModUnique(x, 2 * m, q, 2 * r + x % 2);
  }

  lemma {:induction false} AndZero(x: nat)
    ensures BitAnd(x, 0) == 0 && BitAnd(0, x) == 0
  {
    if x > 0 { AndZero(x / 2); }
  }

  lemma {:induction false} AndSelf(x: nat)
    ensures BitAnd(x, x) == x
  {
    if x > 0 { AndSelf(x / 2); }
  }

  lemma {:induction false} AndLe(x: nat, y: nat)
    ensures BitAnd(x, y) <= x
    decreases x
  {
    if x > 0 { AndLe(x / 2, y / 2); }
  }

  lemma {:induction false} OrSelf(x: nat)
    ensures BitOr(x, x) == x
  {
    if x > 0 { OrSelf(x / 2); }
  }

  lemma {:induction false} XorSelf(x: nat)
    ensures BitXor(x, x) == 0
  {
    if x > 0 { XorSelf(x / 2); }
  }

  lemma {:induction false} OrBound(x: nat, y: nat, n: nat)
    requires x < Pow2(n) && y < Pow2(n)
    ensures BitOr(x, y) < Pow2(n)
    decreases n
  {
    if x > 0 && y > 0 { OrBound(x / 2, y / 2, n - 1); }
  }

  lemma {:induction false} XorBound(x: nat, y: nat, n: nat)
    requires x < Pow2(n) && y < Pow2(n)
    ensures BitXor(x, y) < Pow2(n)
    decreases n
  {
    if x > 0 && y > 0 { XorBound(x / 2, y / 2, n - 1); }
  }

  lemma {:induction false} OrOnes(x: nat, n: nat)
    requires x < Pow2(n)
    ensures BitOr(x, Ones(n)) == Ones(n) && BitOr(Ones(n), x) == Ones(n)
    decreases n
  {
    if x > 0 {
      assert Ones(n) / 2 == Ones(n - 1) && Ones(n) % 2 == 1;
      OrOnes(x / 2, n - 1);
    }
  }

  /** Reading a two's-complement value and writing it back at its own width. */
  lemma WrapSigned(x: nat, w: nat)
    requires x < Pow2(w)
    ensures Wrap(ToSigned(x, w), w) == x
  {
    SmallMod(x, Pow2(w));
    assert x - Pow2(w) == x + (-1) * Pow2(w);
    ModAddMul(x, -1, Pow2(w));
  }

  lemma WrapSmall(x: nat, w: nat)
    requires x < Pow2(w)
    ensures Wrap(x, w) == x && Cut(x, w) == x
  {
    SmallMod(x, Pow2(w));
  }

  lemma WrapBound(x: int, w: nat)
    ensures Wrap(x, w) < Pow2(w)
  {
  }

  lemma JoinBound(h: nat, l: nat, wh: nat, wl: nat)
    requires h < Pow2(wh) && l < Pow2(wl)
    ensures Join(h, l, wl) < Pow2(wh + wl)
  {
    Pow2Add(wh, wl);
    MulBound(h, Pow2(wh), Pow2(wl));
  }

  lemma MulBound(h: nat, m: nat, d: nat)
    requires h < m
    ensures h * d + d <= m * d
  {
    assert (m - h - 1) * d >= 0;
    assert (m - h - 1) * d == m * d - h * d - d;
  }

  lemma DivModDiv(x: nat, a: nat, d: nat)
    requires a > 0 && d > 0
    ensures a * d > 0 && x % (a * d) / a == x / a % d
    ensures x / (a * d) == x / a / d
  {
    var q, r := x / a, x % a;
    var q', r' := q / d, q % d;
    assert q >= 0 by { DivNat(x, a); }
    MulBound(r', d, a);
    assert a * d == d * a && a * d > 0;
    assert x == q' * (a * d) + (r' * a + r) by {
      assert q == q' * d + r';
      assert q * a == (q' * d) * a + r' * a;
      assert (q' * d) * a == q' * (a * d);
    }
    assert r' * a >= 0;
    DivModUnique(x, a * d, q', r' * a + r);
    DivModUnique(r' * a + r, a, r', r);
  }

  /** A slice inside the low `n` bits does not see the rest. */
  lemma SliceCut(x: nat, n: nat, lo: nat, width: nat)
    requires lo + width <= n
    ensures Slice(Cut(x, n), lo, width) == Slice(x, lo, width)
  {
    Pow2Add(lo, n - lo);
    Pow2Add(n - lo - width, width);
    hide Pow2;
    DivModDiv(x, Pow2(lo), Pow2(n - lo));
    ModMod(x / Pow2(lo), Pow2(width), Pow2(n - lo - width));
  }

  lemma SliceWhole(x: nat, w: nat)
    requires x < Pow2(w)
    ensures Slice(x, 0, w) == x
  {
    assert Pow2(0) == 1;
    hide Pow2;
    assert x / 1 == x;
    SmallMod(x, Pow2(w));
  }
}
