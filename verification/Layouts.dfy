/** Register views: which bits of which parent a name stands for, and what
    writing such a slice does to the whole. */
module Layouts {
  import opened Bits
  import opened Common
  import opened Ir

  /** Bits `lo .. hi` of `parent`; a 32-bit alias clears the bits above it. */
  datatype Layout = Layout(parent: Name, lo: nat, hi: nat, zeroExtends: bool)

  /** The register tables of one instruction set. */
  datatype Arch = Arch(layouts: map<Name, Layout>, simd: set<Name>, simdBits: nat, ptr: nat)

  function ViewWidth(l: Layout): nat {
    SliceWidth(l.hi, l.lo)
  }

  /** A vector parent is as wide as the vector file, any other one a pointer. */
  function ParentWidth(arch: Arch, parent: Name): nat {
    if parent in arch.simd then arch.simdBits else arch.ptr
  }

  // ---- Slices of numbers ----

  /** `p` with bits `lo .. hi` replaced by `v`. */
  function Put(p: nat, lo: nat, hi: nat, bits: nat, v: nat): nat
    requires hi < bits
  {
    Join(Slice(p, hi + 1, bits - hi - 1), Join(v, Cut(p, lo), lo), hi + 1)
  }

  lemma SplitJoin(h: nat, l: nat, w: nat)
    requires l < Pow2(w)
    ensures Join(h, l, w) / Pow2(w) == h && Join(h, l, w) % Pow2(w) == l
  {
    hide Pow2;
    DivModUnique(Join(h, l, w), Pow2(w), h, l);
  }

  lemma SliceBelow(x: nat, lo: nat, width: nat)
    ensures Slice(x, lo, width) < Pow2(width) && Cut(x, width) < Pow2(width)
  {
    hide Pow2;
  }

  /** Writing a slice reads back, keeps the bits on either side, and stays in range. */
  lemma PutIsLawful(p: nat, lo: nat, hi: nat, bits: nat, v: nat)
    requires lo <= hi < bits && v < Pow2(hi - lo + 1)
    ensures
      var q := Put(p, lo, hi, bits, v);
      && q < Pow2(bits)
      && Slice(q, lo, hi - lo + 1) == v
      && Cut(q, lo) == Cut(p, lo)
      && Slice(q, hi + 1, bits - hi - 1) == Slice(p, hi + 1, bits - hi - 1)
  {
    hide Pow2, Slice, Join, Cut;
    var h, l := Slice(p, hi + 1, bits - hi - 1), Cut(p, lo);
    SliceBelow(p, hi + 1, bits - hi - 1);
    SliceBelow(p, lo, lo);
    var low := Join(v, l, lo);
    JoinBound(v, l, hi - lo + 1, lo);
    JoinBound(h, low, bits - hi - 1, hi + 1);
    PutSlices(h, l, v, lo, hi, bits);
  }

  lemma PutSlices(h: nat, l: nat, v: nat, lo: nat, hi: nat, bits: nat)
    requires lo <= hi < bits && v < Pow2(hi - lo + 1) && l < Pow2(lo) && h < Pow2(bits - hi - 1)
    requires Join(v, l, lo) < Pow2(hi + 1)
    ensures
      var q := Join(h, Join(v, l, lo), hi + 1);
      Slice(q, lo, hi - lo + 1) == v && Cut(q, lo) == l && Slice(q, hi + 1, bits - hi - 1) == h
  {
    hide Pow2, Join;
    var low := Join(v, l, lo);
    var q := Join(h, low, hi + 1);
    SplitJoin(h, low, hi + 1);
    SplitJoin(v, l, lo);
    SmallMod(h, Pow2(bits - hi - 1));
    SmallMod(v, Pow2(hi - lo + 1));
    CutCut(q, lo, hi + 1);
    SliceCut(q, hi + 1, lo, hi - lo + 1);
  }

  // ---- Slices as expressions ----

  /** Truncate or zero-extend an expression of known width. */
  function Coerce(e: Expr, from: nat, to: nat): Expr {
    if to == from then e
    else if to < from then Un(Extract(SaturatingSub(to, 1), 0), e)
    else Un(ZeroExtend(to), e)
  }

  lemma CoerceValue(e: Expr, to: nat, env: Env, sem: Sem, k: nat)
    requires to > 0 && Eval(e, env, sem, k) < Pow2(Width(e))
    ensures Eval(Coerce(e, Width(e), to), env, sem, k) == Cut(Eval(e, env, sem, k), to)
    ensures Width(Coerce(e, Width(e), to)) == to && Count(Coerce(e, Width(e), to)) == Count(e)
  {
    assert Pow2(0) == 1;
    var v, w := Eval(e, env, sem, k), Width(e);
    if to < w {
      hide Pow2, Eval;
      CoerceCut(e, to, env, sem, k);
    } else if to == w {
      hide Pow2, Eval;
      WrapSmall(v, w);
    } else {
      hide Pow2, Width;
      assert Eval(Un(ZeroExtend(to), e), env, sem, k) == Cut(v, to);
    }
  }

  lemma CoerceCut(e: Expr, to: nat, env: Env, sem: Sem, k: nat)
    requires to > 0
    ensures Eval(Un(Extract(to - 1, 0), e), env, sem, k) == Cut(Eval(e, env, sem, k), to)
  {
    assert Pow2(0) == 1;
    hide Pow2, Width;
    var v := Eval(e, env, sem, k);
    assert Slice(v, 0, to) == Cut(v, to);
  }

  lemma CoerceNames(e: Expr, from: nat, to: nat)
    ensures Reads(Coerce(e, from, to)) == Reads(e)
  {
  }

  /** A whole register with `value` in bits `lo .. hi`, the rest read from `parent`. */
  function Rebuild(parent: Var, lo: nat, hi: nat, value: Expr): Expr {
    var low := if lo > 0 then Bin(Concat, value, Un(Extract(SaturatingSub(lo, 1), 0), Ref(parent))) else value;
    if SaturatingAdd(hi, 1) < parent.bits then
      Bin(Concat, Un(Extract(SaturatingSub(parent.bits, 1), SaturatingAdd(hi, 1)), Ref(parent)), low)
    else low
  }

  lemma ExtractRef(parent: Var, hi: nat, lo: nat, env: Env, sem: Sem, k: nat)
    requires lo <= hi
    ensures Eval(Un(Extract(hi, lo), Ref(parent)), env, sem, k) == Slice(Val(env, parent), lo, hi - lo + 1)
    ensures Width(Un(Extract(hi, lo), Ref(parent))) == hi - lo + 1 && Count(Un(Extract(hi, lo), Ref(parent))) == 0
  {
    hide Val, Slice;
    assert Eval(Ref(parent), env, sem, k) == Val(env, parent);
  }

  lemma ConcatEval(h: Expr, l: Expr, env: Env, sem: Sem, k: nat)
    requires Count(h) == 0 && Count(l) == 0
    ensures Eval(Bin(Concat, h, l), env, sem, k) == Join(Eval(h, env, sem, k), Eval(l, env, sem, k), Width(l))
    ensures Width(Bin(Concat, h, l)) == Width(h) + Width(l) && Count(Bin(Concat, h, l)) == 0
  {
    hide Join;
  }

  lemma LowPart(parent: Var, lo: nat, value: Expr, env: Env, sem: Sem, k: nat)
    requires Count(value) == 0
    ensures
      var low := if lo > 0 then Bin(Concat, value, Un(Extract(SaturatingSub(lo, 1), 0), Ref(parent))) else value;
      && Eval(low, env, sem, k) == Join(Eval(value, env, sem, k), Cut(Val(env, parent), lo), lo)
      && Width(low) == Width(value) + lo && Count(low) == 0
  {
    assert Pow2(0) == 1;
    hide Pow2, Val, Join;
    var p := Val(env, parent);
    if lo > 0 {
      var tail := Un(Extract(SaturatingSub(lo, 1), 0), Ref(parent));
      ExtractRef(parent, lo - 1, 0, env, sem, k);
      ConcatEval(value, tail, env, sem, k);
      assert Slice(p, 0, lo) == Cut(p, lo);
    } else {
      JoinNothing(Eval(value, env, sem, k));
      SmallMod(0, 1);
    }
  }

  lemma JoinNothing(x: nat)
    ensures Join(x, 0, 0) == x
  {
    assert Pow2(0) == 1;
  }

  /** The rebuilt register has the slice put in place. */
  lemma RebuildValue(parent: Var, lo: nat, hi: nat, value: Expr, env: Env, sem: Sem, k: nat)
    requires lo <= hi < parent.bits && hi < U16 && Width(value) == hi - lo + 1 && Count(value) == 0
    ensures Eval(Rebuild(parent, lo, hi, value), env, sem, k) == Put(Val(env, parent), lo, hi, parent.bits, Eval(value, env, sem, k))
    ensures Width(Rebuild(parent, lo, hi, value)) == parent.bits && Count(Rebuild(parent, lo, hi, value)) == 0
  {
    hide Pow2, Val, Join, Slice, Cut, Eval, Width, Count;
    LowPart(parent, lo, value, env, sem, k);
    var low := if lo > 0 then Bin(Concat, value, Un(Extract(SaturatingSub(lo, 1), 0), Ref(parent))) else value;
    if hi + 1 < parent.bits {
      ExtractRef(parent, parent.bits - 1, hi + 1, env, sem, k);
      ConcatEval(Un(Extract(parent.bits - 1, hi + 1), Ref(parent)), low, env, sem, k);
    } else {
      NothingAbove(Val(env, parent), parent.bits, Eval(low, env, sem, k));
    }
  }

  lemma NothingAbove(p: nat, bits: nat, low: nat)
    ensures Join(Slice(p, bits, 0), low, bits) == low
  {
    assert Pow2(0) == 1;
    hide Pow2;
    assert Slice(p, bits, 0) == 0;
  }
}
