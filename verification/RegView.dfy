/** How the ESIL machine reads and writes a register operand: a view of a variable,
    possibly zero-extending, hardwired to zero, or stored complemented. */
module RegView {
  import opened Bits
  import opened Common
  import opened Ir
  import opened Layouts
  import EquivQuery

  /** The variable a name touches and the bits of it the name addresses. */
  datatype RegRef = RegRef(variable: Var, lo: nat, hi: nat, zeroExtends: bool, zero: bool, invert: bool)

  /** The name is the variable. */
  function WholeRef(v: Var): RegRef {
    RegRef(v, 0, SaturatingSub(v.bits, 1), false, false, false)
  }

  function RegBits(r: RegRef): nat {
    SaturatingAdd(SaturatingSub(r.hi, r.lo), 1)
  }

  predicate CoversWhole(r: RegRef) {
    r.lo == 0 && SaturatingAdd(r.hi, 1) == r.variable.bits
  }

  /** A view inside its variable; only a low slice zero-extends. */
  predicate ValidRef(r: RegRef) {
    r.lo <= r.hi < r.variable.bits <= U16 && (r.zeroExtends ==> r.lo == 0)
  }

  function ReadExpr(r: RegRef): Expr {
    if r.zero then Const(0, RegBits(r)) else
    var value := if CoversWhole(r) then Ref(r.variable) else Un(Extract(r.hi, r.lo), Ref(r.variable));
    if r.invert then Bin(Xor, value, Const(1, RegBits(r))) else value
  }

  /** The whole-variable expression a write of `value` leaves behind. */
  function WriteExpr(r: RegRef, value: Expr): Expr {
    var stored := if r.invert then Bin(Xor, value, Const(1, RegBits(r))) else value;
    if CoversWhole(r) then stored
    else if r.zeroExtends then Un(ZeroExtend(r.variable.bits), stored)
    else Rebuild(r.variable, r.lo, r.hi, stored)
  }

  // ---- The same on numbers ----

  /** Bit 0 flipped. */
  function Flip(x: nat): nat {
    2 * (x / 2) + (1 - x % 2)
  }

  /** What the operand reads when its variable holds `p`. */
  function ReadNum(r: RegRef, p: nat): nat {
    if r.zero then 0 else
    var x := Slice(p, r.lo, RegBits(r));
    if r.invert then Flip(x) else x
  }

  /** What the variable holds after `x` is written through the operand. */
  function WriteNum(r: RegRef, p: nat, x: nat): nat {
    var v := if r.invert then Flip(x) else x;
    if CoversWhole(r) || r.zeroExtends || r.hi >= r.variable.bits then v
    else Put(p, r.lo, r.hi, r.variable.bits, v)
  }

  lemma FlipFlip(x: nat)
    ensures Flip(Flip(x)) == x
  {
  }

  lemma FlipXor(x: nat)
    ensures BitXor(x, 1) == Flip(x)
  {
    if x != 0 { assert BitXor(x / 2, 0) == x / 2; }
  }

  lemma FlipBound(x: nat, w: nat)
    requires w > 0 && x < Pow2(w)
    ensures Flip(x) < Pow2(w)
  {
    var h := Pow2(w - 1);
    assert Pow2(w) == 2 * h;
    hide Pow2;
    FlipEven(x, h);
  }

  lemma FlipEven(x: nat, h: nat)
    requires x < 2 * h
    ensures Flip(x) < 2 * h
  {
  }

  // ---- Laws ----

  lemma ReadBound(r: RegRef, p: nat)
    requires ValidRef(r)
    ensures ReadNum(r, p) < Pow2(RegBits(r))
  {
    SliceBelow(p, r.lo, RegBits(r));
    if r.invert { FlipBound(Slice(p, r.lo, RegBits(r)), RegBits(r)); }
  }

  /** Reading back what was written gives the value; the complement cancels. */
  lemma ReadAfterWrite(r: RegRef, p: nat, x: nat)
    requires ValidRef(r) && !r.zero && x < Pow2(RegBits(r))
    ensures ReadNum(r, WriteNum(r, p, x)) == x && WriteNum(r, p, x) < Pow2(r.variable.bits)
  {
    var w := RegBits(r);
    var v := if r.invert then Flip(x) else x;
    if r.invert {
      FlipBound(x, w);
      FlipFlip(x);
    }
    hide Pow2, Slice;
    if CoversWhole(r) || r.zeroExtends {
      Pow2Mono(w, r.variable.bits);
      SliceWhole(v, w);
    } else {
      PutIsLawful(p, r.lo, r.hi, r.variable.bits, v);
    }
  }

  /** A view that does not zero-extend leaves every other bit of its variable. */
  lemma WriteKeepsOthers(r: RegRef, p: nat, x: nat)
    requires ValidRef(r) && !r.zeroExtends && x < Pow2(RegBits(r)) && p < Pow2(r.variable.bits)
    ensures
      var q, bits := WriteNum(r, p, x), r.variable.bits;
      Cut(q, r.lo) == Cut(p, r.lo) && Slice(q, r.hi + 1, bits - r.hi - 1) == Slice(p, r.hi + 1, bits - r.hi - 1)
  {
    if r.invert { FlipBound(x, RegBits(r)); }
    var v := if r.invert then Flip(x) else x;
    var bits := r.variable.bits;
    if CoversWhole(r) {
      assert Pow2(0) == 1;
      hide Pow2;
      assert Cut(v, 0) == 0 && Cut(p, 0) == 0 && Slice(v, bits, 0) == 0 && Slice(p, bits, 0) == 0;
    } else {
      hide Pow2, Slice, Cut;
      PutIsLawful(p, r.lo, r.hi, bits, v);
    }
  }

  /** A zero-extending view clears every bit above it. */
  lemma ZeroExtendClears(r: RegRef, p: nat, x: nat)
    requires ValidRef(r) && r.zeroExtends && x < Pow2(RegBits(r))
    ensures WriteNum(r, p, x) < Pow2(r.hi + 1)
  {
    if r.invert { FlipBound(x, RegBits(r)); }
  }

  // ---- The expressions compute these ----

  lemma OneFits(w: nat)
    requires w > 0
    ensures Cut(1, w) == 1
  {
    Pow2Mono(1, w);
    assert Pow2(1) == 2;
    hide Pow2;
    SmallMod(1, Pow2(w));
  }

  lemma XorOne(e: Expr, w: nat, env: Env, sem: Sem, k: nat)
    requires w > 0 && Width(e) == w
    ensures Eval(Bin(Xor, e, Const(1, w)), env, sem, k) == Flip(Eval(e, env, sem, k))
    ensures Width(Bin(Xor, e, Const(1, w))) == w && Count(Bin(Xor, e, Const(1, w))) == Count(e)
  {
    hide BitXor, Flip, Cut, Pow2;
    FlipXor(Eval(e, env, sem, k));
    OneFits(w);
    assert Eval(Const(1, w), env, sem, k + Count(e)) == 1;
  }

  lemma ReadValue(r: RegRef, env: Env, sem: Sem, k: nat)
    requires ValidRef(r)
    ensures Eval(ReadExpr(r), env, sem, k) == ReadNum(r, Val(env, r.variable))
    ensures Width(ReadExpr(r)) == RegBits(r) && Count(ReadExpr(r)) == 0 && Reads(ReadExpr(r)) <= {r.variable.name}
  {
    var value := if CoversWhole(r) then Ref(r.variable) else Un(Extract(r.hi, r.lo), Ref(r.variable));
    var p := Val(env, r.variable);
    assert p < Pow2(r.variable.bits);
    assert Cut(0, RegBits(r)) == 0;
    assert Reads(value) == {r.variable.name} && Reads(Const(1, RegBits(r))) == {};
    hide Pow2, Val, Slice, Flip;
    ExtractRef(r.variable, r.hi, r.lo, env, sem, k);
    if CoversWhole(r) { SliceWhole(p, r.variable.bits); }
    assert Eval(value, env, sem, k) == Slice(p, r.lo, RegBits(r)) && Width(value) == RegBits(r) && Count(value) == 0;
    XorOne(value, RegBits(r), env, sem, k);
  }

  lemma WriteValue(r: RegRef, value: Expr, env: Env, sem: Sem, k: nat)
    requires ValidRef(r) && Width(value) == RegBits(r) && Count(value) == 0 && Eval(value, env, sem, k) < Pow2(RegBits(r))
    ensures Eval(WriteExpr(r, value), env, sem, k) == WriteNum(r, Val(env, r.variable), Eval(value, env, sem, k))
    ensures Width(WriteExpr(r, value)) == r.variable.bits && Count(WriteExpr(r, value)) == 0
  {
    var stored := if r.invert then Bin(Xor, value, Const(1, RegBits(r))) else value;
    var x := Eval(value, env, sem, k);
    if r.invert { FlipBound(x, RegBits(r)); }
    hide Pow2, Val, Flip, Put, Rebuild;
    XorOne(value, RegBits(r), env, sem, k);
    var v := Eval(stored, env, sem, k);
    assert v == (if r.invert then Flip(x) else x) && Width(stored) == RegBits(r) && Count(stored) == 0;
    if !CoversWhole(r) {
      if r.zeroExtends {
        ZeroExtendValue(stored, r.variable.bits, env, sem, k);
      } else {
        RebuildValue(r.variable, r.lo, r.hi, stored, env, sem, k);
      }
    }
  }

  lemma ZeroExtendValue(e: Expr, to: nat, env: Env, sem: Sem, k: nat)
    requires Width(e) <= to && Eval(e, env, sem, k) < Pow2(Width(e))
    ensures Eval(Un(ZeroExtend(to), e), env, sem, k) == Eval(e, env, sem, k)
    ensures Width(Un(ZeroExtend(to), e)) == to && Count(Un(ZeroExtend(to), e)) == Count(e)
  {
    CutSmall(Eval(e, env, sem, k), Width(e), to);
    hide Pow2;
  }

  /** A plain write is the same reconstruction the comparison makes of a definition. */
  lemma WriteMatchesComparison(l: Layout, bits: nat, def: Var, side: Side, env: Env, sem: Sem, k: nat)
    requires l.lo <= l.hi < bits <= U16 && (l.zeroExtends ==> l.lo == 0)
    requires def.bits == ViewWidth(l)
    ensures
      var r := RegRef(Var(l.parent, bits), l.lo, l.hi, l.zeroExtends, false, false);
      var e := EquivQuery.ParentSpaceValue(def, side, l, bits);
      e.Some? && Eval(e.value, env, sem, k) == Eval(WriteExpr(r, Ref(EquivQuery.Namespace.SidedVar(def, side))), env, sem, k)
  {
  }
}
