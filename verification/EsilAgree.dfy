/** Looking registers and flags up as radare2 spells them, against placing them as
    the machine does. */
module EsilAgree {
  import opened Bits
  import opened Common
  import opened Ir
  import opened Layouts
  import opened RegView
  import opened EsilMachine
  import opened EsilTyping
  import opened EsilNumbers
  import R = EsilResolved
  import I = EsilInterp

  // ---- Two register files ----

  /** The five flags are single bits outside the register tables. */
  ghost predicate FlagsApart(a: EsilArch) {
    (forall f :: f in {Plain("ZF"), Plain("CF"), Plain("SF"), Plain("OF"), Plain("PF")} ==>
      f !in a.arch.layouts && f in a.widths && a.widths[f] == 1)
    && forall x {:trigger a.arch.layouts[x]} :: x in a.arch.layouts ==> I.FlagOf(a.arch.layouts[x].parent).None?
  }

  /** Bit 0 turned over. */
  function Turned(c: nat): nat {
    if c % 2 == 0 then c + 1 else c - 1
  }

  ghost predicate SameRegisters(env: Env, regs: Env) {
    forall x: Name {:trigger Get(env, x)} :: !x.Temp? && I.FlagOf(x).None? ==> Get(env, x) == Get(regs, x)
  }

  predicate SameFlags(a: EsilArch, env: Env, regs: Env) {
    && Get(env, Plain("ZF")) == Get(regs, Plain("zf"))
    && Get(env, Plain("SF")) == Get(regs, Plain("sf"))
    && Get(env, Plain("OF")) == Get(regs, Plain("of"))
    && Get(env, Plain("PF")) == Get(regs, Plain("pf"))
    && Get(env, Plain("CF")) == if a.complement then Turned(Get(regs, Plain("cf"))) else Get(regs, Plain("cf"))
  }

  /** The program's variables hold radare2's registers and flags, the carry turned
      over where it is stored complemented. */
  ghost predicate Holds(a: EsilArch, env: Env, regs: Env) {
    SameRegisters(env, regs) && SameFlags(a, env, regs)
  }

  // ---- Where an operand is ----

  /** The five flags under both spellings, told apart. */
  lemma Spelled()
    ensures Plain("ZF") != Plain("CF") && Plain("ZF") != Plain("SF") && Plain("ZF") != Plain("OF") && Plain("ZF") != Plain("PF")
    ensures Plain("CF") != Plain("SF") && Plain("CF") != Plain("OF") && Plain("CF") != Plain("PF")
    ensures Plain("SF") != Plain("OF") && Plain("SF") != Plain("PF") && Plain("OF") != Plain("PF")
    ensures Plain("zf") != Plain("cf") && Plain("zf") != Plain("sf") && Plain("zf") != Plain("of") && Plain("zf") != Plain("pf")
    ensures Plain("cf") != Plain("sf") && Plain("cf") != Plain("of") && Plain("cf") != Plain("pf")
    ensures Plain("sf") != Plain("of") && Plain("sf") != Plain("pf") && Plain("of") != Plain("pf")
  {
    assert "ZF"[0] == 'Z' && "CF"[0] == 'C' && "SF"[0] == 'S' && "OF"[0] == 'O' && "PF"[0] == 'P';
    assert "zf"[0] == 'z' && "cf"[0] == 'c' && "sf"[0] == 's' && "of"[0] == 'o' && "pf"[0] == 'p';
  }

  /** The program's name for the flag radare2 keeps in `cell`. */
  predicate Pairs(flag: Name, cell: Name) {
    (flag == Plain("ZF") && cell == Plain("zf")) || (flag == Plain("CF") && cell == Plain("cf")) || (flag == Plain("SF") && cell == Plain("sf"))
    || (flag == Plain("OF") && cell == Plain("of")) || (flag == Plain("PF") && cell == Plain("pf"))
  }

  lemma FlagIs(x: Name)
    requires I.FlagOf(x).Some?
    ensures Pairs(Canonical(x), I.FlagOf(x).value)
  {
    assert "ZF"[0] == 'Z' && "CF"[0] == 'C' && "SF"[0] == 'S' && "OF"[0] == 'O' && "PF"[0] == 'P';
    assert "zf"[0] == 'z' && "cf"[0] == 'c' && "sf"[0] == 's' && "nf"[0] == 'n' && "of"[0] == 'o' && "vf"[0] == 'v' && "pf"[0] == 'p';
  }

  lemma NotRenamed(x: Name)
    requires I.FlagOf(x).None?
    ensures Canonical(x) == x && x != Plain("CF")
  {
  }

  lemma NoFlag(x: Name)
    requires I.FlagOf(x).None?
    ensures forall cell :: !Pairs(x, cell) && !Pairs(cell, x)
  {
  }

  lemma FlagRef(a: EsilArch, x: Name)
    requires FlagsApart(a) && I.FlagOf(x).Some?
    ensures OperandRef(a, x) == RegRef(Var(Canonical(x), 1), 0, 0, false, false, Canonical(x) == Plain("CF") && a.complement)
  {
    FlagIs(x);
    hide I.FlagOf, Canonical;
    assert Canonical(x) !in a.arch.layouts && a.widths[Canonical(x)] == 1;
  }

  lemma RegisterOperand(a: EsilArch, x: Name)
    requires I.FlagOf(x).None?
    ensures OperandRef(a, x) == RegisterRef(a, x)
  {
    NotRenamed(x);
    hide I.FlagOf, Canonical;
  }

  lemma PartOperand(a: EsilArch, x: Name)
    requires LawfulEsil(a) && FlagsApart(a) && I.FlagOf(x).None? && I.IsPart(a, x)
    ensures
      var l, ptr := a.arch.layouts[x], a.arch.ptr;
      && OperandRef(a, x) == RegRef(Var(l.parent, ptr), l.lo, l.hi, l.zeroExtends && ptr == 64, l.parent in a.zeros, false)
      && l.lo <= l.hi < ptr <= 128 && I.FlagOf(l.parent).None? && !l.parent.Temp?
      && RegBits(OperandRef(a, x)) == l.hi - l.lo + 1 == I.WidthOf(a, x)
  {
    RegisterOperand(a, x);
    hide I.FlagOf, OperandRef;
    assert Placed(a, x);
  }

  lemma WholeOperand(a: EsilArch, x: Name)
    requires LawfulEsil(a) && I.FlagOf(x).None? && !I.IsPart(a, x)
    ensures OperandRef(a, x) == WholeRef(Var(x, I.WidthOf(a, x))) && 0 < I.WidthOf(a, x) <= U16
    ensures RegBits(OperandRef(a, x)) == I.WidthOf(a, x)
  {
    RegisterOperand(a, x);
    hide I.FlagOf, OperandRef;
    assert !Placed(a, x);
  }

  // ---- Reading ----

  lemma TurnedIsFlip(c: nat)
    ensures Turned(c) == Flip(c) && Turned(c) % 2 == 1 - c % 2 && (c < 2 ==> Turned(c) == 1 - c)
  {
  }

  lemma BitRead(p: nat)
    ensures Slice(Cut(p, 1), 0, 1) == p % 2
  {
    assert Pow2(0) == 1 && Pow2(1) == 2;
  }

  lemma FlagCell(a: EsilArch, env: Env, regs: Env, flag: Name, cell: Name)
    requires SameFlags(a, env, regs) && Pairs(flag, cell)
    ensures Get(env, flag) == if flag == Plain("CF") && a.complement then Turned(Get(regs, cell)) else Get(regs, cell)
  {
    Spelled();
    hide Turned;
  }

  lemma FlagRead(a: EsilArch, env: Env, regs: Env, x: Name)
    requires FlagsApart(a) && Holds(a, env, regs) && I.FlagOf(x).Some?
    ensures var r := OperandRef(a, x); ReadNum(r, Val(env, r.variable)) == I.Look(a, regs, x) && RegBits(r) == I.WidthOf(a, x)
  {
    hide I.FlagOf, Canonical, Slice, Cut, Pow2, OperandRef, FlagsApart, SameRegisters, SameFlags, Pairs, Turned, Flip;
    FlagRef(a, x);
    FlagIs(x);
    var flag, cell := Canonical(x), I.FlagOf(x).value;
    FlagCell(a, env, regs, flag, cell);
    BitRead(Get(env, flag));
    TurnedIsFlip(Get(regs, cell));
    TurnedIsFlip(Get(env, flag) % 2);
  }

  lemma PartRead(p: nat, lo: nat, hi: nat, bits: nat)
    requires lo <= hi < bits <= U16
    ensures Slice(Cut(p, bits), lo, hi - lo + 1) == I.Part(p, lo, hi - lo + 1)
  {
    hide Pow2;
    SliceCut(p, bits, lo, hi - lo + 1);
  }

  lemma WholeRead(p: nat, w: nat)
    ensures Slice(Cut(p, w), 0, w) == p % Pow2(w)
  {
    hide Pow2;
    SliceWhole(p % Pow2(w), w);
  }

  lemma RegisterRead(a: EsilArch, env: Env, regs: Env, x: Name)
    requires LawfulEsil(a) && FlagsApart(a) && Holds(a, env, regs) && I.FlagOf(x).None? && !x.Temp?
    ensures var r := OperandRef(a, x); ReadNum(r, Val(env, r.variable)) == I.Look(a, regs, x) && RegBits(r) == I.WidthOf(a, x)
  {
    hide I.FlagOf, Slice, Cut, Pow2, OperandRef, LawfulEsil, FlagsApart, I.Part;
    if I.IsPart(a, x) {
      var l := a.arch.layouts[x];
      PartOperand(a, x);
      assert Get(env, l.parent) == Get(regs, l.parent);
      PartRead(Get(env, l.parent), l.lo, l.hi, a.arch.ptr);
    } else {
      WholeOperand(a, x);
      assert Get(env, x) == Get(regs, x);
      WholeRead(Get(env, x), I.WidthOf(a, x));
    }
  }

  /** An operand reads the same and is as wide. */
  lemma ReadsAgree(a: EsilArch, env: Env, regs: Env, x: Name)
    requires LawfulEsil(a) && FlagsApart(a) && Holds(a, env, regs) && !x.Temp?
    ensures var r := OperandRef(a, x); ReadNum(r, Val(env, r.variable)) == I.Look(a, regs, x) && RegBits(r) == I.WidthOf(a, x)
  {
    hide *;
    if I.FlagOf(x).Some? { FlagRead(a, env, regs, x); } else { RegisterRead(a, env, regs, x); }
  }

  // ---- Writing ----

  lemma FlagsAfter(a: EsilArch, env: Env, regs: Env, flag: Name, cell: Name, v: nat)
    requires SameFlags(a, env, regs) && Pairs(flag, cell)
    ensures SameFlags(a, env[flag := if flag == Plain("CF") && a.complement then Turned(v) else v], regs[cell := v])
  {
    Spelled();
    hide Turned;
  }

  lemma HoldsFlag(a: EsilArch, env: Env, regs: Env, flag: Name, cell: Name, v: nat)
    requires Holds(a, env, regs) && Pairs(flag, cell)
    ensures Holds(a, env[flag := if flag == Plain("CF") && a.complement then Turned(v) else v], regs[cell := v])
  {
    FlagsAfter(a, env, regs, flag, cell, v);
    hide Turned, SameFlags, Pairs, I.FlagOf;
    var env', regs' := env[flag := if flag == Plain("CF") && a.complement then Turned(v) else v], regs[cell := v];
    forall x: Name | !x.Temp? && I.FlagOf(x).None? ensures Get(env', x) == Get(regs', x) {
      assert Get(env, x) == Get(regs, x);
      NoFlag(x);
      assert !Pairs(x, cell) && !Pairs(flag, x);
    }
  }

  lemma HoldsRegister(a: EsilArch, env: Env, regs: Env, x: Name, v: nat)
    requires Holds(a, env, regs) && I.FlagOf(x).None?
    ensures Holds(a, env[x := v], regs[x := v])
  {
    assert SameFlags(a, env[x := v], regs[x := v]);
    hide I.FlagOf, SameFlags;
    forall y: Name | !y.Temp? && I.FlagOf(y).None? ensures Get(env[x := v], y) == Get(regs[x := v], y) {
      assert Get(env, y) == Get(regs, y);
    }
  }

  lemma PutNumbers(p: nat, low: nat, slice: nat, high: nat, v: nat)
    requires low > 0 && slice > 0 && high > 0 && low * slice > 0 && p / (low * slice) < high
    ensures p / (low * slice) % high * (low * slice) + (v * low + p % low) == p - p / low % slice * low + v * low
  {
    DivModDiv(p, low, slice);
    var q, r := p / low, p % low;
    DivNat(p, low);
    var q', r' := q / slice, q % slice;
    DivNat(q, slice);
    SmallMod(q', high);
    assert q * low == q' * slice * low + r' * low by { assert q == q' * slice + r'; }
    assert q' * (low * slice) == q' * slice * low;
    assert p == q * low + r;
  }

  lemma PutIsReplaced(p: nat, lo: nat, hi: nat, bits: nat, v: nat)
    requires lo <= hi < bits && p < Pow2(bits)
    ensures Put(p, lo, hi, bits, v) == I.Replaced(p, lo, hi - lo + 1, v)
  {
    Pow2Add(lo, hi - lo + 1);
    Pow2Add(hi + 1, bits - hi - 1);
    hide Pow2;
    var low, slice, high := Pow2(lo), Pow2(hi - lo + 1), Pow2(bits - hi - 1);
    QuotientBelow(p, low * slice, high);
    PutNumbers(p, low, slice, high, v);
  }

  lemma QuotientBelow(p: nat, d: nat, n: nat)
    requires d > 0 && p < d * n
    ensures 0 <= p / d < n
  {
    DivNat(p, d);
    assert p == p / d * d + p % d;
    if p / d >= n { MulFar(p / d - n + 1, d); }
  }

  lemma FlagWrite(a: EsilArch, env: Env, regs: Env, x: Name, v: nat)
    requires FlagsApart(a) && Holds(a, env, regs) && I.FlagOf(x).Some?
    ensures var r := OperandRef(a, x); Holds(a, env[r.variable.name := WriteNum(r, Val(env, r.variable), v)], I.Put(a, regs, x, v))
  {
    FlagRef(a, x);
    FlagIs(x);
    TurnedIsFlip(v);
    hide I.FlagOf, Canonical, Slice, Cut, Pow2, OperandRef, Holds;
    HoldsFlag(a, env, regs, Canonical(x), I.FlagOf(x).value, v);
  }

  lemma RegisterWrite(a: EsilArch, env: Env, regs: Env, x: Name, v: nat)
    requires LawfulEsil(a) && FlagsApart(a) && Holds(a, env, regs) && I.FlagOf(x).None? && !x.Temp?
    ensures var r := OperandRef(a, x); Holds(a, env[r.variable.name := WriteNum(r, Val(env, r.variable), v)], I.Put(a, regs, x, v))
  {
    hide I.FlagOf, Slice, Pow2, OperandRef, LawfulEsil, FlagsApart, Put, I.Replaced;
    if I.IsPart(a, x) {
      var l, ptr := a.arch.layouts[x], a.arch.ptr;
      PartOperand(a, x);
      assert Get(env, l.parent) == Get(regs, l.parent);
      hide Holds;
      SliceBelow(Get(env, l.parent), 0, ptr);
      PutIsReplaced(Cut(Get(env, l.parent), ptr), l.lo, l.hi, ptr, v);
      HoldsRegister(a, env, regs, l.parent, WriteNum(OperandRef(a, x), Val(env, OperandRef(a, x).variable), v));
    } else {
      hide Holds;
      WholeOperand(a, x);
      HoldsRegister(a, env, regs, x, v);
    }
  }

  /** Writing through an operand keeps the two register files alike. */
  lemma WritesAgree(a: EsilArch, env: Env, regs: Env, x: Name, v: nat)
    requires LawfulEsil(a) && FlagsApart(a) && Holds(a, env, regs) && !x.Temp?
    ensures var r := OperandRef(a, x); Holds(a, env[r.variable.name := WriteNum(r, Val(env, r.variable), v)], I.Put(a, regs, x, v))
  {
    hide *;
    if I.FlagOf(x).Some? { FlagWrite(a, env, regs, x, v); } else { RegisterWrite(a, env, regs, x, v); }
  }

  /** The zero registers are the same. */
  lemma ZeroAgrees(a: EsilArch, x: Name)
    requires FlagsApart(a)
    ensures OperandRef(a, x).zero == I.ReadsZero(a, x)
  {
    if I.FlagOf(x).Some? { FlagRef(a, x); } else { RegisterOperand(a, x); }
    hide I.FlagOf, OperandRef;
  }
}
