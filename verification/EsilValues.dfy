/** What the ESIL machine's expressions compute, against the interpreter's numbers. */
module EsilValues {
  import opened Bits
  import opened Common
  import opened Ir
  import opened SsaForm
  import opened Layouts
  import opened RegView
  import opened Flags
  import opened EsilMachine
  import opened EsilTyping
  import opened EsilExec
  import opened EsilFresh
  import opened EsilNumbers
  import opened EsilResolved
  import Simplify
  import SimplifyProof

  /** Equal on everything but temporaries. */
  ghost predicate SameRegs(env: Env, env': Env) {
    forall x: Name {:trigger Get(env, x)} :: !x.Temp? ==> Get(env, x) == Get(env', x)
  }

  /** A stack value of the machine stands for an entry of the interpreter. */
  ghost predicate Stands(v: StackValue, e: Entry, env: Env, sem: Sem) {
    match v
    case InRegister(r) =>
      if r.variable.name.Temp? then
        r == WholeRef(r.variable) && Get(env, r.variable.name) < Pow2(r.variable.bits)
        && e == Known(Get(env, r.variable.name), RegBits(r), false)
      else e == Lazy(r)
    case Computed(x, bits) => e == Known(Eval(x, env, sem, 0), bits, x.Const?)
  }

  ghost predicate StackStands(vs: seq<StackValue>, es: seq<Entry>, env: Env, sem: Sem) {
    |vs| == |es| && forall i :: 0 <= i < |vs| ==> Stands(vs[i], es[i], env, sem)
  }

  lemma StrictBound(e: Expr, env: Env, sem: Sem, k: nat)
    requires Strict(e)
    ensures Eval(e, env, sem, k) < Pow2(Width(e))
  {
    hide Eval, Width, Pow2;
    StrictIsSorted(e);
    Simplify.EvalInVals(e, env, sem, k);
    SimplifyProof.ValsBounded(e, env, sem.fp, Eval(e, env, sem, k));
  }

  /** Both sides agree on a value, its width and whether it is a bare literal. */
  ghost predicate Agrees(v: StackValue, e: Entry, env: Env, ienv: Env, sem: Sem) {
    && Eval(ValueExpr(v), env, sem, 0) == EntryValue(e, ienv) && EntryValue(e, ienv) < Pow2(ValueBits(v))
    && EntryBits(e) == ValueBits(v) && EntryArchBits(e) == ArchitecturalBits(v)
    && Width(ValueExpr(v)) == ValueBits(v) && Count(ValueExpr(v)) == 0 && 0 < ValueBits(v) <= U16
  }

  lemma StandsAgrees(a: EsilArch, v: StackValue, e: Entry, env: Env, ienv: Env, sem: Sem)
    requires ValueTyped(a, v) && Stands(v, e, env, sem) && SameRegs(env, ienv)
    ensures Agrees(v, e, env, ienv, sem)
  {
    hide IsRegister, SameRegs, Pow2;
    match v
    case InRegister(r) =>
      ReadValue(r, env, sem, 0);
      ReadBound(r, Val(env, r.variable));
      if r.variable.name.Temp? { TempReads(r, env); }
      else { SameVal(r.variable, env, ienv); }
    case Computed(x, bits) =>
      StrictBound(x, env, sem, 0);
      StrictIsQuiet(x);
  }

  lemma SameVal(v: Var, env: Env, ienv: Env)
    requires SameRegs(env, ienv) && !v.name.Temp?
    ensures Val(env, v) == Val(ienv, v)
  {
    assert Get(env, v.name) == Get(ienv, v.name);
  }

  /** A loaded temporary reads back whole. */
  lemma TempReads(r: RegRef, env: Env)
    requires ValidRef(r) && r == WholeRef(r.variable) && Get(env, r.variable.name) < Pow2(r.variable.bits)
    ensures ReadNum(r, Val(env, r.variable)) == Get(env, r.variable.name)
  {
    hide Pow2, Slice;
    SmallMod(Get(env, r.variable.name), Pow2(r.variable.bits));
    SliceWhole(Get(env, r.variable.name), r.variable.bits);
  }

  // ---- Widening ----

  lemma WidenAgrees(v: StackValue, e: Entry, env: Env, ienv: Env, sem: Sem, to: nat)
    requires Agrees(v, e, env, ienv, sem) && 0 < to
    ensures
      var x := Widen(v, to);
      && Eval(x, env, sem, 0) == FitNum(EntryValue(e, ienv), EntryBits(e), to) && Eval(x, env, sem, 0) < Pow2(to)
      && Width(x) == to && Count(x) == 0
  {
    var n, from := EntryValue(e, ienv), ValueBits(v);
    hide Pow2, Eval, Width, Count, ValueExpr, EntryValue, EntryBits, EntryArchBits, ArchitecturalBits, Coerce;
    CoerceValue(ValueExpr(v), to, env, sem, 0);
    WrapBound(n, to);
    if to >= from { CutSmall(n, from, to); }
  }

  lemma SignedWide(x: nat, w: nat, n: nat)
    requires 0 < w <= n && x < Pow2(w)
    ensures ToSigned(Wrap(ToSigned(x, w), n), n) == ToSigned(x, w)
  {
    Pow2Mono(w - 1, n - 1);
    Pow2Mono(w, n);
    assert Pow2(w) == 2 * Pow2(w - 1) && Pow2(n) == 2 * Pow2(n - 1);
    hide Pow2;
    var s := ToSigned(x, w);
    if s >= 0 {
      SmallMod(s, Pow2(n));
    } else {
      DivModUnique(s, Pow2(n), -1, s + Pow2(n));
    }
  }

  lemma WidenSignedAgrees(v: StackValue, e: Entry, env: Env, ienv: Env, sem: Sem, to: nat)
    requires Agrees(v, e, env, ienv, sem) && ValueBits(v) <= to
    ensures
      var x := WidenSigned(v, to);
      ToSigned(Eval(x, env, sem, 0), to) == ToSigned(EntryValue(e, ienv), EntryBits(e)) && Width(x) == to && Count(x) == 0
  {
    var n, from := EntryValue(e, ienv), ValueBits(v);
    if from < to { SignExtendEval(ValueExpr(v), to, env, sem); }
    hide Pow2, ToSigned, Eval, Width, Count, ValueExpr, EntryValue, EntryArchBits, ArchitecturalBits, Wrap;
    SignedWide(n, from, to);
  }

  lemma SignExtendEval(e: Expr, to: nat, env: Env, sem: Sem)
    ensures Eval(Un(SignExtend(to), e), env, sem, 0) == Wrap(ToSigned(Eval(e, env, sem, 0), Width(e)), to)
    ensures Width(Un(SignExtend(to), e)) == to && Count(Un(SignExtend(to), e)) == Count(e)
  {
    hide Wrap, ToSigned;
  }

  // ---- Arithmetic ----

  lemma BinEval(op: BinOp, x: Expr, y: Expr, w: nat, env: Env, sem: Sem)
    requires Width(x) == w && Width(y) == w && Count(x) == 0
    ensures Eval(Bin(op, x, y), env, sem, 0) == BinValue(op, w, w, Eval(x, env, sem, 0), Eval(y, env, sem, 0), sem.fp)
  {
    hide BinValue;
  }

  lemma PlainOp(op: EsilOp, x: nat, xb: nat, y: nat, yb: nat, fp: FpModel)
    requires !IsCompare(op)
    ensures
      var bits := Max(xb, yb);
      var bop := match op
        case Plus => Add case Minus => Sub case Times => Mul case Divide => UDiv case Modulo => URem
        case BAnd => And case BOr => Or case BXor => Xor case ShiftL => Shl case _ => LShr;
      BinValue(bop, bits, bits, x, y, fp) == ArithNum(op, x, xb, y, yb)
  {
    hide Pow2, BitAnd, BitOr, BitXor, ToSigned;
  }

  lemma FitUp(v: nat, from: nat, to: nat)
    requires from <= to
    ensures FitNum(v, from, to) == v
  {
  }

  lemma ArithAgrees(op: EsilOp, l: StackValue, r: StackValue, le: Entry, re: Entry, env: Env, ienv: Env, sem: Sem)
    requires Agrees(l, le, env, ienv, sem) && Agrees(r, re, env, ienv, sem)
    ensures Eval(ArithExpr(op, l, r), env, sem, 0) ==
      ArithNum(op, EntryValue(le, ienv), EntryBits(le), EntryValue(re, ienv), EntryBits(re))
  {
    hide Eval, Width, Count, Widen, WidenSigned, ToSigned, EntryValue, EntryBits, ValueBits, FitNum, Pow2;
    var bits := Max(ValueBits(l), ValueBits(r));
    var x, y, xb, yb := EntryValue(le, ienv), EntryValue(re, ienv), EntryBits(le), EntryBits(re);
    WidenAgrees(l, le, env, ienv, sem, bits);
    WidenAgrees(r, re, env, ienv, sem, bits);
    WidenSignedAgrees(l, le, env, ienv, sem, bits);
    WidenSignedAgrees(r, re, env, ienv, sem, bits);
    FitUp(x, xb, bits);
    FitUp(y, yb, bits);
    if IsCompare(op) {
      hide Agrees;
      CompareAgrees(op, WidenSigned(l, bits), WidenSigned(r, bits), bits, x, xb, y, yb, env, sem);
    } else {
      hide Agrees, ArithNum, BinValue;
      BinEval(ArithExpr(op, l, r).op, Widen(l, bits), Widen(r, bits), bits, env, sem);
      PlainOp(op, x, xb, y, yb, sem.fp);
    }
  }

  lemma CompareAgrees(op: EsilOp, l: Expr, r: Expr, bits: nat, x: nat, xb: nat, y: nat, yb: nat, env: Env, sem: Sem)
    requires IsCompare(op) && Width(l) == bits && Width(r) == bits && Count(l) == 0 && Count(r) == 0
    requires ToSigned(Eval(l, env, sem, 0), bits) == ToSigned(x, xb) && ToSigned(Eval(r, env, sem, 0), bits) == ToSigned(y, yb)
    ensures
      var e := match op
        case Less => Bin(Slt, l, r) case LessEq => Bin(Sle, l, r) case Greater => Bin(Slt, r, l) case _ => Bin(Sle, r, l);
      Eval(e, env, sem, 0) == ArithNum(op, x, xb, y, yb)
  {
    hide Eval, Width, Count, ToSigned, Pow2;
    match op
    case Less => BinEval(Slt, l, r, bits, env, sem);
    case LessEq => BinEval(Sle, l, r, bits, env, sem);
    case Greater => BinEval(Slt, r, l, bits, env, sem);
    case _ => BinEval(Sle, r, l, bits, env, sem);
  }

  lemma IsZeroAgrees(x: Expr, bits: nat, env: Env, sem: Sem)
    requires Count(x) == 0 && Width(x) == bits
    ensures Eval(Bin(Eq, x, Const(0, bits)), env, sem, 0) == Bit(Eval(x, env, sem, 0) == 0)
    ensures Count(Bin(Eq, x, Const(0, bits))) == 0
  {
    assert Cut(0, bits) == 0;
    hide Pow2, Cut;
    assert Eval(Const(0, bits), env, sem, 0) == 0;
  }

  lemma NotAgrees(v: StackValue, e: Entry, env: Env, ienv: Env, sem: Sem)
    requires Agrees(v, e, env, ienv, sem)
    ensures Eval(AsBit(Bin(Eq, ValueExpr(v), Const(0, ValueBits(v)))), env, sem, 0) == Bit(EntryValue(e, ienv) == 0)
  {
    hide Eval, Width, Count, ValueExpr, AsBit, EntryValue, EntryArchBits, ArchitecturalBits;
    IsZeroAgrees(ValueExpr(v), ValueBits(v), env, sem);
    AsBitValue(Bin(Eq, ValueExpr(v), Const(0, ValueBits(v))), env, sem, 0);
  }

  /** A block's guard holds exactly when the condition was nonzero. */
  lemma ToBitAgrees(v: StackValue, e: Entry, env: Env, ienv: Env, sem: Sem)
    requires Agrees(v, e, env, ienv, sem)
    ensures Eval(ToBit(v), env, sem, 0) != 0 <==> EntryValue(e, ienv) != 0
  {
    if ValueBits(v) != 1 {
      var z := Bin(Eq, ValueExpr(v), Const(0, ValueBits(v)));
      assert Eval(Const(0, 1), env, sem, 0) == 0 && Eval(Const(1, 1), env, sem, 0) == 1 by { assert Pow2(1) == 2; }
      IsZeroAgrees(ValueExpr(v), ValueBits(v), env, sem);
      hide Eval, Width, ValueExpr, EntryValue, EntryArchBits, ArchitecturalBits, Pow2;
      ChooseBit(z, env, sem);
    }
  }

  lemma ChooseBit(z: Expr, env: Env, sem: Sem)
    requires Count(z) == 0
    ensures Eval(Ite(z, Const(0, 1), Const(1, 1)), env, sem, 0) == Bit(Eval(z, env, sem, 0) == 0)
  {
    assert Pow2(1) == 2;
    hide Pow2;
    assert Eval(Const(0, 1), env, sem, 0) == 0 && Eval(Const(1, 1), env, sem, 0) == 1;
  }

  // ---- Assignment ----

  lemma AssignedAgrees(r: RegRef, value: Expr, compound: Option<EsilOp>, x: nat, env: Env, sem: Sem)
    requires ValidRef(r) && AssignedExpr(r, value, compound).Some? && Typed(value, RegBits(r)) && Eval(value, env, sem, 0) == x
    ensures
      var e, was := AssignedExpr(r, value, compound).value, ReadNum(r, Val(env, r.variable));
      Eval(e, env, sem, 0) == (if compound.None? then x else CompoundNum(compound.value, was, x, RegBits(r)))
  {
    ReadValue(r, env, sem, 0);
    hide Typed, ReadExpr, ReadNum, ArithNum, BinValue, Val, Eval, ValidRef;
    if compound.Some? {
      assert Width(value) == RegBits(r) by { WidthOf(value, RegBits(r)); }
      hide Width, Count;
      BinEval(CompoundOp(compound.value).value, ReadExpr(r), value, RegBits(r), env, sem);
      PlainOp(compound.value, ReadNum(r, Val(env, r.variable)), RegBits(r), x, RegBits(r), sem.fp);
    }
  }

  lemma WidthOf(e: Expr, w: nat)
    requires Typed(e, w)
    ensures Width(e) == w && Count(e) == 0
  {
    StrictIsQuiet(e);
  }

  lemma NegatedAgrees(r: RegRef, env: Env, sem: Sem)
    requires ValidRef(r)
    ensures Eval(NegatedExpr(r), env, sem, 0) == Bit(ReadNum(r, Val(env, r.variable)) == 0)
  {
    ReadValue(r, env, sem, 0);
    hide ReadExpr, ReadNum, Val;
    var z, w := Bin(Eq, ReadExpr(r), Const(0, RegBits(r))), RegBits(r);
    IsZeroAgrees(ReadExpr(r), w, env, sem);
    OneFits(w);
    assert Eval(Const(1, w), env, sem, 0) == 1 && Eval(Const(0, w), env, sem, 0) == 0;
    hide Pow2, Width;
    ChooseOne(z, w, env, sem);
  }

  lemma ChooseOne(z: Expr, w: nat, env: Env, sem: Sem)
    requires Count(z) == 0 && Eval(Const(1, w), env, sem, 0) == 1 && Eval(Const(0, w), env, sem, 0) == 0
    ensures Eval(Ite(z, Const(1, w), Const(0, w)), env, sem, 0) == Bit(Eval(z, env, sem, 0) != 0)
  {
    hide Pow2;
  }

  // ---- Flags ----

  lemma FlagAgrees(suffix: string, c: FlagCtx, n: nat, was: nat, cur: nat, env: Env, sem: Sem)
    requires CtxHolds(c, was, cur, env, sem, 0) && c.bits > 0 && FlagExpr(suffix, c, n).Some?
    ensures FlagNum(suffix, Ctx(was, cur, c.bits), n) == Some(Eval(FlagExpr(suffix, c, n).value, env, sem, 0))
  {
    hide CtxHolds, CarryFlag, BorrowFlag, OverflowFlag, ParityFlag, Eval, CarryNum, BorrowNum, OverflowNum, BitAt, Ones8, ZeroFlag;
    if suffix == "z" { ZeroValue(c, was, cur, env, sem, 0); }
    else if suffix == "p" { ParityIsNumber(c, was, cur, env, sem); }
    else if suffix == "s" { SignIsNumber(c, n, was, cur, env, sem); }
    else if suffix == "o" { OverflowIsNumber(c, n, was, cur, env, sem); }
    else { CarryIsNumber(c, n, was, cur, env, sem); }
  }

  lemma ParityIsNumber(c: FlagCtx, was: nat, cur: nat, env: Env, sem: Sem)
    requires CtxHolds(c, was, cur, env, sem, 0) && c.bits > 0
    ensures ParityFlag(c).Some?
    ensures Eval(ParityFlag(c).value, env, sem, 0) == Bit(Ones8(cur, Min(8, c.bits)) % 2 == 0)
  {
    hide CtxHolds, Eval, Ones8;
    ParityValue(c, was, cur, env, sem, 0);
  }

  lemma SignIsNumber(c: FlagCtx, n: nat, was: nat, cur: nat, env: Env, sem: Sem)
    requires CtxHolds(c, was, cur, env, sem, 0) && SignFlag(c, n).Some?
    ensures n < c.bits && Eval(SignFlag(c, n).value, env, sem, 0) == BitAt(cur, n)
  {
    BitExtract(c.cur, n, env, sem, 0);
    hide BitAt, Eval;
  }

  lemma CarryIsNumber(c: FlagCtx, n: nat, was: nat, cur: nat, env: Env, sem: Sem)
    requires CtxHolds(c, was, cur, env, sem, 0)
    ensures CarryFlag(c, n).Some? <==> 0 < c.bits <= 128 && n < U16
    ensures BorrowFlag(c, n).Some? <==> CarryFlag(c, n).Some?
    ensures CarryFlag(c, n).Some? ==>
      Eval(CarryFlag(c, n).value, env, sem, 0) == CarryNum(was, cur, n, c.bits)
      && Eval(BorrowFlag(c, n).value, env, sem, 0) == BorrowNum(was, cur, n, c.bits)
  {
    if CarryFlag(c, n).Some? { CarryValue(c, n, was, cur, env, sem, 0); }
    hide CtxHolds, Eval, CarryNum, BorrowNum, AsBit;
  }

  lemma OverflowIsNumber(c: FlagCtx, n: nat, was: nat, cur: nat, env: Env, sem: Sem)
    requires CtxHolds(c, was, cur, env, sem, 0) && OverflowFlag(c, n).Some?
    ensures 0 < c.bits <= 128 && 0 < n < U16 && Eval(OverflowFlag(c, n).value, env, sem, 0) == OverflowNum(was, cur, n, c.bits)
  {
    OverflowValue(c, n, was, cur, env, sem, 0);
    CarryIsNumber(c, n, was, cur, env, sem);
    hide CtxHolds, Eval, CarryFlag, OverflowNum;
  }

  /** `$z`, `$p` and `$s` do not look at the old value. */
  lemma FlagIgnoresWas(suffix: string, c: FlagCtx, was: nat, cur: nat, n: nat)
    requires !NeedsWas(suffix)
    ensures FlagExpr(suffix, c, n) == FlagExpr(suffix, c.(was := c.cur), n)
    ensures FlagNum(suffix, Ctx(was, cur, c.bits), n) == FlagNum(suffix, Ctx(cur, cur, c.bits), n)
  {
    hide XorBits, Ones8, BitAt, AsBit;
  }

  // ---- Entries survive what they do not read ----

  lemma StandsUpdate(v: StackValue, e: Entry, env: Env, x: Name, n: nat, sem: Sem)
    requires Stands(v, e, env, sem) && (if v.Computed? then x !in Reads(v.expr) else !v.r.variable.name.Temp? || v.r.variable.name != x)
    ensures Stands(v, e, env[x := n], sem)
  {
    hide Pow2, Reads, Eval;
    if v.Computed? { EvalFrame(v.expr, env, env[x := n], sem, 0); }
  }

  lemma StandsSame(v: StackValue, e: Entry, env: Env, env': Env, len: nat, sem: Sem)
    requires Stands(v, e, env, sem) && SameUpTo(len, env, env') && NoneAbove(ValueNames(v), len)
    ensures Stands(v, e, env', sem)
  {
    hide Pow2, Reads, Eval;
    if v.Computed? {
      forall x | x in Reads(v.expr) ensures Get(env, x) == Get(env', x) { }
      EvalFrame(v.expr, env, env', sem, 0);
    } else if v.r.variable.name.Temp? {
      assert v.r.variable.name in ValueNames(v);
      assert Get(env, v.r.variable.name) == Get(env', v.r.variable.name);
    }
  }
}
