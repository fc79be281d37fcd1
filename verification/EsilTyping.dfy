/** Everything the ESIL machine builds is well sorted. */
module EsilTyping {
  import opened Bits
  import opened Common
  import opened Ir
  import opened Layouts
  import opened RegView
  import opened Flags
  import opened EsilMachine
  import Simplify

  // ---- Strictly sorted expressions ----

  predicate Balanced(op: BinOp) {
    IsArith(op) || op.Eq? || op.Ne? || op.Ult? || op.Ule? || op.Slt? || op.Sle?
  }

  predicate StrictUn(op: UnOp, w: nat) {
    match op
    case Extract(hi, lo) => lo <= hi < w && hi < U16
    case ZeroExtend(n) => n >= w
    case SignExtend(n) => n >= w
    case _ => false
  }

  /** Every operand at its operator's width, no unknown, no floating point. */
  predicate Strict(e: Expr) {
    match e
    case Ref(v) => v.bits > 0
    case Const(value, bits) => bits > 0 && value < Pow2(128) && (bits == 1 ==> value < 2)
    case FpConst(_, _, _) => false
    case Unknown(_) => false
    case Un(op, a) => Strict(a) && StrictUn(op, Width(a))
    case Bin(op, a, b) => Strict(a) && Strict(b) && (op.Concat? || (Balanced(op) && Width(a) == Width(b)))
    case Ite(c, t, f) => Strict(c) && Strict(t) && Strict(f) && Width(c) == 1 && Width(t) == Width(f)
  }

  predicate Typed(e: Expr, bits: nat) {
    Strict(e) && Width(e) == bits && bits > 0
  }

  lemma TypedRef(v: Var)
    requires v.bits > 0
    ensures Typed(Ref(v), v.bits)
  {
  }

  lemma TypedConst(value: nat, bits: nat)
    requires bits > 0 && value < Pow2(128) && (bits == 1 ==> value < 2)
    ensures Typed(Const(value, bits), bits)
  {
    hide Pow2;
  }

  lemma TypedSmall(value: nat, bits: nat)
    requires bits > 0 && value < 2
    ensures Typed(Const(value, bits), bits)
  {
    Pow2Mono(1, 128);
    assert Pow2(1) == 2;
    hide Pow2;
  }

  lemma TypedSlice(e: Expr, w: nat, hi: nat, lo: nat)
    requires Typed(e, w) && lo <= hi < w && hi < U16
    ensures Typed(Un(Extract(hi, lo), e), hi - lo + 1)
  {
    hide Pow2;
  }

  lemma TypedExtend(op: UnOp, e: Expr, w: nat)
    requires Typed(e, w) && (op.ZeroExtend? || op.SignExtend?) && op.toBits >= w
    ensures Typed(Un(op, e), op.toBits)
  {
    hide Pow2;
  }

  lemma TypedArith(op: BinOp, x: Expr, y: Expr, w: nat)
    requires Typed(x, w) && Typed(y, w) && IsArith(op)
    ensures Typed(Bin(op, x, y), w)
  {
    hide Pow2;
  }

  lemma TypedCompare(op: BinOp, x: Expr, y: Expr, w: nat)
    requires Typed(x, w) && Typed(y, w) && Balanced(op) && !IsArith(op)
    ensures Typed(Bin(op, x, y), 1)
  {
    hide Pow2;
  }

  lemma TypedConcat(x: Expr, v: nat, y: Expr, w: nat)
    requires Typed(x, v) && Typed(y, w)
    ensures Typed(Bin(Concat, x, y), v + w)
  {
    hide Pow2;
  }

  lemma TypedIte(c: Expr, x: Expr, y: Expr, w: nat)
    requires Typed(c, 1) && Typed(x, w) && Typed(y, w)
    ensures Typed(Ite(c, x, y), w)
  {
    hide Pow2;
  }

  /** So the simplifier's theorems apply to everything the machine emits. */
  lemma {:induction false} StrictIsSorted(e: Expr)
    requires Strict(e)
    ensures Simplify.Sorted(e)
    decreases e
  {
    hide Pow2;
    match e
    case Ref(_) =>
    case Const(_, _) =>
    case Un(_, a) => StrictIsSorted(a);
    case Bin(_, a, b) => StrictIsSorted(a); StrictIsSorted(b);
    case Ite(c, t, f) => StrictIsSorted(c); StrictIsSorted(t); StrictIsSorted(f);
  }

  lemma {:induction false} StrictIsQuiet(e: Expr)
    requires Strict(e)
    ensures Count(e) == 0
    decreases e
  {
    hide Pow2, Width;
    match e
    case Ref(_) =>
    case Const(_, _) =>
    case Un(_, a) => StrictIsQuiet(a);
    case Bin(_, a, b) => StrictIsQuiet(a); StrictIsQuiet(b);
    case Ite(c, t, f) => StrictIsQuiet(c); StrictIsQuiet(t); StrictIsQuiet(f);
  }

  // ---- Register tables and machines ----

  /** Variables keep one width, and every view is a proper slice. */
  ghost predicate LawfulEsil(a: EsilArch) {
    && 16 <= a.arch.ptr <= 128
    && (forall x {:trigger Placed(a, x)} :: Placed(a, x) ==>
      var l := a.arch.layouts[x]; l.lo <= l.hi && (l.zeroExtends ==> l.lo == 0) && !l.parent.Temp?)
    && (forall x :: x in a.widths ==> 0 < a.widths[x] <= U16)
    && (forall x, y {:trigger RegisterRef(a, x), RegisterRef(a, y)} ::
      RegisterRef(a, x).variable.name == RegisterRef(a, y).variable.name ==> RegisterRef(a, x).variable == RegisterRef(a, y).variable)
  }

  /** A variable some register name lives in. */
  ghost predicate IsRegister(a: EsilArch, v: Var) {
    !v.name.Temp? && exists x {:trigger RegisterRef(a, x)} :: RegisterRef(a, x).variable == v
  }

  ghost predicate RefTyped(a: EsilArch, r: RegRef) {
    ValidRef(r) && if r.variable.name.Temp? then r == WholeRef(r.variable) else IsRegister(a, r.variable)
  }

  ghost predicate ValueTyped(a: EsilArch, v: StackValue) {
    match v
    case InRegister(r) => RefTyped(a, r)
    case Computed(e, bits) => Typed(e, bits) && bits <= U16 && (e.Const? ==> bits >= 16)
  }

  ghost predicate StmtTyped(a: EsilArch, s: Stmt) {
    match s
    case Assign(dst, src) => Typed(src, dst.bits) && (dst.name.Temp? || IsRegister(a, dst))
    case LoadMem(dst, address, bits) => Strict(address) && dst.name.Temp? && dst.bits == bits && bits > 0
    case StoreMem(address, value, bits) => Strict(address) && Typed(value, bits)
    case Unsupported => true
    case Nop => true
  }

  predicate HalfTyped(h: Option<(Var, Expr)>) {
    h.Some? ==> h.value.0.name.Temp? && Typed(h.value.1, h.value.0.bits)
  }

  ghost predicate AllValuesTyped(a: EsilArch, vs: seq<StackValue>) {
    forall i :: 0 <= i < |vs| ==> ValueTyped(a, vs[i])
  }

  ghost predicate AllStmtsTyped(a: EsilArch, ss: seq<Stmt>) {
    forall i :: 0 <= i < |ss| ==> StmtTyped(a, ss[i])
  }

  predicate BlocksTyped(bs: seq<Block>) {
    forall i :: 0 <= i < |bs| ==> Typed(bs[i].cond, 1)
  }

  predicate CtxTyped(c: FlagCtx) {
    Typed(c.was, c.bits) && Typed(c.cur, c.bits) && c.bits <= U16
  }

  ghost predicate MachineTyped(a: EsilArch, m: Machine) {
    && AllValuesTyped(a, m.stack) && AllStmtsTyped(a, m.statements) && BlocksTyped(m.blocks)
    && (m.ctx.Some? ==> CtxTyped(m.ctx.value))
    && (m.pending.Some? ==> HalfTyped(m.pending.value.was) && HalfTyped(m.pending.value.cur))
  }

  // ---- Operands ----

  lemma OperandTyped(a: EsilArch, x: Name)
    requires LawfulEsil(a) && !x.Temp?
    ensures RefTyped(a, OperandRef(a, x)) && IsRegister(a, OperandRef(a, x).variable)
  {
    var name := Canonical(x);
    assert RegisterRef(a, name).variable == OperandRef(a, x).variable;
  }

  lemma ReadTyped(r: RegRef)
    requires ValidRef(r)
    ensures Typed(ReadExpr(r), RegBits(r))
  {
    hide Typed;
    TypedRef(r.variable);
    TypedSlice(Ref(r.variable), r.variable.bits, r.hi, r.lo);
    TypedSmall(0, RegBits(r));
    TypedSmall(1, RegBits(r));
    var value := if CoversWhole(r) then Ref(r.variable) else Un(Extract(r.hi, r.lo), Ref(r.variable));
    TypedArith(Xor, value, Const(1, RegBits(r)), RegBits(r));
  }

  lemma ValueExprTyped(a: EsilArch, v: StackValue)
    requires ValueTyped(a, v)
    ensures Typed(ValueExpr(v), ValueBits(v))
  {
    if v.InRegister? { ReadTyped(v.r); }
  }

  lemma TypedWidth(e: Expr, w: nat)
    requires Typed(e, w)
    ensures w > 0
  {
  }

  lemma CoerceTyped(e: Expr, from: nat, to: nat)
    requires Typed(e, from) && 0 < to <= U16
    ensures Typed(Coerce(e, from, to), to)
  {
    TypedWidth(e, from);
    hide Typed;
    if to < from { TypedSlice(e, from, to - 1, 0); }
    if to > from { TypedExtend(ZeroExtend(to), e, from); }
  }

  lemma RebuildTyped(v: Var, lo: nat, hi: nat, value: Expr)
    requires lo <= hi < v.bits <= U16 && Typed(value, hi - lo + 1)
    ensures Typed(Rebuild(v, lo, hi, value), v.bits)
  {
    hide Typed;
    TypedRef(v);
    var low := if lo > 0 then Bin(Concat, value, Un(Extract(SaturatingSub(lo, 1), 0), Ref(v))) else value;
    if lo > 0 {
      TypedSlice(Ref(v), v.bits, lo - 1, 0);
      TypedConcat(value, hi - lo + 1, Un(Extract(lo - 1, 0), Ref(v)), lo);
    }
    if hi + 1 < v.bits {
      TypedSlice(Ref(v), v.bits, v.bits - 1, hi + 1);
      TypedConcat(Un(Extract(v.bits - 1, hi + 1), Ref(v)), v.bits - hi - 1, low, hi + 1);
    }
  }

  lemma WriteTyped(r: RegRef, value: Expr)
    requires ValidRef(r) && Typed(value, RegBits(r))
    ensures Typed(WriteExpr(r, value), r.variable.bits)
  {
    hide Typed, Rebuild;
    TypedSmall(1, RegBits(r));
    TypedArith(Xor, value, Const(1, RegBits(r)), RegBits(r));
    var stored := if r.invert then Bin(Xor, value, Const(1, RegBits(r))) else value;
    if !CoversWhole(r) {
      if r.zeroExtends { TypedExtend(ZeroExtend(r.variable.bits), stored, RegBits(r)); }
      else { RebuildTyped(r.variable, r.lo, r.hi, stored); }
    }
  }

  lemma BoundedBits(a: EsilArch, v: StackValue)
    requires ValueTyped(a, v)
    ensures 0 < ValueBits(v) <= U16
  {
  }

  lemma WidenTyped(a: EsilArch, v: StackValue, to: nat)
    requires ValueTyped(a, v) && 0 < to <= U16
    ensures Typed(Widen(v, to), to)
  {
    ValueExprTyped(a, v);
    hide Typed, ValueTyped, Coerce;
    CoerceTyped(ValueExpr(v), ValueBits(v), to);
  }

  lemma WidenSignedTyped(a: EsilArch, v: StackValue, to: nat)
    requires ValueTyped(a, v) && ValueBits(v) <= to
    ensures Typed(WidenSigned(v, to), to)
  {
    ValueExprTyped(a, v);
    hide Typed, ValueTyped;
    if ValueBits(v) < to { TypedExtend(SignExtend(to), ValueExpr(v), ValueBits(v)); }
  }

  lemma ArithTyped(a: EsilArch, op: EsilOp, l: StackValue, r: StackValue)
    requires ValueTyped(a, l) && ValueTyped(a, r)
    ensures Typed(ArithExpr(op, l, r), if IsCompare(op) then 1 else Max(ValueBits(l), ValueBits(r)))
  {
    var bits := Max(ValueBits(l), ValueBits(r));
    BoundedBits(a, l);
    BoundedBits(a, r);
    hide Typed, ValueTyped, Widen, WidenSigned, ValueBits, ArithExpr;
    if IsCompare(op) {
      WidenSignedTyped(a, l, bits);
      WidenSignedTyped(a, r, bits);
      hide Max;
      CompareTypedAs(op, l, r, bits);
    } else {
      WidenTyped(a, l, bits);
      WidenTyped(a, r, bits);
      hide Max;
      ArithTypedAs(op, l, r, bits);
    }
  }

  lemma CompareTypedAs(op: EsilOp, l: StackValue, r: StackValue, bits: nat)
    requires IsCompare(op) && bits == Max(ValueBits(l), ValueBits(r)) && Typed(WidenSigned(l, bits), bits) && Typed(WidenSigned(r, bits), bits)
    ensures Typed(ArithExpr(op, l, r), 1)
  {
    hide Typed, Widen, WidenSigned, ValueBits;
    match op
    case Less => TypedCompare(Slt, WidenSigned(l, bits), WidenSigned(r, bits), bits);
    case LessEq => TypedCompare(Sle, WidenSigned(l, bits), WidenSigned(r, bits), bits);
    case Greater => TypedCompare(Slt, WidenSigned(r, bits), WidenSigned(l, bits), bits);
    case GreaterEq => TypedCompare(Sle, WidenSigned(r, bits), WidenSigned(l, bits), bits);
  }

  lemma ArithTypedAs(op: EsilOp, l: StackValue, r: StackValue, bits: nat)
    requires !IsCompare(op) && bits == Max(ValueBits(l), ValueBits(r)) && Typed(Widen(l, bits), bits) && Typed(Widen(r, bits), bits)
    ensures Typed(ArithExpr(op, l, r), bits)
  {
    hide Typed, Widen, WidenSigned, ValueBits;
    TypedArith(ArithExpr(op, l, r).op, Widen(l, bits), Widen(r, bits), bits);
  }

  lemma AsBitTyped(c: Expr)
    requires Typed(c, 1)
    ensures Typed(AsBit(c), 1)
  {
    hide Typed;
    TypedSmall(1, 1);
    TypedSmall(0, 1);
    TypedIte(c, Const(1, 1), Const(0, 1), 1);
  }

  lemma IsZeroTyped(e: Expr, bits: nat)
    requires Typed(e, bits)
    ensures Typed(Bin(Eq, e, Const(0, bits)), 1)
  {
    TypedWidth(e, bits);
    hide Typed;
    TypedSmall(0, bits);
    TypedCompare(Eq, e, Const(0, bits), bits);
  }

  lemma ToBitTyped(a: EsilArch, v: StackValue)
    requires ValueTyped(a, v)
    ensures Typed(ToBit(v), 1)
  {
    ValueExprTyped(a, v);
    hide Typed, ValueExpr, ValueTyped;
    IsZeroTyped(ValueExpr(v), ValueBits(v));
    TypedSmall(0, 1);
    TypedSmall(1, 1);
    TypedIte(Bin(Eq, ValueExpr(v), Const(0, ValueBits(v))), Const(0, 1), Const(1, 1), 1);
  }

  // ---- Flags ----

  lemma MaskTyped(n: nat, bits: nat)
    requires LowMask(n, bits).Some?
    ensures Typed(LowMask(n, bits).value, bits)
  {
    Pow2Mono(Min(n + 1, bits), 128);
    assert Pow2(1) == 2;
    hide Pow2;
  }

  lemma CarryTyped(ctx: FlagCtx, n: nat)
    requires Typed(ctx.was, ctx.bits) && Typed(ctx.cur, ctx.bits)
    ensures CarryFlag(ctx, n).Some? ==> Typed(CarryFlag(ctx, n).value, 1)
    ensures BorrowFlag(ctx, n).Some? ==> Typed(BorrowFlag(ctx, n).value, 1)
  {
    if LowMask(n, ctx.bits).Some? {
      var mask := LowMask(n, ctx.bits).value;
      MaskTyped(n, ctx.bits);
      hide Typed, LowMask, AsBit;
      var x, y := Bin(And, ctx.cur, mask), Bin(And, ctx.was, mask);
      TypedArith(And, ctx.cur, mask, ctx.bits);
      TypedArith(And, ctx.was, mask, ctx.bits);
      TypedCompare(Ult, x, y, ctx.bits);
      TypedCompare(Ult, y, x, ctx.bits);
      AsBitTyped(Bin(Ult, x, y));
      AsBitTyped(Bin(Ult, y, x));
    }
  }

  lemma {:induction false} XorBitsTyped(cur: Expr, top: nat, w: nat)
    requires Typed(cur, w) && 0 < top <= w && top <= U16
    ensures Typed(XorBits(cur, top), 1)
    decreases top
  {
    hide Typed;
    var bit := Un(Extract(top - 1, top - 1), cur);
    TypedSlice(cur, w, top - 1, top - 1);
    if top > 1 {
      XorBitsTyped(cur, top - 1, w);
      TypedArith(Xor, XorBits(cur, top - 1), bit, 1);
    }
  }

  lemma ParityTyped(ctx: FlagCtx)
    requires Typed(ctx.cur, ctx.bits)
    ensures ParityFlag(ctx).Some? ==> Typed(ParityFlag(ctx).value, 1)
  {
    hide Typed, XorBits;
    if ctx.bits > 0 {
      var top := Min(PARITY_BITS, ctx.bits);
      XorBitsTyped(ctx.cur, top, ctx.bits);
      TypedSmall(1, 1);
      TypedArith(Xor, XorBits(ctx.cur, top), Const(1, 1), 1);
    }
  }

  lemma OverflowTyped(ctx: FlagCtx, n: nat)
    requires Typed(ctx.was, ctx.bits) && Typed(ctx.cur, ctx.bits)
    ensures OverflowFlag(ctx, n).Some? ==> Typed(OverflowFlag(ctx, n).value, 1)
  {
    hide Typed, CarryFlag;
    if OverflowFlag(ctx, n).Some? {
      CarryTyped(ctx, n - 1);
      CarryTyped(ctx, n);
      TypedArith(Xor, CarryFlag(ctx, n - 1).value, CarryFlag(ctx, n).value, 1);
    }
  }

  lemma FlagTyped(suffix: string, ctx: FlagCtx, n: nat)
    requires Typed(ctx.was, ctx.bits) && Typed(ctx.cur, ctx.bits) && n < U16
    ensures FlagExpr(suffix, ctx, n).Some? ==> Typed(FlagExpr(suffix, ctx, n).value, 1)
  {
    hide Typed, CarryFlag, BorrowFlag, XorBits, AsBit, OverflowFlag, ParityFlag;
    IsZeroTyped(ctx.cur, ctx.bits);
    AsBitTyped(Bin(Eq, ctx.cur, Const(0, ctx.bits)));
    CarryTyped(ctx, n);
    OverflowTyped(ctx, n);
    ParityTyped(ctx);
    if n < ctx.bits { TypedSlice(ctx.cur, ctx.bits, n, n); }
  }

  // ---- Every step keeps the machine typed ----

  /** What a token may be: register names are not temporaries and accesses are one
      to 255 bytes wide. */
  predicate TokenFits(t: Token) {
    match t
    case Literal(value) => value < Pow2(64)
    case Operand(name) => !name.Temp?
    case Load(size) => 0 < size < 256
    case Store(size) => 0 < size < 256
    case _ => true
  }

  lemma DropTyped(a: EsilArch, m: Machine, n: nat)
    requires MachineTyped(a, m) && n <= |m.stack|
    ensures MachineTyped(a, Drop(m, n))
    ensures forall i :: 0 <= i < |m.stack| ==> ValueTyped(a, m.stack[i])
  {
    hide ValueTyped, AllStmtsTyped, BlocksTyped, CtxTyped, HalfTyped;
  }

  lemma PushTyped(a: EsilArch, m: Machine, v: StackValue)
    requires MachineTyped(a, m) && ValueTyped(a, v)
    ensures MachineTyped(a, PushTo(m, v))
  {
    hide ValueTyped, AllStmtsTyped, BlocksTyped, CtxTyped, HalfTyped;
  }

  lemma EmitTyped(a: EsilArch, m: Machine, s: Stmt)
    requires MachineTyped(a, m) && StmtTyped(a, s)
    ensures MachineTyped(a, Emit(m, s))
  {
    hide StmtTyped, AllValuesTyped, BlocksTyped, CtxTyped, HalfTyped;
  }

  lemma MarkTyped(a: EsilArch, m: Machine)
    requires MachineTyped(a, m)
    ensures MachineTyped(a, MarkMemOp(m))
  {
    hide StmtTyped, AllStmtsTyped, AllValuesTyped, Typed, CtxTyped, HalfTyped;
  }

  lemma {:induction false} ShiftedTyped(bs: seq<Block>, at: nat)
    requires BlocksTyped(bs)
    ensures BlocksTyped(Shifted(bs, at)) && |Shifted(bs, at)| == |bs|
    decreases |bs|
  {
    hide Typed;
    if bs != [] { ShiftedTyped(bs[..|bs| - 1], at); }
  }

  lemma InsertTyped(a: EsilArch, m: Machine, at: nat, t: Var, e: Expr)
    requires MachineTyped(a, m) && t.name.Temp? && Typed(e, t.bits)
    ensures MachineTyped(a, InsertSnapshot(m, at, t, e))
  {
    hide AllValuesTyped, BlocksTyped, CtxTyped, HalfTyped;
    ShiftedTyped(m.blocks, at);
    assert StmtTyped(a, Assign(t, e));
    hide StmtTyped;
  }

  lemma MaterialiseTyped(a: EsilArch, m: Machine)
    requires MachineTyped(a, m)
    ensures MachineTyped(a, MaterialiseCur(m)) && MachineTyped(a, MaterialiseWas(m))
    ensures MaterialiseCur(m).stack == m.stack == MaterialiseWas(m).stack && MaterialiseCur(m).ctx == m.ctx == MaterialiseWas(m).ctx
  {
    hide AllValuesTyped, AllStmtsTyped, BlocksTyped, CtxTyped, Typed;
    if m.pending.Some? {
      var p := m.pending.value;
      if p.cur.Some? { InsertTyped(a, m, p.at, p.cur.value.0, p.cur.value.1); }
      if p.was.Some? { InsertTyped(a, m, p.at, p.was.value.0, p.was.value.1); }
    }
  }

  lemma SeedTyped(a: EsilArch, m: Machine, r: RegRef, e: Expr)
    requires MachineTyped(a, m) && RefTyped(a, r) && Typed(e, RegBits(r))
    ensures MachineTyped(a, Seed(m, r, e))
  {
    hide AllValuesTyped, AllStmtsTyped, BlocksTyped, Typed, IsRegister;
    ReadTyped(r);
    TypedRef(TempVar("old", m, RegBits(r)));
    TypedRef(TempVar("cur", m, RegBits(r)));
  }

  lemma SetTyped(a: EsilArch, m: Machine, compound: Option<EsilOp>, seeds: bool)
    requires MachineTyped(a, m) && ApplySet(m, compound, seeds).Ok? && !Top(m).r.variable.name.Temp?
    ensures MachineTyped(a, ApplySet(m, compound, seeds).value)
  {
    DropTyped(a, m, 2);
    var r, v := Top(m).r, Second(m);
    assert ValueTyped(a, Top(m)) && ValueTyped(a, v);
    assert RefTyped(a, r) && IsRegister(a, r.variable) && ValidRef(r);
    hide MachineTyped, ValueTyped, Typed, IsRegister, RefTyped, Widen, ReadExpr, Emit, Seed, WriteExpr, ValidRef;
    var e := AssignedExpr(r, Widen(v, RegBits(r)), compound).value;
    RefBits(r);
    WidenTyped(a, v, RegBits(r));
    ReadTyped(r);
    if compound.Some? { TypedArith(CompoundOp(compound.value).value, ReadExpr(r), Widen(v, RegBits(r)), RegBits(r)); }
    WriteTyped(r, e);
    SeedTyped(a, Drop(m, 2), r, e);
    EmitTyped(a, Drop(m, 2), Assign(r.variable, WriteExpr(r, e)));
    EmitTyped(a, Seed(Drop(m, 2), r, e), Assign(r.variable, WriteExpr(r, e)));
  }

  lemma RefBits(r: RegRef)
    requires ValidRef(r)
    ensures 0 < RegBits(r) <= U16
  {
  }

  lemma NegTyped(a: EsilArch, m: Machine)
    requires MachineTyped(a, m) && ApplyNegAssign(m).Ok? && !Top(m).r.variable.name.Temp?
    ensures MachineTyped(a, ApplyNegAssign(m).value)
  {
    DropTyped(a, m, 1);
    var r := Top(m).r;
    assert ValueTyped(a, Top(m));
    hide MachineTyped, ValueTyped, Typed, IsRegister, Emit, WriteExpr, ReadExpr;
    RefBits(r);
    ReadTyped(r);
    IsZeroTyped(ReadExpr(r), RegBits(r));
    TypedSmall(0, RegBits(r));
    TypedSmall(1, RegBits(r));
    TypedIte(Bin(Eq, ReadExpr(r), Const(0, RegBits(r))), Const(1, RegBits(r)), Const(0, RegBits(r)), RegBits(r));
    WriteTyped(r, NegatedExpr(r));
    EmitTyped(a, Drop(m, 1), Assign(r.variable, WriteExpr(r, NegatedExpr(r))));
  }

  lemma CompareTyped(a: EsilArch, m: Machine)
    requires MachineTyped(a, m) && |m.stack| >= 2
    ensures MachineTyped(a, ApplyCompare(m).value)
  {
    DropTyped(a, m, 2);
    var l, r := Top(m), Second(m);
    assert ValueTyped(a, l) && ValueTyped(a, r);
    BoundedBits(a, l);
    BoundedBits(a, r);
    hide ValueTyped, Typed, Widen, AllValuesTyped, AllStmtsTyped, BlocksTyped, HalfTyped;
    var bits := CompareBits(l, r);
    WidenTyped(a, l, bits);
    WidenTyped(a, r, bits);
    TypedArith(Sub, Widen(l, bits), Widen(r, bits), bits);
  }

  /** Only literals are bare constants. */
  lemma NotConst(op: EsilOp, l: StackValue, r: StackValue)
    ensures !ArithExpr(op, l, r).Const?
  {
    hide Widen, WidenSigned;
  }

  lemma FlagNotConst(suffix: string, c: FlagCtx, n: nat)
    requires FlagExpr(suffix, c, n).Some?
    ensures !FlagExpr(suffix, c, n).value.Const?
  {
    hide XorBits, LowMask;
  }

  lemma FlagStepTyped(a: EsilArch, m: Machine, suffix: string)
    requires MachineTyped(a, m) && ApplyFlag(m, suffix).Ok?
    ensures MachineTyped(a, ApplyFlag(m, suffix).value)
  {
    var ctx := m.ctx.value;
    assert CtxTyped(ctx);
    MaterialiseTyped(a, m);
    var cur := MaterialiseCur(m);
    hide MachineTyped, Typed, MaterialiseCur, MaterialiseWas;
    if IsIndexed(suffix) {
      DropTyped(a, cur, 1);
      MaterialiseTyped(a, Drop(cur, 1));
      var n := FlagIndex(Top(m)).value;
      if n < U16 { FlagTyped(suffix, ctx, n); }
      FlagNotConst(suffix, ctx, n);
      var both := if NeedsWas(suffix) then MaterialiseWas(Drop(cur, 1)) else Drop(cur, 1);
      PushTyped(a, both, Computed(FlagExpr(suffix, ctx, n).value, 1));
    } else {
      FlagTyped(suffix, ctx, 0);
      FlagNotConst(suffix, ctx, 0);
      PushTyped(a, cur, Computed(FlagExpr(suffix, ctx, 0).value, 1));
    }
  }

  lemma LoadTyped(a: EsilArch, m: Machine, size: nat)
    requires MachineTyped(a, m) && m.stack != [] && 0 < size < 256
    ensures MachineTyped(a, ApplyLoad(m, size).value)
  {
    DropTyped(a, m, 1);
    ValueExprTyped(a, Top(m));
    var dst := TempVar("ld", m, 8 * size);
    var s := LoadMem(dst, ValueExpr(Top(m)), 8 * size);
    assert StmtTyped(a, s) && ValueTyped(a, InRegister(WholeRef(dst)));
    hide MachineTyped, ValueTyped, Typed, StmtTyped, MarkMemOp, Emit, ValueExpr;
    EmitTyped(a, Drop(m, 1), s);
    MarkTyped(a, Emit(Drop(m, 1), s));
    PushTyped(a, MarkMemOp(Emit(Drop(m, 1), s)), InRegister(WholeRef(dst)));
  }

  lemma StoreTyped(a: EsilArch, m: Machine, size: nat)
    requires MachineTyped(a, m) && |m.stack| >= 2 && 0 < size < 256
    ensures MachineTyped(a, ApplyStore(m, size).value)
  {
    DropTyped(a, m, 2);
    ValueExprTyped(a, Top(m));
    hide ValueTyped, MarkMemOp, Emit, ValueExpr, Widen, MachineTyped;
    WidenTyped(a, Second(m), 8 * size);
    var s := StoreMem(ValueExpr(Top(m)), Widen(Second(m), 8 * size), 8 * size);
    EmitTyped(a, Drop(m, 2), s);
    MarkTyped(a, Emit(Drop(m, 2), s));
  }

  lemma CloseTyped(a: EsilArch, m: Machine)
    requires MachineTyped(a, m) && CloseBlock(m).Ok?
    ensures MachineTyped(a, CloseBlock(m).value)
  {
    var b := m.blocks[|m.blocks| - 1];
    assert Typed(b.cond, 1);
    hide AllValuesTyped, CtxTyped, HalfTyped, Typed;
    GuardTyped(a, m.statements, b.start, b.cond);
  }

  lemma {:induction false} GuardTyped(a: EsilArch, ss: seq<Stmt>, start: nat, cond: Expr)
    requires AllStmtsTyped(a, ss) && Typed(cond, 1)
    ensures AllStmtsTyped(a, GuardFrom(ss, start, cond))
    decreases |ss|
  {
    hide Typed, StmtTyped;
    if |ss| > start {
      GuardTyped(a, ss[..|ss| - 1], start, cond);
      GuardedTyped(a, ss[|ss| - 1], cond);
    }
  }

  lemma GuardedTyped(a: EsilArch, s: Stmt, cond: Expr)
    requires StmtTyped(a, s) && Typed(cond, 1)
    ensures StmtTyped(a, Guarded(s, cond))
  {
    if s.Assign? {
      TypedWidth(s.rhs, s.dst.bits);
      hide Typed, IsRegister;
      TypedRef(s.dst);
      TypedIte(cond, s.rhs, Ref(s.dst), s.dst.bits);
    }
  }

  lemma OpenTyped(a: EsilArch, m: Machine)
    requires MachineTyped(a, m) && m.stack != []
    ensures MachineTyped(a, OpenBlock(m).value)
  {
    DropTyped(a, m, 1);
    hide ValueTyped, AllValuesTyped, AllStmtsTyped, CtxTyped, HalfTyped, Typed, ToBit;
    ToBitTyped(a, Top(m));
  }

  lemma StepTyped(a: EsilArch, m: Machine, t: Token)
    requires LawfulEsil(a) && MachineTyped(a, m) && TokenFits(t) && StepToken(m, t, a).Ok?
    requires t.Set? || t.NegAssign? ==> !Top(m).r.variable.name.Temp?
    ensures MachineTyped(a, StepToken(m, t, a).value)
  {
    hide MachineTyped, ValueTyped, ApplyFlag, ApplySet, ApplyNegAssign, ApplyLoad, ApplyStore, OpenBlock, CloseBlock, Typed, ArithExpr, ApplyCompare, AsBit, ValueExpr;
    match t
    case Literal(value) =>
      assert ValueTyped(a, Computed(Const(value, a.arch.ptr), a.arch.ptr)) by { LiteralTyped(a, value); }
      PushTyped(a, m, Computed(Const(value, a.arch.ptr), a.arch.ptr));
    case Operand(name) =>
      OperandTyped(a, name);
      assert ValueTyped(a, InRegister(OperandRef(a, name))) by { OperandIsValue(a, OperandRef(a, name)); }
      PushTyped(a, m, InRegister(OperandRef(a, name)));
    case Flag(suffix) => FlagStepTyped(a, m, suffix);
    case Arith(op) => ArithStepTyped(a, m, op);
    case Not => NotStepTyped(a, m);
    case Compare => CompareStepTyped(a, m);
    case NegAssign => NegTyped(a, m);
    case Set(compound, seeds) => SetTyped(a, m, compound, seeds);
    case Load(size) => LoadStepTyped(a, m, size);
    case Store(size) => StoreStepTyped(a, m, size);
    case Open => OpenStepTyped(a, m);
    case Close => CloseTyped(a, m);
    case Junk(_) =>
  }

  lemma LiteralTyped(a: EsilArch, value: nat)
    requires LawfulEsil(a) && value < Pow2(64)
    ensures ValueTyped(a, Computed(Const(value, a.arch.ptr), a.arch.ptr))
  {
    hide Pow2;
    Pow2Mono(64, 128);
    TypedConst(value, a.arch.ptr);
  }

  lemma OperandIsValue(a: EsilArch, r: RegRef)
    requires RefTyped(a, r)
    ensures ValueTyped(a, InRegister(r))
  {
  }

  lemma ArithStepTyped(a: EsilArch, m: Machine, op: EsilOp)
    requires MachineTyped(a, m) && ApplyArith(m, op).Ok?
    ensures MachineTyped(a, ApplyArith(m, op).value)
  {
    DropTyped(a, m, 2);
    var l, r := Top(m), Second(m);
    BoundedBits(a, l);
    BoundedBits(a, r);
    ArithTyped(a, op, l, r);
    NotConst(op, l, r);
    hide MachineTyped, Typed, ArithExpr;
    var bits := if IsCompare(op) then 1 else Max(ValueBits(l), ValueBits(r));
    PushTyped(a, Drop(m, 2), Computed(ArithExpr(op, l, r), bits));
  }

  lemma NotStepTyped(a: EsilArch, m: Machine)
    requires MachineTyped(a, m) && ApplyNot(m).Ok?
    ensures MachineTyped(a, ApplyNot(m).value)
  {
    DropTyped(a, m, 1);
    var v := Top(m);
    ValueExprTyped(a, v);
    hide MachineTyped, Typed, AsBit, ValueExpr;
    IsZeroTyped(ValueExpr(v), ValueBits(v));
    AsBitTyped(Bin(Eq, ValueExpr(v), Const(0, ValueBits(v))));
    PushTyped(a, Drop(m, 1), Computed(AsBit(Bin(Eq, ValueExpr(v), Const(0, ValueBits(v)))), 1));
  }

  lemma CompareStepTyped(a: EsilArch, m: Machine)
    requires MachineTyped(a, m) && ApplyCompare(m).Ok?
    ensures MachineTyped(a, ApplyCompare(m).value)
  {
    hide MachineTyped;
    CompareTyped(a, m);
  }

  lemma LoadStepTyped(a: EsilArch, m: Machine, size: nat)
    requires MachineTyped(a, m) && ApplyLoad(m, size).Ok? && 0 < size < 256
    ensures MachineTyped(a, ApplyLoad(m, size).value)
  {
    hide MachineTyped;
    LoadTyped(a, m, size);
  }

  lemma StoreStepTyped(a: EsilArch, m: Machine, size: nat)
    requires MachineTyped(a, m) && ApplyStore(m, size).Ok? && 0 < size < 256
    ensures MachineTyped(a, ApplyStore(m, size).value)
  {
    hide MachineTyped;
    StoreTyped(a, m, size);
  }

  lemma OpenStepTyped(a: EsilArch, m: Machine)
    requires MachineTyped(a, m) && OpenBlock(m).Ok?
    ensures MachineTyped(a, OpenBlock(m).value)
  {
    hide MachineTyped;
    OpenTyped(a, m);
  }
}
