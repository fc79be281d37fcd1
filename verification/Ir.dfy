/** The intermediate representation every lifter emits and every pass consumes,
    and its one meaning: bit-vectors are naturals below 2^width, memory is a map
    of bytes, and every occurrence of `Unknown` takes its own free 64-bit value,
    as in the solver encoding. */
module Ir {
  import opened Bits

  // ---- Names, expressions and statements ----

  datatype Side = SideA | SideB

  /** Variable names. The program's own spellings are constructors here:
      `Temp` is `__esil_<prefix>_<index>`, `Unique` is `u_<offset>_<size>`,
      `Versioned` is `<base>#<version>`, `Sided` is that name behind `A·` or
      `B·`, and `Minted` is `__m<tag><serial>`. */
  datatype Name =
    | Plain(text: string)
    | Temp(prefix: string, index: nat)
    | Unique(offset: nat, size: nat)
    | Versioned(base: Name, version: nat)
    | Sided(side: Side, base: Name, version: nat)
    | Minted(tag: string, serial: nat)

  datatype Var = Var(name: Name, bits: nat)

  datatype Rounding = NearestTiesEven | NearestTiesAway | TowardPositive | TowardNegative | TowardZero

  /** Nodes with one operand. */
  datatype UnOp =
    | BoolNot
    | Extract(hi: nat, lo: nat)
    | ZeroExtend(toBits: nat)
    | SignExtend(toBits: nat)
    | FIsNaN
    | FSqrt(rm: Rounding)
    | FRoundToIntegral(rm: Rounding)
    | BvToFp(ebits: nat, sbits: nat)
    | FpToIeeeBv
    | FpToSbv(rm: Rounding, bits: nat)
    | SbvToFp(rm: Rounding, ebits: nat, sbits: nat)
    | FpToFp(rm: Rounding, ebits: nat, sbits: nat)

  /** Nodes with two operands. */
  datatype BinOp =
    | Add | Sub | Mul | UDiv | URem | SDiv | SRem
    | And | Or | Xor | Shl | LShr | AShr | Ror
    | Eq | Ne | Ult | Ule | Slt | Sle
    | BoolAnd | BoolOr | Concat
    | FAdd(rm: Rounding) | FSub(rm: Rounding) | FMul(rm: Rounding) | FDiv(rm: Rounding)
    | FEq | FLt | FLe

  datatype Expr =
    | Ref(v: Var)
    | Const(value: nat, bits: nat)
    | FpConst(pattern: nat, ebits: nat, sbits: nat)
    | Unknown(hint: string)
    | Un(uop: UnOp, src: Expr)
    | Bin(op: BinOp, a: Expr, b: Expr)
    | Ite(cond: Expr, thn: Expr, els: Expr)

  datatype Stmt =
    | Assign(dst: Var, rhs: Expr)
    | LoadMem(dst: Var, address: Expr, bits: nat)
    | StoreMem(address: Expr, value: Expr, bits: nat)
    | Unsupported
    | Nop

  // ---- Widths ----

  predicate IsArith(op: BinOp) {
    op.Add? || op.Sub? || op.Mul? || op.UDiv? || op.URem? || op.SDiv? || op.SRem?
    || op.And? || op.Or? || op.Xor? || op.Shl? || op.LShr? || op.AShr? || op.Ror?
  }

  predicate IsFpArith(op: BinOp) {
    op.FAdd? || op.FSub? || op.FMul? || op.FDiv?
  }

  function OpWidth(op: BinOp, wa: nat, wb: nat): nat {
    if IsArith(op) then Max(wa, wb)
    else if op.Concat? then wa + wb
    else if IsFpArith(op) then wa
    else 1
  }

  function SliceWidth(hi: nat, lo: nat): nat {
    (if hi >= lo then hi - lo else 0) + 1
  }

  function UnWidth(op: UnOp, w: nat): nat {
    match op
    case BoolNot => 1
    case Extract(hi, lo) => SliceWidth(hi, lo)
    case ZeroExtend(n) => n
    case SignExtend(n) => n
    case FIsNaN => 1
    case FSqrt(_) => w
    case FRoundToIntegral(_) => w
    case FpToIeeeBv => w
    case FpToSbv(_, bits) => bits
    case BvToFp(e, s) => e + s
    case SbvToFp(_, e, s) => e + s
    case FpToFp(_, e, s) => e + s
  }

  /** The width the solver encoding gives an expression: mismatched operands
      widen to the wider one, and an unmodelled value is 64 bits. */
  function Width(e: Expr): nat {
    match e
    case Ref(v) => v.bits
    case Const(_, bits) => bits
    case FpConst(_, e, s) => e + s
    case Unknown(_) => 64
    case Un(op, a) => UnWidth(op, Width(a))
    case Bin(op, a, b) => OpWidth(op, Width(a), Width(b))
    case Ite(_, t, f) => Max(Width(t), Width(f))
  }

  // ---- The meaning of expressions ----

  type Env = map<Name, nat>
  type Mem = map<nat, nat>

  function Get(env: Env, x: Name): nat {
    if x in env then env[x] else 0
  }

  /** Reading a variable gives the low bits it asks for. */
  function Val(env: Env, v: Var): nat {
    Cut(Get(env, v.name), v.bits)
  }

  /** Floating point is left uninterpreted: any two functions will do. */
  datatype FpModel = FpModel(f1: (UnOp, nat, nat) -> nat, f2: (BinOp, nat, nat, nat) -> nat)

  /** What an execution is free to choose: the value of each `Unknown`
      occurrence in order, the floating-point operations, the pointer width. */
  datatype Sem = Sem(picks: seq<nat>, fp: FpModel, ptr: nat)

  function Pick(picks: seq<nat>, k: nat): nat {
    if k < |picks| then picks[k] else 0
  }

  function UnValue(op: UnOp, w: nat, x: nat, fp: FpModel): nat {
    match op
    case BoolNot => Bit(x == 0)
    case Extract(hi, lo) => Slice(x, lo, SliceWidth(hi, lo))
    case ZeroExtend(n) => Cut(x, n)
    case SignExtend(n) => Wrap(ToSigned(x, w), n)
    case _ => Cut(fp.f1(op, w, x), UnWidth(op, w))
  }

  function BinValue(op: BinOp, wa: nat, wb: nat, x: nat, y: nat, fp: FpModel): nat {
    if IsArith(op) then ArithValue(op, wa, wb, x, y)
    else if op.Concat? then Join(x, y, wb)
    else if op.Eq? then Bit(x == y)
    else if op.Ne? then Bit(x != y)
    else if op.Ult? then Bit(x < y)
    else if op.Ule? then Bit(x <= y)
    else if op.Slt? then Bit(ToSigned(x, wa) < ToSigned(y, wb))
    else if op.Sle? then Bit(ToSigned(x, wa) <= ToSigned(y, wb))
    else if op.BoolAnd? then Bit(x != 0 && y != 0)
    else if op.BoolOr? then Bit(x != 0 || y != 0)
    else Cut(fp.f2(op, wa, x, y), OpWidth(op, wa, wb))
  }

  function ArithValue(op: BinOp, wa: nat, wb: nat, x: nat, y: nat): nat {
    var w := Max(wa, wb);
    match op
    case Add => Wrap(x + y, w)
    case Sub => Wrap(x - y, w)
    case Mul => Wrap(x * y, w)
    case UDiv => if y == 0 then Ones(w) else x / y
    case URem => if y == 0 then x else x % y
    case SDiv => SignedDiv(ToSigned(x, wa), ToSigned(y, wb), w)
    case SRem => SignedRem(ToSigned(x, wa), ToSigned(y, wb), w)
    case And => BitAnd(x, y)
    case Or => BitOr(x, y)
    case Xor => BitXor(x, y)
    case Shl => ShiftLeft(x, y, w)
    case LShr => ShiftRight(x, y)
    case AShr => ShiftRightSigned(ToSigned(x, w), y, w)
    case _ => RotateRight(x, y, w)
  }

  /** How many `Unknown` occurrences an expression holds. */
  function Count(e: Expr): nat {
    match e
    case Ref(_) => 0
    case Const(_, _) => 0
    case FpConst(_, _, _) => 0
    case Unknown(_) => 1
    case Un(_, a) => Count(a)
    case Bin(_, a, b) => Count(a) + Count(b)
    case Ite(c, t, f) => Count(c) + Count(t) + Count(f)
  }

  /** The value of `e` when its first `Unknown` is the `k`-th of the run. */
  function Eval(e: Expr, env: Env, sem: Sem, k: nat): nat {
    match e
    case Ref(v) => Val(env, v)
    case Const(value, bits) => Cut(value, bits)
    case FpConst(p, e, s) => Cut(p, e + s)
    case Unknown(_) => Cut(Pick(sem.picks, k), 64)
    case Un(op, a) => UnValue(op, Width(a), Eval(a, env, sem, k), sem.fp)
    case Bin(op, a, b) =>
      BinValue(op, Width(a), Width(b), Eval(a, env, sem, k), Eval(b, env, sem, k + Count(a)), sem.fp)
    case Ite(c, t, f) =>
      if Eval(c, env, sem, k) != 0 then Eval(t, env, sem, k + Count(c))
      else Eval(f, env, sem, k + Count(c) + Count(t))
  }

  /** The names an expression reads. */
  function Reads(e: Expr): set<Name> {
    match e
    case Ref(v) => {v.name}
    case Const(_, _) => {}
    case FpConst(_, _, _) => {}
    case Unknown(_) => {}
    case Un(_, a) => Reads(a)
    case Bin(_, a, b) => Reads(a) + Reads(b)
    case Ite(c, t, f) => Reads(c) + Reads(t) + Reads(f)
  }

  // ---- The meaning of statements ----

  datatype State = State(env: Env, mem: Mem)

  function Byte(m: Mem, a: nat): nat {
    (if a in m then m[a] else 0) % 256
  }

  function ByteCount(bits: nat): nat {
    (bits + 7) / 8
  }

  /** The `n` bytes at `a`, little-endian, addresses wrapping at the pointer width. */
  function LoadValue(m: Mem, a: nat, n: nat, ptr: nat): nat {
    if n == 0 then 0
    else Join(Byte(m, Cut(a + (n - 1), ptr)), LoadValue(m, a, n - 1, ptr), 8 * (n - 1))
  }

  function StoreValue(m: Mem, a: nat, v: nat, n: nat, ptr: nat): Mem {
    if n == 0 then m
    else StoreValue(m, a, v, n - 1, ptr)[Cut(a + (n - 1), ptr) := Slice(v, 8 * (n - 1), 8)]
  }

  /** How many unknowns a statement consumes; a zero-width access does nothing. */
  function CountStmt(s: Stmt): nat {
    match s
    case Assign(_, rhs) => Count(rhs)
    case LoadMem(_, address, bits) => if bits == 0 then 0 else Count(address)
    case StoreMem(address, value, bits) => if bits == 0 then 0 else Count(address) + Count(value)
    case Unsupported => 0
    case Nop => 0
  }

  function CountStmts(ss: seq<Stmt>): nat {
    if ss == [] then 0 else CountStmts(ss[..|ss| - 1]) + CountStmt(ss[|ss| - 1])
  }

  /** One statement. A zero-width access has no effect; a store writes whole
      bytes, the last one zero-extended when the width is not a multiple of 8. */
  function Step(s: Stmt, st: State, sem: Sem, k: nat): State {
    match s
    case Assign(dst, rhs) => st.(env := st.env[dst.name := Cut(Eval(rhs, st.env, sem, k), dst.bits)])
    case LoadMem(dst, address, bits) =>
      if bits == 0 then st else
      var a := Cut(Eval(address, st.env, sem, k), sem.ptr);
      st.(env := st.env[dst.name := Cut(Cut(LoadValue(st.mem, a, ByteCount(bits), sem.ptr), bits), dst.bits)])
    case StoreMem(address, value, bits) =>
      if bits == 0 then st else
      var a := Cut(Eval(address, st.env, sem, k), sem.ptr);
      var v := Cut(Eval(value, st.env, sem, k + Count(address)), bits);
      st.(mem := StoreValue(st.mem, a, v, ByteCount(bits), sem.ptr))
    case Unsupported => st
    case Nop => st
  }

  /** A whole statement list, from the `k`-th unknown on. */
  function Exec(ss: seq<Stmt>, st: State, sem: Sem, k: nat): State {
    if ss == [] then st
    else
      var p := ss[..|ss| - 1];
      Step(ss[|ss| - 1], Exec(p, st, sem, k), sem, k + CountStmts(p))
  }

  // ---- Facts about the meaning ----

  lemma ExecAppend(ss: seq<Stmt>, s: Stmt, st: State, sem: Sem, k: nat)
    ensures Exec(ss + [s], st, sem, k) == Step(s, Exec(ss, st, sem, k), sem, k + CountStmts(ss))
    ensures CountStmts(ss + [s]) == CountStmts(ss) + CountStmt(s)
  {
    hide Step, CountStmt;
    assert (ss + [s])[..|ss|] == ss;
  }

  lemma {:induction false} ExecConcat(xs: seq<Stmt>, ys: seq<Stmt>, st: State, sem: Sem, k: nat)
    ensures CountStmts(xs + ys) == CountStmts(xs) + CountStmts(ys)
    ensures Exec(xs + ys, st, sem, k) == Exec(ys, Exec(xs, st, sem, k), sem, k + CountStmts(xs))
    decreases |ys|
  {
    hide Step, CountStmt;
    if ys == [] {
      assert xs + ys == xs;
    } else {
      var p, s := ys[..|ys| - 1], ys[|ys| - 1];
      ExecConcat(xs, p, st, sem, k);
      assert xs + ys == (xs + p) + [s];
      ExecAppend(xs + p, s, st, sem, k);
    }
  }

  /** One step of the evaluator, for proofs that hide the rest of it. */
  lemma UnParts(op: UnOp, a: Expr, env: Env, sem: Sem, k: nat)
    ensures Eval(Un(op, a), env, sem, k) == UnValue(op, Width(a), Eval(a, env, sem, k), sem.fp)
    ensures Width(Un(op, a)) == UnWidth(op, Width(a)) && Count(Un(op, a)) == Count(a)
  {
    hide UnValue, UnWidth, Pow2;
  }

  lemma BinParts(op: BinOp, a: Expr, b: Expr, env: Env, sem: Sem, k: nat)
    ensures Eval(Bin(op, a, b), env, sem, k) == BinValue(op, Width(a), Width(b), Eval(a, env, sem, k), Eval(b, env, sem, k + Count(a)), sem.fp)
    ensures Width(Bin(op, a, b)) == OpWidth(op, Width(a), Width(b)) && Count(Bin(op, a, b)) == Count(a) + Count(b)
  {
    hide BinValue, OpWidth, Pow2;
  }

  lemma IteParts(c: Expr, t: Expr, f: Expr, env: Env, sem: Sem, k: nat)
    ensures Eval(Ite(c, t, f), env, sem, k) ==
      if Eval(c, env, sem, k) != 0 then Eval(t, env, sem, k + Count(c)) else Eval(f, env, sem, k + Count(c) + Count(t))
    ensures Width(Ite(c, t, f)) == Max(Width(t), Width(f)) && Count(Ite(c, t, f)) == Count(c) + Count(t) + Count(f)
  {
    hide Pow2, Max;
  }

  /** An expression's value depends only on the names it reads. */
  lemma {:induction false} EvalFrame(e: Expr, env: Env, env': Env, sem: Sem, k: nat)
    requires forall x :: x in Reads(e) ==> Get(env, x) == Get(env', x)
    ensures Eval(e, env, sem, k) == Eval(e, env', sem, k)
    decreases e
  {
    hide UnValue, BinValue, Width, Pow2;
    match e
    case Ref(v) => assert v.name in Reads(e);
    case Const(_, _) =>
    case FpConst(_, _, _) =>
    case Unknown(_) =>
    case Un(_, a) => EvalFrame(a, env, env', sem, k);
    case Bin(_, a, b) => EvalFrame(a, env, env', sem, k); EvalFrame(b, env, env', sem, k + Count(a));
    case Ite(c, t, f) =>
      EvalFrame(c, env, env', sem, k);
      EvalFrame(t, env, env', sem, k + Count(c));
      EvalFrame(f, env, env', sem, k + Count(c) + Count(t));
  }

  /** Two runs hand the unknowns from `k` and `k'` on, `n` of them, the same values. */
  ghost predicate SamePicks(p: seq<nat>, k: nat, p': seq<nat>, k': nat, n: nat)
    decreases n
  {
    n == 0 || (Pick(p, k) == Pick(p', k') && SamePicks(p, k + 1, p', k' + 1, n - 1))
  }

  lemma {:induction false} SubPicks(p: seq<nat>, k: nat, p': seq<nat>, k': nat, n: nat, off: nat, m: nat)
    requires SamePicks(p, k, p', k', n) && off + m <= n
    ensures SamePicks(p, k + off, p', k' + off, m)
    decreases n
  {
    if off > 0 {
      SubPicks(p, k + 1, p', k' + 1, n - 1, off - 1, m);
    } else if m > 0 {
      SubPicks(p, k + 1, p', k' + 1, n - 1, 0, m - 1);
    }
  }

  /** An expression's value depends only on its own unknowns. */
  lemma {:induction false} EvalPicks(e: Expr, env: Env, sem: Sem, k: nat, sem': Sem, k': nat)
    requires sem.fp == sem'.fp
    requires SamePicks(sem.picks, k, sem'.picks, k', Count(e))
    ensures Eval(e, env, sem, k) == Eval(e, env, sem', k')
    decreases e, 0
  {
    hide UnValue, BinValue, Pick, Width, Pow2, Eval;
    match e
    case Ref(_) => LeafPicks(e, env, sem, k, sem', k');
    case Const(_, _) => LeafPicks(e, env, sem, k, sem', k');
    case FpConst(_, _, _) => LeafPicks(e, env, sem, k, sem', k');
    case Unknown(_) => LeafPicks(e, env, sem, k, sem', k');
    case Un(op, a) =>
      UnParts(op, a, env, sem, k);
      UnParts(op, a, env, sem', k');
      EvalPicks(a, env, sem, k, sem', k');
    case Bin(op, a, b) =>
      BinParts(op, a, b, env, sem, k);
      BinParts(op, a, b, env, sem', k');
      EvalPicksFrom(a, 0, Count(e), env, sem, k, sem', k');
      EvalPicksFrom(b, Count(a), Count(e), env, sem, k, sem', k');
    case Ite(c, t, f) =>
      IteParts(c, t, f, env, sem, k);
      IteParts(c, t, f, env, sem', k');
      EvalPicksFrom(c, 0, Count(e), env, sem, k, sem', k');
      EvalPicksFrom(t, Count(c), Count(e), env, sem, k, sem', k');
      EvalPicksFrom(f, Count(c) + Count(t), Count(e), env, sem, k, sem', k');
  }

  lemma LeafPicks(e: Expr, env: Env, sem: Sem, k: nat, sem': Sem, k': nat)
    requires !e.Un? && !e.Bin? && !e.Ite? && SamePicks(sem.picks, k, sem'.picks, k', Count(e))
    ensures Eval(e, env, sem, k) == Eval(e, env, sem', k')
  {
    hide Pick, Pow2;
  }

  lemma {:induction false} EvalPicksFrom(e: Expr, off: nat, n: nat, env: Env, sem: Sem, k: nat, sem': Sem, k': nat)
    requires sem.fp == sem'.fp
    requires SamePicks(sem.picks, k, sem'.picks, k', n) && off + Count(e) <= n
    ensures Eval(e, env, sem, k + off) == Eval(e, env, sem', k' + off)
    decreases e, 1
  {
    SubPicks(sem.picks, k, sem'.picks, k', n, off, Count(e));
    EvalPicks(e, env, sem, k + off, sem', k' + off);
  }
}
