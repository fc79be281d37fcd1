/** Forward taint: which definitions of one lowering depend on a value the lifter
    could not model, and why the rest may be compared. */
module Taint {
  import opened Bits
  import opened Ir
  import opened Common

  const EXPR_DEPTH_BUDGET := 256

  /** Whether `e` reads an unmodelled value; `None` when the tree is too deep. */
  function ExprIsTainted(e: Expr, tainted: set<Name>, depth: nat): Option<bool>
    decreases e
  {
    if depth > EXPR_DEPTH_BUDGET then None else
    match e
    case Unknown(_) => Some(true)
    case Ref(v) => Some(v.name in tainted)
    case Const(_, _) => Some(false)
    case FpConst(_, _, _) => Some(false)
    case Un(_, a) => ExprIsTainted(a, tainted, depth + 1)
    case Bin(_, a, b) => OrElse(ExprIsTainted(a, tainted, depth + 1), ExprIsTainted(b, tainted, depth + 1))
    case Ite(c, t, f) =>
      OrElse(OrElse(ExprIsTainted(c, tainted, depth + 1), ExprIsTainted(t, tainted, depth + 1)),
             ExprIsTainted(f, tainted, depth + 1))
  }

  /** `x? || y?`: the right side is not looked at once the left one is true. */
  function OrElse(x: Option<bool>, y: Option<bool>): Option<bool> {
    if x.None? || x.value then x else y
  }

  /** What one side's unknowns have reached: definitions, and the memory latch. */
  datatype Taint = Taint(defs: set<Name>, memory: bool)

  function MarkIf(t: Taint, x: Name, tainted: Option<bool>): Option<Taint> {
    match tainted
    case None => None
    case Some(b) => Some(if b then t.(defs := t.defs + {x}) else t)
  }

  function TaintStep(s: Stmt, t: Taint): Option<Taint> {
    match s
    case Assign(dst, rhs) => MarkIf(t, dst.name, ExprIsTainted(rhs, t.defs, 0))
    case LoadMem(dst, address, _) =>
      MarkIf(t, dst.name, OrElse(Some(t.memory), ExprIsTainted(address, t.defs, 0)))
    case StoreMem(address, value, _) =>
      (match OrElse(ExprIsTainted(address, t.defs, 0), ExprIsTainted(value, t.defs, 0))
       case None => None
       case Some(b) => Some(if b then t.(memory := true) else t))
    case Unsupported => Some(t)
    case Nop => Some(t)
  }

  function TaintedDefs(ss: seq<Stmt>): Option<Taint> {
    if ss == [] then Some(Taint({}, false)) else
    match TaintedDefs(ss[..|ss| - 1])
    case None => None
    case Some(t) => TaintStep(ss[|ss| - 1], t)
  }

  /** The single forward pass over the statements. */
  method ComputeTaint(ss: seq<Stmt>) returns (r: Option<Taint>)
    ensures r == TaintedDefs(ss)
  {
    hide TaintStep;
    var t := Taint({}, false);
    for i := 0 to |ss|
      invariant TaintedDefs(ss[..i]) == Some(t)
    {
      assert ss[..i + 1][..i] == ss[..i];
      var next := TaintStep(ss[i], t);
      if next.None? {
        Declines(ss, i + 1);
        return None;
      }
      t := next.value;
    }
    assert ss[..|ss|] == ss;
    return Some(t);
  }

  lemma {:induction false} Declines(ss: seq<Stmt>, n: nat)
    requires n <= |ss| && TaintedDefs(ss[..n]).None?
    ensures TaintedDefs(ss).None?
    decreases |ss| - n
  {
    hide TaintStep;
    if n < |ss| {
      assert ss[..n + 1][..n] == ss[..n];
      Declines(ss, n + 1);
    } else {
      assert ss[..n] == ss;
    }
  }

  // ---- Non-interference ----

  /** Equal but for what the taint set covers. */
  ghost predicate AgreeOff(t: Taint, s: State, s': State) {
    (forall x {:trigger Get(s.env, x)} :: x !in t.defs ==> Get(s.env, x) == Get(s'.env, x))
    && (!t.memory ==> s.mem == s'.mem)
  }

  /** Two executions that may answer every unknown differently. */
  ghost predicate Comparable(sem: Sem, sem': Sem) {
    sem.fp == sem'.fp && sem.ptr == sem'.ptr
  }

  lemma {:induction false} UntaintedValue(e: Expr, t: Taint, depth: nat, s: State, s': State, sem: Sem, k: nat, sem': Sem, k': nat)
    requires ExprIsTainted(e, t.defs, depth) == Some(false)
    requires AgreeOff(t, s, s') && Comparable(sem, sem')
    ensures Eval(e, s.env, sem, k) == Eval(e, s'.env, sem', k')
    decreases e
  {
    hide UnValue, BinValue, Width, Eval;
    match e
    case Ref(_) => UntaintedLeaf(e, t, depth, s, s', sem, k, sem', k');
    case Const(_, _) => UntaintedLeaf(e, t, depth, s, s', sem, k, sem', k');
    case FpConst(_, _, _) => UntaintedLeaf(e, t, depth, s, s', sem, k, sem', k');
    case Un(op, a) =>
      UnParts(op, a, s.env, sem, k);
      UnParts(op, a, s'.env, sem', k');
      UntaintedValue(a, t, depth + 1, s, s', sem, k, sem', k');
    case Bin(op, a, b) =>
      BinParts(op, a, b, s.env, sem, k);
      BinParts(op, a, b, s'.env, sem', k');
      UntaintedValue(a, t, depth + 1, s, s', sem, k, sem', k');
      UntaintedValue(b, t, depth + 1, s, s', sem, k + Count(a), sem', k' + Count(a));
    case Ite(c, x, y) =>
      IteParts(c, x, y, s.env, sem, k);
      IteParts(c, x, y, s'.env, sem', k');
      UntaintedValue(c, t, depth + 1, s, s', sem, k, sem', k');
      UntaintedValue(x, t, depth + 1, s, s', sem, k + Count(c), sem', k' + Count(c));
      UntaintedValue(y, t, depth + 1, s, s', sem, k + Count(c) + Count(x), sem', k' + Count(c) + Count(x));
  }

  lemma UntaintedLeaf(e: Expr, t: Taint, depth: nat, s: State, s': State, sem: Sem, k: nat, sem': Sem, k': nat)
    requires ExprIsTainted(e, t.defs, depth) == Some(false) && AgreeOff(t, s, s') && (e.Ref? || e.Const? || e.FpConst?)
    ensures Eval(e, s.env, sem, k) == Eval(e, s'.env, sem', k')
  {
    hide Pow2;
  }

  lemma WriteAgrees(t: Taint, t': Taint, s: State, s': State, x: Name, v: nat, v': nat)
    requires AgreeOff(t, s, s')
    requires t' == t.(defs := t.defs + {x}) || (t' == t && v == v')
    ensures AgreeOff(t', s.(env := s.env[x := v]), s'.(env := s'.env[x := v']))
    ensures AgreeOff(t', s, s')
  {
    var u, u' := s.(env := s.env[x := v]), s'.(env := s'.env[x := v']);
    forall y | y !in t'.defs ensures Get(u.env, y) == Get(u'.env, y) {
      assert Get(s.env, y) == Get(s'.env, y);
    }
  }

  lemma StepAgrees(x: Stmt, t: Taint, t': Taint, s: State, s': State, sem: Sem, k: nat, sem': Sem, k': nat)
    requires TaintStep(x, t) == Some(t')
    requires AgreeOff(t, s, s') && Comparable(sem, sem')
    ensures AgreeOff(t', Step(x, s, sem, k), Step(x, s', sem', k'))
  {
    hide Eval, ExprIsTainted, LoadValue, StoreValue, Cut, AgreeOff;
    match x
    case Assign(dst, rhs) =>
      if ExprIsTainted(rhs, t.defs, 0) == Some(false) {
        UntaintedValue(rhs, t, 0, s, s', sem, k, sem', k');
      }
      WriteAgrees(t, t', s, s', dst.name, Cut(Eval(rhs, s.env, sem, k), dst.bits), Cut(Eval(rhs, s'.env, sem', k'), dst.bits));
    case LoadMem(dst, address, bits) =>
      var a, a' := Cut(Eval(address, s.env, sem, k), sem.ptr), Cut(Eval(address, s'.env, sem', k'), sem.ptr);
      if !t.memory && ExprIsTainted(address, t.defs, 0) == Some(false) {
        UntaintedValue(address, t, 0, s, s', sem, k, sem', k');
        SameMemory(t, s, s');
      }
      WriteAgrees(t, t', s, s', dst.name,
        Cut(Cut(LoadValue(s.mem, a, ByteCount(bits), sem.ptr), bits), dst.bits),
        Cut(Cut(LoadValue(s'.mem, a', ByteCount(bits), sem.ptr), bits), dst.bits));
    case StoreMem(address, value, bits) => StoreAgrees(address, value, bits, t, t', s, s', sem, k, sem', k');
    case Unsupported =>
    case Nop =>
  }

  lemma SameMemory(t: Taint, s: State, s': State)
    requires AgreeOff(t, s, s')
    ensures !t.memory ==> s.mem == s'.mem
  {
  }

  lemma StoreAgrees(address: Expr, value: Expr, bits: nat, t: Taint, t': Taint, s: State, s': State,
                    sem: Sem, k: nat, sem': Sem, k': nat)
    requires TaintStep(StoreMem(address, value, bits), t) == Some(t')
    requires AgreeOff(t, s, s') && Comparable(sem, sem')
    ensures AgreeOff(t', Step(StoreMem(address, value, bits), s, sem, k), Step(StoreMem(address, value, bits), s', sem', k'))
  {
    hide Eval, ExprIsTainted, StoreValue, Cut;
    if ExprIsTainted(address, t.defs, 0) == Some(false) && ExprIsTainted(value, t.defs, 0) == Some(false) {
      UntaintedValue(address, t, 0, s, s', sem, k, sem', k');
      UntaintedValue(value, t, 0, s, s', sem, k + Count(address), sem', k' + Count(address));
    }
  }

  /** Whatever two runs answer to the unknowns, from one state they end with the
      same value in every untainted name and, if nothing latched memory, with the
      same memory. */
  lemma {:induction false} NonInterference(ss: seq<Stmt>, t: Taint, st: State, sem: Sem, k: nat, sem': Sem, k': nat)
    requires TaintedDefs(ss) == Some(t) && Comparable(sem, sem')
    ensures AgreeOff(t, Exec(ss, st, sem, k), Exec(ss, st, sem', k'))
    decreases |ss|
  {
    hide Step, TaintStep;
    if ss != [] {
      var p, x := ss[..|ss| - 1], ss[|ss| - 1];
      var before := TaintedDefs(p).value;
      NonInterference(p, before, st, sem, k, sem', k');
      StepAgrees(x, before, t, Exec(p, st, sem, k), Exec(p, st, sem', k'), sem, k + CountStmts(p), sem', k' + CountStmts(p));
    }
  }
}
