/** What splicing a snapshot into a statement list, or guarding its tail, does to
    its execution. */
module EsilExec {
  import opened Bits
  import opened Common
  import opened Ir
  import opened SsaForm
  import opened EsilMachine

  // ---- Statements without unknowns ----

  predicate AllQuiet(ss: seq<Stmt>) {
    forall i :: 0 <= i < |ss| ==> CountStmt(ss[i]) == 0
  }

  function Go(ss: seq<Stmt>, st: State, sem: Sem): State {
    Exec(ss, st, sem, 0)
  }

  lemma {:induction false} QuietCounts(ss: seq<Stmt>)
    requires AllQuiet(ss)
    ensures CountStmts(ss) == 0
    decreases |ss|
  {
    hide CountStmt;
    if ss != [] { QuietCounts(ss[..|ss| - 1]); }
  }

  lemma GoSnoc(ss: seq<Stmt>, s: Stmt, st: State, sem: Sem)
    requires AllQuiet(ss)
    ensures Go(ss + [s], st, sem) == Step(s, Go(ss, st, sem), sem, 0)
  {
    hide Step, CountStmt;
    QuietCounts(ss);
    ExecAppend(ss, s, st, sem, 0);
  }

  lemma GoNothing(st: State, sem: Sem)
    ensures Go([], st, sem) == st
  {
  }

  // ---- Splicing in a definition nobody after it mentions ----

  predicate Avoids(s: Stmt, x: Name) {
    x !in DstOf(s) && x !in ReadsOf(s)
  }

  predicate AllAvoid(ss: seq<Stmt>, x: Name) {
    forall i :: 0 <= i < |ss| ==> Avoids(ss[i], x)
  }

  lemma StepOther(s: Stmt, st: State, x: Name, v: nat, sem: Sem)
    requires Avoids(s, x)
    ensures Step(s, st.(env := st.env[x := v]), sem, 0) == Step(s, st, sem, 0).(env := Step(s, st, sem, 0).env[x := v])
  {
    hide Eval, Cut, LoadValue, StoreValue, Reads, Count;
    var st' := st.(env := st.env[x := v]);
    match s
    case Assign(dst, rhs) =>
      EvalFrame(rhs, st.env, st'.env, sem, 0);
      Swap(st.env, x, v, dst.name, Cut(Eval(rhs, st.env, sem, 0), dst.bits)) by { assert dst.name in DstOf(s); }
    case LoadMem(dst, address, bits) =>
      EvalFrame(address, st.env, st'.env, sem, 0);
      var a := Cut(Eval(address, st.env, sem, 0), sem.ptr);
      Swap(st.env, x, v, dst.name, Cut(Cut(LoadValue(st.mem, a, ByteCount(bits), sem.ptr), bits), dst.bits)) by { assert dst.name in DstOf(s); }
    case StoreMem(address, value, bits) =>
      EvalFrame(address, st.env, st'.env, sem, 0);
      EvalFrame(value, st.env, st'.env, sem, Count(address));
    case Unsupported =>
    case Nop =>
  }

  lemma Swap(env: Env, x: Name, v: nat, y: Name, w: nat)
    requires x != y
    ensures env[x := v][y := w] == env[y := w][x := v]
  {
  }

  function Spliced(ss: seq<Stmt>, at: nat, t: Var, e: Expr): seq<Stmt>
    requires at <= |ss|
  {
    ss[..at] + [Assign(t, e)] + ss[at..]
  }

  /** The splice changes one variable of the final state and nothing else. */
  lemma {:induction false} SpliceIsTransparent(ss: seq<Stmt>, at: nat, t: Var, e: Expr, st: State, sem: Sem)
    requires at <= |ss| && AllQuiet(ss) && Count(e) == 0 && AllAvoid(ss[at..], t.name)
    ensures
      var v := Cut(Eval(e, Go(ss[..at], st, sem).env, sem, 0), t.bits);
      Go(Spliced(ss, at, t, e), st, sem) == Go(ss, st, sem).(env := Go(ss, st, sem).env[t.name := v])
    decreases |ss|
  {
    hide Step, CountStmt, Avoids, Eval, Cut, Go;
    if |ss| == at {
      assert Spliced(ss, at, t, e) == ss + [Assign(t, e)] && ss[..at] == ss;
      GoSnoc(ss, Assign(t, e), st, sem);
      AssignStep(t, e, Go(ss, st, sem), sem);
    } else {
      var p, s := ss[..|ss| - 1], ss[|ss| - 1];
      assert p[..at] == ss[..at] && p[at..] == ss[at..][..|ss| - at - 1];
      SpliceIsTransparent(p, at, t, e, st, sem);
      assert Spliced(ss, at, t, e) == Spliced(p, at, t, e) + [s] && ss == p + [s];
      SplicedQuiet(p, at, t, e);
      GoSnoc(Spliced(p, at, t, e), s, st, sem);
      GoSnoc(p, s, st, sem);
      assert s == ss[at..][|ss| - at - 1];
      StepOther(s, Go(p, st, sem), t.name, Cut(Eval(e, Go(ss[..at], st, sem).env, sem, 0), t.bits), sem);
    }
  }

  lemma AssignStep(t: Var, e: Expr, st: State, sem: Sem)
    ensures Step(Assign(t, e), st, sem, 0) == st.(env := st.env[t.name := Cut(Eval(e, st.env, sem, 0), t.bits)])
  {
    hide Eval, Cut;
  }

  lemma SplicedQuiet(ss: seq<Stmt>, at: nat, t: Var, e: Expr)
    requires at <= |ss| && AllQuiet(ss) && Count(e) == 0
    ensures AllQuiet(Spliced(ss, at, t, e))
  {
  }

  // ---- Guarding a tail ----

  /** No statement from `start` on defines a name of `names`. */
  predicate Untouched(ss: seq<Stmt>, start: nat, names: set<Name>) {
    forall i, x :: start <= i < |ss| && x in DstOf(ss[i]) ==> x !in names
  }

  lemma {:induction false} GuardShape(ss: seq<Stmt>, start: nat, cond: Expr)
    ensures
      var gs := GuardFrom(ss, start, cond);
      |gs| == |ss| && forall i :: 0 <= i < |ss| ==> gs[i] == if i < start then ss[i] else Guarded(ss[i], cond)
    decreases |ss|
  {
    hide Guarded;
    if |ss| > start { GuardShape(ss[..|ss| - 1], start, cond); }
  }

  lemma GuardQuiet(ss: seq<Stmt>, start: nat, cond: Expr)
    requires AllQuiet(ss) && Count(cond) == 0
    ensures AllQuiet(GuardFrom(ss, start, cond))
  {
    hide Guarded, CountStmt, GuardFrom;
    GuardShape(ss, start, cond);
    forall i | 0 <= i < |ss| ensures CountStmt(GuardFrom(ss, start, cond)[i]) == 0 {
      GuardedQuiet(ss[i], cond);
    }
  }

  lemma GuardedQuiet(s: Stmt, cond: Expr)
    requires CountStmt(s) == 0 && Count(cond) == 0
    ensures CountStmt(Guarded(s, cond)) == 0
  {
    if s.Assign? {
      assert Count(Ref(s.dst)) == 0;
      assert Count(Ite(cond, s.rhs, Ref(s.dst))) == Count(cond) + Count(s.rhs) + Count(Ref(s.dst));
    }
  }

  lemma StepKeepsOthers(s: Stmt, st: State, sem: Sem, x: Name)
    requires x !in DstOf(s)
    ensures Get(Step(s, st, sem, 0).env, x) == Get(st.env, x)
  {
    hide Eval, Cut, LoadValue, StoreValue;
    if s.Assign? || s.LoadMem? { assert s.dst.name in DstOf(s); }
  }

  lemma {:induction false} GoKeepsOthers(ss: seq<Stmt>, start: nat, st: State, sem: Sem, names: set<Name>, x: Name)
    requires start <= |ss| && AllQuiet(ss) && Untouched(ss, start, names) && x in names
    ensures Get(Go(ss, st, sem).env, x) == Get(Go(ss[..start], st, sem).env, x)
    decreases |ss|
  {
    hide Step, CountStmt, DstOf, Go;
    if |ss| == start {
      assert ss[..start] == ss;
    } else {
      var p, s := ss[..|ss| - 1], ss[|ss| - 1];
      assert p[..start] == ss[..start] && ss == p + [s];
      GoKeepsOthers(p, start, st, sem, names, x);
      GoSnoc(p, s, st, sem);
      StepKeepsOthers(s, Go(p, st, sem), sem, x);
    }
  }

  /** A condition nothing in the tail writes keeps its value through the tail. */
  lemma GuardStays(ss: seq<Stmt>, start: nat, cond: Expr, st: State, sem: Sem)
    requires start <= |ss| && AllQuiet(ss) && Untouched(ss, start, Reads(cond))
    ensures Eval(cond, Go(ss, st, sem).env, sem, 0) == Eval(cond, Go(ss[..start], st, sem).env, sem, 0)
  {
    hide Eval, Go, Untouched, CountStmt, Reads;
    forall x | x in Reads(cond) ensures Get(Go(ss, st, sem).env, x) == Get(Go(ss[..start], st, sem).env, x) {
      GoKeepsOthers(ss, start, st, sem, Reads(cond), x);
    }
    EvalFrame(cond, Go(ss, st, sem).env, Go(ss[..start], st, sem).env, sem, 0);
  }

  lemma GuardedTrue(s: Stmt, cond: Expr, st: State, sem: Sem)
    requires Count(cond) == 0 && CountStmt(s) == 0 && Eval(cond, st.env, sem, 0) != 0
    ensures Step(Guarded(s, cond), st, sem, 0) == Step(s, st, sem, 0)
  {
    hide Cut, LoadValue, StoreValue, Pow2;
  }

  /** A guard that holds changes nothing. */
  lemma {:induction false} GuardTrue(ss: seq<Stmt>, start: nat, cond: Expr, st: State, sem: Sem)
    requires start <= |ss| && AllQuiet(ss) && Count(cond) == 0 && Untouched(ss, start, Reads(cond))
    requires Eval(cond, Go(ss[..start], st, sem).env, sem, 0) != 0
    ensures Go(GuardFrom(ss, start, cond), st, sem) == Go(ss, st, sem)
    decreases |ss|
  {
    hide Step, CountStmt, DstOf, Eval, Guarded, Go, Reads;
    if |ss| > start {
      var p, s := ss[..|ss| - 1], ss[|ss| - 1];
      assert p[..start] == ss[..start] && ss == p + [s];
      GuardTrue(p, start, cond, st, sem);
      GuardStays(p, start, cond, st, sem);
      GuardQuiet(p, start, cond);
      GoSnoc(GuardFrom(p, start, cond), Guarded(s, cond), st, sem);
      GoSnoc(p, s, st, sem);
      GuardedTrue(s, cond, Go(p, st, sem), sem);
    } else {
      assert GuardFrom(ss, start, cond) == ss;
    }
  }

  /** Equal on every name but temporaries numbered `len` or later. */
  ghost predicate SameUpTo(len: nat, env: Env, env': Env) {
    forall x: Name {:trigger Get(env, x)} :: (x.Temp? ==> x.index < len) ==> Get(env, x) == Get(env', x)
  }

  predicate NoneAbove(names: set<Name>, len: nat) {
    forall x :: x in names ==> x.Temp? ==> x.index < len
  }

  /** A tail that only assigns late temporaries, or variables already in range. */
  ghost predicate Harmless(ss: seq<Stmt>, start: nat, len: nat, env: Env) {
    forall i :: start <= i < |ss| ==>
      !ss[i].LoadMem? && !ss[i].StoreMem?
      && (ss[i].Assign? ==> (ss[i].dst.name.Temp? && ss[i].dst.name.index >= len) || Get(env, ss[i].dst.name) < Pow2(ss[i].dst.bits))
  }

  lemma GuardedFalse(s: Stmt, cond: Expr, st: State, sem: Sem, env: Env, len: nat)
    requires Count(cond) == 0 && Eval(cond, st.env, sem, 0) == 0 && SameUpTo(len, env, st.env)
    requires !s.LoadMem? && !s.StoreMem? && CountStmt(s) == 0
    requires s.Assign? ==> (s.dst.name.Temp? && s.dst.name.index >= len) || Get(env, s.dst.name) < Pow2(s.dst.bits)
    ensures SameUpTo(len, env, Step(Guarded(s, cond), st, sem, 0).env) && Step(Guarded(s, cond), st, sem, 0).mem == st.mem
  {
    if s.Assign? {
      var v := Eval(Ite(cond, s.rhs, Ref(s.dst)), st.env, sem, 0);
      assert Eval(Ref(s.dst), st.env, sem, Count(cond) + Count(s.rhs)) == Val(st.env, s.dst);
      hide Pow2, Eval;
      assert v == Val(st.env, s.dst);
      var x := s.dst.name;
      if !(x.Temp? && x.index >= len) {
        assert Get(env, x) == Get(st.env, x);
        SmallMod(Get(env, x), Pow2(s.dst.bits));
        SmallMod(v, Pow2(s.dst.bits));
      }
      forall y: Name | y.Temp? ==> y.index < len ensures Get(env, y) == Get(st.env[x := Cut(v, s.dst.bits)], y) {
        assert Get(env, y) == Get(st.env, y);
      }
    }
  }

  /** A guard that fails makes its tail do nothing anyone can see. */
  lemma {:induction false} GuardFalse(ss: seq<Stmt>, start: nat, cond: Expr, len: nat, st: State, sem: Sem)
    requires start <= |ss| && AllQuiet(ss) && Count(cond) == 0 && NoneAbove(Reads(cond), len)
    requires Eval(cond, Go(ss[..start], st, sem).env, sem, 0) == 0
    requires Harmless(ss, start, len, Go(ss[..start], st, sem).env)
    ensures
      var s, t := Go(ss[..start], st, sem), Go(GuardFrom(ss, start, cond), st, sem);
      SameUpTo(len, s.env, t.env) && t.mem == s.mem
    decreases |ss|
  {
    hide Step, CountStmt, Eval, Guarded, Go, Reads;
    var base := Go(ss[..start], st, sem).env;
    if |ss| > start {
      var p, s := ss[..|ss| - 1], ss[|ss| - 1];
      assert p[..start] == ss[..start];
      GuardFalse(p, start, cond, len, st, sem);
      var mid := Go(GuardFrom(p, start, cond), st, sem);
      EvalFrame(cond, base, mid.env, sem, 0);
      GuardQuiet(p, start, cond);
      GoSnoc(GuardFrom(p, start, cond), Guarded(s, cond), st, sem);
      GuardedFalse(s, cond, mid, sem, base, len);
    } else {
      assert GuardFrom(ss, start, cond) == ss == ss[..start];
    }
  }
}
