/** What the taint pass answers, said of the statements alone: a definition is
    tainted exactly when some unmodelled value reaches it. */
module TaintReach {
  import opened Bits
  import opened Common
  import opened Ir
  import opened SsaForm
  import opened Taint

  // ---- Which statements an unknown reaches ----

  predicate HoldsUnknown(s: Stmt) {
    match s
    case Assign(_, rhs) => Count(rhs) > 0
    case LoadMem(_, address, _) => Count(address) > 0
    case StoreMem(address, value, _) => Count(address) > 0 || Count(value) > 0
    case _ => false
  }

  /** `s` leaves something that `t` takes: a name it reads, or memory it loads from. */
  predicate Feeds(s: Stmt, t: Stmt) {
    (exists x :: x in DstOf(s) && x in ReadsOf(t)) || (s.StoreMem? && t.LoadMem?)
  }

  /** An unknown is in the `i`-th statement, or in an earlier one that leads up to it. */
  ghost predicate Reached(ss: seq<Stmt>, i: nat)
    requires i < |ss|
    decreases i
  {
    HoldsUnknown(ss[i]) || exists j :: 0 <= j < i && Feeds(ss[j], ss[i]) && Reached(ss, j)
  }

  function Depth(e: Expr): nat {
    match e
    case Un(_, a) => 1 + Depth(a)
    case Bin(_, a, b) => 1 + Max(Depth(a), Depth(b))
    case Ite(c, t, f) => 1 + Max(Depth(c), Max(Depth(t), Depth(f)))
    case _ => 0
  }

  /** No expression of the statement is nested deeper than 256. */
  predicate Shallow(s: Stmt) {
    match s
    case Assign(_, rhs) => Depth(rhs) <= 256
    case LoadMem(_, address, _) => Depth(address) <= 256
    case StoreMem(address, value, _) => Depth(address) <= 256 && Depth(value) <= 256
    case _ => true
  }

  // ---- Expressions ----

  predicate Touches(e: Expr, names: set<Name>) {
    Count(e) > 0 || exists x :: x in Reads(e) && x in names
  }

  lemma TouchesParts(e: Expr, names: set<Name>)
    ensures e.Un? ==> (Touches(e, names) <==> Touches(e.src, names))
    ensures e.Bin? ==> (Touches(e, names) <==> Touches(e.a, names) || Touches(e.b, names))
    ensures e.Ite? ==> (Touches(e, names) <==> Touches(e.cond, names) || Touches(e.thn, names) || Touches(e.els, names))
  {
  }

  /** The scan of an expression: right whenever it ends, and it always does within
      the depth it allows. */
  lemma {:induction false} ScanIs(e: Expr, names: set<Name>, depth: nat)
    ensures ExprIsTainted(e, names, depth).Some? ==> (ExprIsTainted(e, names, depth).value <==> Touches(e, names))
    ensures depth + Depth(e) <= 256 ==> ExprIsTainted(e, names, depth).Some?
    ensures depth + Depth(e) > 256 && !Touches(e, names) ==> ExprIsTainted(e, names, depth).None?
    decreases e
  {
    TouchesParts(e, names);
    match e
    case Un(_, a) =>
      hide Touches;
      ScanIs(a, names, depth + 1);
    case Bin(_, a, b) =>
      hide Touches;
      ScanIs(a, names, depth + 1);
      ScanIs(b, names, depth + 1);
    case Ite(c, t, f) =>
      hide Touches;
      ScanIs(c, names, depth + 1);
      ScanIs(t, names, depth + 1);
      ScanIs(f, names, depth + 1);
    case _ =>
  }

  // ---- Statements ----

  /** The statement takes an unknown, a tainted name, or a byte of tainted memory. */
  predicate Takes(s: Stmt, t: Taint) {
    HoldsUnknown(s) || (exists x :: x in ReadsOf(s) && x in t.defs) || (s.LoadMem? && t.memory)
  }

  lemma StepIs(s: Stmt, t: Taint)
    ensures TaintStep(s, t).Some? ==>
      TaintStep(s, t).value == Taint(t.defs + if Takes(s, t) then DstOf(s) else {}, t.memory || (s.StoreMem? && Takes(s, t)))
    ensures Shallow(s) ==> TaintStep(s, t).Some?
    ensures !Shallow(s) && !Takes(s, t) ==> TaintStep(s, t).None?
  {
    hide ExprIsTainted, Depth, Count, Reads;
    match s
    case Assign(_, rhs) => ScanIs(rhs, t.defs, 0);
    case LoadMem(_, address, _) => ScanIs(address, t.defs, 0);
    case StoreMem(address, value, _) => ScanIs(address, t.defs, 0); ScanIs(value, t.defs, 0);
    case _ =>
  }

  // ---- Lists ----

  ghost predicate MarksName(ss: seq<Stmt>, i: int, x: Name) {
    0 <= i < |ss| && x in DstOf(ss[i]) && Reached(ss, i)
  }

  ghost predicate MarksMemory(ss: seq<Stmt>, i: int) {
    0 <= i < |ss| && ss[i].StoreMem? && Reached(ss, i)
  }

  lemma {:induction false} PrefixReached(ss: seq<Stmt>, n: nat, i: nat)
    requires i < n <= |ss|
    ensures Reached(ss[..n], i) <==> Reached(ss, i)
    decreases i
  {
    hide HoldsUnknown, Feeds;
    forall j: nat | j < i ensures Reached(ss[..n], j) <==> Reached(ss, j) {
      PrefixReached(ss, n, j);
    }
    assert forall j :: 0 <= j <= i ==> ss[..n][j] == ss[j];
  }

  /** `t` holds the names and the memory an unknown reaches, and no others. */
  ghost predicate Exact(ss: seq<Stmt>, t: Taint) {
    (forall x :: x in t.defs <==> exists i :: MarksName(ss, i, x))
    && (t.memory <==> exists i :: MarksMemory(ss, i))
  }

  /** What the last statement takes is exactly what makes it reached. */
  lemma TakesIsReached(p: seq<Stmt>, s: Stmt, t: Taint)
    requires Exact(p, t)
    ensures Reached(p + [s], |p|) <==> Takes(s, t)
  {
    hide HoldsUnknown;
    var ss := p + [s];
    assert ss[..|p|] == p && ss[|p|] == s;
    forall j: nat | j < |p| ensures Reached(p, j) <==> Reached(ss, j) {
      PrefixReached(ss, |p|, j);
    }
    if !HoldsUnknown(s) {
      if Reached(ss, |p|) {
        var j :| 0 <= j < |p| && Feeds(ss[j], s) && Reached(ss, j);
        if ss[j].StoreMem? && s.LoadMem? {
          assert MarksMemory(p, j);
        } else {
          var x :| x in DstOf(ss[j]) && x in ReadsOf(s);
          assert MarksName(p, j, x);
        }
      }
      if Takes(s, t) {
        if s.LoadMem? && t.memory {
          var j :| MarksMemory(p, j);
          assert Feeds(ss[j], s) && Reached(ss, j);
        } else {
          var x :| x in ReadsOf(s) && x in t.defs;
          var j :| MarksName(p, j, x);
          assert Feeds(ss[j], s) && Reached(ss, j);
        }
      }
    }
  }

  lemma ExactSnoc(p: seq<Stmt>, s: Stmt, t: Taint)
    requires Exact(p, t)
    ensures Exact(p + [s], Taint(t.defs + if Takes(s, t) then DstOf(s) else {}, t.memory || (s.StoreMem? && Takes(s, t))))
  {
    TakesIsReached(p, s, t);
    hide Takes, Reached;
    var ss := p + [s];
    var defs := t.defs + if Takes(s, t) then DstOf(s) else {};
    assert ss[..|p|] == p && ss[|p|] == s;
    forall j: nat | j < |p| ensures Reached(p, j) <==> Reached(ss, j) {
      PrefixReached(ss, |p|, j);
    }
    forall x ensures x in defs <==> exists i :: MarksName(ss, i, x) {
      if x in t.defs {
        var i :| MarksName(p, i, x);
        assert MarksName(ss, i, x);
      } else if x in defs {
        assert MarksName(ss, |p|, x);
      }
      if i :| MarksName(ss, i, x) {
        if i < |p| { assert MarksName(p, i, x); }
      }
    }
    if t.memory {
      var i :| MarksMemory(p, i);
      assert MarksMemory(ss, i);
    } else if s.StoreMem? && Takes(s, t) {
      assert MarksMemory(ss, |p|);
    }
    if i :| MarksMemory(ss, i) {
      if i < |p| { assert MarksMemory(p, i); }
    }
  }

  lemma NothingReached()
    ensures Exact([], Taint({}, false))
  {
  }

  /** When the pass ends, a name is tainted exactly if an unknown reaches a
      definition of it, and memory exactly if one reaches a store. */
  lemma {:induction false} TaintIsReached(ss: seq<Stmt>, t: Taint)
    requires TaintedDefs(ss) == Some(t)
    ensures Exact(ss, t)
    decreases |ss|
  {
    hide TaintStep, Exact, Takes;
    if ss == [] {
      NothingReached();
    } else {
      var p, s := ss[..|ss| - 1], ss[|ss| - 1];
      var before := TaintedDefs(p).value;
      TaintIsReached(p, before);
      StepIs(s, before);
      ExactSnoc(p, s, before);
      assert ss == p + [s];
    }
  }

  /** Within the depth it allows the pass always ends. */
  lemma {:induction false} ShallowEnds(ss: seq<Stmt>)
    requires forall i :: 0 <= i < |ss| ==> Shallow(ss[i])
    ensures TaintedDefs(ss).Some?
    decreases |ss|
  {
    hide TaintStep, Shallow;
    if ss != [] {
      var p, s := ss[..|ss| - 1], ss[|ss| - 1];
      ShallowEnds(p);
      StepIs(s, TaintedDefs(p).value);
    }
  }

  /** A list with no unknown taints nothing, and only its depth can stop the pass. */
  lemma {:induction false} CleanIsUntainted(ss: seq<Stmt>)
    requires forall i :: 0 <= i < |ss| ==> !HoldsUnknown(ss[i])
    ensures TaintedDefs(ss) == if forall i :: 0 <= i < |ss| ==> Shallow(ss[i]) then Some(Taint({}, false)) else None
    decreases |ss|
  {
    hide TaintStep, Shallow;
    if ss != [] {
      var p, s := ss[..|ss| - 1], ss[|ss| - 1];
      CleanIsUntainted(p);
      StepIs(s, Taint({}, false));
      assert !Takes(s, Taint({}, false)) && Taint({} + {}, false) == Taint({}, false);
      assert (forall i :: 0 <= i < |ss| ==> Shallow(ss[i])) <==> (forall i :: 0 <= i < |p| ==> Shallow(p[i])) && Shallow(s);
    }
  }
}
