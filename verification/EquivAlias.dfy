/** Where the comparison of final definitions is not one of registers: an unmodelled
    definition of another view of the register, which the comparison does not see. */
module EquivAlias {
  import opened Bits
  import opened Common
  import opened Ir
  import opened Ssa
  import opened Layouts
  import opened Namespace
  import opened Taint
  import opened EquivQuery
  import opened EquivMeaning
  import opened EquivTheorem
  import opened EquivVerdict
  import opened EquivRegisters
  import opened EquivMachine
  import MemElim

  // ---- The condition is exact, for any two views of one register ----

  /** Two different views of one register. */
  predicate Aliases(arch: Arch, x: Name, y: Name) {
    x in arch.layouts && y in arch.layouts && x != y && x !in COMPARABLE_FLAGS && y !in COMPARABLE_FLAGS
    && arch.layouts[x].parent == arch.layouts[y].parent
  }

  /** A modelled definition of one view and an unmodelled one of another. */
  function Known(arch: Arch, x: Name, c: nat): Stmt
    requires x in arch.layouts
  {
    Assign(Var(x, ViewWidth(arch.layouts[x])), Const(c, ViewWidth(arch.layouts[x])))
  }

  function Guess(arch: Arch, y: Name): Stmt
    requires y in arch.layouts
  {
    Assign(Var(y, ViewWidth(arch.layouts[y])), Expr.Unknown(""))
  }

  /** `x`'s last value, spliced on its own, is the register, whatever the machine
      started from and the unknown is. */
  ghost predicate AlwaysRight(ss: seq<Stmt>, arch: Arch, x: Name) {
    forall m, m0, sem :: RightFrom(ss, arch, x, m, m0, sem)
  }

  ghost predicate RightFrom(ss: seq<Stmt>, arch: Arch, x: Name, m: Env, m0: Mem, sem: Sem) {
    FinalRegister(ss, arch, m, m0, sem, 0, KeyOf(arch, x)) == KeyValue(arch, m, x, Get(SideRun(ss, arch, m, m0, sem, 0).env, x))
  }

  /** The register after two assignments to views of it. */
  lemma TwoLand(arch: Arch, x: Name, s: Stmt, t: Stmt, m: Env, m0: Mem, sem: Sem)
    requires s.Assign? && t.Assign? && Count(s.rhs) <= 1 && s.dst.name != t.dst.name
    requires Lands(arch, s, KeyOf(arch, x)) && Lands(arch, t, KeyOf(arch, x)) && Reads(s.rhs) == {} && Reads(t.rhs) == {}
    ensures
      var u, v := Cut(Eval(s.rhs, map[], sem, 0), s.dst.bits), Cut(Eval(t.rhs, map[], sem, Count(s.rhs)), t.dst.bits);
      var env := SideRun([s, t], arch, m, m0, sem, 0).env;
      Get(env, s.dst.name) == u && Get(env, t.dst.name) == v
      && FinalRegister([s, t], arch, m, m0, sem, 0, KeyOf(arch, x)) ==
        Landed(arch, t.dst.name, Landed(arch, s.dst.name, StartRegister(arch, m, KeyOf(arch, x)), u), v)
  {
    hide Eval, Cut, Landed, StartRegister, KeyOf, StartEnv, Count;
    var e, st := StartEnv(arch, m), State(StartEnv(arch, m), m0);
    assert [s, t][..1] == [s];
    assert [] + [s] == [s] && [s] + [t] == [s, t];
    ExecAppend([], s, st, sem, 0);
    ExecAppend([s], t, st, sem, 0);
    EvalFrame(s.rhs, e, map[], sem, 0);
    var e1 := e[s.dst.name := Cut(Eval(s.rhs, e, sem, 0), s.dst.bits)];
    EvalFrame(t.rhs, e1, map[], sem, Count(s.rhs));
    assert SideRun([s], arch, m, m0, sem, 0) == State(e1, m0);
    OneLands(arch, x, s, m, m0, sem);
  }

  lemma OneLands(arch: Arch, x: Name, s: Stmt, m: Env, m0: Mem, sem: Sem)
    requires s.Assign? && Lands(arch, s, KeyOf(arch, x))
    ensures FinalRegister([s], arch, m, m0, sem, 0, KeyOf(arch, x)) ==
      Landed(arch, s.dst.name, StartRegister(arch, m, KeyOf(arch, x)), Get(SideRun([s], arch, m, m0, sem, 0).env, s.dst.name))
  {
    hide Landed, StartRegister, KeyOf, SideRun;
    assert [s][..0] == [];
  }

  lemma BitOf(x: nat, a: nat, w: nat, i: nat)
    requires a <= i < a + w
    ensures Slice(x, i, 1) == Slice(Slice(x, a, w), i - a, 1)
  {
    hide Pow2;
    var y, d := x / Pow2(a), i - a;
    Pow2Add(a, d);
    DivModDiv(x, Pow2(a), Pow2(d));
    assert Slice(x, i, 1) == Slice(y, d, 1) && Slice(x, a, w) == Cut(y, w);
    hide Slice, Cut;
    SliceCut(y, w, d, 1);
  }

  lemma OnesBit(bits: nat, i: nat)
    requires i < bits
    ensures Slice(Ones(bits), i, 1) == 1
  {
    Pow2Add(bits - i, i);
    assert Pow2(bits - i) == 2 * Pow2(bits - i - 1) && Pow2(1) == 2;
    hide Pow2;
    var h := Pow2(bits - i - 1);
    DivModUnique(Ones(bits), Pow2(i), 2 * h - 1, Pow2(i) - 1);
    DivModUnique(2 * h - 1, 2, h - 1, 1);
  }

  lemma ZeroBit(i: nat)
    ensures Slice(0, i, 1) == 0
  {
    hide Pow2;
    DivModUnique(0, Pow2(i), 0, 0);
    SmallMod(0, Pow2(1));
  }

  /** Registers that agree beside a view agree on every bit there. */
  lemma BesideBit(l: Layout, bits: nat, p: nat, q: nat, i: nat)
    requires SameBeside(l, bits, p, q) && !IsWhole(l, bits) && i < bits && (i < l.lo || i > l.hi)
    ensures Slice(p, i, 1) == Slice(q, i, 1)
  {
    hide Pow2, Slice, Cut;
    if i < l.lo {
      SliceCut(p, l.lo, i, 1);
      SliceCut(q, l.lo, i, 1);
    } else {
      BitOf(p, l.hi + 1, bits - l.hi - 1, i);
      BitOf(q, l.hi + 1, bits - l.hi - 1, i);
    }
  }

  /** Splicing the same value into two registers gives one result only if they agreed
      beside the view. */
  lemma BesideMatters(l: Layout, bits: nat, p: nat, q: nat, v: nat)
    requires l.lo <= l.hi < bits && !IsWhole(l, bits) && RegisterAfter(l, bits, p, v) == RegisterAfter(l, bits, q, v)
    ensures SameBeside(l, bits, p, q)
  {
    hide Put, Slice, Cut;
    SliceBelow(v, 0, ViewWidth(l));
    PutIsLawful(p, l.lo, l.hi, bits, Cut(v, ViewWidth(l)));
    PutIsLawful(q, l.lo, l.hi, bits, Cut(v, ViewWidth(l)));
  }

  /** Clearing a view that is not inside another shows beside that other one. */
  lemma ClearedShows(lx: Layout, ly: Layout, bits: nat)
    requires ly.lo <= ly.hi && lx.lo <= lx.hi < bits && (ly.lo > 0 ==> ly.hi < bits) && !IsWhole(lx, bits)
    requires ly.zeroExtends || ly.lo < lx.lo || ly.hi > lx.hi
    ensures !SameBeside(lx, bits, RegisterAfter(ly, bits, Ones(bits), 0), Ones(bits))
  {
    var r := RegisterAfter(ly, bits, Ones(bits), 0);
    var i := if IsWhole(ly, bits) then (if lx.lo > 0 then 0 else bits - 1) else if ly.lo < lx.lo then ly.lo else ly.hi;
    assert i < bits && (i < lx.lo || i > lx.hi);
    OnesBit(bits, i);
    assert Slice(r, i, 1) == 0 by {
      ZeroBit(i);
      SmallMod(0, Pow2(bits));
      SmallMod(0, Pow2(ViewWidth(ly)));
      if !IsWhole(ly, bits) {
        PutIsLawful(Ones(bits), ly.lo, ly.hi, bits, 0);
        BitOf(r, ly.lo, ViewWidth(ly), i);
        ZeroBit(i - ly.lo);
      }
    }
    hide Slice, RegisterAfter;
    if SameBeside(lx, bits, r, Ones(bits)) { BesideBit(lx, bits, r, Ones(bits), i); }
  }

  const NO_FP := FpModel((_, _, _) => 0, (_, _, _, _) => 0)

  lemma AliasKeys(arch: Arch, x: Name, y: Name)
    requires Aliases(arch, x, y)
    ensures KeyOf(arch, x) == KeyOf(arch, y) == arch.layouts[x].parent
    ensures forall c :: Lands(arch, Known(arch, x, c), KeyOf(arch, x))
    ensures Lands(arch, Guess(arch, y), KeyOf(arch, x))
  {
    assert KeyOf(arch, x) == arch.layouts[x].parent;
    assert KeyOf(arch, y) == arch.layouts[y].parent;
    assert forall c :: Known(arch, x, c).Assign? && Known(arch, x, c).dst.name == x;
    assert Guess(arch, y).Assign? && Guess(arch, y).dst.name == y;
    hide KeyOf, Known, Guess;
  }

  lemma EarlyDecides(arch: Arch, x: Name, y: Name, c: nat)
    requires Aliases(arch, x, y)
    ensures Decides([Guess(arch, y), Known(arch, x, c)], arch, x) <==> Inside(arch, y, x)
    ensures !Decides([Known(arch, x, c), Guess(arch, y)], arch, x)
  {
    AliasKeys(arch, x, y);
    hide Inside, KeyOf;
    var s, t := Guess(arch, y), Known(arch, x, c);
    assert [s, t][..1] == [s] && [t, s][..1] == [t];
    assert [s][0] == s;
  }

  /** An unmodelled view written before `x` is harmless exactly when `x` covers it. */
  lemma EarlyAliasIff(arch: Arch, x: Name, y: Name, c: nat)
    requires Lawful(arch) && Aliases(arch, x, y) && IsSource(x) && IsSource(y)
    ensures var ss := [Guess(arch, y), Known(arch, x, c)]; AlwaysRight(ss, arch, x) <==> Decides(ss, arch, x)
  {
    var s, t := Guess(arch, y), Known(arch, x, c);
    var ss := [s, t];
    EarlyDecides(arch, x, y, c);
    AliasKeys(arch, x, y);
    if Decides(ss, arch, x) {
      forall m, m0, sem ensures RightFrom(ss, arch, x, m, m0, sem) { DecidesRegister(ss, arch, m, m0, sem, 0, x); }
    } else {
      var lx, ly := arch.layouts[x], arch.layouts[y];
      var bits := ParentWidth(arch, lx.parent);
      var m, sem := map[lx.parent := Ones(bits)], Sem([0], NO_FP, arch.ptr);
      TwoLand(arch, x, s, t, m, map[], sem);
      ClearedShows(lx, ly, bits);
      StartsFull(arch, x, bits);
      hide SameBeside, RegisterAfter, Inside, Decides, FinalRegister, SideRun;
      ClearedAnswer(arch, y, sem);
      var v := Get(SideRun(ss, arch, m, map[], sem, 0).env, x);
      if RightFrom(ss, arch, x, m, map[], sem) { BesideMatters(lx, bits, RegisterAfter(ly, bits, Ones(bits), 0), Ones(bits), v); }
      assert !RightFrom(ss, arch, x, m, map[], sem);
    }
  }

  lemma ClearedAnswer(arch: Arch, y: Name, sem: Sem)
    requires y in arch.layouts && Pick(sem.picks, 0) == 0
    ensures Cut(Eval(Guess(arch, y).rhs, map[], sem, 0), Guess(arch, y).dst.bits) == 0
  {
    hide Pow2;
    SmallMod(0, Pow2(64));
    SmallMod(0, Pow2(ViewWidth(arch.layouts[y])));
  }

  lemma StartsFull(arch: Arch, x: Name, bits: nat)
    requires Lawful(arch) && x in arch.layouts && x !in COMPARABLE_FLAGS && bits == ParentWidth(arch, arch.layouts[x].parent)
    ensures StartRegister(arch, map[arch.layouts[x].parent := Ones(bits)], KeyOf(arch, x)) == Ones(bits)
  {
    hide Pow2;
    SmallMod(Ones(bits), Pow2(bits));
  }

  lemma TwoAnswers(l: Layout, bits: nat, p: nat)
    requires l.lo <= l.hi && (l.lo > 0 ==> l.hi < bits) && bits > 0
    ensures RegisterAfter(l, bits, p, 0) != RegisterAfter(l, bits, p, 1)
  {
    var w := ViewWidth(l);
    assert Pow2(bits) == 2 * Pow2(bits - 1) && Pow2(w) == 2 * Pow2(w - 1);
    hide Pow2;
    SmallMod(0, Pow2(bits));
    SmallMod(1, Pow2(bits));
    SmallMod(0, Pow2(w));
    SmallMod(1, Pow2(w));
    if !IsWhole(l, bits) {
      PutIsLawful(p, l.lo, l.hi, bits, 0);
      PutIsLawful(p, l.lo, l.hi, bits, 1);
    }
    hide Cut, Slice, Put;
  }

  lemma AnswerOne(arch: Arch, y: Name, sem: Sem)
    requires y in arch.layouts && Pick(sem.picks, 0) == 1
    ensures Cut(Eval(Guess(arch, y).rhs, map[], sem, 0), Guess(arch, y).dst.bits) == 1
  {
    var w := ViewWidth(arch.layouts[y]);
    assert Pow2(w) == 2 * Pow2(w - 1) && Pow2(64) == 2 * Pow2(63);
    hide Pow2;
    SmallMod(1, Pow2(64));
    SmallMod(1, Pow2(w));
  }

  /** An unmodelled view written after `x` is never harmless. */
  lemma LateAliasNever(arch: Arch, x: Name, y: Name, c: nat)
    requires Lawful(arch) && Aliases(arch, x, y) && IsSource(x) && IsSource(y)
    ensures var ss := [Known(arch, x, c), Guess(arch, y)]; !AlwaysRight(ss, arch, x) && !Decides(ss, arch, x)
  {
    var s, t := Known(arch, x, c), Guess(arch, y);
    var ss := [s, t];
    EarlyDecides(arch, x, y, c);
    AliasKeys(arch, x, y);
    var sem, sem' := Sem([0], NO_FP, arch.ptr), Sem([1], NO_FP, arch.ptr);
    var v := Cut(Cut(c, s.dst.bits), s.dst.bits);
    TwoLand(arch, x, s, t, map[], map[], sem);
    TwoLand(arch, x, s, t, map[], map[], sem');
    ClearedAnswer(arch, y, sem);
    AnswerOne(arch, y, sem');
    var ly, r := arch.layouts[y], Landed(arch, x, StartRegister(arch, map[], KeyOf(arch, x)), v);
    TwoAnswers(ly, ParentWidth(arch, ly.parent), r);
    hide RegisterAfter, FinalRegister, SideRun, Decides, Pow2, Cut;
    assert !RightFrom(ss, arch, x, map[], map[], sem) || !RightFrom(ss, arch, x, map[], map[], sem');
  }

  // ---- An input: the low byte of an unmodelled register ----

  const RAX := Plain("rax")
  const AL := Plain("al")
  const RAX64 := Var(RAX, 64)
  const X64 := Arch(map[RAX := Layout(RAX, 0, 63, false), AL := Layout(RAX, 0, 7, false)], {}, 512, 64)

  /** `rax` unmodelled, then `al` five. */
  const LOW_BYTE: seq<Stmt> := [Assign(RAX64, Expr.Unknown("")), Assign(Var(AL, 8), Const(5, 8))]
  /** `rax` five. */
  const FIVE: seq<Stmt> := [Assign(RAX64, Const(5, 64))]

  const LOW_BYTE_DEFS: map<Name, Var> := map[RAX := Var(Versioned(RAX, 0), 64), AL := Var(Versioned(AL, 0), 8)]
  const FIVE_DEFS: map<Name, Var> := map[RAX := Var(Versioned(RAX, 0), 64)]

  lemma TaintOfTwo(s: Stmt, t: Stmt)
    ensures TaintedDefs([s, t]) == (match TaintStep(s, Taint({}, false)) case None => None case Some(u) => TaintStep(t, u))
  {
    hide TaintStep;
    assert [s, t][..1] == [s] && [s][..0] == [];
    assert TaintedDefs([]) == Some(Taint({}, false));
  }

  lemma FinalsOfTwo(d: Var, e: Var)
    requires d.name.Versioned? && e.name.Versioned?
    ensures FinalDefs([d, e]) == map[d.name.base := d][e.name.base := e]
  {
    assert [d, e][..1] == [d] && [d][..0] == [];
    assert FinalDefs([]) == map[];
  }

  lemma LowByteParts()
    ensures
      var s := Convert(LOW_BYTE);
      s.statements == [Assign(Var(Versioned(RAX, 0), 64), Expr.Unknown("")), Assign(Var(Versioned(AL, 0), 8), Const(5, 8))]
      && s.inputs == map[] && s.defs == [Var(Versioned(RAX, 0), 64), Var(Versioned(AL, 0), 8)]
      && TaintedDefs(s.statements) == Some(Taint({Versioned(RAX, 0)}, false)) && FinalDefs(s.defs) == LOW_BYTE_DEFS
  {
    assert LOW_BYTE[..1] == [LOW_BYTE[0]] && LOW_BYTE[..1][..0] == [];
    var s := Convert(LOW_BYTE);
    assert Convert(LOW_BYTE[..1]) == Define(EMPTY, RAX64, map[], Assign(Var(Versioned(RAX, 0), 64), Expr.Unknown("")));
    TaintOfTwo(s.statements[0], s.statements[1]);
    assert TaintStep(s.statements[0], Taint({}, false)) == Some(Taint({Versioned(RAX, 0)}, false)) by {
      assert {} + {Versioned(RAX, 0)} == {Versioned(RAX, 0)};
    }
    FinalsOfTwo(s.defs[0], s.defs[1]);
    assert s.statements == [s.statements[0], s.statements[1]] && s.defs == [s.defs[0], s.defs[1]];
    hide TaintedDefs, FinalDefs;
    assert map[RAX := s.defs[0]][AL := s.defs[1]] == LOW_BYTE_DEFS;
  }

  lemma FiveParts()
    ensures
      var s := Convert(FIVE);
      s.statements == [Assign(Var(Versioned(RAX, 0), 64), Const(5, 64))] && s.inputs == map[] && s.defs == [Var(Versioned(RAX, 0), 64)]
      && TaintedDefs(s.statements) == Some(Taint({}, false)) && FinalDefs(s.defs) == FIVE_DEFS
  {
    assert FIVE[..0] == [];
    var s := Convert(FIVE);
    assert s.statements[..0] == [] && s.defs[..0] == [];
  }

  const LOW_BYTE_FINALS: map<Name, Expr> := map[RAX := Rebuild(RAX64, 0, 7, Ref(Var(Sided(SideA, AL, 0), 8)))]
  const FIVE_FINALS: map<Name, Expr> := map[RAX := Ref(Var(Sided(SideB, RAX, 0), 64))]

  /** The low byte speaks for the whole register; the unmodelled write is passed over. */
  lemma LowByteSpeaks()
    ensures IsFinals(X64, LOW_BYTE_DEFS, {Versioned(RAX, 0)}, SideA, LOW_BYTE_FINALS)
    ensures forall x :: x in LOW_BYTE_DEFS && Speaks(X64, LOW_BYTE_DEFS, {Versioned(RAX, 0)}, SideA, x) <==> x == AL
  {
    hide Rebuild;
    var tainted := {Versioned(RAX, 0)};
    assert FinalExpr(X64, LOW_BYTE_DEFS, SideA, AL) == Some(LOW_BYTE_FINALS[RAX]);
    assert !Eligible(X64, LOW_BYTE_DEFS, tainted, RAX);
    assert Speaks(X64, LOW_BYTE_DEFS, tainted, SideA, AL);
    assert KeyOf(X64, AL) == RAX;
  }

  lemma FiveSpeaks()
    ensures IsFinals(X64, FIVE_DEFS, {}, SideB, FIVE_FINALS)
    ensures forall x :: x in FIVE_DEFS && Speaks(X64, FIVE_DEFS, {}, SideB, x) <==> x == RAX
  {
    assert FinalExpr(X64, FIVE_DEFS, SideB, RAX) == Some(FIVE_FINALS[RAX]);
    assert Speaks(X64, FIVE_DEFS, {}, SideB, RAX);
    assert KeyOf(X64, RAX) == RAX;
  }

  lemma {:induction false} PlainRun(e: MemElim.ElimState, ss: seq<Stmt>, ptr: nat)
    requires forall i :: 0 <= i < |ss| ==> ss[i].Assign?
    ensures MemElim.RunSide(e, ss, ptr).Some? && MemElim.RunSide(e, ss, ptr).value.1 == []
    decreases |ss|
  {
    if ss != [] { PlainRun(e, ss[..|ss| - 1], ptr); }
  }

  /** Two sides of assignments need no memory: the plan exists and probes nothing. */
  lemma PlainPlan(sa: seq<Stmt>, sb: seq<Stmt>, ptr: nat, enabled: bool)
    requires (forall i :: 0 <= i < |sa| ==> sa[i].Assign?) && (forall i :: 0 <= i < |sb| ==> sb[i].Assign?)
    ensures MemElim.Eliminate(sa, sb, ptr, enabled, []).Some? && MemElim.Lists([], MemElim.Written(sa, sb, ptr))
  {
    hide MemElim.RunSide;
    PlainRun(MemElim.START, sa, ptr);
    PlainRun(MemElim.RunSide(MemElim.START, sa, ptr).value.0, sb, ptr);
  }

  lemma {:induction false} LoweredPlain(ss: seq<Stmt>, side: Side, arch: Arch)
    requires forall i :: 0 <= i < |ss| ==> ss[i].Assign? && (ss[i].rhs.Unknown? || ss[i].rhs.Const?)
    ensures var r := NamespaceAll(ss, side, arch); r.Some? && forall i :: 0 <= i < |r.value| ==> r.value[i].Assign?
    decreases |ss|
  {
    if ss != [] { LoweredPlain(ss[..|ss| - 1], side, arch); }
  }

  /** The two have a query. */
  lemma LowByteQuery() returns (q: Query)
    ensures IsQuery(LOW_BYTE, FIVE, X64, [], [RAX], LOW_BYTE_FINALS, FIVE_FINALS, q)
  {
    LowByteParts();
    FiveParts();
    LowByteSpeaks();
    FiveSpeaks();
    hide Convert, TaintedDefs, FinalDefs, IsFinals, Speaks, MemElim.Eliminate, MemElim.Written, MemoryEnabled, NamespaceAll, Rebuild;
    var sa, sb := Convert(LOW_BYTE), Convert(FIVE);
    LoweredPlain(sa.statements, SideA, X64);
    LoweredPlain(sb.statements, SideB, X64);
    var la, lb := Lowered(LOW_BYTE, SideA, X64).value, Lowered(FIVE, SideB, X64).value;
    var enabled := MemoryEnabled(sa, sb, TaintedDefs(sa.statements).value, TaintedDefs(sb.statements).value, X64);
    PlainPlan(la, lb, X64.ptr, enabled);
    var plan := MemElim.Eliminate(la, lb, X64.ptr, enabled, []).value;
    assert (set key | key in [RAX]) == LOW_BYTE_FINALS.Keys;
    assert [RAX][..0] == [];
    var terms := Terms(LOW_BYTE_FINALS, FIVE_FINALS, [RAX]) + ProbeTerms(plan.probes);
    assert terms != [];
    EmptyDisjunction(terms);
    q := Query(plan.statements, DifferCondition(LOW_BYTE_FINALS, FIVE_FINALS, plan.probes, [RAX]).value);
  }

  lemma FitsFive(bits: nat)
    requires bits >= 3
    ensures Pow2(bits) >= 8 && Cut(5, bits) == 5
  {
    Pow2Mono(3, bits);
    assert Pow2(3) == 8;
    hide Pow2;
    SmallMod(5, Pow2(bits));
  }

  lemma LowByteEnds(m: Env, m0: Mem, sem: Sem)
    ensures Get(SideRun(LOW_BYTE, X64, m, m0, sem, 0).env, AL) == 5
    ensures FinalRegister(LOW_BYTE, X64, m, m0, sem, 0, RAX) ==
      RegisterAfter(X64.layouts[AL], 64, RegisterAfter(X64.layouts[RAX], 64, StartRegister(X64, m, RAX), Cut(Cut(Pick(sem.picks, 0), 64), 64)), 5)
  {
    hide RegisterAfter, FinalRegister, SideRun, StartRegister, Cut, Pow2;
    var s, t := LOW_BYTE[0], LOW_BYTE[1];
    FiveKeys();
    assert LOW_BYTE == [s, t];
    FitsFive(8);
    assert Eval(t.rhs, map[], sem, 1) == Cut(5, 8) && Eval(s.rhs, map[], sem, 0) == Cut(Pick(sem.picks, 0), 64);
    hide KeyOf, Eval;
    TwoLand(X64, RAX, s, t, m, m0, sem);
  }

  lemma FiveKeys()
    ensures KeyOf(X64, RAX) == RAX && KeyOf(X64, AL) == RAX
  {
  }

  lemma FiveEnds(m: Env, m0: Mem, sem: Sem)
    ensures Get(SideRun(FIVE, X64, m, m0, sem, 0).env, RAX) == 5
    ensures FinalRegister(FIVE, X64, m, m0, sem, 0, RAX) == 5
  {
    hide Pow2, Cut, StartRegister, StartEnv;
    FitsFive(64);
    var s := FIVE[0];
    FiveKeys();
    assert FIVE == [s] && [] + [s] == [s];
    ExecAppend([], s, State(StartEnv(X64, m), m0), sem, 0);
    assert Eval(s.rhs, StartEnv(X64, m), sem, 0) == Cut(5, 64);
    assert Get(SideRun(FIVE, X64, m, m0, sem, 0).env, RAX) == 5;
    OneLands(X64, RAX, s, m, m0, sem);
  }

  /** Five in the low byte of 256 is not five; in the low byte of five it is. */
  lemma SplicedByte()
    ensures RegisterAfter(X64.layouts[AL], 64, 256, 5) != 5 && RegisterAfter(X64.layouts[AL], 64, 5, 5) == 5
  {
    hide Cut, Pow2, Put;
    FitsFive(8);
    HighPart();
    assert ViewWidth(X64.layouts[AL]) == 8;
  }

  lemma HighPart()
    ensures Put(256, 0, 7, 64, 5) != 5 && Put(5, 0, 7, 64, 5) == 5
  {
    assert Pow2(0) == 1 && Pow2(8) == 256 && Pow2(56) == 2 * Pow2(55);
    hide Pow2;
    SmallMod(1, Pow2(56));
    SmallMod(0, Pow2(56));
    assert Slice(256, 8, 56) == 1 && Slice(5, 8, 56) == 0;
    assert Cut(256, 0) == 0 && Cut(5, 0) == 0;
    hide Slice, Cut;
  }

  lemma StartsAt256()
    ensures Val(map[RAX := 256], RAX64) == 256
  {
    Pow2Strict(8, 64);
    assert Pow2(8) == 256;
    hide Pow2;
    SmallMod(256, Pow2(64));
  }

  /** The two differ, by the comparison, from a machine whose register starts at 256. */
  lemma LowByteDiffers(fp: FpModel)
    ensures DifferFrom(LOW_BYTE, FIVE, X64, map[RAX := 256], map[], fp, [], [])
  {
    LowByteParts();
    FiveParts();
    LowByteSpeaks();
    FiveSpeaks();
    hide Convert, TaintedDefs, FinalDefs, Speaks, MemoryCompared, Pow2, SideRun, RegisterAfter, Cut;
    var m, sem := map[RAX := 256], Sem([], fp, 64);
    assert ComparedOn(LOW_BYTE, SideA, X64, AL) && ComparedOn(FIVE, SideB, X64, RAX);
    assert KeyOf(X64, AL) == RAX && KeyOf(X64, RAX) == RAX;
    LowByteEnds(m, map[], sem);
    FiveEnds(m, map[], sem);
    SplicedByte();
    StartsAt256();
    FitsFive(64);
    assert KeyValue(X64, m, AL, 5) != 5;
    assert KeyValue(X64, m, RAX, 5) == Cut(5, 64);
  }

  /** No machine tells them apart when the unknown is answered with five. */
  lemma LowByteSame(m: Env, m0: Mem, fp: FpModel)
    ensures !MachinesDiffer(LOW_BYTE, FIVE, X64, m, m0, fp, [5], [])
  {
    LowByteParts();
    FiveParts();
    hide Convert, TaintedDefs, FinalDefs, Speaks, Pow2, SideRun, RegisterAfter, Cut, FinalRegister;
    var p, q := Sem([5], fp, 64), Sem([], fp, 64);
    assert !Writes(LOW_BYTE);
    LowByteEnds(m, m0, p);
    FiveEnds(m, m0, q);
    SplicedByte();
    FitsFive(64);
    assert RegisterAfter(X64.layouts[RAX], 64, StartRegister(X64, m, RAX), 5) == 5 by { WholeFive(StartRegister(X64, m, RAX)); }
    forall key | Shared(LOW_BYTE, FIVE, X64, key) ensures key == RAX {
      var x, y :| ComparedOn(LOW_BYTE, SideA, X64, x) && ComparedOn(FIVE, SideB, X64, y) && KeyOf(X64, x) == key && KeyOf(X64, y) == key;
      assert y in FIVE_DEFS;
    }
  }

  lemma WholeFive(p: nat)
    ensures RegisterAfter(X64.layouts[RAX], 64, p, 5) == 5
  {
    FitsFive(64);
    hide Pow2;
  }

  /** A query that can be satisfied although from no state do the machines differ for
      every answer: its `Disagree` is made up. */
  lemma MadeUpDifference(fp: FpModel) returns (q: Query)
    ensures IsQuery(LOW_BYTE, FIVE, X64, [], [RAX], LOW_BYTE_FINALS, FIVE_FINALS, q)
    ensures Satisfiable(q, fp, 64, true) && !exists m, m0 :: AlwaysDiffer(LOW_BYTE, FIVE, X64, m, m0, fp)
    ensures !Plainly(LOW_BYTE, SideA, X64)
  {
    q := LowByteQuery();
    LowByteDiffers(fp);
    hide IsQuery, Plainly, DifferFrom, Satisfiable, MachinesDiffer;
    assert SourceProgram(LOW_BYTE) && SourceProgram(FIVE) && Lawful(X64);
    DifferenceIsSolution(LOW_BYTE, FIVE, X64, [], [RAX], LOW_BYTE_FINALS, FIVE_FINALS, q, map[RAX := 256], map[], fp, [], []);
    forall m, m0 ensures !AlwaysDiffer(LOW_BYTE, FIVE, X64, m, m0, fp) {
      LowByteSame(m, m0, fp);
    }
    if Plainly(LOW_BYTE, SideA, X64) {
      FivePlainly();
      QueryMeansDifference(LOW_BYTE, FIVE, X64, [], [RAX], LOW_BYTE_FINALS, FIVE_FINALS, q, fp);
    }
  }

  lemma FivePlainly()
    ensures Plainly(FIVE, SideB, X64)
  {
    OneNamePlainly(FIVE, SideB, X64);
  }
}
