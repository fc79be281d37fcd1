/** Solutions of the query and differences between the two lowerings' final
    definitions are the same thing, and what a solver's answers are turned into. */
module EquivVerdict {
  import opened Bits
  import opened Common
  import opened Ir
  import opened Ssa
  import opened SsaForm
  import opened Layouts
  import opened Namespace
  import opened Sides
  import opened Taint
  import opened EquivQuery
  import opened EquivMeaning
  import opened EquivTheorem
  import opened MemElim
  import opened MemChoice
  import opened MemPlans
  import opened MemSsa
  import MemTrace

  /** An assignment that solves every equation, with the condition true or false. */
  ghost predicate Model(q: Query, env: Env, sem: Sem, holds: bool) {
    Solves(q.statements, env, sem) && (Eval(q.condition, env, sem, CountStmts(q.statements)) != 0 <==> holds)
  }

  ghost predicate Satisfiable(q: Query, fp: FpModel, ptr: nat, holds: bool) {
    exists env, picks :: Model(q, env, Sem(picks, fp, ptr), holds)
  }

  /** From machine state `m` and memory `m0` the compared definitions or memories end
      differently, when the unknowns are answered by `pa` and `pb`. */
  ghost predicate DifferFrom(a: seq<Stmt>, b: seq<Stmt>, arch: Arch, m: Env, m0: Mem, fp: FpModel, pa: seq<nat>, pb: seq<nat>) {
    Differ(a, b, arch, MemoryCompared(a, b, arch), m, m0, Sem(pa, fp, arch.ptr), 0, Sem(pb, fp, arch.ptr), 0)
  }

  ghost predicate AlwaysDifferFrom(a: seq<Stmt>, b: seq<Stmt>, arch: Arch, m: Env, m0: Mem, fp: FpModel) {
    forall pa, pb :: DifferFrom(a, b, arch, m, m0, fp, pa, pb)
  }

  ghost predicate CanDiffer(a: seq<Stmt>, b: seq<Stmt>, arch: Arch, fp: FpModel) {
    exists m, m0, pa, pb :: DifferFrom(a, b, arch, m, m0, fp, pa, pb)
  }

  lemma TaintLatch(a: seq<Stmt>, b: seq<Stmt>, arch: Arch)
    ensures MemoryCompared(a, b, arch) ==>
      TaintedDefs(Convert(a).statements).Some? && TaintedDefs(Convert(b).statements).Some?
      && !TaintedDefs(Convert(a).statements).value.memory && !TaintedDefs(Convert(b).statements).value.memory
  {
    hide Convert, TaintedDefs, LacksSimdModel, Writes;
  }

  /** How either side's unknowns are answered makes no difference to what differs. */
  lemma AnswersDoNotMatter(a: seq<Stmt>, b: seq<Stmt>, arch: Arch, m: Env, m0: Mem, p: Sem, j: nat, p': Sem, k: nat, q: Sem, j': nat, q': Sem, k': nat)
    requires SourceProgram(a) && SourceProgram(b) && Comparable(p, q) && Comparable(p', q')
    requires TaintedDefs(Convert(a).statements).Some? && TaintedDefs(Convert(b).statements).Some?
    ensures Differ(a, b, arch, MemoryCompared(a, b, arch), m, m0, p, j, p', k) ==> Differ(a, b, arch, MemoryCompared(a, b, arch), m, m0, q, j', q', k')
  {
    TaintLatch(a, b, arch);
    hide Differ, MemoryCompared, Convert, TaintedDefs, SourceProgram;
    UnknownsDoNotDecide(a, b, arch, MemoryCompared(a, b, arch), m, m0, p, j, p', k, q, j', q', k');
  }

  /** A solution of the query is a machine state and a memory from which compared
      definitions or memories end differently, however the unknowns are answered. */
  lemma SolutionIsDifference(a: seq<Stmt>, b: seq<Stmt>, arch: Arch, addrs: seq<Var>, keys: seq<Name>, fa: map<Name, Expr>, fb: map<Name, Expr>, q: Query,
                             rho: Env, sem: Sem) returns (m0: Mem)
    requires Lawful(arch) && SourceProgram(a) && SourceProgram(b) && sem.ptr == arch.ptr
    requires IsQuery(a, b, arch, addrs, keys, fa, fb, q) && Model(q, rho, sem, true)
    ensures AlwaysDifferFrom(a, b, arch, rho, m0, sem.fp)
  {
    QueryParts(a, b, arch, addrs, keys, fa, fb, q);
    hide IsQuery, Convert, TaintedDefs, Lowered, Eliminate, Written, Lists, DifferCondition, IsFinals, FinalDefs, Exec, SourceProgram,
         Lawful, Eval, CountStmts, MemoryCompared, Differ, Solves, Realises, IsSsa, MemoryFree, MemTrace.InputProgram, Reads;
    m0 := SolutionMemory(a, b, arch, addrs, rho, sem);
    SolutionEval(a, b, arch, addrs, q, rho, sem);
    ConditionIsDiffer(a, b, arch, addrs, keys, fa, fb, q, rho, rho, m0, sem, CountStmts(q.statements));
    forall pa, pb ensures DifferFrom(a, b, arch, rho, m0, sem.fp, pa, pb) {
      AnswersDoNotMatter(a, b, arch, rho, m0, sem, 0, sem, CountStmts(a), Sem(pa, sem.fp, arch.ptr), 0, Sem(pb, sem.fp, arch.ptr), 0);
    }
  }

  lemma SolutionMemory(a: seq<Stmt>, b: seq<Stmt>, arch: Arch, addrs: seq<Var>, rho: Env, sem: Sem) returns (m0: Mem)
    requires Lawful(arch) && SourceProgram(a) && SourceProgram(b) && sem.ptr == arch.ptr && PlanOf(a, b, arch, addrs).Some?
    requires Lists(addrs, Written(Lowered(a, SideA, arch).value, Lowered(b, SideB, arch).value, arch.ptr))
    ensures PlanRuns(a, b, arch, addrs, rho, rho, m0, sem)
  {
    hide Convert, TaintedDefs, Lowered, Eliminate, Written, Lists, SourceProgram, Lawful, Realises, IsSsa, MemTrace.InputProgram, MemoryEnabled;
    var sa, sb, la, lb := Convert(a), Convert(b), Lowered(a, SideA, arch).value, Lowered(b, SideB, arch).value;
    SidesAreSsa(a, b, arch);
    m0 := FreeBytesAreSomeMemory(la, lb, arch.ptr,
      MemoryEnabled(sa, sb, TaintedDefs(sa.statements).value, TaintedDefs(sb.statements).value, arch), addrs, rho, sem);
  }

  /** The statements of a query are SSA and memory-free. */
  lemma PlanIsSsa(a: seq<Stmt>, b: seq<Stmt>, arch: Arch, addrs: seq<Var>)
    requires Lawful(arch) && SourceProgram(a) && SourceProgram(b) && PlanOf(a, b, arch, addrs).Some?
    requires Lists(addrs, Written(Lowered(a, SideA, arch).value, Lowered(b, SideB, arch).value, arch.ptr))
    ensures var ss := PlanOf(a, b, arch, addrs).value.statements; IsSsa(ss) && MemoryFree(ss)
  {
    hide Convert, TaintedDefs, Lowered, Eliminate, Written, Lists, SourceProgram, Lawful, IsSsa, MemoryFree, MemTrace.InputProgram, MemoryEnabled;
    var sa, sb, la, lb := Convert(a), Convert(b), Lowered(a, SideA, arch).value, Lowered(b, SideB, arch).value;
    SidesAreSsa(a, b, arch);
    EliminateIsSsa(la, lb, arch.ptr,
      MemoryEnabled(sa, sb, TaintedDefs(sa.statements).value, TaintedDefs(sb.statements).value, arch), addrs);
  }

  /** A solution and the execution from it agree on the condition. */
  lemma SolutionEval(a: seq<Stmt>, b: seq<Stmt>, arch: Arch, addrs: seq<Var>, q: Query, rho: Env, sem: Sem)
    requires Lawful(arch) && SourceProgram(a) && SourceProgram(b) && PlanOf(a, b, arch, addrs).Some?
    requires q.statements == PlanOf(a, b, arch, addrs).value.statements && Solves(q.statements, rho, sem)
    requires Lists(addrs, Written(Lowered(a, SideA, arch).value, Lowered(b, SideB, arch).value, arch.ptr))
    ensures forall k :: Eval(q.condition, rho, sem, k) == Eval(q.condition, Exec(q.statements, State(rho, map[]), sem, 0).env, sem, k)
  {
    hide Convert, Lowered, PlanOf, Lists, Written, SourceProgram, Lawful, IsSsa, MemoryFree, Solves, Exec, Eval, Reads;
    PlanIsSsa(a, b, arch, addrs);
    SolutionRuns(q.statements, rho, map[], sem);
    var last := Exec(q.statements, State(rho, map[]), sem, 0).env;
    forall k: nat ensures Eval(q.condition, rho, sem, k) == Eval(q.condition, last, sem, k) {
      EvalFrame(q.condition, rho, last, sem, k);
    }
  }

  /** A compared difference, from any machine state and any memory, solves the query. */
  lemma DifferenceIsSolution(a: seq<Stmt>, b: seq<Stmt>, arch: Arch, addrs: seq<Var>, keys: seq<Name>, fa: map<Name, Expr>, fb: map<Name, Expr>, q: Query,
                             m: Env, m0: Mem, fp: FpModel, pa: seq<nat>, pb: seq<nat>)
    requires Lawful(arch) && SourceProgram(a) && SourceProgram(b) && IsQuery(a, b, arch, addrs, keys, fa, fb, q)
    ensures Satisfiable(q, fp, arch.ptr, DifferFrom(a, b, arch, m, m0, fp, pa, pb))
  {
    QueryParts(a, b, arch, addrs, keys, fa, fb, q);
    hide IsQuery, Convert, TaintedDefs, Lowered, PlanOf, Written, Lists, DifferCondition, IsFinals, FinalDefs, Exec, SourceProgram,
         Lawful, Eval, CountStmts, MemoryCompared, Differ, Solves, Realises, IsSsa, MemoryFree;
    var sem, sem' := Sem(pa, fp, arch.ptr), Sem(pb, fp, arch.ptr);
    var inputs := StateInputs(a, b, arch, addrs, m, m0, sem);
    PlanIsSsa(a, b, arch, addrs);
    RunSolves(q.statements, inputs, map[], sem);
    ConditionIsDiffer(a, b, arch, addrs, keys, fa, fb, q, inputs, m, m0, sem, CountStmts(q.statements));
    AnswersDoNotMatter(a, b, arch, m, m0, sem, 0, sem', 0, sem, 0, sem, CountStmts(a));
    AnswersDoNotMatter(a, b, arch, m, m0, sem, 0, sem, CountStmts(a), sem, 0, sem', 0);
    assert Model(q, Exec(q.statements, State(inputs, map[]), sem, 0).env, Sem(pa, fp, arch.ptr), DifferFrom(a, b, arch, m, m0, fp, pa, pb));
  }

  lemma StateInputs(a: seq<Stmt>, b: seq<Stmt>, arch: Arch, addrs: seq<Var>, m: Env, m0: Mem, sem: Sem) returns (inputs: Env)
    requires Lawful(arch) && SourceProgram(a) && SourceProgram(b) && sem.ptr == arch.ptr && PlanOf(a, b, arch, addrs).Some?
    requires Lists(addrs, Written(Lowered(a, SideA, arch).value, Lowered(b, SideB, arch).value, arch.ptr))
    ensures PlanRuns(a, b, arch, addrs, inputs, m, m0, sem)
  {
    hide Convert, TaintedDefs, Lowered, Eliminate, Written, Lists, SourceProgram, Lawful, Realises, IsSsa, MemTrace.InputProgram, MemoryEnabled;
    var sa, sb, la, lb := Convert(a), Convert(b), Lowered(a, SideA, arch).value, Lowered(b, SideB, arch).value;
    SidesAreSsa(a, b, arch);
    inputs := EveryMemoryIsSomeFreeBytes(la, lb, arch.ptr,
      MemoryEnabled(sa, sb, TaintedDefs(sa.statements).value, TaintedDefs(sb.statements).value, arch), addrs, m, m0, sem);
  }

  /** The query can be satisfied exactly when compared final definitions, or compared
      memories, can differ. */
  lemma QueryMeansFinals(a: seq<Stmt>, b: seq<Stmt>, arch: Arch, addrs: seq<Var>, keys: seq<Name>, fa: map<Name, Expr>, fb: map<Name, Expr>, q: Query,
                             fp: FpModel)
    requires Lawful(arch) && SourceProgram(a) && SourceProgram(b) && IsQuery(a, b, arch, addrs, keys, fa, fb, q)
    ensures Satisfiable(q, fp, arch.ptr, true) <==> CanDiffer(a, b, arch, fp)
    ensures CanDiffer(a, b, arch, fp) <==> exists m, m0 :: AlwaysDifferFrom(a, b, arch, m, m0, fp)
  {
    hide IsQuery, Lawful, SourceProgram, Model, DifferFrom;
    if Satisfiable(q, fp, arch.ptr, true) {
      var rho, picks :| Model(q, rho, Sem(picks, fp, arch.ptr), true);
      var m0 := SolutionIsDifference(a, b, arch, addrs, keys, fa, fb, q, rho, Sem(picks, fp, arch.ptr));
      assert DifferFrom(a, b, arch, rho, m0, fp, [], []);
    }
    if CanDiffer(a, b, arch, fp) {
      var m, m0, pa, pb :| DifferFrom(a, b, arch, m, m0, fp, pa, pb);
      DifferenceIsSolution(a, b, arch, addrs, keys, fa, fb, q, m, m0, fp, pa, pb);
    }
    if exists m, m0 :: AlwaysDifferFrom(a, b, arch, m, m0, fp) {
      var m, m0 :| AlwaysDifferFrom(a, b, arch, m, m0, fp);
      assert DifferFrom(a, b, arch, m, m0, fp, [], []);
    }
  }

  // ---- The verdict ----

  datatype SatResult = Sat | Unsat | Unknown
  datatype SmtResult = AlwaysTrue | AlwaysFalse | BothPossible | Unsound | Timeout
  datatype Verdict = Agree | Disagree | Inconclusive

  /** What the two checks of a condition say together. */
  function Combine(satTrue: SatResult, satFalse: SatResult): SmtResult {
    match (satTrue, satFalse)
    case (Sat, Unsat) => AlwaysTrue
    case (Unsat, Sat) => AlwaysFalse
    case (Sat, Sat) => BothPossible
    case (Unsat, Unsat) => Unsound
    case _ => Timeout
  }

  /** The names the encoder has declared, each with the width it was first met at, and
      whether a later use contradicted one of them. */
  datatype Decls = Decls(widths: map<Name, nat>, conflict: bool)

  /** Reading a name at no more than its width is a view of it. */
  function ReadDecl(d: Decls, v: Var): Decls {
    if v.name in d.widths then d.(conflict := d.conflict || v.bits > d.widths[v.name])
    else d.(widths := d.widths[v.name := v.bits])
  }

  function DefineDecl(d: Decls, v: Var): Decls {
    if v.name in d.widths then d.(conflict := d.conflict || v.bits != d.widths[v.name])
    else d.(widths := d.widths[v.name := v.bits])
  }

  /** A slice past its operand's top bit is a contradiction too. */
  function ExprDecls(d: Decls, e: Expr): Decls
    decreases e
  {
    match e
    case Ref(v) => ReadDecl(d, v)
    case Const(_, _) => d
    case FpConst(_, _, _) => d
    case Unknown(_) => d
    case Un(op, a) =>
      var d' := ExprDecls(d, a);
      if op.Extract? && (op.hi >= Width(a) || op.lo > op.hi) then d'.(conflict := true) else d'
    case Bin(_, a, b) => ExprDecls(ExprDecls(d, a), b)
    case Ite(c, t, f) => ExprDecls(ExprDecls(ExprDecls(d, c), t), f)
  }

  /** A query's statements are assignments, memory having been compiled away. */
  function StmtDecls(ss: seq<Stmt>): Decls {
    if ss == [] then Decls(map[], false) else
    var d, s := StmtDecls(ss[..|ss| - 1]), ss[|ss| - 1];
    if s.Assign? then DefineDecl(ExprDecls(d, s.rhs), s.dst) else d
  }

  predicate WidthConflict(q: Query) {
    ExprDecls(StmtDecls(q.statements), q.condition).conflict
  }

  /** A contradicted width discards both answers. */
  function Solved(q: Query, satTrue: SatResult, satFalse: SatResult): SmtResult {
    if WidthConflict(q) then Unsound else Combine(satTrue, satFalse)
  }

  function Classify(r: SmtResult): Verdict {
    match r
    case AlwaysFalse => Agree
    case AlwaysTrue => Disagree
    case BothPossible => Disagree
    case _ => Inconclusive
  }

  /** A solver may give up, but what it answers is right. */
  ghost predicate Right(answer: SatResult, q: Query, fp: FpModel, ptr: nat, holds: bool) {
    (answer == Sat ==> Satisfiable(q, fp, ptr, holds)) && (answer == Unsat ==> !Satisfiable(q, fp, ptr, holds))
  }
}
