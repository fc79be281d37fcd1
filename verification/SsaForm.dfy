/** Static single assignment, and why it lets a solver read a statement list as a
    set of equations. */
module SsaForm {
  import opened Bits
  import opened Ir

  function DstOf(s: Stmt): set<Name> {
    match s
    case Assign(dst, _) => {dst.name}
    case LoadMem(dst, _, _) => {dst.name}
    case _ => {}
  }

  function ReadsOf(s: Stmt): set<Name> {
    match s
    case Assign(_, rhs) => Reads(rhs)
    case LoadMem(_, address, _) => Reads(address)
    case StoreMem(address, value, _) => Reads(address) + Reads(value)
    case _ => {}
  }

  function Defined(ss: seq<Stmt>): set<Name> {
    if ss == [] then {} else Defined(ss[..|ss| - 1]) + DstOf(ss[|ss| - 1])
  }

  function ReadBy(ss: seq<Stmt>): set<Name> {
    if ss == [] then {} else ReadBy(ss[..|ss| - 1]) + ReadsOf(ss[|ss| - 1])
  }

  /** Every name is defined at most once, and never read before that. */
  predicate IsSsa(ss: seq<Stmt>) {
    ss == [] ||
    var p, s := ss[..|ss| - 1], ss[|ss| - 1];
    IsSsa(p) && forall x :: x in DstOf(s) ==> x !in Defined(p) && x !in ReadBy(p) && x !in ReadsOf(s)
  }

  predicate MemoryFree(ss: seq<Stmt>) {
    forall i :: 0 <= i < |ss| ==> !ss[i].LoadMem? && !ss[i].StoreMem?
  }

  lemma IsSsaAppend(ss: seq<Stmt>, s: Stmt)
    ensures Defined(ss + [s]) == Defined(ss) + DstOf(s) && ReadBy(ss + [s]) == ReadBy(ss) + ReadsOf(s)
    ensures IsSsa(ss + [s]) <==> IsSsa(ss) && forall x :: x in DstOf(s) ==> x !in Defined(ss) && x !in ReadBy(ss) && x !in ReadsOf(s)
  {
    hide DstOf, ReadsOf;
    assert (ss + [s])[..|ss|] == ss;
  }

  // ---- Statements as equations ----

  /** `env` makes every assignment an equality, as the solver is asked to. */
  ghost predicate Solves(ss: seq<Stmt>, env: Env, sem: Sem) {
    ss == [] || (Solves(ss[..|ss| - 1], env, sem) && Holds(ss[|ss| - 1], env, sem, CountStmts(ss[..|ss| - 1])))
  }

  ghost predicate Holds(s: Stmt, env: Env, sem: Sem, k: nat) {
    s.Assign? ==> Get(env, s.dst.name) == Cut(Eval(s.rhs, env, sem, k), s.dst.bits)
  }

  ghost predicate SameEnv(env: Env, env': Env) {
    forall x {:trigger Get(env, x)} :: Get(env, x) == Get(env', x)
  }

  /** A solution is an execution that changes nothing. */
  lemma {:induction false} SolutionRuns(ss: seq<Stmt>, env: Env, mem: Mem, sem: Sem)
    requires MemoryFree(ss) && Solves(ss, env, sem)
    ensures SameEnv(env, Exec(ss, State(env, mem), sem, 0).env)
    decreases |ss|
  {
    hide Eval, Cut, CountStmt;
    if ss != [] {
      var p, s := ss[..|ss| - 1], ss[|ss| - 1];
      SolutionRuns(p, env, mem, sem);
      var env' := Exec(p, State(env, mem), sem, 0).env;
      if s.Assign? { EvalFrame(s.rhs, env, env', sem, CountStmts(p)); }
    }
  }

  lemma {:induction false} SolvesFrame(ss: seq<Stmt>, env: Env, x: Name, v: nat, sem: Sem)
    requires Solves(ss, env, sem) && x !in Defined(ss) && x !in ReadBy(ss)
    ensures Solves(ss, env[x := v], sem)
    decreases |ss|
  {
    hide Eval, Cut, CountStmts;
    if ss != [] {
      var p, s := ss[..|ss| - 1], ss[|ss| - 1];
      SolvesFrame(p, env, x, v, sem);
      if s.Assign? { EvalFrame(s.rhs, env, env[x := v], sem, CountStmts(p)); }
    }
  }

  /** In SSA form, what an execution ends with is a solution. */
  lemma {:induction false} RunSolves(ss: seq<Stmt>, env: Env, mem: Mem, sem: Sem)
    requires IsSsa(ss) && MemoryFree(ss)
    ensures Solves(ss, Exec(ss, State(env, mem), sem, 0).env, sem)
    decreases |ss|
  {
    hide Eval, Cut, CountStmts;
    if ss != [] {
      var p, s := ss[..|ss| - 1], ss[|ss| - 1];
      RunSolves(p, env, mem, sem);
      var env' := Exec(p, State(env, mem), sem, 0).env;
      if s.Assign? {
        var v := Cut(Eval(s.rhs, env', sem, CountStmts(p)), s.dst.bits);
        assert s.dst.name in DstOf(s);
        SolvesFrame(p, env', s.dst.name, v, sem);
        EvalFrame(s.rhs, env', env'[s.dst.name := v], sem, CountStmts(p));
      }
    }
  }
}
