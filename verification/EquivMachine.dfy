/** The main theorem about the equivalence query, over the registers of the machine,
    and the verdict drawn from it. */
module EquivMachine {
  import opened Bits
  import opened Common
  import opened Ir
  import opened Ssa
  import opened Layouts
  import opened Namespace
  import opened EquivQuery
  import opened EquivMeaning
  import opened EquivTheorem
  import opened EquivVerdict
  import opened EquivRegisters
  import opened MemPlans

  /** From machine state `m` and memory `m0` a register or flag both sides are compared
      on, or a compared memory, ends different, the unknowns answered by `pa` and `pb`. */
  ghost predicate MachinesDiffer(a: seq<Stmt>, b: seq<Stmt>, arch: Arch, m: Env, m0: Mem, fp: FpModel, pa: seq<nat>, pb: seq<nat>) {
    var p, q := Sem(pa, fp, arch.ptr), Sem(pb, fp, arch.ptr);
    RegistersDiffer(a, b, arch, m, m0, p, 0, q, 0)
    || (MemoryCompared(a, b, arch) && MemoriesDiffer(SideRun(a, arch, m, m0, p, 0).mem, SideRun(b, arch, m, m0, q, 0).mem))
  }

  ghost predicate AlwaysDiffer(a: seq<Stmt>, b: seq<Stmt>, arch: Arch, m: Env, m0: Mem, fp: FpModel) {
    forall pa, pb :: MachinesDiffer(a, b, arch, m, m0, fp, pa, pb)
  }

  /** Some machine state, memory and answers tell the two lowerings apart. */
  ghost predicate Distinguishable(a: seq<Stmt>, b: seq<Stmt>, arch: Arch, fp: FpModel) {
    exists m, m0, pa, pb :: MachinesDiffer(a, b, arch, m, m0, fp, pa, pb)
  }

  lemma MachinesAreFinals(a: seq<Stmt>, b: seq<Stmt>, arch: Arch, m: Env, m0: Mem, fp: FpModel, pa: seq<nat>, pb: seq<nat>)
    requires Lawful(arch) && SourceProgram(a) && SourceProgram(b) && Plainly(a, SideA, arch) && Plainly(b, SideB, arch)
    ensures MachinesDiffer(a, b, arch, m, m0, fp, pa, pb) <==> DifferFrom(a, b, arch, m, m0, fp, pa, pb)
  {
    hide Lawful, SourceProgram, Plainly, RegistersDiffer, MemoryCompared, MemoriesDiffer, SideRun, FinalsDiffer;
    FinalsAreRegisters(a, b, arch, m, m0, Sem(pa, fp, arch.ptr), 0, Sem(pb, fp, arch.ptr), 0);
  }

  /** The equivalence query means what it says, in both directions: where every compared
      definition decides its register, it can be satisfied exactly when the machines can
      end with a compared register, flag or memory byte different, and then there is a
      state from which they do whatever the unknowns are. */
  lemma QueryMeansDifference(a: seq<Stmt>, b: seq<Stmt>, arch: Arch, addrs: seq<Var>, keys: seq<Name>, fa: map<Name, Expr>, fb: map<Name, Expr>, q: Query,
                             fp: FpModel)
    requires Lawful(arch) && SourceProgram(a) && SourceProgram(b) && IsQuery(a, b, arch, addrs, keys, fa, fb, q)
    requires Plainly(a, SideA, arch) && Plainly(b, SideB, arch)
    ensures Satisfiable(q, fp, arch.ptr, true) <==> Distinguishable(a, b, arch, fp)
    ensures Distinguishable(a, b, arch, fp) <==> exists m, m0 :: AlwaysDiffer(a, b, arch, m, m0, fp)
  {
    hide IsQuery, Lawful, SourceProgram, Plainly, Satisfiable, DifferFrom, MachinesDiffer;
    QueryMeansFinals(a, b, arch, addrs, keys, fa, fb, q, fp);
    forall m, m0, pa, pb ensures MachinesDiffer(a, b, arch, m, m0, fp, pa, pb) <==> DifferFrom(a, b, arch, m, m0, fp, pa, pb) {
      MachinesAreFinals(a, b, arch, m, m0, fp, pa, pb);
    }
    if CanDiffer(a, b, arch, fp) {
      var m, m0 :| AlwaysDifferFrom(a, b, arch, m, m0, fp);
      assert AlwaysDiffer(a, b, arch, m, m0, fp);
      assert MachinesDiffer(a, b, arch, m, m0, fp, [], []);
    }
    if Distinguishable(a, b, arch, fp) {
      var m, m0, pa, pb :| MachinesDiffer(a, b, arch, m, m0, fp, pa, pb);
      assert DifferFrom(a, b, arch, m, m0, fp, pa, pb);
    }
    if exists m, m0 :: AlwaysDiffer(a, b, arch, m, m0, fp) {
      var m, m0 :| AlwaysDiffer(a, b, arch, m, m0, fp);
      assert MachinesDiffer(a, b, arch, m, m0, fp, [], []);
    }
  }

  /** `Disagree` only where compared definitions can end different, `Agree` only where
      they cannot, and no verdict exactly on an unanswered check or a contradicted width. */
  lemma VerdictOnFinals(a: seq<Stmt>, b: seq<Stmt>, arch: Arch, addrs: seq<Var>, keys: seq<Name>, fa: map<Name, Expr>, fb: map<Name, Expr>, q: Query,
                        fp: FpModel, satTrue: SatResult, satFalse: SatResult)
    requires Lawful(arch) && SourceProgram(a) && SourceProgram(b) && IsQuery(a, b, arch, addrs, keys, fa, fb, q)
    requires Right(satTrue, q, fp, arch.ptr, true) && Right(satFalse, q, fp, arch.ptr, false)
    ensures Classify(Solved(q, satTrue, satFalse)) == Disagree ==> CanDiffer(a, b, arch, fp)
    ensures Classify(Solved(q, satTrue, satFalse)) == Agree ==> !CanDiffer(a, b, arch, fp)
    ensures Classify(Solved(q, satTrue, satFalse)) == Inconclusive <==> satTrue.Unknown? || satFalse.Unknown? || WidthConflict(q)
  {
    hide IsQuery, Lawful, SourceProgram, DifferFrom, CanDiffer, Satisfiable, WidthConflict;
    QueryMeansFinals(a, b, arch, addrs, keys, fa, fb, q, fp);
    DifferenceIsSolution(a, b, arch, addrs, keys, fa, fb, q, map[], map[], fp, [], []);
    assert Satisfiable(q, fp, arch.ptr, true) || Satisfiable(q, fp, arch.ptr, false);
  }

  /** The verdict is about the machines, where every compared definition decides its
      register: `Disagree` is not made up and `Agree` hides nothing compared. */
  lemma VerdictIsSound(a: seq<Stmt>, b: seq<Stmt>, arch: Arch, addrs: seq<Var>, keys: seq<Name>, fa: map<Name, Expr>, fb: map<Name, Expr>, q: Query,
                       fp: FpModel, satTrue: SatResult, satFalse: SatResult)
    requires Lawful(arch) && SourceProgram(a) && SourceProgram(b) && IsQuery(a, b, arch, addrs, keys, fa, fb, q)
    requires Right(satTrue, q, fp, arch.ptr, true) && Right(satFalse, q, fp, arch.ptr, false)
    requires Plainly(a, SideA, arch) && Plainly(b, SideB, arch)
    ensures Classify(Solved(q, satTrue, satFalse)) == Disagree ==> exists m, m0 :: AlwaysDiffer(a, b, arch, m, m0, fp)
    ensures Classify(Solved(q, satTrue, satFalse)) == Agree ==> !Distinguishable(a, b, arch, fp)
    ensures Classify(Solved(q, satTrue, satFalse)) == Inconclusive <==> satTrue.Unknown? || satFalse.Unknown? || WidthConflict(q)
  {
    hide IsQuery, Lawful, SourceProgram, Plainly, Satisfiable, CanDiffer, AlwaysDiffer, Distinguishable, AlwaysDifferFrom, Right, Solved, WidthConflict;
    VerdictOnFinals(a, b, arch, addrs, keys, fa, fb, q, fp, satTrue, satFalse);
    QueryMeansFinals(a, b, arch, addrs, keys, fa, fb, q, fp);
    QueryMeansDifference(a, b, arch, addrs, keys, fa, fb, q, fp);
  }
}
