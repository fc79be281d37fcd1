# r2SMT: the promise not to fabricate a verdict

r2SMT lowers machine instructions to one small intermediate representation, asks a solver whether two
lowerings of an instruction can differ or whether a branch is constant, and patches branches it has proved
constant. Each answer rests on a handful of program transformations. This project models those
transformations in Dafny, gives the representation one evaluator, and proves the transformations against it.

The pieces, and the files that hold them:

- **The representation** (`Bits`, `Common`, `Ir`). Bit-vectors are naturals below `2^w`; a state is a register
  store and a byte memory; every occurrence of `Unknown` takes its own free 64-bit value, handed out in order
  from a sequence of picks; floating point is two uninterpreted functions. The meaning of a node is the one the
  solver encoding gives it: mismatched operands widen, an `Ite` condition is true when it is not zero.
- **The simplifier** (`Simplify*`). A pass keeps the width and the exact set of possible values of every
  well-sorted expression, and returns it unchanged or smaller. Where the code does not do what it says (`x + 0`
  at two widths, an unmasked constant condition, idempotence over `ZeroExtend`) the exact condition is proved.
  `SimplifyNormal` says what a pass leaves nothing of.
- **Taint** (`Taint*`). What the taint set leaves out does not depend on any unknown, and what it holds some unknown reaches.
- **The differential query** (`Ssa`, `SsaForm`, `Layouts`, `Namespace`, `Sides`, `Mem*`, `Equiv*`). SSA conversion,
  namespacing of the two sides, byte-level memory elimination, probing, projection of sub-registers into their
  parents and the differ-condition. `EquivVerdict.QueryMeansFinals` says that the query is satisfiable exactly when
  some shared machine state and initial memory make two compared final definitions, or the memories, end different.
  `EquivRegisters` folds every definition of every view of a register, in program order, into the register the
  machine is left with, and says which definitions decide theirs; on those the end of the chain,
  `EquivMachine.QueryMeansDifference`, is about the registers of the two machines. `EquivViews` runs a lowering on a machine
  whose register names are views of their parents, and carries the theorem over to it. `EquivAlias` shows that the
  condition is exact for any two views of one register and that outside it the query does make a difference up.
  `EquivCompared` and `EquivGate` say, of the statements and the register tables alone, what a side is compared on and when
  two lowerings are compared at all; the caps of the memory pass are counted in `MemCaps`.
  `EquivRename` and `EquivDrawn` prove that renaming temporaries changes no verdict. `Mem*` proves that the eliminated statements simulate real loads and stores
  in both directions: every value of the free bytes is some initial memory, every initial memory is some value
  of the free bytes.
- **ESIL** (`RegView`, `Flags`, `Esil*`). The stack machine with its deferred flag snapshots, predicated blocks,
  register views and inverted carry, against a direct interpreter of radare2's own registers and flags (`EsilInterp`) that reads
  operands late and computed values early. `EsilSpelled.LiftRefines` is the refinement for every hazard-free token stream.
  It goes through a second interpreter over operands already placed as the machine places them (`EsilResolved`), which the
  simulation and the streams of `EsilHazards` and `EsilZeroSeed` outside the refinement are about, and which runs every stream
  as the first one does (`EsilSpelled.RunsAlike`). `EsilAccept` says which streams are lifted and `EsilGentle` which are free of hazards.
- **Patching** (`Patch`, `PatchPlan`). Preflight, write, reverse recovery, rollback and verification over a device
  whose reads may fail and whose writes may fail leaving anything in the slot they were for; and the plan those run on.
- **The driver and the scorer** (`Driver`, `TempNames`, `DebugText`, `LoweringText`, `MemoVerdict`, `Scorer`). A bounded memo
  that never shows in the report, the memo key over the printed text of lowerings and why it decides the verdict, and a
  greedy pairing that is a largest pairing.
- **P-code** (`Pcode*`). The second lifter against an interpreter of the operations' text (`PcodeInterp`), reached through one over
  decoded opcodes (`PcodeCodes`); which listings it accepts, its limits, and a printer and parser that undo each other.

Code that works by changing things step by step is modelled that way: the memory pass, the ESIL and P-code
machines, the device, the driver and the loops of the parser are classes and methods with loops. Each is proved
against a function of the same name, and the theorems are about that function.

Names the program spells (`__esil_cur_3`, `rax#2`, `A·rax#2`, `u_2ae80_4`, `__m…`) are constructors of the type `Name`, so that
two spellings collide in the model exactly when they do in the program's own naming scheme. Where the text itself counts,
in the memo key, `LoweringText.NameText` spells them out.

Where the code and its documentation part, the model follows the code:

- The simplifier's documentation calls a pass idempotent; it is not over `Extract` of `ZeroExtend`
  (`SimplifyShape.NotIdempotent`, `SimplifyShape.IdempotentIff`).
- The folds drop neutral constants, and operands absorbed by a zero, at any width; the result is narrower when what is
  dropped was the wider operand (`SimplifyShape.DroppedOperandWidthIff`), which a signed parent notices
  (`SimplifyShape.WideZeroCounterexample`).
- A constant condition is folded as written, not at its width (`SimplifyShape.ConstantConditionIff`).
- The comparison passes over a definition it cannot model and then lets another view of the same register speak for
  the whole of it, as if the first had not happened: `rax` unmodelled and then `al := 5`, against `rax := 5`, is
  reported as a difference although some value of the unknown makes the registers equal (`EquivAlias.MadeUpDifference`).
  The documentation says that such a comparison only ever misses a disagreement.
- `$o` after a subtraction is signed overflow except when the subtrahend is the most negative number
  (`Flags.OverflowOfDifference`), and with an index past the register's top bit it never reports any
  (`Flags.SumTrusted`, `Flags.DifferenceTrusted`).
- A zero-register seed directly before `?{` puts its snapshot under the block's guard (`EsilZeroSeed.ZeroSeedMisread`).
- A plan whose last write went through but whose target cannot be hashed afterwards is reported as a bare error: every
  patch stays on disk and no manifest says so (`Patch.ApplyPlan`).
- A computed ESIL entry left on the stack is re-read after its register was overwritten, which shows unless the register
  was given what it held (`EsilHazards.StaleEntryMisread`).
- P-code `INT_NEGATE` flips only 128 bits (`PcodeLimits.NegateExactlyUpTo128`), a bare constant in `COPY` is as wide as a
  pointer (`PcodeLimits.LoneConstantIff`), and arithmetic on the answer of a comparison is done on one bit
  (`PcodeLimits.TruthAsNumberIff`).

## Model

| member | source | states |
|---|---|---|
| Ir.ExecConcat | crates/r2smt-ir/src/stmt.rs:12 | running a list of statements is running its parts one after the other, the second part's unknowns after the first's |
| Ir.EvalFrame | crates/r2smt-ir/src/expr.rs:55 | a value depends only on the names the expression reads |
| Ir.EvalPicks | crates/r2smt-ir/src/expr.rs:55 | a value depends on the run's choices only through its own unknowns |
| Simplify.ExprBitsExact | crates/r2smt-ir/src/simplify.rs:125-196 | on well-sorted terms a width the simplifier reports is the encoder's width |
| Simplify.EvalInVals | crates/r2smt-ir/src/simplify.rs:206-216 | every evaluation of an expression is one of its possible values |
| Simplify.ValsWitness | crates/r2smt-ir/src/simplify.rs:206-216 | every possible value is reached by some choice of the unknowns, one per occurrence |
| SimplifyProof.FoldAddSame | crates/r2smt-ir/src/simplify.rs:282-303 | the addition folds keep width and possible values |
| SimplifyProof.FoldSubSame | crates/r2smt-ir/src/simplify.rs:305-325 | the subtraction folds keep them; equal operands cancel only when they hold no unknown |
| SimplifyProof.FoldMulSame | crates/r2smt-ir/src/simplify.rs:327-351 | the multiplication folds keep them |
| SimplifyProof.FoldAndSame | crates/r2smt-ir/src/simplify.rs:353-374 | the conjunction folds keep them |
| SimplifyProof.FoldOrSame | crates/r2smt-ir/src/simplify.rs:376-419 | the disjunction folds keep them, including the all-ones test above 128 bits |
| SimplifyProof.FoldXorSame | crates/r2smt-ir/src/simplify.rs:421-440 | the exclusive-or folds keep them |
| SimplifyProof.FoldCompareSame | crates/r2smt-ir/src/simplify.rs:442-462 | the equality folds keep them; a term equals itself only without unknowns |
| SimplifyProof.FoldBoolNotSame | crates/r2smt-ir/src/simplify.rs:464-472 | the negation folds keep them on constants in range |
| SimplifyProof.FoldIteSame | crates/r2smt-ir/src/simplify.rs:474-483 | the conditional folds keep them on constants in range |
| SimplifyProof.FoldExtractSame | crates/r2smt-ir/src/simplify.rs:485-501 | the slice folds, whole slice and slice of a zero extension, keep them |
| SimplifyProof.FoldExtendSame | crates/r2smt-ir/src/simplify.rs:503-519 | the extension folds keep them |
| SimplifyProof.SimplifyKeepsValues | crates/r2smt-ir/src/simplify.rs:26-119 | a pass keeps sorting, width and the exact set of values of every well-sorted term under every environment |
| SimplifyProof.SimplifySound | crates/r2smt-ir/src/simplify.rs:1-25 | for every value: some choice of unknowns gives it before the pass exactly when some choice gives it after |
| SimplifyShape.PassShrinks | crates/r2smt-ir/src/simplify.rs:26-119 | a pass returns its input or a strictly smaller tree |
| SimplifyShape.PassesSettle | crates/r2smt-ir/src/simplify.rs:26-119 | as many passes as the tree has nodes reach a fixed point |
| SimplifyShape.IdempotentIff | crates/r2smt-ir/src/simplify.rs:485-501 | a second pass changes nothing exactly when no surviving slice of the term, over its simplified operand, is an inner slice of a zero extension that leaves a whole or inner slice behind |
| SimplifyShape.IdempotentWithoutZeroExtend | crates/r2smt-ir/src/simplify.rs:26-119 | without zero extensions one pass is a fixed point |
| SimplifyShape.NotIdempotent | crates/r2smt-ir/src/simplify.rs:494 | some term needs a second pass |
| SimplifyShape.ConstantConditionIff | crates/r2smt-ir/src/simplify.rs:474-483 | folding a conditional on a constant gives its values, for every pair of branches, exactly when the constant is zero or not a multiple of 2^width |
| SimplifyShape.ConstantNegationIff | crates/r2smt-ir/src/simplify.rs:464-472 | so does folding a negated constant |
| SimplifyShape.DroppedOperandWidthIff | crates/r2smt-ir/src/simplify.rs:282-440 | in every arithmetic fold that drops one of two operands, a neutral constant or what a zero absorbs, the width is kept exactly when what is dropped is no wider than what stays |
| SimplifyShape.WideZeroCounterexample | crates/r2smt-ir/src/simplify.rs:296 | with a wider zero a signed comparison above it changes its answer |
| SimplifyNormal.PassIsNormal | crates/r2smt-ir/src/simplify.rs:282-519 | a pass over any well-sorted term leaves no arithmetic on two constants of at most 128 bits, no neutral or absorbing constant, no difference or comparison of one unknown-free term with itself, no double negation, no extension to the width there is and no choice already made |
| SimplifyNormal.WidthRecovered | crates/r2smt-ir/src/simplify.rs:125-196 | of a well-sorted term without unknowns, within 16-bit widths, the simplifier recovers the width |
| Taint.ComputeTaint | crates/r2smt-difflift/src/equiv.rs:251-284 | the loop over the statements computes the taint set and the memory latch, or declines on over-deep terms |
| Taint.NonInterference | crates/r2smt-difflift/src/equiv.rs:241-365 | two runs that differ only in unknowns agree on every definition outside the taint set, and on memory while the latch is unset |
| TaintReach.TaintIsReached | crates/r2smt-difflift/src/equiv.rs:241-284 | when the pass ends, a name is tainted exactly if an unknown is in a definition of it or in an earlier statement that leads up to it, and the latch is set exactly if that is so of a store |
| TaintReach.ShallowEnds | crates/r2smt-difflift/src/equiv.rs:298-301 | the pass ends on every list whose terms are nested at most 256 deep |
| TaintReach.CleanIsUntainted | crates/r2smt-difflift/src/equiv.rs:251-284 | a list with no unknown has nothing tainted and no latch, and only a term nested deeper declines it |
| Ssa.SsaConvert | crates/r2smt-ssa/src/convert.rs:57-130 | the loop over the lifted statements is the step-by-step renaming |
| Ssa.ConvertKeepsMeaning | crates/r2smt-ssa/src/convert.rs:57-153 | the latest version of every variable ends with the value the variable ends with, and memory is the same |
| SsaForm.SolutionRuns | crates/r2smt-difflift/src/equiv.rs:171-231 | any solution of the equations of a memory-free list is a run of it |
| SsaForm.RunSolves | crates/r2smt-difflift/src/equiv.rs:171-231 | a run of a memory-free SSA list solves its equations |
| MemTheorem.SideStepSim | crates/r2smt-difflift/src/mem.rs:216-285 | each original statement and its expansion end in the same definitions, with the write list holding the same memory |
| MemTheorem.RunSideSim | crates/r2smt-difflift/src/mem.rs:216-231 | so does a whole side, from any initial memory the free bytes agree with |
| MemTheorem.ProbeAllSim | crates/r2smt-difflift/src/mem.rs:289-304 | each probe pair reads the two final memories at its written address |
| MemRefine.StoreSim | crates/r2smt-difflift/src/mem.rs:233-258 | the expanded store: address, value and one byte after the other as a real little-endian store |
| MemRefine.LoadSim | crates/r2smt-difflift/src/mem.rs:260-285 | the expanded load assembles what a real load reads through the side's earlier writes |
| MemSim.FoldSideValue | crates/r2smt-difflift/src/mem.rs:192-205 | the chain over a side's writes gives the latest byte written at the address, else the initial one |
| MemChoice.MemoryOfConsistent | crates/r2smt-difflift/src/mem.rs:168-188 | equal addresses are forced to equal initial bytes, so the free bytes are a memory |
| MemChoice.EveryMemory | crates/r2smt-difflift/src/mem.rs:168-188 | every initial memory is met by some choice of the free bytes |
| MemPlans.ProbesDecide | crates/r2smt-difflift/src/mem.rs:289-304 | some probe pair differs exactly when the two final memories differ anywhere |
| MemPlans.PlanRealises | crates/r2smt-difflift/src/mem.rs:114-148 | both sides' runs from the shared state are what the eliminated list computes |
| MemPlans.FreeBytesAreSomeMemory | crates/r2smt-difflift/src/mem.rs:114-188 | every valuation of the free bytes is the elimination of both runs from some initial memory |
| MemPlans.EveryMemoryIsSomeFreeBytes | crates/r2smt-difflift/src/mem.rs:114-188 | every initial memory is realised by some valuation, the other inputs unchanged |
| MemSsa.EliminateIsSsa | crates/r2smt-difflift/src/mem.rs:114-148 | the output is SSA and holds no load or store |
| MemSsa.CounterNeverOverflows | crates/r2smt-difflift/src/mem.rs:151-155 | at most 2304 names are minted, so the counter's overflow branch is dead |
| MemCaps.RunSideIff | crates/r2smt-difflift/src/mem.rs:216-285 | one side goes through exactly while its stores come to at most 128 bytes and the keys in use and its loads to at most 256 |
| MemCaps.EliminatesIff | crates/r2smt-difflift/src/mem.rs:72-148 | memory is compiled away exactly when each side stores at most 128 bytes and no more than 256 are loaded and, where memory is compared, stored; each stored byte is then probed once |
| MemPass.Elim.Fresh | crates/r2smt-difflift/src/mem.rs:151-155 | the next name, and the counter moved past it |
| MemPass.Elim.Define | crates/r2smt-difflift/src/mem.rs:158-165 | one definition appended under a fresh name |
| MemPass.Elim.Fold | crates/r2smt-difflift/src/mem.rs:192-205 | the loop over the writes builds the chain, latest write outermost |
| MemPass.Elim.Mem0 | crates/r2smt-difflift/src/mem.rs:168-188 | a new key byte tied to every earlier key at an equal address, or a decline at the key limit |
| MemPass.Elim.FoldSide | crates/r2smt-difflift/src/mem.rs:192-205 | the chain over one side becomes a definition |
| MemPass.Elim.ByteAddress | crates/r2smt-difflift/src/mem.rs:207-214 | the address of a byte at an offset becomes a definition |
| MemPass.Elim.ExpandStore | crates/r2smt-difflift/src/mem.rs:233-258 | the new pass state and write list are those of the store's expansion, or it declines with it |
| MemPass.Elim.ExpandLoad | crates/r2smt-difflift/src/mem.rs:260-285 | the new pass state is that of the load's expansion, or it declines with it |
| MemPass.Elim.RunSide | crates/r2smt-difflift/src/mem.rs:216-231 | the loop over a side's statements |
| MemPass.Elim.ProbeAll | crates/r2smt-difflift/src/mem.rs:289-304 | the loop over the written addresses |
| MemPass.Distinct | crates/r2smt-difflift/src/mem.rs:289-296 | every written address once |
| MemPass.Rewrite | crates/r2smt-difflift/src/mem.rs:114-148 | the whole pass, imperative, is the elimination the theorems are about, its probes at every written address once, whether it ends or declines |
| Layouts.PutIsLawful | crates/r2smt-difflift/src/equiv.rs:630-664 | writing a slice gives the value back and keeps every bit outside it |
| Layouts.CoerceValue | crates/r2smt-difflift/src/equiv.rs:836-846 | coercion is the value cut to the new width |
| Layouts.RebuildValue | crates/r2smt-difflift/src/equiv.rs:630-664 | the concatenation rebuilt around a slice is that write |
| Namespace.NamespaceSide | crates/r2smt-difflift/src/equiv.rs:402-431 | the loop namespaces every statement or declines on an over-deep one |
| Namespace.SubstituteValue | crates/r2smt-difflift/src/equiv.rs:454-472 | a substituted read is the view of its parent in the shared state, or the side's own definition |
| Namespace.NamespaceValue | crates/r2smt-difflift/src/equiv.rs:476-598 | a namespaced expression has the source's value, width and unknowns |
| Namespace.LoweredFollows | crates/r2smt-difflift/src/equiv.rs:367-472 | a renamed and namespaced side runs in step with the source lowering |
| Sides.SidesAreSsa | crates/r2smt-difflift/src/equiv.rs:171-231 | both namespaced sides together are SSA: no definition of one is named or read by the other |
| Sides.LoweredKeepsOutside | crates/r2smt-difflift/src/equiv.rs:433-439 | running a side changes no name but its own |
| EquivFinals.CanonicalFinals | crates/r2smt-difflift/src/equiv.rs:674-720 | a parent is compared exactly when one eligible definition of it is the only one; two eligible ones drop it in whatever order they are met, a tainted or vector-mismatched one is passed over |
| EquivCompared.ReachesIff | crates/r2smt-difflift/src/equiv.rs:241-284 | an unknown reaches a renamed statement exactly when it reaches the original, a read finding the last definition before it |
| EquivCompared.TaintedFinal | crates/r2smt-difflift/src/equiv.rs:684-686 | a final definition is tainted exactly when an unknown reaches the last statement that defines the name |
| EquivCompared.ComparedIff | crates/r2smt-difflift/src/equiv.rs:674-720 | a side is compared on a name exactly when no unknown reaches its last definition, it is `ZF`, `CF`, `SF` or a laid-out register, a vector one at the width of its view, and no other such name is of the same register |
| EquivCompared.PlacesAre | crates/r2smt-difflift/src/equiv.rs:674-720 | the projection has a term for exactly the flags and registers of those names |
| EquivBuild.ComputeFinalDefs | crates/r2smt-difflift/src/equiv.rs:754-762 | the last definition of every variable |
| EquivBuild.Condition | crates/r2smt-difflift/src/equiv.rs:773-796 | one disequality per shared key and per probe pair, in one disjunction |
| EquivBuild.FoldOr | crates/r2smt-difflift/src/equiv.rs:786-796 | the loop is the disjunction of its terms, nothing for none |
| EquivBuild.Prepare | crates/r2smt-difflift/src/equiv.rs:171-231 | one side's conversion, taint, namespacing and finals; declines exactly when one of them does |
| EquivBuild.BuildEquivalenceQuery | crates/r2smt-difflift/src/equiv.rs:171-231 | the query the theorems are about, and none exactly when the two lowerings have none in any order of probes and keys |
| EquivGate.HasQueryIff | crates/r2smt-difflift/src/equiv.rs:171-231 | two lowerings have a query exactly when nothing is declined or nested deeper than 256, both first read the same names from outside the tables at the same widths, memory fits the caps, and they share a flag or register to compare or some byte is compared |
| EquivGate.SameInputsIff | crates/r2smt-difflift/src/equiv.rs:804-834 | the free inputs outside the tables agree exactly when both lists first read the same names, before any definition, at the same widths |
| EquivGate.VectorsFitIff | crates/r2smt-difflift/src/equiv.rs:740-751 | a side lacks a vector model exactly when it first reads or defines a vector register at another width than its view's |
| EquivGate.MemoryComparedIff | crates/r2smt-difflift/src/equiv.rs:198-206 | memory is compared exactly when both sides store, no unknown reaches a store and every vector register fits |
| EquivGate.LoweredIff | crates/r2smt-difflift/src/equiv.rs:402-431 | a side is namespaced exactly when nothing is nested too deep, and stores and loads as many bytes as before |
| EquivMeaning.FinalDefsAreLatest | crates/r2smt-difflift/src/equiv.rs:754-762 | the last definition is the latest version |
| EquivMeaning.UntaintedFinal | crates/r2smt-difflift/src/equiv.rs:251-284 | an untainted final value is the same for every answer to the unknowns |
| EquivMeaning.UnknownsDoNotDecide | crates/r2smt-difflift/src/equiv.rs:1-60 | whether the compared definitions and memories differ does not depend on the unknowns |
| EquivMeaning.FinalValue | crates/r2smt-difflift/src/equiv.rs:630-664 | a compared term is the shared parent register with that one definition spliced in |
| EquivMeaning.ConditionValue | crates/r2smt-difflift/src/equiv.rs:773-796 | the condition is true exactly when some shared key or some probe pair differs |
| EquivTheorem.ProbesExist | crates/r2smt-difflift/src/equiv.rs:171-231 | memory is probed exactly when it is enabled and both sides write it |
| EquivTheorem.ConditionIsDiffer | crates/r2smt-difflift/src/equiv.rs:171-231 | on every run of the query's statements the condition is the difference of the compared definitions and memories of the two lowerings |
| EquivVerdict.SolutionIsDifference | crates/r2smt-difflift/src/equiv.rs:171-231 | a solution of the query is a machine state and memory from which compared definitions or memories differ, whatever the unknowns |
| EquivVerdict.DifferenceIsSolution | crates/r2smt-difflift/src/equiv.rs:171-231 | a difference of compared definitions or memories, from any state, solves the query |
| EquivVerdict.QueryMeansFinals | crates/r2smt-difflift/src/equiv.rs:162-231 | satisfiable exactly when compared definitions or memories can differ, and then from some state they do whatever the unknowns |
| EquivRegisters.DecidesRegister | crates/r2smt-difflift/src/equiv.rs:630-720 | when the last definition of a register covers every earlier one of its other views, splicing it alone into the shared register is the register the whole run leaves |
| EquivRegisters.OneNamePlainly | crates/r2smt-difflift/src/equiv.rs:666-673 | a side that defines each register under one name has only such definitions |
| EquivRegisters.FinalsAreRegisters | crates/r2smt-difflift/src/equiv.rs:674-720 | between two sides whose compared definitions decide their registers, comparing definitions is comparing the registers of the two machines |
| EquivMachine.QueryMeansDifference | crates/r2smt-difflift/src/equiv.rs:162-231 | for such sides: satisfiable exactly when the machines can end with a compared register, flag or memory byte different, and then from some state they do whatever the unknowns |
| EquivMachine.VerdictOnFinals | crates/r2smt-smt/src/solver.rs:90-108 | for all sides, with a solver that answers rightly: disagree only where compared definitions can differ, agree only where they cannot, inconclusive exactly on an unknown answer or a contradicted width |
| EquivMachine.VerdictIsSound | crates/r2smt-difflift/src/equiv.rs:114-122 | for sides whose compared definitions decide their registers: disagree only where the machines differ whatever the unknowns, agree only where no compared register, flag or byte can differ |
| EquivViews.AfterReads | crates/r2smt-difflift/src/equiv.rs:630-664 | what is written through a view of a register reads back through it, and the register stays in range |
| EquivViews.MachineRunIs | crates/r2smt-difflift/src/equiv.rs:454-472 | a lowering that fits its views, and reads a register only under the name it last defined it under, leaves on a machine of views the registers its definitions fold to, and the same memory |
| EquivViews.QueryMeansRuns | crates/r2smt-difflift/src/equiv.rs:162-231 | for two such lowerings the query is satisfiable exactly when the two runs of that machine can be told apart, and then from some start they are whatever the unknowns |
| EquivAlias.EarlyAliasIff | crates/r2smt-difflift/src/equiv.rs:682-684 | for any two views of one register: a modelled write after an unmodelled one of the other view is compared rightly from every state exactly when it covers that view |
| EquivAlias.LateAliasNever | crates/r2smt-difflift/src/equiv.rs:682-684 | and never when the unmodelled write comes last |
| EquivAlias.MadeUpDifference | crates/r2smt-difflift/src/equiv.rs:674-720 | a pair whose query exists and is satisfiable although from no state the machines differ for every value of the unknown |
| EquivRename.DifferMoved | crates/r2smt-difflift/src/equiv.rs:674-720 | and lowerings that can differ still can |
| EquivDrawn.QueryMoved | crates/r2smt-difflift/src/equiv.rs:171-231 | swapping names outside the register tables on both sides gives the same query with the names of its sides moved, and its condition names none that moves |
| EquivDrawn.ConflictStays | crates/r2smt-smt/src/solver.rs:90-108 | it contradicts a width exactly when the other does |
| EquivDrawn.RenamingKeepsVerdict | crates/r2smt-cli/src/main.rs:1025-1043 | so renaming temporaries alike on both sides changes no verdict: whether there is a query, whether it contradicts a width, and whether the sides can differ |
| EquivDrawn.TrueVerdictIsDrawn | crates/r2smt-smt/src/solver.rs:90-108 | that verdict is the one drawn from two right answers, a contradicted width discarding both |
| RegView.ReadAfterWrite | crates/r2smt-esil/src/machine.rs:243-313 | reading a view after writing it gives the value back; the inverted carry cancels |
| RegView.WriteKeepsOthers | crates/r2smt-esil/src/machine.rs:283-313 | a write keeps every bit outside the slice unless the view zero-extends |
| RegView.ZeroExtendClears | crates/r2smt-esil/src/machine.rs:283-313 | a zero-extending write clears everything above the slice |
| RegView.ReadValue | crates/r2smt-esil/src/machine.rs:265-279 | the read expression is that view, at its width |
| RegView.WriteValue | crates/r2smt-esil/src/machine.rs:283-313 | the written expression is that update, at the parent's width |
| RegView.WriteMatchesComparison | crates/r2smt-difflift/src/equiv.rs:630-664 | a non-inverted write is the parent-space value the comparison rebuilds |
| Flags.CarryIsCarry | crates/r2smt-esil/src/flags.rs:63-100 | after an addition `$c(n)` is the carry out of bit n, and past the register's top bit the carry out of the register, at every width and index |
| Flags.BorrowIsBorrow | crates/r2smt-esil/src/flags.rs:63-112 | after a subtraction `$b(n)` is the borrow of the low n + 1 bits, and past the top bit, as in `64,$b`, that of the whole subtraction |
| Flags.OverflowOfSum | crates/r2smt-esil/src/flags.rs:117-121 | after an addition `$o(n)` reports signed overflow at bit n exactly when n is a bit of the register or there is none to report |
| Flags.OverflowOfDifference | crates/r2smt-esil/src/flags.rs:117-121 | after a subtraction it does exactly when the subtrahend's low bits are not the most negative number, and past the top bit when there is none to report |
| Flags.SumTrusted | crates/r2smt-esil/src/flags.rs:117-121 | whatever the register held, `$o(n)` is right after adding an amount exactly when n is a bit of the register or the amount is zero there |
| Flags.DifferenceTrusted | crates/r2smt-esil/src/flags.rs:117-121 | after subtracting one: exactly when its low bits are not the most negative number, or past the top bit when the amount is zero there |
| Flags.SignBitCounterexample | crates/r2smt-esil/src/flags.rs:117-121 | 0 - 128 at eight bits overflows unreported |
| Flags.PastTopCounterexample | crates/r2smt-esil/src/flags.rs:63-121 | 127 + 1 at eight bits overflows unreported under `8,$o` and is reported under `7,$o` |
| Flags.FoldParity | crates/r2smt-esil/src/flags.rs:125-141 | the loop builds the exclusive-or of the low bits |
| Flags.CarryValue | crates/r2smt-esil/src/flags.rs:63-112 | the carry and borrow expressions compute the masked comparisons |
| Flags.OverflowValue | crates/r2smt-esil/src/flags.rs:117-121 | the overflow expression is one carry against the other |
| Flags.ZeroValue | crates/r2smt-esil/src/flags.rs:78-80 | the zero flag |
| Flags.ParityValue | crates/r2smt-esil/src/flags.rs:125-141 | the parity expression is even parity of the low eight bits |
| EsilExec.SpliceIsTransparent | crates/r2smt-esil/src/machine.rs:688-696 | a snapshot spliced in ahead of a write adds its own variable, with the value of that moment, and changes nothing else |
| EsilExec.GuardTrue | crates/r2smt-esil/src/machine.rs:408-434 | where the guard holds the predicated body runs as written |
| EsilExec.GuardFalse | crates/r2smt-esil/src/machine.rs:408-434 | where it does not, nothing but late temporaries changes |
| EsilTyping.StrictIsSorted | crates/r2smt-ir/src/simplify.rs:26-119 | what the machine emits is what the simplifier's theorems ask for |
| EsilTyping.StepTyped | crates/r2smt-esil/src/machine.rs:329-395 | every token keeps stack, statements, guards and flag context well sorted |
| EsilFresh.MaterialiseFresh | crates/r2smt-esil/src/machine.rs:663-684 | emitting a snapshot half keeps temporaries apart and guards unwritten |
| EsilSteps.StepFresh | crates/r2smt-esil/src/machine.rs:329-395 | so does every safe token |
| EsilSync.SpliceSynced | crates/r2smt-esil/src/machine.rs:688-696 | a snapshot spliced into the live part keeps machine and interpreter in agreement |
| EsilSync.SpliceSkipped | crates/r2smt-esil/src/machine.rs:688-696 | so does one spliced into a block being skipped |
| EsilSim.SetSim | crates/r2smt-esil/src/machine.rs:574-625 | an assignment, plain or compound, seeding or not, to any view |
| EsilSim.NegSim | crates/r2smt-esil/src/machine.rs:742-759 | the negated assignment |
| EsilSim.CompareSim | crates/r2smt-esil/src/machine.rs:716-731 | the comparison seeds the context the interpreter seeds |
| EsilSim.ArithSim | crates/r2smt-esil/src/machine.rs:443-490 | an operation on a lazy or computed pair pushes the interpreter's value |
| EsilBlocks.FlagSim | crates/r2smt-esil/src/machine.rs:505-533 | an unindexed flag is read from the seeded pair, emitting what it needs of it first |
| EsilBlocks.IndexedSim | crates/r2smt-esil/src/machine.rs:505-545 | an indexed flag pops its literal index |
| EsilBlocks.LoadSim | crates/r2smt-esil/src/machine.rs:761-773 | a load |
| EsilBlocks.StoreSim | crates/r2smt-esil/src/machine.rs:775-790 | a store |
| EsilTheorem.OpenSim | crates/r2smt-esil/src/machine.rs:397-406 | opening a block, taken or not |
| EsilTheorem.CloseTaken | crates/r2smt-esil/src/machine.rs:408-434 | closing a taken block, whose statements are then predicated |
| EsilTheorem.CloseSkipped | crates/r2smt-esil/src/machine.rs:408-434 | closing a skipped block leaves the state before it |
| EsilTheorem.LiftFollows | crates/r2smt-esil/src/machine.rs:69-84 | for every hazard-free stream the lift accepts, the emitted statements end in the variables and memory of the interpreter over placed operands, nested blocks included |
| EsilAgree.ReadsAgree | crates/r2smt-esil/src/machine.rs:336-380 | an operand placed by the machine reads, at its width, what radare2's register or flag of that spelling holds; the complemented carry cancels |
| EsilAgree.WritesAgree | crates/r2smt-esil/src/machine.rs:283-313 | writing through it leaves what radare2's write leaves, in the register's other bits and in every other register and flag |
| EsilSpelled.RunsAlike | crates/r2smt-esil/src/machine.rs:329-395 | the interpreter of radare2's registers and the one over placed operands run every stream alike, stuck together or together in mirrored states |
| EsilSpelled.LiftRefines | crates/r2smt-esil/src/machine.rs:336-395 | from a state that mirrors radare2's registers and flags, `CF` the complement of its carry where it is kept so, a hazard-free stream's statements end in one that mirrors what the stream leaves there, with the same memory |
| EsilAccept.AcceptsIff | crates/r2smt-esil/src/machine.rs:69-84 | a stream is lifted exactly when every token finds the operands it needs on the stack, a flag its context, index and width, a write its register, and every block is closed with no memory access in it |
| EsilGentle.GentleIsHazardFree | crates/r2smt-esil/src/machine.rs:627-660 | a stream without blocks whose writes leave the stack empty, those that seed no flags to registers not named before, is lifted and free of hazards |
| EsilTheorem.LiftIsSorted | crates/r2smt-esil/src/machine.rs:69-84 | and every emitted statement is well sorted |
| EsilTheorem.BlockedMemoryDeclines | crates/r2smt-esil/src/machine.rs:795-799 | a stream with a memory access inside a block is declined |
| EsilNames.TemporariesNeverRepeat | crates/r2smt-esil/src/machine.rs:805-807 | no temporary is defined twice |
| EsilNames.SpliceKeepsBlocks | crates/r2smt-esil/src/machine.rs:688-696 | every open block stays on its own statements |
| EsilHazards.ZeroSeedShape | crates/r2smt-esil/src/machine.rs:645-696 | the snapshot of a zero-register seed right before a block lands under its guard |
| EsilHazards.ZeroSeedValue | crates/r2smt-esil/src/machine.rs:645-696 | on any machine: after the block later flags read the value written exactly when the guard held or the temporary had it already |
| EsilZeroSeed.ZeroSeedMisread | crates/r2smt-esil/src/machine.rs:645-696 | a stream the lift accepts, from every state: what it is lifted to and the interpreter agree on the flag read after the block exactly when the guard held or the stale snapshot is zero just as the value written is |
| EsilZeroSeed.ZeroSeedCounterexample | crates/r2smt-esil/src/machine.rs:645-696 | from a state of zeros, one written through the zero register is reported as zero |
| EsilZeroSeed.ZeroSeedIsHazard | crates/r2smt-esil/src/machine.rs:645-696 | and the stream is not hazard-free |
| EsilHazards.StaleEntryMisread | crates/r2smt-esil/src/machine.rs:443-490 | a stream the lift accepts, not hazard-free, whose computed entry outlives its register: lift and interpreter agree exactly when the literal written is what the register held |
| EsilHazards.StaleEntryCounterexample | crates/r2smt-esil/src/machine.rs:443-490 | from a register of zero, six where the interpreter leaves one |
| EsilPass.Machine.Pop | crates/r2smt-esil/src/machine.rs:801-803 | the top leaves the stack, and only it |
| EsilPass.Machine.InsertSnapshot | crates/r2smt-esil/src/machine.rs:688-696 | the splice in place, with the block starts moved |
| EsilPass.Machine.MaterialiseCur | crates/r2smt-esil/src/machine.rs:663-672 | the new state after emitting the written half |
| EsilPass.Machine.MaterialiseWas | crates/r2smt-esil/src/machine.rs:675-684 | the new state after emitting the old half |
| EsilPass.Machine.SeedFlagCtx | crates/r2smt-esil/src/machine.rs:645-660 | the new state after a seed |
| EsilPass.Machine.ApplyArith | crates/r2smt-esil/src/machine.rs:443-490 | the new stack, or the underflow |
| EsilPass.Machine.ApplyFlag | crates/r2smt-esil/src/machine.rs:505-545 | the new state after a flag token, or its error |
| EsilPass.Machine.ApplyCompare | crates/r2smt-esil/src/machine.rs:716-731 | the new state after a comparison |
| EsilPass.Machine.ApplyAssign | crates/r2smt-esil/src/machine.rs:574-625 | the new state after an assignment, or its error |
| EsilPass.Machine.ApplyNegAssign | crates/r2smt-esil/src/machine.rs:742-759 | the new state after a negated assignment |
| EsilPass.Machine.ApplyLoad | crates/r2smt-esil/src/machine.rs:761-773 | the new state after a load, the block marked |
| EsilPass.Machine.ApplyStore | crates/r2smt-esil/src/machine.rs:775-790 | the new state after a store, the block marked |
| EsilPass.Machine.OpenBlock | crates/r2smt-esil/src/machine.rs:397-406 | the new state after opening a block |
| EsilPass.Machine.CloseBlock | crates/r2smt-esil/src/machine.rs:408-434 | the new state after closing one, or the refusal |
| EsilPass.Lift | crates/r2smt-esil/src/machine.rs:69-84 | the whole run, imperative, is the lift the theorems are about |
| Patch.Device.Read | crates/r2smt-patch/src/apply.rs:84-104 | exactly the bytes there, or a failure that is the device's unless they are not there; a reliable device has none |
| Patch.Device.Write | crates/r2smt-patch/src/apply.rs:141-142 | the bytes, or on failure anything at all in that slot |
| Patch.Preflight | crates/r2smt-patch/src/apply.rs:84-139 | originals read and sized for every operation, or an operation that does not apply or a fault, which a reliable device does not have |
| Patch.WriteAll | crates/r2smt-patch/src/apply.rs:141-166 | all replacements written, or everything written so far undone, the failed slot included |
| Patch.Recover | crates/r2smt-patch/src/apply.rs:142-154 | the target is restored exactly when every recovery write works, and nothing outside the slots ever differs |
| Patch.ApplyPlan | crates/r2smt-patch/src/apply.rs:52-190 | an error leaves the target as it was exactly but for a failed recovery write, and for a failed hash after the last write, which leaves every patch on disk; nothing written on a failed precondition or preflight; on a reliable device it commits exactly when it applies and both hashes could be taken |
| Patch.StillPatched | crates/r2smt-patch/src/apply.rs:302-332 | whether the slot holds the recorded patch, exact on a reliable device |
| Patch.Rollback | crates/r2smt-patch/src/apply.rs:279-337 | undone completely, or refused with only later records restored and the refusing slot untouched and mismatching, or broken by a failed write; on a reliable device undone exactly when every slot matches in its turn |
| Patch.RollbackExact | crates/r2smt-patch/src/apply.rs:260-337 | rolling back a committed plan succeeds exactly when overlapping slots are harmless, and then restores the target |
| Patch.RollbackIdentity | crates/r2smt-patch/src/apply.rs:279-337 | over disjoint slots apply then rollback is the identity |
| Patch.OverlapRefuses | crates/r2smt-patch/src/apply.rs:260-278 | two overlapping operations that do not roll back |
| Patch.VerifyManifest | crates/r2smt-patch/src/apply.rs:218-253 | true only for a committed manifest whose every slot holds its patch, and on a reliable device exactly for those |
| Patch.CommittedVerifies | crates/r2smt-patch/src/apply.rs:218-253 | a committed plan over disjoint slots verifies |
| PatchPlan.PatchSetcc | crates/r2smt-patch/src/x86_encoding.rs:45-112 | accepts exactly the `SETcc` encodings and returns the `MOV r/m8, imm8` over the same operand, same length |
| PatchPlan.PatchCmovcc | crates/r2smt-patch/src/x86_encoding.rs:125-186 | accepts exactly the `CMOVcc` encodings and returns the padded `MOV r, r/m` over the same operands |
| PatchPlan.Tile | crates/r2smt-patch/src/arm_encoding.rs:91-131 | whole instructions only, over and over |
| PatchPlan.NopBytesFor | crates/r2smt-patch/src/plan.rs:513-522 | a slot of whole NOPs of the instruction set, whenever they fill it |
| PatchPlan.NopsAreWords | crates/r2smt-patch/src/arm_encoding.rs:9-22 | those NOPs are, low byte first, the words 0xD503201F on AArch64, 0xE320F000 on AArch32, 0xBF00 in Thumb and 0x90 on x86 |
| PatchPlan.PadToSize | crates/r2smt-patch/src/plan.rs:528-548 | the bytes followed by NOPs to the size on x86, the bytes alone elsewhere |
| PatchPlan.MeasureInstructionSize | crates/r2smt-patch/src/plan.rs:576-605 | a size is the distance to the fallthrough, from 1 to 16, and on a reliable device is found exactly when the bytes are there |
| PatchPlan.PlanJcc | crates/r2smt-patch/src/plan.rs:281-355 | NOPs for a branch never taken, the assembled and padded branch for one always taken, exactly over the instruction; planned exactly when they fit, aborted exactly when NOPs do not fill the slot, the assembler refuses or the verdict is open |
| PatchPlan.PlanSetcc | crates/r2smt-patch/src/plan.rs:357-404 | the constant store of the proved value over the instruction's own bytes, on a reliable device planned exactly when they are a `SETcc` |
| PatchPlan.PlanCmovcc | crates/r2smt-patch/src/plan.rs:406-461 | NOPs if it never happens, else the move, on a reliable device planned exactly when the bytes are a `CMOVcc` |
| PatchPlan.ConsiderFinding | crates/r2smt-patch/src/plan.rs:140-201 | on a reliable device: planned exactly when it passes every gate and has a rewrite, aborted exactly when it stops the plan; a planned operation is its rewrite |
| PatchPlan.SortByAddress | crates/r2smt-patch/src/plan.rs:107-108 | the same operations in address order |
| PatchPlan.CheckOverlaps | crates/r2smt-patch/src/plan.rs:107-127 | comparing neighbours in address order accepts exactly the plans no two of whose slots share a byte |
| PatchPlan.BuildPlan | crates/r2smt-patch/src/plan.rs:91-133 | every operation rewrites its own finding, findings keep their order, slots are apart, every finding is planned or skipped; on a reliable device the plan holds exactly the findings that can be planned, and there is none exactly when one stops it or two of them overlap |
| PatchPlan.PlanEach | crates/r2smt-patch/src/plan.rs:91-106 | the loop over the findings: on a reliable device it stops early exactly when a finding stops the plan, and otherwise plans exactly the findings that can be |
| PatchPlan.PlansRoundTrip | crates/r2smt-patch/src/plan.rs:107-127 | what it hands over verifies once committed and rolls back to the original target |
| Driver.RunDifferentialLift | crates/r2smt-cli/src/main.rs:1143-1226 | for any memo size and any comparator that depends only on the memo key on the pairs that meet, findings, tally, comparisons and truncation are those of a run without memo; one query per distinct key while they fit |
| Driver.DiffLift.Record | crates/r2smt-difflift/src/equiv.rs:138-144 | one counter moves, the verdict's |
| Driver.DiffLift.Compare | crates/r2smt-cli/src/main.rs:1176-1186 | the comparator's verdict, from the memo or fresh |
| Driver.DiffLift.CompareInstruction | crates/r2smt-cli/src/main.rs:1170-1197 | every pair of available lowerings once, in order |
| Driver.PairsAre | crates/r2smt-cli/src/main.rs:1170-1175 | those pairs are P-code with ESIL, P-code with the mnemonic lowering and ESIL with it, where there are such lowerings |
| Driver.ConsistentStep | crates/r2smt-cli/src/main.rs:1176-1186 | a comparison keeps memo, tally and query count consistent with the pairs compared |
| Driver.ReachIsFirstExhausted | crates/r2smt-cli/src/main.rs:1159-1166 | the run stops at the first instruction that finds the budget used up |
| Driver.TruncatedIffUncompared | crates/r2smt-cli/src/main.rs:1159-1166 | truncated exactly when the budget was used up before the last instruction |
| Driver.BudgetOverrun | crates/r2smt-cli/src/main.rs:1155-1166 | at most two comparisons beyond the budget |
| Driver.TallyIsComplete | crates/r2smt-difflift/src/equiv.rs:126-144 | agreements, disagreements and inconclusive ones add up to the comparisons |
| Driver.FindingNamesDisagreements | crates/r2smt-cli/src/main.rs:1170-1211 | a finding names a pair of engines exactly when their bodies disagree |
| Driver.FindingsAreExact | crates/r2smt-cli/src/main.rs:1198-1211 | one finding for every reached instruction with a disagreement, and no other |
| TempNames.CanonicalTempNames | crates/r2smt-cli/src/main.rs:1044-1071 | the index-driven scan is the word-by-word renaming |
| TempNames.RenamesExactlyTemps | crates/r2smt-cli/src/main.rs:1049-1067 | exactly the words `t_`, hexadecimal digits, `_` and a rest are renamed, `$` taking the place of the digits |
| TempNames.Idempotent | crates/r2smt-cli/src/main.rs:1044-1071 | renaming twice is renaming once |
| TempNames.IdentifiesExactlyAddresses | crates/r2smt-cli/src/main.rs:1025-1043 | renderings without `$` get one name exactly when only addresses in temporaries' names tell them apart |
| TempNames.KeyIdentifiesExactlyAddresses | crates/r2smt-cli/src/main.rs:1073-1077 | two pairs share a key exactly when both sides do; nothing straddles the separator |
| TempNames.KeyIsOneRenaming | crates/r2smt-cli/src/main.rs:1025-1043 | with one address per rendering, equal keys mean that one rendering is the other with every temporary moved to the other address, and back |
| TempNames.MovedIsInjective | crates/r2smt-cli/src/main.rs:1025-1043 | moving keeps two temporaries of one instruction two |
| TempNames.MemoKeyIsOneRenaming | crates/r2smt-cli/src/main.rs:1073-1077 | for pairs: one renaming takes both sides of one to the other |
| DebugText.OneValue | crates/r2smt-ir/src/stmt.rs:10-46 | the derived debug text of a value, whatever follows it, is that of no other value |
| DebugText.ShowAt | crates/r2smt-cli/src/main.rs:1025-1043 | moving the temporaries in the text of a value is moving those of its strings, every character outside its strings staying |
| LoweringText.ExprOnce | crates/r2smt-ir/src/expr.rs:55-261 | two expressions print alike only if they are one, when each of their names has one spelling |
| LoweringText.PrintedOnce | crates/r2smt-cli/src/main.rs:1073-1077 | two lowerings print alike only if their statements are the same |
| LoweringText.PrintedMoved | crates/r2smt-cli/src/main.rs:1025-1043 | the text of a lowering moved to another address is the text of the lowering with its temporaries renamed |
| LoweringText.PrintedKeyless | crates/r2smt-cli/src/main.rs:1034-1037 | neither the `$` of the key nor its separator is ever printed |
| LoweringText.SwapSwaps | crates/r2smt-cli/src/main.rs:1025-1043 | the renaming between two addresses undoes itself and moves no register and no flag |
| MemoVerdict.KeyDecidesVerdict | crates/r2smt-cli/src/main.rs:1025-1077 | on the lowerings of one instruction the memo key, made of their printed text, decides the query's verdict, which is what the run asks of its comparator |
| MemoVerdict.MovedKeepsKey | crates/r2smt-cli/src/main.rs:1352-1359 | the same pair at another address has the same key |
| TempNames.DollarCollides | crates/r2smt-cli/src/main.rs:1034-1037 | with a `$` in a rendering the key does collide |
| Scorer.AcceptsIsSameClass | crates/r2smt-bench/src/main.rs:206-223 | acceptance of kind and mnemonic is an equivalence |
| Scorer.AcceptsExactly | crates/r2smt-bench/src/main.rs:206-223 | accepted for each other are opaque predicates and constant conditions, and any two of `je`, `jz`, `sete`, `setz` and `cmove` |
| Scorer.CountsExactly | crates/r2smt-core/src/finding.rs:192-200 | every kind of finding is scored but real branches, suspicious unknowns and lifter disagreements |
| Scorer.ScoreFindings | crates/r2smt-bench/src/main.rs:234-300 | true and false positives are the actionable findings, true positives and misses the expectations, and no pairing has more pairs than the greedy one |
| Scorer.MatchingBound | crates/r2smt-bench/src/main.rs:284-300 | no pairing has more pairs than the two lists have classes in common |
| Scorer.ScoreIsOrderFree | crates/r2smt-bench/src/main.rs:284-300 | reordering findings or expectations changes no count |
| Pcode.LiftReadsAtLatest | crates/r2smt-pcode/src/machine.rs:279-291 | in every lift every variable is read at the width of its latest definition, or its own width before any |
| PcodeProof.DefinesValue | crates/r2smt-pcode/src/machine.rs:115-231 | every defining opcode, decoded, gives its output the value of its operands' numbers at the width it defines |
| PcodeProof.LoadStep | crates/r2smt-pcode/src/machine.rs:115-142 | a load |
| PcodeProof.StoreStep | crates/r2smt-pcode/src/machine.rs:100-113 | a store |
| PcodeDecode.DecodesIff | crates/r2smt-pcode/src/machine.rs:87-231 | an opcode is decoded to an operation exactly when its text is that operation's |
| PcodeDecode.RegisterIs | crates/r2smt-pcode/src/machine.rs:342-376 | a register is one bit for the eight flag names, 64 for `x` and a number, 32 for `w` and a number, else a pointer |
| PcodeDecode.RunsAre | crates/r2smt-pcode/src/machine.rs:57-231 | interpreting the text of a list of operations is interpreting the decoded opcodes, over the same names and widths |
| PcodeDecode.LiftRefines | crates/r2smt-pcode/src/machine.rs:57-68 | the lift of a list of consistent widths succeeds and its statements end in exactly the state the interpreter of its text ends in; a lone bare constant is admitted wherever it is one number at the pointer's width and the output's |
| PcodeAccept.AcceptsIff | crates/r2smt-pcode/src/machine.rs:87-277 | a listing is lifted exactly when each operation is control flow or has the number and kinds of operands its opcode asks for, and an output unless it stores |
| PcodeLimits.NegateExactlyUpTo128 | crates/r2smt-pcode/src/machine.rs:181-201 | a bitwise negation of `n` bytes, lifted: lift and interpreter agree, from every state, exactly up to 128 bits |
| PcodeLimits.WideNegationMisread | crates/r2smt-pcode/src/machine.rs:181-201 | of seventeen zero bytes the lifted negation leaves the top one zero |
| PcodeLimits.LoneConstantIff | crates/r2smt-pcode/src/machine.rs:253-258 | a bare constant copied to a register and compared, signed, with another of its width: lift and interpreter agree for every constant and state exactly when the register is as wide as a pointer |
| PcodeLimits.LoneIsTyped | crates/r2smt-pcode/src/machine.rs:253-258 | and then the list is one the refinement covers |
| PcodeLimits.BareConstantMisread | crates/r2smt-pcode/src/machine.rs:253-258 | a bare constant copied into a 32-bit register turns a later signed comparison round |
| PcodeLimits.TruthAsNumberIff | crates/r2smt-pcode/src/machine.rs:361-376 | two comparisons and an arithmetic operation on their answers: lift and interpreter agree, from a state, exactly when the addition does not carry out of the bit and the subtraction does not borrow into it |
| PcodeLimits.BooleanSumMisread | crates/r2smt-pcode/src/machine.rs:361-376 | two comparisons that hold, added, differ |
| PcodePass.Machine.Define | crates/r2smt-pcode/src/machine.rs:279-283 | the width recorded and the variable returned |
| PcodePass.Machine.LiftStore | crates/r2smt-pcode/src/machine.rs:100-113 | the new statements, or the error |
| PcodePass.Machine.LiftDefining | crates/r2smt-pcode/src/machine.rs:115-142 | the new widths and statements, or the error |
| PcodePass.Machine.Step | crates/r2smt-pcode/src/machine.rs:87-98 | the new state, or the error |
| PcodePass.LiftPcode | crates/r2smt-pcode/src/machine.rs:57-68 | the nested loops are the lift; the first operation declined is the error reported |
| PcodeScan.ScanAssignment | crates/r2smt-pcode/src/parse.rs:176-192 | the first ` = ` outside brackets |
| PcodeScan.ScanInputList | crates/r2smt-pcode/src/parse.rs:195-218 | the parts between commas outside brackets, each parsed |
| PcodeScan.ScanListing | crates/r2smt-pcode/src/parse.rs:79-109 | the line-by-line run is the parser the round trip is about |
| PcodeText.SplitAssignmentAt | crates/r2smt-pcode/src/parse.rs:173-192 | the assignment splitter never cuts inside a text that keeps its spaces in brackets |
| PcodeText.SplitListAt | crates/r2smt-pcode/src/parse.rs:194-218 | the list splitter never cuts inside a text that keeps its commas in brackets |
| PcodeText.NumeralOfDigits | crates/r2smt-pcode/src/parse.rs:270-276 | a printed numeral reads back, in every base up to sixteen |
| PcodePrint.PrintedIsBalanced | crates/r2smt-pcode/src/parse.rs:173-218 | a printed varnode closes its brackets and keeps commas and spaces inside them |
| PcodePrint.ParsePrinted | crates/r2smt-pcode/src/parse.rs:220-268 | parsing a printed varnode, nested or not, gives it back |
| PcodeRoundTrip.SplitPrintedList | crates/r2smt-pcode/src/parse.rs:195-218 | a printed operand list is cut exactly between its varnodes |
| PcodeRoundTrip.OpParses | crates/r2smt-pcode/src/parse.rs:117-171 | parsing a printed store, assignment or control-flow operation gives it back |
| PcodeRoundTrip.PrintedListingParses | crates/r2smt-pcode/src/parse.rs:79-109 | parsing a printed listing, whatever assembly text its headers show, gives the same instructions |

## Left out

- The solver, its budgets and clocks: an oracle whose answers are right or unknown.
- Process and file plumbing, hashing and the manifest's JSON and hexadecimal text: hashes enter as whether they match.
- Floating-point nodes are uninterpreted; the passes are proved to recurse through them.
- Reports, rendering, logging and command-line arguments.
- The lexer of ESIL strings: the model starts from tokens. The lowerings that feed the driver and the per-ISA register
  tables are parameters, asked only to be lawful views.
- The `AArch64` conditional-select rewrites of the planner and its reading of mnemonics: a finding carries its kind.
- The assembler and the range check of the patcher are arbitrary functions.
- Whether NOPs and rewritten bytes behave on a processor: only lengths and bytes are stated.
- The scorer's census of slice states, verdicts and unknown reasons, and its percentages.
- SsaConvert: covers the statement lists of one instruction; the branch condition and slice metadata of the converted
  structure are not part of this model, and the version and latest tables are one map.
- EquivBuild.BuildEquivalenceQuery: the query's lists of inputs and definitions are not modelled, since the condition and
  the statements decide its meaning. Source programs have no zero-width load and no zero-width register read.
- EquivBuild.Condition: keys and probes are met in an arbitrary order where the program uses name order; the theorems hold for every order.
- EquivFinals.CanonicalFinals: follows the code in that a tainted or vector-mismatched definition of one alias does not count as a
  rival of another.
- EquivMachine.QueryMeansDifference: asks that every compared definition be the last of its register and cover the earlier ones of other
  views; `EquivAlias` shows why. Within one side a read of a view sees the latest definition under its own name, as in the
  representation, where names are variables of their own; `EquivViews.Coherent` says when a machine of views does the same.
- EquivTheorem.ConditionIsDiffer: memory is compared only when both lowerings write it and neither latch is set, as in the program.
- EsilSpelled.LiftRefines: stated for hazard-free streams: no write to a variable a live computed entry, compare context or open
  guard still reads, none to a value just loaded, which the program takes as an assignment to its temporary, blocks that leave
  the stack as they found it, and no flag read from a context seeded inside a closed block. Accesses of zero bytes are outside it.
  The five flags are asked to be single bits outside the register tables, as in the program. `!=` on the zero register is not
  discarded there, so the interpreter keeps it in that register's own cell, which no read sees.
- EsilTyping.StepTyped: a literal is asked to fit 64 bits, as the token type does.
- Driver.RunDifferentialLift: the comparator is a function of its two bodies; a solver that answers one question differently on two
  occasions is outside the model, as is the text of a finding beyond the engines it names.
- MemoVerdict.KeyDecidesVerdict: about lowerings whose names and hints are printable ASCII without quotation marks, backslashes and
  `$`, so that nothing is escaped; in which a register is not spelled like an ESIL temporary or a P-code unique, and no hint
  or comment names a temporary (`LoweringText.Spelt`). The verdict is the one a solver that always answers leads to.
- EquivDrawn.RenamingKeepsVerdict: the orders probes and keys are taken in are functions of the sets they order, as name order is.
- Patch.ApplyPlan: a failure manifest that cannot be written turns the reported failure into a bare error; what the target holds is the same.
- Patch.Device.Read: a read that works returns as many bytes as were asked for. On a device that is not reliable nothing says when
  a read fails.
- PcodeDecode.LiftRefines: stated for lists of consistent width: operands and outputs of one opcode agree as P-code demands, truth values
  are read at a wider width only where their value alone counts, shift amounts of arithmetic shifts are no wider than the value, and
  a bare constant stands alone only where it is one number at the pointer's width and at the output's.
- PcodePrint.PrintVarnode: prints without optional white space; a register named like a numeral, or an output register named `STORE`, has no printed form of its own.
