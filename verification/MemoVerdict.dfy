/** Why the memo key decides the verdict of the query: lowerings whose texts have one key differ
    by one renaming of temporaries, and that changes no verdict. */
module MemoVerdict {
  import opened Ir
  import opened Ssa
  import opened Layouts
  import opened Namespace
  import opened EquivVerdict
  import opened EquivRename
  import opened EquivDrawn
  import opened TempNames
  import opened LoweringText
  import Driver

  /** Two lowerings of the instruction at one address, printed without escapes. */
  ghost predicate OneInstruction(a: seq<Line>, b: seq<Line>) {
    && SourceProgram(Statements(a)) && SourceProgram(Statements(b)) && Spelt(a) && Spelt(b)
    && exists p :: IsAddress(p) && OneAddress(Printed(a), p) && OneAddress(Printed(b), p)
  }

  /** The key of two lowerings, from their texts. */
  function KeyOf(a: seq<Line>, b: seq<Line>): string {
    MemoKey(Printed(a), Printed(b))
  }

  ghost function VerdictOf(a: seq<Line>, b: seq<Line>, arch: Arch, fp: FpModel, o: Orders): Verdict {
    TrueVerdict(Statements(a), Statements(b), arch, fp, o)
  }

  /** What prints like `a` moved is `a` moved. */
  lemma MovedIs(a: seq<Line>, c: seq<Line>, p: string, q: string)
    requires Spelt(a) && Spelt(c) && IsAddress(q) && OneAddress(Printed(a), p) && Printed(c) == Readdressed(Printed(a), q)
    ensures Statements(c) == Move(Statements(a), Swap(p, q))
  {
    hide *;
    PrintedMoved(a, p, q);
    PrintedOnce(c, MoveLines(a, Swap(p, q)));
    MoveStatements(a, Swap(p, q));
  }

  lemma KeylessParts(ls: seq<Line>)
    requires Spelt(ls)
    ensures NoDollar(Printed(ls)) && SEPARATOR !in Printed(ls)
  {
    hide Spelt, Printed;
    PrintedKeyless(ls);
  }

  /** Pairs of lowerings with one memo key have one verdict. */
  lemma OneKeyOneVerdict(a: seq<Line>, b: seq<Line>, c: seq<Line>, d: seq<Line>, arch: Arch, fp: FpModel, o: Orders)
    requires Lawful(arch) && Untemporary(arch) && OneInstruction(a, b) && OneInstruction(c, d) && KeyOf(a, b) == KeyOf(c, d)
    ensures VerdictOf(a, b, arch, fp, o) == VerdictOf(c, d, arch, fp, o)
  {
    hide Spelt, Printed, Move, Swaps, Swap, Readdressed, OneAddress, IsAddress, NoDollar, MemoKey, SourceProgram, Statements, TrueVerdict, Untemporary, Lawful;
    var p :| IsAddress(p) && OneAddress(Printed(a), p) && OneAddress(Printed(b), p);
    var q :| IsAddress(q) && OneAddress(Printed(c), q) && OneAddress(Printed(d), q);
    KeylessParts(a);
    KeylessParts(b);
    KeylessParts(c);
    KeylessParts(d);
    MemoKeyIsOneRenaming(Printed(a), Printed(b), Printed(c), Printed(d), p, q);
    MovedIs(a, c, p, q);
    MovedIs(b, d, p, q);
    SwapSwaps(p, q, arch);
    RenamingKeepsVerdict(Statements(a), Statements(b), Swap(p, q), arch, fp, o);
  }

  /** The other way round, the same pair at another address has the same key. */
  lemma MovedKeepsKey(a: seq<Line>, b: seq<Line>, p: string, q: string)
    requires Spelt(a) && Spelt(b) && IsAddress(p) && IsAddress(q) && OneAddress(Printed(a), p) && OneAddress(Printed(b), p)
    ensures KeyOf(MoveLines(a, Swap(p, q)), MoveLines(b, Swap(p, q))) == KeyOf(a, b)
  {
    hide Spelt, Printed, Swap, MoveLines, Readdressed, OneAddress, IsAddress, NoDollar, MemoKey;
    var c, d := MoveLines(a, Swap(p, q)), MoveLines(b, Swap(p, q));
    PrintedMoved(a, p, q);
    PrintedMoved(b, p, q);
    KeylessParts(a);
    KeylessParts(b);
    KeylessParts(c);
    KeylessParts(d);
    ReaddressBack(Printed(a), p, q);
    ReaddressBack(Printed(b), p, q);
    MemoKeyIsOneRenaming(Printed(a), Printed(b), Printed(c), Printed(d), p, q);
  }

  /** What the memoised run asks of its comparator holds of the query's true verdict: on the
      lowerings of one instruction the memo key decides it. */
  lemma KeyDecidesVerdict(arch: Arch, fp: FpModel, o: Orders)
    requires Lawful(arch) && Untemporary(arch)
    ensures Driver.KeyDecides((a, b) => VerdictOf(a, b, arch, fp, o), (a, b) => KeyOf(a, b), (a, b) => OneInstruction(a, b))
  {
    hide KeyOf, OneInstruction, VerdictOf, Untemporary, Lawful;
    forall a, b, c, d | OneInstruction(a, b) && OneInstruction(c, d) && KeyOf(a, b) == KeyOf(c, d)
      ensures VerdictOf(a, b, arch, fp, o) == VerdictOf(c, d, arch, fp, o)
    {
      OneKeyOneVerdict(a, b, c, d, arch, fp, o);
    }
  }
}
