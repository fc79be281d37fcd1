/**
 * The memoised differential run of the command line: every pair of lowerings of every
 * instruction is compared under a comparison budget, and decided pairs are kept in a
 * bounded memo. The run is proved to be the one without a memo, whatever the memo's size.
 */
module Driver {
  import opened Common
  import opened EquivVerdict

  datatype Engine = Pcode | Esil | Mnemonic

  datatype Lowerings<B> = Lowerings(pcode: Option<B>, esil: Option<B>, mnemonic: B)

  datatype Instruction<B> = Instruction(address: nat, text: string, lowered: Lowerings<B>)

  datatype Block<B> = Block(instructions: seq<Instruction<B>>)

  datatype Routine<B> = Routine(address: nat, blocks: seq<Block<B>>)

  /** One instruction in its routine, the unit the budget is checked at. */
  datatype Site<B> = Site(owner: nat, insn: Instruction<B>)

  datatype Finding = Finding(address: nat, owner: nat, text: string, pairs: seq<(Engine, Engine)>)

  datatype Stats = Stats(agree: nat, disagree: nat, inconclusive: nat)

  datatype DiffLiftRun = DiffLiftRun(findings: seq<Finding>, stats: Stats, compared: nat, queries: nat, truncated: bool, cap: nat)

  // ---------------------------------------------------------------------------
  // The reference: what a run without a memo reports.

  /** The lowerings an instruction has, in the stable order; the mnemonic one always exists. */
  function Available<B>(l: Lowerings<B>): seq<(Engine, B)> {
    (if l.pcode.Some? then [(Pcode, l.pcode.value)] else []) +
    (if l.esil.Some? then [(Esil, l.esil.value)] else []) +
    [(Mnemonic, l.mnemonic)]
  }

  /** All pairs whose first member is `bodies[i]` and whose second stands in `bodies[i+1..j]`. */
  function PairsWith<T>(bodies: seq<T>, i: nat, j: nat): seq<(T, T)>
    requires i < j <= |bodies|
    decreases j
  {
    if j == i + 1 then [] else PairsWith(bodies, i, j - 1) + [(bodies[i], bodies[j - 1])]
  }

  /** All pairs whose first member stands before position `i`. */
  function PairsBefore<T>(bodies: seq<T>, i: nat): seq<(T, T)>
    requires i <= |bodies|
  {
    if i == 0 then [] else PairsBefore(bodies, i - 1) + PairsWith(bodies, i - 1, |bodies|)
  }

  function PairsOf<B>(s: Site<B>): seq<((Engine, B), (Engine, B))> {
    var bodies := Available(s.insn.lowered);
    PairsBefore(bodies, |bodies|)
  }

  /** Every two lowerings there are, the earlier one first. */
  lemma PairsAre<B>(s: Site<B>)
    ensures
      var l := s.insn.lowered;
      var p, e, m := if l.pcode.Some? then [(Pcode, l.pcode.value)] else [], if l.esil.Some? then [(Esil, l.esil.value)] else [], (Mnemonic, l.mnemonic);
      PairsOf(s) ==
        (if p != [] && e != [] then [(p[0], e[0])] else []) + (if p != [] then [(p[0], m)] else []) + (if e != [] then [(e[0], m)] else [])
  {
    var bodies := Available(s.insn.lowered);
    var n := |bodies|;
    assert PairsWith(bodies, n - 1, n) == [] && PairsBefore(bodies, 0) == [];
    if n >= 2 {
      assert PairsWith(bodies, n - 2, n - 1) == [] && PairsWith(bodies, n - 2, n) == [(bodies[n - 2], bodies[n - 1])];
    }
    if n == 3 {
      assert PairsWith(bodies, 0, 1) == [] && PairsWith(bodies, 0, 2) == [(bodies[0], bodies[1])];
      assert PairsWith(bodies, 0, 3) == [(bodies[0], bodies[1]), (bodies[0], bodies[2])];
      assert PairsBefore(bodies, 1) == PairsWith(bodies, 0, 3);
      assert PairsBefore(bodies, 2) == PairsBefore(bodies, 1) + PairsWith(bodies, 1, 3);
      assert PairsBefore(bodies, 3) == PairsBefore(bodies, 2) + PairsWith(bodies, 2, 3);
    } else if n == 2 {
      assert PairsBefore(bodies, 1) == PairsWith(bodies, 0, 2);
      assert PairsBefore(bodies, 2) == PairsBefore(bodies, 1) + PairsWith(bodies, 1, 2);
    } else {
      assert PairsBefore(bodies, 1) == PairsWith(bodies, 0, 1);
    }
  }

  function Comparisons<B>(sites: seq<Site<B>>): seq<((Engine, B), (Engine, B))> {
    if sites == [] then [] else Comparisons(sites[..|sites| - 1]) + PairsOf(sites[|sites| - 1])
  }

  /** The engine pairs of `pairs` the comparator proves different. */
  function Disagreeing<B>(pairs: seq<((Engine, B), (Engine, B))>, compare: (B, B) -> Verdict): seq<(Engine, Engine)> {
    if pairs == [] then [] else
      var p := pairs[|pairs| - 1];
      Disagreeing(pairs[..|pairs| - 1], compare) + if compare(p.0.1, p.1.1) == Disagree then [(p.0.0, p.1.0)] else []
  }

  function FindingAt<B>(s: Site<B>, compare: (B, B) -> Verdict): Finding {
    Finding(s.insn.address, s.owner, s.insn.text, Disagreeing(PairsOf(s), compare))
  }

  function Findings<B>(sites: seq<Site<B>>, compare: (B, B) -> Verdict): seq<Finding> {
    if sites == [] then [] else
      var f := FindingAt(sites[|sites| - 1], compare);
      Findings(sites[..|sites| - 1], compare) + if f.pairs != [] then [f] else []
  }

  function Verdicts<B>(pairs: seq<((Engine, B), (Engine, B))>, compare: (B, B) -> Verdict): multiset<Verdict> {
    if pairs == [] then multiset{} else
      var p := pairs[|pairs| - 1];
      Verdicts(pairs[..|pairs| - 1], compare) + multiset{compare(p.0.1, p.1.1)}
  }

  function TallyOf(m: multiset<Verdict>): Stats {
    Stats(m[Agree], m[Disagree], m[Inconclusive])
  }

  function BlockSites<B>(owner: nat, insns: seq<Instruction<B>>): (r: seq<Site<B>>)
    ensures |r| == |insns|
    ensures forall k :: 0 <= k < |insns| ==> r[k] == Site(owner, insns[k])
  {
    if insns == [] then [] else BlockSites(owner, insns[..|insns| - 1]) + [Site(owner, insns[|insns| - 1])]
  }

  function RoutineSites<B>(owner: nat, blocks: seq<Block<B>>): seq<Site<B>> {
    if blocks == [] then [] else
      RoutineSites(owner, blocks[..|blocks| - 1]) + BlockSites(owner, blocks[|blocks| - 1].instructions)
  }

  /** The instructions of a program in the order the three nested loops meet them. */
  function Sites<B>(program: seq<Routine<B>>): seq<Site<B>> {
    if program == [] then [] else
      var f := program[|program| - 1];
      Sites(program[..|program| - 1]) + RoutineSites(f.address, f.blocks)
  }

  /** The instructions reached before the budget is used up. */
  function Reach<B>(sites: seq<Site<B>>, cap: nat): (n: nat)
    ensures n <= |sites|
  {
    if sites == [] then 0 else
      var rest := sites[..|sites| - 1];
      var n := Reach(rest, cap);
      if n < |rest| || |Comparisons(rest)| >= cap then n else |sites|
  }

  // ---------------------------------------------------------------------------
  // What the reference says about the budget and the tally.

  /** The run stops at the first instruction that finds the budget used up, and nowhere else. */
  lemma {:induction false} ReachIsFirstExhausted<B>(sites: seq<Site<B>>, cap: nat)
    ensures forall k: nat :: k < Reach(sites, cap) ==> |Comparisons(sites[..k])| < cap
    ensures Reach(sites, cap) == |sites| || |Comparisons(sites[..Reach(sites, cap)])| >= cap
    decreases |sites|
  {
    if sites != [] {
      var rest := sites[..|sites| - 1];
      ReachIsFirstExhausted(rest, cap);
      assert forall k: nat :: k <= |rest| ==> rest[..k] == sites[..k];
    }
  }

  /** So an instruction is left uncompared exactly when the budget was used up before the last one. */
  lemma TruncatedIffUncompared<B>(sites: seq<Site<B>>, cap: nat)
    ensures Reach(sites, cap) < |sites| <==> exists k: nat :: k < |sites| && |Comparisons(sites[..k])| >= cap
  {
    ReachIsFirstExhausted(sites, cap);
  }

  /** Reaching is stopping: any first exhausted position is the one the run stops at. */
  lemma ReachIsUnique<B>(sites: seq<Site<B>>, cap: nat, n: nat)
    requires n <= |sites|
    requires forall k: nat :: k < n ==> |Comparisons(sites[..k])| < cap
    requires n == |sites| || |Comparisons(sites[..n])| >= cap
    ensures n == Reach(sites, cap)
  {
    ReachIsFirstExhausted(sites, cap);
    var m := Reach(sites, cap);
    assert forall k: nat :: k < n ==> |Comparisons(sites[..k])| < cap;
    assert m == |sites| || |Comparisons(sites[..m])| >= cap;
  }

  lemma PairsWithLength<T>(bodies: seq<T>, i: nat, j: nat)
    requires i < j <= |bodies|
    ensures |PairsWith(bodies, i, j)| == j - i - 1
    decreases j
  {
    if j > i + 1 {
      PairsWithLength(bodies, i, j - 1);
    }
  }

  lemma AtMostThreePairs<B>(s: Site<B>)
    ensures |PairsOf(s)| <= 3
  {
    var bodies := Available(s.insn.lowered);
    assert 1 <= |bodies| <= 3;
    PairsWithLength(bodies, 0, |bodies|);
    assert |PairsBefore(bodies, 1)| == |bodies| - 1;
    if |bodies| >= 2 {
      PairsWithLength(bodies, 1, |bodies|);
      assert |PairsBefore(bodies, 2)| == |bodies| - 1 + |bodies| - 2;
    }
    if |bodies| == 3 {
      PairsWithLength(bodies, 2, 3);
    }
  }

  /** The budget is overrun by at most the rest of one instruction. */
  lemma BudgetOverrun<B>(sites: seq<Site<B>>, cap: nat)
    ensures |Comparisons(sites[..Reach(sites, cap)])| <= cap + 2
  {
    var n := Reach(sites, cap);
    ReachIsFirstExhausted(sites, cap);
    if n > 0 {
      assert sites[..n][..n - 1] == sites[..n - 1];
      assert |Comparisons(sites[..n - 1])| < cap;
      AtMostThreePairs(sites[n - 1]);
    }
  }

  /** Every comparison lands in exactly one of the three counters. */
  lemma {:induction false} TallyIsComplete<B>(pairs: seq<((Engine, B), (Engine, B))>, compare: (B, B) -> Verdict)
    ensures |Verdicts(pairs, compare)| == |pairs|
    ensures var t := TallyOf(Verdicts(pairs, compare)); t.agree + t.disagree + t.inconclusive == |pairs|
    decreases |pairs|
  {
    if pairs != [] {
      var rest := pairs[..|pairs| - 1];
      TallyIsComplete(rest, compare);
      var v := compare(pairs[|rest|].0.1, pairs[|rest|].1.1);
      assert Verdicts(pairs, compare) == Verdicts(rest, compare) + multiset{v};
      assert v == Agree || v == Disagree || v == Inconclusive;
    }
  }

  /** A pair is in the finding exactly when its two bodies stand at positions i < j and disagree. */
  lemma {:induction false} DisagreeingIsExact<B>(pairs: seq<((Engine, B), (Engine, B))>, compare: (B, B) -> Verdict, e: (Engine, Engine))
    ensures e in Disagreeing(pairs, compare) <==> exists k :: 0 <= k < |pairs| && (pairs[k].0.0, pairs[k].1.0) == e && compare(pairs[k].0.1, pairs[k].1.1) == Disagree
    decreases |pairs|
  {
    if pairs != [] {
      var rest := pairs[..|pairs| - 1];
      DisagreeingIsExact(rest, compare, e);
      assert forall k :: 0 <= k < |rest| ==> rest[k] == pairs[k];
    }
  }

  lemma {:induction false} PairsWithExact<T>(bodies: seq<T>, i: nat, j: nat, x: T, y: T)
    requires i < j <= |bodies|
    ensures (x, y) in PairsWith(bodies, i, j) <==> exists l :: i < l < j && bodies[i] == x && bodies[l] == y
    decreases j
  {
    if j > i + 1 {
      PairsWithExact(bodies, i, j - 1, x, y);
    }
  }

  /** The pair is one of an earlier and a later element, the earlier below `i`. */
  ghost predicate PairBelow<T(!new)>(bodies: seq<T>, i: nat, x: T, y: T) {
    exists k, l :: 0 <= k < i && k < l < |bodies| && bodies[k] == x && bodies[l] == y
  }

  lemma PairAtMost<T(!new)>(bodies: seq<T>, i: nat, x: T, y: T)
    requires 0 < i <= |bodies|
    ensures PairBelow(bodies, i, x, y) <==> PairBelow(bodies, i - 1, x, y) || exists l :: i - 1 < l < |bodies| && bodies[i - 1] == x && bodies[l] == y
  {
    if PairBelow(bodies, i, x, y) {
      var k, l :| 0 <= k < i && k < l < |bodies| && bodies[k] == x && bodies[l] == y;
      assert k < i - 1 || k == i - 1;
    }
  }

  lemma InPairs<T>(bodies: seq<T>, i: nat, e: (T, T))
    requires 0 < i <= |bodies|
    ensures e in PairsBefore(bodies, i) <==> e in PairsBefore(bodies, i - 1) || e in PairsWith(bodies, i - 1, |bodies|)
  {
    hide PairsWith;
  }

  lemma {:induction false} PairsBeforeExact<T(!new)>(bodies: seq<T>, i: nat, x: T, y: T)
    requires i <= |bodies|
    ensures (x, y) in PairsBefore(bodies, i) <==> PairBelow(bodies, i, x, y)
    decreases i
  {
    hide PairsBefore, PairsWith, PairBelow;
    if i == 0 {
      NoneBelow(bodies, x, y);
    } else {
      PairsBeforeExact(bodies, i - 1, x, y);
      PairsWithExact(bodies, i - 1, |bodies|, x, y);
      InPairs(bodies, i, (x, y));
      PairAtMost(bodies, i, x, y);
    }
  }

  lemma NoneBelow<T(!new)>(bodies: seq<T>, x: T, y: T)
    ensures (x, y) !in PairsBefore(bodies, 0) && !PairBelow(bodies, 0, x, y)
  {
  }

  /** Both engines of `e` lowered the instruction, and their bodies disagree. */
  ghost predicate EnginesDisagree<B(!new)>(s: Site<B>, compare: (B, B) -> Verdict, e: (Engine, Engine)) {
    var bodies := Available(s.insn.lowered);
    exists k, l :: 0 <= k < l < |bodies| && bodies[k].0 == e.0 && bodies[l].0 == e.1 && compare(bodies[k].1, bodies[l].1) == Disagree
  }

  lemma FindingNamesDisagreements<B(!new)>(s: Site<B>, compare: (B, B) -> Verdict, e: (Engine, Engine))
    ensures e in FindingAt(s, compare).pairs <==> EnginesDisagree(s, compare, e)
  {
    var bodies := Available(s.insn.lowered);
    var pairs := PairsOf(s);
    DisagreeingIsExact(pairs, compare, e);
    if e in FindingAt(s, compare).pairs {
      var k :| 0 <= k < |pairs| && (pairs[k].0.0, pairs[k].1.0) == e && compare(pairs[k].0.1, pairs[k].1.1) == Disagree;
      PairsBeforeExact(bodies, |bodies|, pairs[k].0, pairs[k].1);
      assert (pairs[k].0, pairs[k].1) in pairs;
    }
    if EnginesDisagree(s, compare, e) {
      var k, l :| 0 <= k < l < |bodies| && bodies[k].0 == e.0 && bodies[l].0 == e.1 && compare(bodies[k].1, bodies[l].1) == Disagree;
      PairsBeforeExact(bodies, |bodies|, bodies[k], bodies[l]);
      assert (bodies[k], bodies[l]) in pairs;
    }
  }

  /** No disagreement among the reached instructions is lost, and no finding is made up. */
  lemma {:induction false} FindingsAreExact<B(!new)>(sites: seq<Site<B>>, compare: (B, B) -> Verdict, f: Finding)
    ensures f in Findings(sites, compare) <==>
            exists k :: 0 <= k < |sites| && FindingAt(sites[k], compare) == f && f.pairs != []
    decreases |sites|
  {
    if sites != [] {
      var rest := sites[..|sites| - 1];
      FindingsAreExact(rest, compare, f);
      assert forall k :: 0 <= k < |rest| ==> rest[k] == sites[k];
    }
  }

  // ---------------------------------------------------------------------------
  // The nested loops meet the sites one by one.

  lemma {:induction false} RoutineSitesPrefix<B>(owner: nat, blocks: seq<Block<B>>, j: nat)
    requires j <= |blocks|
    ensures RoutineSites(owner, blocks[..j]) <= RoutineSites(owner, blocks)
    decreases |blocks|
  {
    if j < |blocks| {
      var rest := blocks[..|blocks| - 1];
      RoutineSitesPrefix(owner, rest, j);
      assert rest[..j] == blocks[..j];
    } else {
      assert blocks[..j] == blocks;
    }
  }

  lemma {:induction false} SitesPrefix<B>(program: seq<Routine<B>>, i: nat)
    requires i <= |program|
    ensures Sites(program[..i]) <= Sites(program)
    decreases |program|
  {
    if i < |program| {
      var rest := program[..|program| - 1];
      SitesPrefix(rest, i);
      assert rest[..i] == program[..i];
    } else {
      assert program[..i] == program;
    }
  }

  /** How many sites precede block `j` of routine `i`. */
  function Offset<B>(program: seq<Routine<B>>, i: nat, j: nat): nat
    requires i < |program| && j <= |program[i].blocks|
  {
    |Sites(program[..i])| + |RoutineSites(program[i].address, program[i].blocks[..j])|
  }

  lemma NextRoutine<B>(program: seq<Routine<B>>, i: nat)
    requires i < |program|
    ensures Offset(program, i, 0) == |Sites(program[..i])|
    ensures Offset(program, i, |program[i].blocks|) == |Sites(program[..i + 1])|
  {
    var f := program[i];
    assert f.blocks[..|f.blocks|] == f.blocks;
    assert program[..i + 1][..i] == program[..i];
  }

  /** The sites of a routine follow those of the routines before it. */
  lemma RoutineIsNext<B>(program: seq<Routine<B>>, i: nat)
    requires i < |program|
    ensures Sites(program[..i]) + RoutineSites(program[i].address, program[i].blocks) <= Sites(program)
  {
    assert program[..i + 1][..i] == program[..i];
    SitesPrefix(program, i + 1);
    hide RoutineSites;
  }

  lemma RoutineSitesNext<B>(owner: nat, blocks: seq<Block<B>>, j: nat)
    requires j < |blocks|
    ensures RoutineSites(owner, blocks[..j + 1]) == RoutineSites(owner, blocks[..j]) + BlockSites(owner, blocks[j].instructions)
    ensures RoutineSites(owner, blocks[..j + 1]) <= RoutineSites(owner, blocks)
  {
    assert blocks[..j + 1][..j] == blocks[..j];
    RoutineSitesPrefix(owner, blocks, j + 1);
    hide BlockSites;
  }

  lemma BlockIsNext<B>(program: seq<Routine<B>>, i: nat, j: nat)
    requires i < |program| && j < |program[i].blocks|
    ensures Offset(program, i, j + 1) == Offset(program, i, j) + |program[i].blocks[j].instructions| <= |Sites(program)|
    ensures forall m: nat :: m < |program[i].blocks[j].instructions| ==>
              Sites(program)[Offset(program, i, j) + m] == Site(program[i].address, program[i].blocks[j].instructions[m])
  {
    hide Sites, RoutineSites, BlockSites;
    var f := program[i];
    RoutineIsNext(program, i);
    RoutineSitesNext(f.address, f.blocks, j);
    BlockPlaced(Sites(program), Sites(program[..i]), RoutineSites(f.address, f.blocks), RoutineSites(f.address, f.blocks[..j]),
      BlockSites(f.address, f.blocks[j].instructions));
  }

  lemma BlockPlaced<T>(all: seq<T>, first: seq<T>, whole: seq<T>, earlier: seq<T>, here: seq<T>)
    requires first + whole <= all && earlier + here <= whole
    ensures |first| + |earlier| + |here| <= |all|
    ensures forall m: nat :: m < |here| ==> all[|first| + |earlier| + m] == here[m]
  {
    forall m: nat | m < |here| ensures |first| + |earlier| + m < |all| && all[|first| + |earlier| + m] == here[m] {
      Placed(all, first, whole, earlier + here, |earlier| + m);
    }
  }

  /** Where an element of a prefix of a prefix stands in the whole. */
  lemma Placed<T>(all: seq<T>, first: seq<T>, whole: seq<T>, part: seq<T>, k: nat)
    requires first + whole <= all && part <= whole && k < |part|
    ensures |first| + k < |all| && all[|first| + k] == part[k]
  {
    assert all[|first| + k] == (first + whole)[|first| + k];
  }

  // ---------------------------------------------------------------------------
  // The memoised run.

  /** Among the pairs that can meet, those `ok` admits, the comparator depends on its two
      bodies only through the memo key. */
  ghost predicate KeyDecides<B(!new), K(!new)>(compare: (B, B) -> Verdict, key: (B, B) -> K, ok: (B, B) -> bool) {
    forall a, b, c, d :: ok(a, b) && ok(c, d) && key(a, b) == key(c, d) ==> compare(a, b) == compare(c, d)
  }

  /** Every pair of lowerings of every instruction is one that can meet. */
  ghost predicate BodiesMeet<B>(bodies: seq<(Engine, B)>, ok: (B, B) -> bool) {
    forall i, j :: 0 <= i < j < |bodies| ==> ok(bodies[i].1, bodies[j].1)
  }

  ghost predicate SitesMeet<B>(sites: seq<Site<B>>, ok: (B, B) -> bool) {
    forall k :: 0 <= k < |sites| ==> BodiesMeet(Available(sites[k].insn.lowered), ok)
  }

  function KeysOf<B, K>(pairs: seq<((Engine, B), (Engine, B))>, key: (B, B) -> K): set<K> {
    if pairs == [] then {} else
      var p := pairs[|pairs| - 1];
      KeysOf(pairs[..|pairs| - 1], key) + {key(p.0.1, p.1.1)}
  }

  /** What the local state of a run says about the pairs compared so far. */
  ghost predicate Consistent<B(!new), K(!new)>(compare: (B, B) -> Verdict, key: (B, B) -> K, ok: (B, B) -> bool, capacity: nat, seen: seq<((Engine, B), (Engine, B))>,
                                               memo: map<K, Verdict>, stats: Stats, compared: nat, queries: nat)
  {
    && compared == |seen|
    && stats == TallyOf(Verdicts(seen, compare))
    && (forall a, b :: ok(a, b) && key(a, b) in memo ==> memo[key(a, b)] == compare(a, b))
    && memo.Keys <= KeysOf(seen, key)
    && |KeysOf(seen, key)| <= queries <= |seen|
    && (|KeysOf(seen, key)| <= capacity ==> memo.Keys == KeysOf(seen, key) && queries == |memo.Keys|)
  }

  /** The memo and the query count after looking up `k`, whose verdict is `v`. */
  function Recall<K>(memo: map<K, Verdict>, k: K, v: Verdict, capacity: nat): map<K, Verdict> {
    if k in memo || |memo| >= capacity then memo else memo[k := v]
  }

  lemma OneMoreKey<K>(keys: set<K>, k: K)
    ensures |keys + {k}| == |keys| + (if k in keys then 0 else 1)
  {
    assert k in keys ==> keys + {k} == keys;
  }

  lemma MemoKeepsVerdicts<B(!new), K(!new)>(compare: (B, B) -> Verdict, key: (B, B) -> K, ok: (B, B) -> bool, capacity: nat, memo: map<K, Verdict>, a: B, b: B)
    requires KeyDecides(compare, key, ok) && ok(a, b)
    requires forall c, d :: ok(c, d) && key(c, d) in memo ==> memo[key(c, d)] == compare(c, d)
    ensures var after := Recall(memo, key(a, b), compare(a, b), capacity);
            forall c, d :: ok(c, d) && key(c, d) in after ==> after[key(c, d)] == compare(c, d)
  {
  }

  /** The queries counted against the distinct keys: one each, and no more while they all fit. */
  lemma KeysAreCounted<K>(keys: set<K>, memo: map<K, Verdict>, k: K, v: Verdict, capacity: nat, queries: nat, n: nat)
    requires memo.Keys <= keys && |keys| <= queries <= n
    requires |keys| <= capacity ==> memo.Keys == keys && queries == |memo.Keys|
    ensures var after, asked := Recall(memo, k, v, capacity), queries + if k in memo then 0 else 1;
            && after.Keys <= keys + {k}
            && |keys + {k}| <= asked <= n + 1
            && (|keys + {k}| <= capacity ==> after.Keys == keys + {k} && asked == |after.Keys|)
  {
    OneMoreKey(keys, k);
    var after := Recall(memo, k, v, capacity);
    assert after.Keys == memo.Keys || after.Keys == memo.Keys + {k};
    assert |memo| == |memo.Keys|;
    if |keys + {k}| <= capacity {
      assert after.Keys == memo.Keys + {k};
      OneMoreKey(memo.Keys, k);
    }
  }

  lemma SeenSnoc<B(!new), K(!new)>(compare: (B, B) -> Verdict, key: (B, B) -> K, seen: seq<((Engine, B), (Engine, B))>, a: (Engine, B), b: (Engine, B))
    ensures KeysOf(seen + [(a, b)], key) == KeysOf(seen, key) + {key(a.1, b.1)}
    ensures Verdicts(seen + [(a, b)], compare) == Verdicts(seen, compare) + multiset{compare(a.1, b.1)}
  {
    var longer := seen + [(a, b)];
    assert longer[..|longer| - 1] == seen;
  }

  /** A comparison keeps the state consistent whether or not the memo answered it. */
  lemma ConsistentStep<B(!new), K(!new)>(compare: (B, B) -> Verdict, key: (B, B) -> K, ok: (B, B) -> bool, capacity: nat, seen: seq<((Engine, B), (Engine, B))>,
                                         memo: map<K, Verdict>, stats: Stats, after: Stats, compared: nat, queries: nat, a: (Engine, B), b: (Engine, B))
    requires KeyDecides(compare, key, ok) && ok(a.1, b.1)
    requires Consistent(compare, key, ok, capacity, seen, memo, stats, compared, queries)
    requires after == TallyOf(Verdicts(seen, compare) + multiset{compare(a.1, b.1)})
    ensures Consistent(compare, key, ok, capacity, seen + [(a, b)], Recall(memo, key(a.1, b.1), compare(a.1, b.1), capacity), after, compared + 1,
                       queries + if key(a.1, b.1) in memo then 0 else 1)
  {
    hide KeyDecides, TallyOf, Recall, Verdicts, KeysOf;
    SeenSnoc(compare, key, seen, a, b);
    KeysAreCounted(KeysOf(seen, key), memo, key(a.1, b.1), compare(a.1, b.1), capacity, queries, |seen|);
    MemoKeepsVerdicts(compare, key, ok, capacity, memo, a.1, b.1);
  }

  lemma ConsistentAnswers<B(!new), K(!new)>(compare: (B, B) -> Verdict, key: (B, B) -> K, ok: (B, B) -> bool, capacity: nat, seen: seq<((Engine, B), (Engine, B))>,
                                            memo: map<K, Verdict>, stats: Stats, compared: nat, queries: nat, a: B, b: B)
    requires Consistent(compare, key, ok, capacity, seen, memo, stats, compared, queries) && ok(a, b)
    ensures key(a, b) in memo ==> memo[key(a, b)] == compare(a, b)
    ensures stats == TallyOf(Verdicts(seen, compare)) && compared == |seen|
  {
  }

  lemma TheyMeet<B>(bodies: seq<(Engine, B)>, ok: (B, B) -> bool, i: nat, j: nat)
    requires BodiesMeet(bodies, ok) && i < j < |bodies|
    ensures ok(bodies[i].1, bodies[j].1)
  {
  }

  lemma NoPairs<B>(bodies: seq<(Engine, B)>, compare: (B, B) -> Verdict)
    ensures PairsBefore(bodies, 0) == [] && Disagreeing<B>([], compare) == []
  {
  }

  lemma NoPairsWith<T>(bodies: seq<T>, i: nat, j: nat)
    requires i < |bodies| && j == i + 1
    ensures PairsWith(bodies, i, j) == []
  {
  }

  lemma PairsWithSnoc<T>(bodies: seq<T>, i: nat, j: nat)
    requires i + 1 < j <= |bodies|
    ensures PairsWith(bodies, i, j) == PairsWith(bodies, i, j - 1) + [(bodies[i], bodies[j - 1])]
  {
  }

  lemma PairsBeforeSnoc<T>(bodies: seq<T>, i: nat)
    requires 0 < i <= |bodies|
    ensures PairsBefore(bodies, i) == PairsBefore(bodies, i - 1) + PairsWith(bodies, i - 1, |bodies|)
  {
  }

  lemma DisagreeingSnoc<B>(done: seq<((Engine, B), (Engine, B))>, a: (Engine, B), b: (Engine, B), compare: (B, B) -> Verdict)
    ensures Disagreeing(done + [(a, b)], compare) == Disagreeing(done, compare) + if compare(a.1, b.1) == Disagree then [(a.0, b.0)] else []
  {
    assert (done + [(a, b)])[..|done|] == done;
  }

  /** The report a run owes: everything but the query count is the reference's. */
  ghost predicate ReportOf<B(!new), K(!new)>(sites: seq<Site<B>>, compare: (B, B) -> Verdict, key: (B, B) -> K, cap: nat, capacity: nat, run: DiffLiftRun) {
    var reached := sites[..Reach(sites, cap)];
    var keys := KeysOf(Comparisons(reached), key);
    && run.findings == Findings(reached, compare)
    && run.stats == TallyOf(Verdicts(Comparisons(reached), compare))
    && run.stats.agree + run.stats.disagree + run.stats.inconclusive == run.compared
    && run.compared == |Comparisons(reached)| <= cap + 2
    && (run.truncated <==> |reached| < |sites|)
    && |keys| <= run.queries <= run.compared
    && (|keys| <= capacity ==> run.queries == |keys|)
    && run.cap == cap
  }

  /** The local state of the run, with the pairs compared so far as its history. */
  class DiffLift<B(!new), K(==, !new)> {
    const compare: (B, B) -> Verdict
    const key: (B, B) -> K
    ghost const ok: (B, B) -> bool
    const capacity: nat
    const cap: nat
    var findings: seq<Finding>
    var memo: map<K, Verdict>
    var stats: Stats
    var compared: nat
    var queries: nat
    ghost var seen: seq<((Engine, B), (Engine, B))>

    ghost predicate Valid()
      reads this
    {
      KeyDecides(compare, key, ok) && Consistent(compare, key, ok, capacity, seen, memo, stats, compared, queries)
    }

    /** The first `n` sites are behind, each met with budget left, and everything in them is reported. */
    ghost predicate Behind(sites: seq<Site<B>>, n: nat)
      reads this
    {
      && Valid() && SitesMeet(sites, ok)
      && n <= |sites|
      && seen == Comparisons(sites[..n])
      && findings == Findings(sites[..n], compare)
      && forall k: nat :: k < n ==> |Comparisons(sites[..k])| < cap
    }

    constructor (compare: (B, B) -> Verdict, key: (B, B) -> K, ghost ok: (B, B) -> bool, cap: nat, capacity: nat)
      requires KeyDecides(compare, key, ok)
      ensures Valid() && seen == [] && findings == []
      ensures this.compare == compare && this.key == key && this.ok == ok && this.capacity == capacity && this.cap == cap
    {
      this.compare, this.key, this.ok, this.cap, this.capacity := compare, key, ok, cap, capacity;
      findings, memo, stats, compared, queries := [], map[], Stats(0, 0, 0), 0, 0;
      seen := [];
    }

    lemma NothingBehind(sites: seq<Site<B>>)
      requires Valid() && seen == [] && findings == [] && SitesMeet(sites, ok)
      ensures Behind(sites, 0)
    {
    }

    /** Fold one verdict into the tally. */
    method Record(verdict: Verdict)
      modifies `stats
      ensures stats.agree == old(stats.agree) + (if verdict == Agree then 1 else 0)
      ensures stats.disagree == old(stats.disagree) + (if verdict == Disagree then 1 else 0)
      ensures stats.inconclusive == old(stats.inconclusive) + (if verdict == Inconclusive then 1 else 0)
    {
      match verdict {
        case Agree => stats := stats.(agree := stats.agree + 1);
        case Disagree => stats := stats.(disagree := stats.disagree + 1);
        case Inconclusive => stats := stats.(inconclusive := stats.inconclusive + 1);
      }
    }

    /** One comparison, answered from the memo or by a fresh query. */
    method Compare(a: (Engine, B), b: (Engine, B)) returns (verdict: Verdict)
      requires Valid() && ok(a.1, b.1)
      modifies this
      ensures Valid()
      ensures verdict == compare(a.1, b.1)
      ensures seen == old(seen) + [(a, b)]
      ensures findings == old(findings)
    {
      hide KeyDecides, KeysOf, Verdicts, Consistent;
      ghost var m0, s0, q0 := memo, stats, queries;
      ConsistentAnswers(compare, key, ok, capacity, seen, memo, stats, compared, queries, a.1, b.1);
      compared := compared + 1;
      var k := key(a.1, b.1);
      if k in memo {
        verdict := memo[k];
      } else {
        queries := queries + 1;
        verdict := compare(a.1, b.1);
        if |memo| < capacity {
          memo := memo[k := verdict];
        }
      }
      Record(verdict);
      ConsistentStep(compare, key, ok, capacity, seen, m0, s0, stats, compared - 1, q0, a, b);
      seen := seen + [(a, b)];
    }

    /** Compare every pair of one instruction's lowerings and collect the engines that disagree. */
    method CompareInstruction(bodies: seq<(Engine, B)>) returns (disagreeing: seq<(Engine, Engine)>)
      requires Valid() && BodiesMeet(bodies, ok)
      modifies this
      ensures Valid()
      ensures seen == old(seen) + PairsBefore(bodies, |bodies|)
      ensures disagreeing == Disagreeing(PairsBefore(bodies, |bodies|), compare)
      ensures findings == old(findings)
    {
      NoPairs(bodies, compare);
      hide *;
      disagreeing := [];
      ghost var done := [];
      var i := 0;
      while i < |bodies|
        invariant 0 <= i <= |bodies|
        invariant Valid() && seen == old(seen) + done && findings == old(findings)
        invariant done == PairsBefore(bodies, i)
        invariant disagreeing == Disagreeing(done, compare)
      {
        var j := i + 1;
        NoPairsWith(bodies, i, j);
        while j < |bodies|
          invariant i + 1 <= j <= |bodies|
          invariant Valid() && seen == old(seen) + done && findings == old(findings)
          invariant done == PairsBefore(bodies, i) + PairsWith(bodies, i, j)
          invariant disagreeing == Disagreeing(done, compare)
        {
          TheyMeet(bodies, ok, i, j);
          var verdict := Compare(bodies[i], bodies[j]);
          DisagreeingSnoc(done, bodies[i], bodies[j], compare);
          done := done + [(bodies[i], bodies[j])];
          if verdict == Disagree {
            disagreeing := disagreeing + [(bodies[i].0, bodies[j].0)];
          }
          j := j + 1;
          PairsWithSnoc(bodies, i, j);
        }
        i := i + 1;
        PairsBeforeSnoc(bodies, i);
      }
    }

    /** The body of the innermost loop once the budget has been checked. */
    method Visit(ghost sites: seq<Site<B>>, ghost n: nat, owner: nat, insn: Instruction<B>)
      requires Behind(sites, n) && n < |sites| && sites[n] == Site(owner, insn)
      requires compared < cap
      modifies this
      ensures Behind(sites, n + 1)
    {
      assert sites[..n + 1][..n] == sites[..n];
      assert compared == |seen|;
      var bodies := Available(insn.lowered);
      var disagreeing := CompareInstruction(bodies);
      if disagreeing != [] {
        findings := findings + [Finding(insn.address, owner, insn.text, disagreeing)];
      }
      assert Comparisons(sites[..n + 1]) == Comparisons(sites[..n]) + PairsOf(sites[n]);
      hide Consistent, PairsBefore, Available;
      assert Findings(sites[..n + 1], compare) == findings;
    }

    /** The instructions of one block, until the budget is found used up. */
    method VisitBlock(ghost sites: seq<Site<B>>, ghost n: nat, owner: nat, insns: seq<Instruction<B>>) returns (truncated: bool, ghost m: nat)
      requires Behind(sites, n) && n + |insns| <= |sites|
      requires forall k: nat :: k < |insns| ==> sites[n + k] == Site(owner, insns[k])
      modifies this
      ensures m <= |insns| && Behind(sites, n + m)
      ensures truncated ==> m < |insns| && compared >= cap
      ensures !truncated ==> m == |insns|
    {
      hide *;
      m := 0;
      for i := 0 to |insns|
        invariant m == i && Behind(sites, n + m)
      {
        if compared >= cap {
          return true, m;
        }
        assert sites[n + i] == Site(owner, insns[i]);
        Visit(sites, n + m, owner, insns[i]);
        m := m + 1;
      }
      truncated := false;
    }

    /** The blocks of one routine, until the budget is found used up. */
    method VisitRoutine(ghost program: seq<Routine<B>>, ghost i: nat, ghost n: nat, func: Routine<B>) returns (truncated: bool, ghost after: nat)
      requires i < |program| && program[i] == func && n == |Sites(program[..i])|
      requires Behind(Sites(program), n)
      modifies this
      ensures Behind(Sites(program), after)
      ensures truncated ==> after < |Sites(program)| && compared >= cap
      ensures !truncated ==> after == |Sites(program[..i + 1])|
    {
      hide *;
      NextRoutine(program, i);
      after := n;
      for j := 0 to |func.blocks|
        invariant Behind(Sites(program), after) && after == Offset(program, i, j)
      {
        BlockIsNext(program, i, j);
        ghost var m;
        truncated, m := VisitBlock(Sites(program), after, func.address, func.blocks[j].instructions);
        after := after + m;
        if truncated {
          return;
        }
      }
      truncated := false;
    }

    /** The report of a run that ended after `n` sites. */
    method Report(ghost sites: seq<Site<B>>, ghost n: nat, truncated: bool) returns (run: DiffLiftRun)
      requires Behind(sites, n)
      requires truncated <==> n < |sites|
      requires truncated ==> compared >= cap
      ensures ReportOf(sites, compare, key, cap, capacity, run)
    {
      assert compared == |seen|;
      ReachIsUnique(sites, cap, n);
      BudgetOverrun(sites, cap);
      TallyIsComplete(seen, compare);
      hide KeyDecides, Comparisons, Verdicts, KeysOf, Reach;
      run := DiffLiftRun(findings, stats, compared, queries, truncated, cap);
    }
  }

  /**
   * The run, for any memo capacity and any comparator that, on the pairs that can meet, depends
   * only on the memo key: findings, tally, comparisons and truncation are those of the reference,
   * which knows no memo. At least one query is issued per distinct key, never more than one per
   * comparison, and exactly one per distinct key when the keys fit.
   */
  method RunDifferentialLift<B(!new), K(==, !new)>(program: seq<Routine<B>>, compare: (B, B) -> Verdict, key: (B, B) -> K, ghost ok: (B, B) -> bool, cap: nat, capacity: nat)
    returns (run: DiffLiftRun)
    requires KeyDecides(compare, key, ok) && SitesMeet(Sites(program), ok)
    ensures ReportOf(Sites(program), compare, key, cap, capacity, run)
  {
    ghost var whole := program[..|program|];
    assert whole == program && Sites(program[..0]) == [];
    hide *;
    var d := new DiffLift<B, K>(compare, key, ok, cap, capacity);
    d.NothingBehind(Sites(program));
    var truncated := false;
    ghost var n: nat := 0;
    for i := 0 to |program|
      invariant d.Behind(Sites(program), n)
      invariant !truncated && n == |Sites(program[..i])|
    {
      truncated, n := d.VisitRoutine(program, i, n, program[i]);
      if truncated {
        break;
      }
    }
    run := d.Report(Sites(program), n, truncated);
  }
}
