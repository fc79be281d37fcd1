/**
 * The benchmark scorer: reported findings are paired greedily with the expected ones, taking the
 * first acceptable expectation each time. Because acceptability is an equivalence, the greedy
 * pairing is a largest possible one, whatever the order of either list.
 */
module Scorer {
  datatype Kind = OpaquePredicate | DeadBranch | ConstantCondition | RealBranch | SuspiciousButUnknown | LifterDisagreement

  datatype Label = Label(kind: Kind, mnemonic: string)

  datatype Score = Score(truePositive: nat, falsePositive: nat, falseNegative: nat)

  const EQUAL_MNEMONICS: seq<string> := ["je", "jz", "sete", "setz", "cmove"]

  predicate EquivalentMnemonic(actual: string, expected: string) {
    actual == expected || (actual in EQUAL_MNEMONICS && expected in EQUAL_MNEMONICS)
  }

  predicate EquivalentKind(actual: Kind, expected: Kind) {
    || actual == expected
    || (actual == OpaquePredicate && expected == ConstantCondition)
    || (actual == ConstantCondition && expected == OpaquePredicate)
  }

  predicate Accepts(actual: Label, expected: Label) {
    EquivalentKind(actual.kind, expected.kind) && EquivalentMnemonic(actual.mnemonic, expected.mnemonic)
  }

  predicate IsActionable(k: Kind) {
    k == OpaquePredicate || k == DeadBranch || k == ConstantCondition
  }

  /** One representative per class of acceptable labels. */
  function Class(l: Label): Label {
    Label(if l.kind == ConstantCondition then OpaquePredicate else l.kind,
          if l.mnemonic in EQUAL_MNEMONICS then EQUAL_MNEMONICS[0] else l.mnemonic)
  }

  /** Acceptance is having the same class, hence an equivalence. */
  lemma AcceptsIsSameClass(a: Label, b: Label)
    ensures Accepts(a, b) <==> Class(a) == Class(b)
  {
    assert EQUAL_MNEMONICS[0] in EQUAL_MNEMONICS;
  }

  predicate TestsZeroFlag(mnemonic: string) {
    mnemonic == "je" || mnemonic == "jz" || mnemonic == "sete" || mnemonic == "setz" || mnemonic == "cmove"
  }

  /** What is accepted for what: an opaque predicate and a constant condition for each
      other, and any two of the five mnemonics that test the zero flag. */
  lemma AcceptsExactly(a: Label, b: Label)
    ensures Accepts(a, b) <==>
      && (a.kind == b.kind || {a.kind, b.kind} == {OpaquePredicate, ConstantCondition})
      && (a.mnemonic == b.mnemonic || (TestsZeroFlag(a.mnemonic) && TestsZeroFlag(b.mnemonic)))
  {
    ZeroFlagMnemonics(a.mnemonic);
    ZeroFlagMnemonics(b.mnemonic);
    hide TestsZeroFlag;
    var both := {OpaquePredicate, ConstantCondition};
    assert OpaquePredicate in both && ConstantCondition in both && a.kind in {a.kind, b.kind} && b.kind in {a.kind, b.kind};
  }

  /** Every kind counts but the three that decide nothing. */
  lemma CountsExactly(k: Kind)
    ensures IsActionable(k) <==> k !in {RealBranch, SuspiciousButUnknown, LifterDisagreement}
  {
  }

  lemma ZeroFlagMnemonics(m: string)
    ensures m in EQUAL_MNEMONICS <==> TestsZeroFlag(m)
  {
    var all := EQUAL_MNEMONICS;
    assert all[0] == "je" && all[1] == "jz" && all[2] == "sete" && all[3] == "setz" && all[4] == "cmove";
  }

  // ---------------------------------------------------------------------------
  // Counting by class.

  function Classes(labels: seq<Label>): multiset<Label> {
    if labels == [] then multiset{} else
      Classes(labels[..|labels| - 1]) + multiset{Class(labels[|labels| - 1])}
  }

  function Actionable(findings: seq<Label>): seq<Label> {
    if findings == [] then [] else
      var f := findings[|findings| - 1];
      Actionable(findings[..|findings| - 1]) + if IsActionable(f.kind) then [f] else []
  }

  lemma {:induction false} ClassesSize(labels: seq<Label>)
    ensures |Classes(labels)| == |labels|
    decreases |labels|
  {
    hide Class;
    if labels != [] {
      ClassesSize(labels[..|labels| - 1]);
    }
  }

  lemma ClassesSnoc(s: seq<Label>, l: Label)
    ensures Classes(s + [l]) == Classes(s) + multiset{Class(l)}
  {
    hide Class;
    assert (s + [l])[..|s|] == s;
  }

  lemma Regroup<T>(x: multiset<T>, y: multiset<T>, z: multiset<T>)
    ensures x + y + z == x + (y + z)
  {
  }

  lemma {:induction false} ClassesConcat(a: seq<Label>, b: seq<Label>)
    ensures Classes(a + b) == Classes(a) + Classes(b)
    decreases |b|
  {
    hide Class, Classes;
    if b == [] {
      ConcatNothing(a);
    } else {
      var rest, l := b[..|b| - 1], b[|b| - 1];
      ClassesConcat(a, rest);
      ConcatSnoc(a, rest, l);
      assert rest + [l] == b;
    }
  }

  lemma ConcatNothing(a: seq<Label>)
    ensures Classes(a + []) == Classes(a) + Classes([])
  {
    var m := Classes(a);
    assert Classes([]) == multiset{};
    hide Classes;
    assert a + [] == a;
    assert m + multiset{} == m;
  }

  lemma ConcatSnoc(a: seq<Label>, b: seq<Label>, l: Label)
    requires Classes(a + b) == Classes(a) + Classes(b)
    ensures Classes(a + (b + [l])) == Classes(a) + Classes(b + [l])
  {
    hide Class, Classes;
    ClassesSnoc(a + b, l);
    ClassesSnoc(b, l);
    assert a + (b + [l]) == a + b + [l];
    Regroup(Classes(a), Classes(b), multiset{Class(l)});
  }

  lemma ClassesOne(l: Label)
    ensures Classes([l]) == multiset{Class(l)}
  {
    assert [l][..0] == [];
  }

  /** The element at `k` leaves, whatever stands around it. */
  lemma ClassesWithout(labels: seq<Label>, k: nat)
    requires k < |labels|
    ensures Classes(labels[..k] + labels[k + 1..]) == Classes(labels) - multiset{Class(labels[k])}
    ensures Class(labels[k]) in Classes(labels)
  {
    hide Class, Classes;
    var a, b := labels[..k], labels[k + 1..];
    assert labels == a + ([labels[k]] + b);
    ClassesConcat(a, [labels[k]] + b);
    ClassesConcat([labels[k]], b);
    ClassesOne(labels[k]);
    ClassesConcat(a, b);
  }

  /** Remove position `k` by moving the last element there. */
  function SwapRemove<T>(s: seq<T>, k: nat): seq<T>
    requires k < |s|
  {
    s[k := s[|s| - 1]][..|s| - 1]
  }

  lemma ClassesRotate(a: seq<Label>, b: seq<Label>, l: Label)
    ensures Classes(a + ([l] + b)) == Classes(a + (b + [l]))
  {
    hide Class, Classes;
    ClassesConcat(a, [l] + b);
    ClassesConcat([l], b);
    ClassesConcat(a, b + [l]);
    ClassesConcat(b, [l]);
  }

  lemma SwapRemoveShape(s: seq<Label>, k: nat)
    requires k < |s| - 1
    ensures SwapRemove(s, k) == s[..k] + ([s[|s| - 1]] + s[k + 1..|s| - 1])
  {
  }

  lemma WithoutShape(s: seq<Label>, k: nat)
    requires k < |s| - 1
    ensures s[..k] + s[k + 1..] == s[..k] + (s[k + 1..|s| - 1] + [s[|s| - 1]])
  {
  }

  /** Swapping the last element into place removes as much as cutting the element out. */
  lemma SwapIsWithout(s: seq<Label>, k: nat)
    requires k < |s|
    ensures Classes(SwapRemove(s, k)) == Classes(s[..k] + s[k + 1..])
  {
    hide Class, Classes;
    if k == |s| - 1 {
      assert SwapRemove(s, k) == s[..k] + s[k + 1..];
    } else {
      SwapRemoveShape(s, k);
      WithoutShape(s, k);
      hide SwapRemove;
      ClassesRotate(s[..k], s[k + 1..|s| - 1], s[|s| - 1]);
    }
  }

  lemma ClassesSwapRemove(labels: seq<Label>, k: nat)
    requires k < |labels|
    ensures Classes(SwapRemove(labels, k)) == Classes(labels) - multiset{Class(labels[k])}
  {
    hide Class, Classes, SwapRemove;
    ClassesWithout(labels, k);
    SwapIsWithout(labels, k);
  }

  lemma {:induction false} NoClassNoMember(labels: seq<Label>, c: Label)
    requires forall k :: 0 <= k < |labels| ==> Class(labels[k]) != c
    ensures c !in Classes(labels)
    decreases |labels|
  {
    hide Class;
    if labels != [] {
      NoClassNoMember(labels[..|labels| - 1], c);
    }
  }

  // ---------------------------------------------------------------------------
  // Matchings.

  /** Pairs (finding, expectation) by position, no position used twice, every pair acceptable. */
  ghost predicate IsMatching(pairs: seq<(nat, nat)>, actual: seq<Label>, expected: seq<Label>) {
    && (forall k :: 0 <= k < |pairs| ==> pairs[k].0 < |actual| && pairs[k].1 < |expected| && Accepts(actual[pairs[k].0], expected[pairs[k].1]))
    && (forall k, l :: 0 <= k < l < |pairs| ==> pairs[k].0 != pairs[l].0)
    && (forall k, l :: 0 <= k < l < |pairs| ==> pairs[k].1 != pairs[l].1)
  }

  ghost function Used(pairs: seq<(nat, nat)>, actualSide: bool): set<nat> {
    set k | 0 <= k < |pairs| :: if actualSide then pairs[k].0 else pairs[k].1
  }

  /** The classes at the chosen positions below `n`. */
  ghost function Chosen(labels: seq<Label>, at: set<nat>, n: nat): multiset<Label>
    requires n <= |labels|
  {
    if n == 0 then multiset{} else
      Chosen(labels, at, n - 1) + if n - 1 in at then multiset{Class(labels[n - 1])} else multiset{}
  }

  lemma {:induction false} ChosenWithin(labels: seq<Label>, at: set<nat>, n: nat)
    requires n <= |labels|
    ensures Chosen(labels, at, n) <= Classes(labels[..n])
    decreases n
  {
    hide Chosen, Classes, Class;
    if n == 0 {
      NoneChosen(labels, at);
    } else {
      ChosenWithin(labels, at, n - 1);
      ChosenSnoc(labels, at, n);
      ClassesNext(labels, n);
    }
  }

  lemma ClassesNext(labels: seq<Label>, n: nat)
    requires 0 < n <= |labels|
    ensures Classes(labels[..n]) == Classes(labels[..n - 1]) + multiset{Class(labels[n - 1])}
  {
    hide Class;
    assert labels[..n][..n - 1] == labels[..n - 1];
  }

  lemma {:induction false} ChooseOneMore(labels: seq<Label>, at: set<nat>, i: nat, n: nat)
    requires i < |labels| && n <= |labels| && i !in at
    ensures Chosen(labels, at + {i}, n) == Chosen(labels, at, n) + if i < n then multiset{Class(labels[i])} else multiset{}
    decreases n
  {
    hide Chosen, Class;
    if n == 0 {
      NoneChosen(labels, at);
      NoneChosen(labels, at + {i});
    } else {
      ChooseOneMore(labels, at, i, n - 1);
      ChosenSnoc(labels, at, n);
      ChosenSnoc(labels, at + {i}, n);
      var before, chosen := Chosen(labels, at, n - 1), multiset{Class(labels[i])};
      assert n - 1 in at + {i} <==> n - 1 in at || n - 1 == i;
      if n - 1 == i {
        Nothing(before);
      } else {
        Exchange(before, if i < n - 1 then chosen else multiset{}, if n - 1 in at then multiset{Class(labels[n - 1])} else multiset{});
      }
    }
  }

  lemma Nothing<T>(x: multiset<T>)
    ensures x + multiset{} == x
  {
  }

  lemma Exchange<T>(x: multiset<T>, y: multiset<T>, z: multiset<T>)
    ensures x + y + z == x + z + y
  {
  }

  lemma NoneChosen(labels: seq<Label>, at: set<nat>)
    ensures Chosen(labels, at, 0) == multiset{}
  {
  }

  lemma ChosenSnoc(labels: seq<Label>, at: set<nat>, n: nat)
    requires 0 < n <= |labels|
    ensures Chosen(labels, at, n) == Chosen(labels, at, n - 1) + if n - 1 in at then multiset{Class(labels[n - 1])} else multiset{}
  {
    hide Class;
  }

  lemma {:induction false} ChosenNone(labels: seq<Label>, n: nat)
    requires n <= |labels|
    ensures Chosen(labels, {}, n) == multiset{}
    decreases n
  {
    hide Class;
    if n > 0 {
      ChosenNone(labels, n - 1);
    }
  }

  /** Both sides of a matching choose the same classes, one for each pair. */
  lemma {:induction false} SidesAgree(pairs: seq<(nat, nat)>, actual: seq<Label>, expected: seq<Label>)
    requires IsMatching(pairs, actual, expected)
    ensures Chosen(actual, Used(pairs, true), |actual|) == Chosen(expected, Used(pairs, false), |expected|)
    ensures |Chosen(actual, Used(pairs, true), |actual|)| == |pairs|
    decreases |pairs|
  {
    hide Class, Accepts, Classes;
    if pairs == [] {
      assert Used(pairs, true) == {} && Used(pairs, false) == {};
      ChosenNone(actual, |actual|);
      ChosenNone(expected, |expected|);
    } else {
      var n := |pairs| - 1;
      var rest := pairs[..n];
      RestMatches(pairs, actual, expected);
      SidesAgree(rest, actual, expected);
      UsedSnoc(pairs, true);
      UsedSnoc(pairs, false);
      UsedOnce(pairs, actual, expected);
      hide Chosen, Used, IsMatching;
      ChooseOneMore(actual, Used(rest, true), pairs[n].0, |actual|);
      ChooseOneMore(expected, Used(rest, false), pairs[n].1, |expected|);
      AcceptsIsSameClass(actual[pairs[n].0], expected[pairs[n].1]);
    }
  }

  lemma RestMatches(pairs: seq<(nat, nat)>, actual: seq<Label>, expected: seq<Label>)
    requires pairs != [] && IsMatching(pairs, actual, expected)
    ensures IsMatching(pairs[..|pairs| - 1], actual, expected)
  {
    hide Accepts;
  }

  lemma UsedSnoc(pairs: seq<(nat, nat)>, actualSide: bool)
    requires pairs != []
    ensures var n := |pairs| - 1;
            Used(pairs, actualSide) == Used(pairs[..n], actualSide) + {if actualSide then pairs[n].0 else pairs[n].1}
  {
    var n := |pairs| - 1;
    var rest := pairs[..n];
    assert forall k :: 0 <= k < n ==> rest[k] == pairs[k];
    assert forall k :: 0 <= k < n ==> (if actualSide then pairs[k].0 else pairs[k].1) in Used(rest, actualSide);
  }

  /** The last pair's positions are used by no pair before it. */
  lemma UsedOnce(pairs: seq<(nat, nat)>, actual: seq<Label>, expected: seq<Label>)
    requires pairs != [] && IsMatching(pairs, actual, expected)
    ensures var p := pairs[|pairs| - 1];
            && p.0 < |actual| && p.1 < |expected| && Accepts(actual[p.0], expected[p.1])
            && p.0 !in Used(pairs[..|pairs| - 1], true) && p.1 !in Used(pairs[..|pairs| - 1], false)
  {
    hide Accepts;
  }

  lemma SubsetSize(a: multiset<Label>, b: multiset<Label>)
    requires a <= b
    ensures |a| <= |b|
  {
    assert b == a + (b - a);
  }

  /** No matching has more pairs than the two lists have classes in common. */
  lemma MatchingBound(pairs: seq<(nat, nat)>, actual: seq<Label>, expected: seq<Label>)
    requires IsMatching(pairs, actual, expected)
    ensures |pairs| <= |Classes(actual) * Classes(expected)|
  {
    SidesAgree(pairs, actual, expected);
    var c := Chosen(actual, Used(pairs, true), |actual|);
    ChosenWithin(actual, Used(pairs, true), |actual|);
    ChosenWithin(expected, Used(pairs, false), |expected|);
    assert actual[..|actual|] == actual && expected[..|expected|] == expected;
    assert c <= Classes(actual) * Classes(expected);
    SubsetSize(c, Classes(actual) * Classes(expected));
  }

  /** Splitting the expectations into the matched and the rest. */
  lemma CommonSize(e: multiset<Label>, a: multiset<Label>)
    ensures |e * a| + |e - a| == |e|
  {
    assert e == e * a + (e - a);
  }

  // ---------------------------------------------------------------------------
  // The greedy pairing.

  /** What the loop has settled: what is left over, and a matching of what it has paired. */
  ghost predicate Paired(actual: seq<Label>, expected: seq<Label>, remaining: seq<Label>, origin: seq<nat>, pairs: seq<(nat, nat)>) {
    && |origin| == |remaining|
    && (forall k :: 0 <= k < |origin| ==> origin[k] < |expected| && remaining[k] == expected[origin[k]])
    && (forall k, l :: 0 <= k < l < |origin| ==> origin[k] != origin[l])
    && (forall k, l :: 0 <= k < |origin| && 0 <= l < |pairs| ==> origin[k] != pairs[l].1)
    && IsMatching(pairs, actual, expected)
    && |pairs| + |remaining| == |expected|
    && Classes(remaining) == Classes(expected) - Classes(actual)
  }

  lemma PairOneMore(actual: seq<Label>, expected: seq<Label>, remaining: seq<Label>, origin: seq<nat>, pairs: seq<(nat, nat)>, f: Label, k: nat)
    requires Paired(actual, expected, remaining, origin, pairs)
    requires k < |remaining| && Accepts(f, remaining[k])
    ensures Paired(actual + [f], expected, SwapRemove(remaining, k), SwapRemove(origin, k), pairs + [(|actual|, origin[k])])
  {
    hide Accepts, Class, Classes;
    OneClassFewer(actual, expected, remaining, f, k);
    MatchOneMore(actual, expected, pairs, f, origin[k]);
    hide IsMatching;
  }

  lemma MatchOneMore(actual: seq<Label>, expected: seq<Label>, pairs: seq<(nat, nat)>, f: Label, j: nat)
    requires IsMatching(pairs, actual, expected)
    requires j < |expected| && Accepts(f, expected[j]) && forall l :: 0 <= l < |pairs| ==> pairs[l].1 != j
    ensures IsMatching(pairs + [(|actual|, j)], actual + [f], expected)
  {
    hide Accepts;
    MatchStays(actual, expected, pairs, f);
  }

  lemma MatchStays(actual: seq<Label>, expected: seq<Label>, pairs: seq<(nat, nat)>, f: Label)
    requires IsMatching(pairs, actual, expected)
    ensures IsMatching(pairs, actual + [f], expected)
  {
    hide Accepts;
    var longer := actual + [f];
    assert forall l :: 0 <= l < |pairs| ==> longer[pairs[l].0] == actual[pairs[l].0];
  }

  lemma OneClassFewer(actual: seq<Label>, expected: seq<Label>, remaining: seq<Label>, f: Label, k: nat)
    requires Classes(remaining) == Classes(expected) - Classes(actual)
    requires k < |remaining| && Accepts(f, remaining[k])
    ensures Classes(SwapRemove(remaining, k)) == Classes(expected) - Classes(actual + [f])
  {
    hide Class, Classes, Accepts;
    ClassesSwapRemove(remaining, k);
    AcceptsIsSameClass(f, remaining[k]);
    ClassesConcat(actual, [f]);
    ClassesOne(f);
  }

  lemma NoClassFewer(actual: seq<Label>, expected: seq<Label>, remaining: seq<Label>, f: Label)
    requires Classes(remaining) == Classes(expected) - Classes(actual)
    requires forall k :: 0 <= k < |remaining| ==> !Accepts(f, remaining[k])
    ensures Classes(remaining) == Classes(expected) - Classes(actual + [f])
  {
    hide Class, Classes, Accepts;
    forall k | 0 <= k < |remaining|
      ensures Class(remaining[k]) != Class(f)
    {
      AcceptsIsSameClass(f, remaining[k]);
    }
    NoClassNoMember(remaining, Class(f));
    ClassesConcat(actual, [f]);
    ClassesOne(f);
  }

  lemma PairNoMore(actual: seq<Label>, expected: seq<Label>, remaining: seq<Label>, origin: seq<nat>, pairs: seq<(nat, nat)>, f: Label)
    requires Paired(actual, expected, remaining, origin, pairs)
    requires forall k :: 0 <= k < |remaining| ==> !Accepts(f, remaining[k])
    ensures Paired(actual + [f], expected, remaining, origin, pairs)
  {
    hide Class, Classes, Accepts;
    NoClassFewer(actual, expected, remaining, f);
    MatchStays(actual, expected, pairs, f);
    hide IsMatching;
  }

  /**
   * The score. Every actionable finding is a true or a false positive, every expectation is met or
   * missed, and the true positives are as many as any pairing of the two lists could give.
   */
  method ScoreFindings(findings: seq<Label>, expected: seq<Label>) returns (score: Score, ghost pairs: seq<(nat, nat)>)
    ensures score.truePositive + score.falsePositive == |Actionable(findings)|
    ensures score.truePositive + score.falseNegative == |expected|
    ensures score.truePositive == |Classes(expected) * Classes(Actionable(findings))|
    ensures |pairs| == score.truePositive && IsMatching(pairs, Actionable(findings), expected)
    ensures forall other :: IsMatching(other, Actionable(findings), expected) ==> |other| <= score.truePositive
  {
    hide Accepts, Classes, Class, IsMatching;
    var remaining := expected;
    var truePositive, falsePositive := 0, 0;
    ghost var origin: seq<nat> := seq(|expected|, i => i);
    ghost var actual: seq<Label> := [];
    pairs := [];
    NothingPaired(expected);
    for i := 0 to |findings|
      invariant actual == Actionable(findings[..i])
      invariant Paired(actual, expected, remaining, origin, pairs)
      invariant truePositive == |pairs| && truePositive + falsePositive == |actual|
    {
      var f := findings[i];
      assert findings[..i + 1][..i] == findings[..i];
      if IsActionable(f.kind) {
        var k := Position(f, remaining);
        if k < |remaining| {
          PairOneMore(actual, expected, remaining, origin, pairs, f, k);
          pairs := pairs + [(|actual|, origin[k])];
          remaining, origin := SwapRemove(remaining, k), SwapRemove(origin, k);
          truePositive := truePositive + 1;
        } else {
          PairNoMore(actual, expected, remaining, origin, pairs, f);
          falsePositive := falsePositive + 1;
        }
        actual := actual + [f];
      }
    }
    assert findings[..|findings|] == findings;
    ClassesSize(expected);
    ClassesSize(remaining);
    CommonSize(Classes(expected), Classes(actual));
    forall other | IsMatching(other, actual, expected)
      ensures |other| <= |Classes(expected) * Classes(actual)|
    {
      MatchingBound(other, actual, expected);
      assert Classes(expected) * Classes(actual) == Classes(actual) * Classes(expected);
    }
    score := Score(truePositive, falsePositive, |remaining|);
  }

  lemma NothingPaired(expected: seq<Label>)
    ensures Paired([], expected, expected, seq(|expected|, i => i), [])
  {
  }

  /** The first acceptable expectation, or the length when there is none. */
  method Position(f: Label, remaining: seq<Label>) returns (k: nat)
    ensures k <= |remaining|
    ensures k < |remaining| ==> Accepts(f, remaining[k])
    ensures forall j :: 0 <= j < k ==> !Accepts(f, remaining[j])
  {
    k := 0;
    while k < |remaining| && !Accepts(f, remaining[k])
      invariant k <= |remaining|
      invariant forall j :: 0 <= j < k ==> !Accepts(f, remaining[j])
    {
      k := k + 1;
    }
  }

  // ---------------------------------------------------------------------------
  // The order of the lists does not matter.

  lemma {:induction false} ActionableClasses(a: seq<Label>, b: seq<Label>)
    ensures Actionable(a + b) == Actionable(a) + Actionable(b)
    decreases |b|
  {
    if b == [] {
      assert a + b == a;
    } else {
      ActionableClasses(a, b[..|b| - 1]);
      assert (a + b)[..|a + b| - 1] == a + b[..|b| - 1];
    }
  }

  lemma {:induction false} ClassesOfPermutation(a: seq<Label>, b: seq<Label>)
    requires multiset(a) == multiset(b)
    ensures Classes(a) == Classes(b)
    ensures Classes(Actionable(a)) == Classes(Actionable(b))
    decreases |a|
  {
    hide Class;
    if a == [] {
      assert |multiset(b)| == 0;
    } else {
      var n := |a| - 1;
      assert a[n] in multiset(b);
      var k :| 0 <= k < |b| && b[k] == a[n];
      var rest := b[..k] + b[k + 1..];
      Remainder(a, b, k);
      ClassesOfPermutation(a[..n], rest);
      hide Classes, Actionable;
      assert a[..n] + a[n + 1..] == a[..n];
      AddBack(a, n);
      AddBack(b, k);
    }
  }

  /** Both counts come back when the element at `k` does. */
  lemma AddBack(b: seq<Label>, k: nat)
    requires k < |b|
    ensures Classes(b) == Classes(b[..k] + b[k + 1..]) + multiset{Class(b[k])}
    ensures Classes(Actionable(b)) == Classes(Actionable(b[..k] + b[k + 1..])) + Classes(Actionable([b[k]]))
  {
    hide Classes, Actionable, Class;
    ClassesWithout(b, k);
    DropActionable(b, k);
  }

  lemma Remainder(a: seq<Label>, b: seq<Label>, k: nat)
    requires multiset(a) == multiset(b) && a != [] && k < |b| && b[k] == a[|a| - 1]
    ensures multiset(a[..|a| - 1]) == multiset(b[..k] + b[k + 1..])
  {
    var n := |a| - 1;
    Removed(a, n);
    Removed(b, k);
    assert a[..n] + a[n + 1..] == a[..n];
  }

  lemma Removed(a: seq<Label>, k: nat)
    requires k < |a|
    ensures multiset(a[..k] + a[k + 1..]) == multiset(a) - multiset{a[k]}
  {
    var x, y := a[..k], a[k + 1..];
    assert a == x + [a[k]] + y;
    assert multiset(a) == multiset(x) + multiset{a[k]} + multiset(y);
    assert multiset(x + y) == multiset(x) + multiset(y);
  }

  lemma DropActionable(b: seq<Label>, k: nat)
    requires k < |b|
    ensures Classes(Actionable(b)) == Classes(Actionable(b[..k] + b[k + 1..])) + Classes(Actionable([b[k]]))
  {
    hide Class, Classes, Actionable;
    var x, y, z := b[..k], [b[k]], b[k + 1..];
    assert b == x + (y + z);
    ActionableClasses(x, y + z);
    ActionableClasses(y, z);
    ActionableClasses(x, z);
    ClassesConcat(Actionable(x), Actionable(y) + Actionable(z));
    ClassesConcat(Actionable(y), Actionable(z));
    ClassesConcat(Actionable(x), Actionable(z));
  }

  /** Reordering either list changes no count of the score. */
  lemma ScoreIsOrderFree(findings: seq<Label>, findings': seq<Label>, expected: seq<Label>, expected': seq<Label>)
    requires multiset(findings) == multiset(findings') && multiset(expected) == multiset(expected')
    ensures |Actionable(findings)| == |Actionable(findings')| && |expected| == |expected'|
    ensures |Classes(expected) * Classes(Actionable(findings))| == |Classes(expected') * Classes(Actionable(findings'))|
  {
    ClassesOfPermutation(findings, findings');
    ClassesOfPermutation(expected, expected');
    ClassesSize(Actionable(findings));
    ClassesSize(Actionable(findings'));
    ClassesSize(expected);
    ClassesSize(expected');
  }
}
