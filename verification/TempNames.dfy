/**
 * The memo key of the differential run: rendered lowerings with the instruction address taken
 * out of temporary names. The scanning loop is proved to be a word-by-word renaming, and the
 * key to identify exactly the renderings that differ in those addresses only.
 */
module TempNames {
  predicate IsDigit(c: char) {
    '0' <= c <= '9'
  }

  predicate IsHex(c: char) {
    IsDigit(c) || 'a' <= c <= 'f' || 'A' <= c <= 'F'
  }

  /** The characters of names: ASCII letters, digits and the underscore. */
  predicate IsWord(c: char) {
    IsDigit(c) || 'a' <= c <= 'z' || 'A' <= c <= 'Z' || c == '_'
  }

  /** How many characters of `s` from the front belong to a name. */
  function WordLen(s: string): (n: nat)
    ensures n <= |s|
  {
    if s == [] || !IsWord(s[0]) then 0 else 1 + WordLen(s[1..])
  }

  /** How many characters of `s` from the front are hexadecimal digits. */
  function HexLen(s: string): (n: nat)
    ensures n <= |s|
  {
    if s == [] || !IsHex(s[0]) then 0 else 1 + HexLen(s[1..])
  }

  ghost predicate AllWord(s: string) {
    forall k :: 0 <= k < |s| ==> IsWord(s[k])
  }

  /** A text that does not continue a word standing before it. */
  predicate Breaks(rest: string) {
    rest != [] ==> !IsWord(rest[0])
  }

  /** A word is the longest run of name characters. */
  lemma {:induction false} WordSplits(s: string)
    ensures AllWord(s[..WordLen(s)]) && Breaks(s[WordLen(s)..])
    decreases |s|
  {
    if s != [] && IsWord(s[0]) {
      WordSplits(s[1..]);
      var n := WordLen(s[1..]);
      assert s[..n + 1] == [s[0]] + s[1..][..n];
      assert s[n + 1..] == s[1..][n..];
    }
  }

  lemma {:induction false} WordOf(w: string, rest: string)
    requires AllWord(w) && Breaks(rest)
    ensures WordLen(w + rest) == |w| && (w + rest)[..|w|] == w && (w + rest)[|w|..] == rest
    decreases |w|
  {
    if w == [] {
      assert w + rest == rest;
    } else {
      WordOf(w[1..], rest);
      assert (w + rest)[1..] == w[1..] + rest;
    }
  }

  lemma {:induction false} WordAtLeast(s: string, k: nat)
    requires k <= |s| && AllWord(s[..k])
    ensures k <= WordLen(s)
    decreases k
  {
    if k > 0 {
      assert s[..k][0] == s[0];
      var rest := s[1..][..k - 1];
      assert forall j :: 0 <= j < k - 1 ==> rest[j] == s[..k][j + 1];
      WordAtLeast(s[1..], k - 1);
    }
  }

  /** The digits end where the first other character stands. */
  lemma {:induction false} HexOf(s: string, n: nat)
    requires n <= |s| && (forall k :: 0 <= k < n ==> IsHex(s[k])) && (n < |s| ==> !IsHex(s[n]))
    ensures HexLen(s) == n
    decreases n
  {
    if n > 0 {
      HexOf(s[1..], n - 1);
    }
  }

  lemma {:induction false} HexRun(s: string)
    ensures forall k :: 0 <= k < HexLen(s) ==> IsHex(s[k])
    ensures HexLen(s) < |s| ==> !IsHex(s[HexLen(s)])
    decreases |s|
  {
    if s != [] && IsHex(s[0]) {
      HexRun(s[1..]);
    }
  }

  /** The word is a temporary's name, `t_<hex>_` and whatever follows. */
  predicate IsTemp(w: string) {
    && |w| >= 2 && w[0] == 't' && w[1] == '_'
    && var n := HexLen(w[2..]);
    n > 0 && 2 + n < |w| && w[2 + n] == '_'
  }

  /** What follows the head of a temporary's name. */
  function Tail(w: string): string
    requires IsTemp(w)
  {
    w[2 + HexLen(w[2..]) + 1..]
  }

  const HEAD := "t_$_"

  /** The reference: names are maximal words, and each temporary's name loses its address. */
  function Canonical(s: string): string
    decreases |s|
  {
    if s == [] then []
    else if !IsWord(s[0]) then [s[0]] + Canonical(s[1..])
    else
      var n := WordLen(s);
      Rename(s[..n]) + Canonical(s[n..])
  }

  function Rename(w: string): string {
    if IsTemp(w) then HEAD + Tail(w) else w
  }

  /** `t_`, the digits of an address, an underscore and a rest. */
  predicate SpellsTemp(w: string, digits: string, tail: string) {
    && digits != ""
    && (forall k :: 0 <= k < |digits| ==> '0' <= digits[k] <= '9' || 'a' <= digits[k] <= 'f' || 'A' <= digits[k] <= 'F')
    && w == "t_" + digits + "_" + tail
  }

  /** Exactly the words so spelled are renamed, `$` taking the place of the digits. */
  lemma RenamesExactlyTemps(w: string)
    ensures forall digits, tail :: SpellsTemp(w, digits, tail) ==> Rename(w) == "t_$_" + tail
    ensures (forall digits, tail :: !SpellsTemp(w, digits, tail)) ==> Rename(w) == w
  {
    forall digits: string, tail: string | SpellsTemp(w, digits, tail) ensures Rename(w) == "t_$_" + tail {
      var rest := w[2..];
      assert rest == digits + "_" + tail;
      assert forall k :: 0 <= k < |digits| ==> rest[k] == digits[k];
      HexOf(rest, |digits|);
      assert w[2 + |digits| + 1..] == tail;
    }
    if IsTemp(w) {
      var n := HexLen(w[2..]);
      HexRun(w[2..]);
      var digits := w[2..][..n];
      assert w == "t_" + digits + "_" + Tail(w);
      assert SpellsTemp(w, digits, Tail(w));
      assert Rename(w) == "t_$_" + Tail(w);
    }
  }

  // ---------------------------------------------------------------------------
  // The scanning loop.

  /** The scan looks at one position: a name can start there only after a character of no name. */
  predicate StartsName(s: string, i: nat)
    requires i < |s|
  {
    i == 0 || !IsWord(s[i - 1])
  }

  /** The head's letter, underscore and digits all belong to one word. */
  lemma HeadIsWord(s: string)
    requires |s| >= 2 && s[0] == 't' && s[1] == '_'
    ensures AllWord(s[..2 + HexLen(s[2..])])
  {
    var digits := s[2..];
    HexRun(digits);
    hide HexLen;
    var p := s[..2 + HexLen(digits)];
    forall k | 0 <= k < |p| ensures IsWord(p[k]) {
      if k >= 2 {
        assert p[k] == digits[k - 2] && IsHex(digits[k - 2]);
      }
    }
  }

  lemma HeadReaches(s: string)
    requires |s| >= 2 && s[0] == 't' && s[1] == '_'
    ensures 2 + HexLen(s[2..]) <= WordLen(s)
    ensures 2 + HexLen(s[2..]) < |s| && s[2 + HexLen(s[2..])] == '_' ==> 3 + HexLen(s[2..]) <= WordLen(s)
  {
    HeadIsWord(s);
    var m := 2 + HexLen(s[2..]);
    hide *;
    WordAtLeast(s, m);
    if m < |s| && s[m] == '_' {
      OneMoreWord(s, m);
      WordAtLeast(s, m + 1);
    }
  }

  lemma OneMoreWord(s: string, m: nat)
    requires m < |s| && s[m] == '_' && AllWord(s[..m])
    ensures AllWord(s[..m + 1])
  {
    assert IsWord('_');
    hide IsWord;
    assert s[..m + 1] == s[..m] + ['_'];
  }

  /** A head found by the scan lies within the word that starts there. */
  lemma HeadWithinWord(s: string)
    requires |s| >= 2 && s[0] == 't' && s[1] == '_'
    ensures IsTemp(s[..WordLen(s)]) <==> IsTemp(s)
    ensures IsTemp(s) ==> 2 + HexLen(s[2..]) + 1 <= WordLen(s) && Tail(s[..WordLen(s)]) == s[2 + HexLen(s[2..]) + 1..WordLen(s)]
  {
    hide HexLen, WordLen, IsHex, IsWord;
    HeadReaches(s);
    HexOfPrefix(s, HexLen(s[2..]), WordLen(s));
  }

  lemma HexOfPrefix(s: string, n: nat, l: nat)
    requires 2 + n <= l <= |s| && n == HexLen(s[2..])
    ensures HexLen(s[..l][2..]) == n
  {
    HexRun(s[2..]);
    hide HexLen;
    var w := s[..l][2..];
    assert forall k :: 0 <= k < |w| ==> w[k] == s[2..][k];
    HexOf(w, n);
  }

  /** Where the word around position `i` ends. */
  function WordEnd(s: string, i: nat): (e: nat)
    requires i <= |s|
    ensures i <= e <= |s|
  {
    i + WordLen(s[i..])
  }

  /** What is still to be emitted when the scan stands at `i` and has copied up to `c`. */
  function Rest(s: string, c: nat, i: nat): string
    requires c <= i <= |s|
  {
    if i < |s| && !StartsName(s, i) then s[c..WordEnd(s, i)] + Canonical(s[WordEnd(s, i)..])
    else s[c..i] + Canonical(s[i..])
  }

  lemma CanonicalAtWord(s: string, i: nat)
    requires i < |s| && IsWord(s[i])
    ensures WordEnd(s, i) > i
    ensures Canonical(s[i..]) == Rename(s[i..WordEnd(s, i)]) + Canonical(s[WordEnd(s, i)..])
  {
    var t := s[i..];
    var n := WordLen(t);
    assert t[0] == s[i] && n >= 1;
    hide Rename, WordLen, IsWord;
    assert Canonical(t) == Rename(t[..n]) + Canonical(t[n..]);
    hide Canonical;
    assert t[..n] == s[i..i + n] && t[n..] == s[i + n..];
  }

  lemma CanonicalAtOther(s: string, i: nat)
    requires i < |s| && !IsWord(s[i])
    ensures WordEnd(s, i) == i
    ensures Canonical(s[i..]) == [s[i]] + Canonical(s[i + 1..])
  {
    var t := s[i..];
    assert t[0] == s[i] && t[1..] == s[i + 1..];
    hide Rename;
    assert WordLen(t) == 0;
  }

  lemma Paste(s: string, c: nat, i: nat, e: nat, rest: string)
    requires c <= i <= e <= |s|
    ensures s[c..i] + (s[i..e] + rest) == s[c..e] + rest
  {
  }

  lemma PasteRenamed(s: string, c: nat, i: nat, after: nat, e: nat, rest: string)
    requires c <= i <= after <= e <= |s|
    ensures s[c..i] + (HEAD + s[after..e] + rest) == s[c..i] + HEAD + (s[after..e] + rest)
  {
  }

  /** Inside a word its end does not move. */
  lemma {:induction false} WordEndStays(s: string, i: nat, j: nat)
    requires i <= |s| && i <= j <= WordEnd(s, i)
    ensures WordEnd(s, j) == WordEnd(s, i)
    ensures i < j < |s| ==> !StartsName(s, j)
    decreases j - i
  {
    if i < j {
      assert s[i..][0] == s[i] && s[i..][1..] == s[i + 1..];
      WordEndStays(s, i + 1, j);
    }
  }

  /** The scan inside a word, or at the end of the text, owes the rest of the word unchanged. */
  lemma RestWithin(s: string, c: nat, i: nat)
    requires c <= i <= |s| && (i < |s| ==> !StartsName(s, i))
    ensures Rest(s, c, i) == s[c..WordEnd(s, i)] + Canonical(s[WordEnd(s, i)..])
  {
    hide Canonical;
    if i == |s| {
      assert WordEnd(s, i) == i;
    }
  }

  lemma RestAtStart(s: string, c: nat, i: nat)
    requires c <= i < |s| && StartsName(s, i)
    ensures Rest(s, c, i) == s[c..i] + Canonical(s[i..])
  {
    hide Canonical;
  }

  /** Passing over a position where no temporary's name starts changes nothing. */
  lemma RestSkips(s: string, c: nat, i: nat)
    requires c <= i < |s|
    requires StartsName(s, i) && |s| - i >= 2 && s[i] == 't' && s[i + 1] == '_' ==> !IsTemp(s[i..])
    ensures Rest(s, c, i) == Rest(s, c, i + 1)
  {
    hide Canonical, Rest, WordEnd, IsTemp, IsWord;
    if !IsWord(s[i]) {
      SkipOutside(s, c, i);
    } else {
      RestOfWord(s, c, i);
      CanonicalAtWord(s, i);
      WordEndStays(s, i, i + 1);
      RestWithin(s, c, i + 1);
    }
  }

  /** Standing in a word that is kept, the scan owes the rest of the word unchanged. */
  lemma RestOfWord(s: string, c: nat, i: nat)
    requires c <= i < |s| && IsWord(s[i])
    requires StartsName(s, i) && |s| - i >= 2 && s[i] == 't' && s[i + 1] == '_' ==> !IsTemp(s[i..])
    ensures Rest(s, c, i) == s[c..WordEnd(s, i)] + Canonical(s[WordEnd(s, i)..])
  {
    hide Canonical, Rest, WordEnd, IsTemp, IsWord;
    if StartsName(s, i) {
      KeptWord(s, i);
      RestAtStart(s, c, i);
      CanonicalAtWord(s, i);
      Paste(s, c, i, WordEnd(s, i), Canonical(s[WordEnd(s, i)..]));
    } else {
      RestWithin(s, c, i);
    }
  }

  lemma SkipOutside(s: string, c: nat, i: nat)
    requires c <= i < |s| && !IsWord(s[i])
    ensures Rest(s, c, i) == Rest(s, c, i + 1)
  {
    assert i + 1 < |s| ==> StartsName(s, i + 1);
    hide Canonical, Rest, WordEnd, IsWord, StartsName;
    CanonicalAtOther(s, i);
    if StartsName(s, i) {
      RestAtStart(s, c, i);
    } else {
      RestWithin(s, c, i);
    }
    Paste(s, c, i, i + 1, Canonical(s[i + 1..]));
    assert s[i..i + 1] == [s[i]];
    if i + 1 < |s| {
      RestAtStart(s, c, i + 1);
    } else {
      RestAtEnd(s, c);
    }
  }

  lemma RestAtEnd(s: string, c: nat)
    requires c <= |s|
    ensures Rest(s, c, |s|) == s[c..|s|] + Canonical(s[|s|..])
  {
    hide Canonical;
  }

  lemma KeptWord(s: string, i: nat)
    requires i < |s| && (|s| - i >= 2 && s[i] == 't' && s[i + 1] == '_' ==> !IsTemp(s[i..]))
    ensures Rename(s[i..WordEnd(s, i)]) == s[i..WordEnd(s, i)]
  {
    var t := s[i..];
    var w := s[i..WordEnd(s, i)];
    assert w == t[..WordLen(t)];
    hide WordLen, HexLen, Tail;
    if |w| >= 2 && w[0] == 't' && w[1] == '_' {
      assert t[0] == s[i] && t[1] == s[i + 1];
      HeadWithinWord(t);
    }
  }

  /** Rewriting a head emits what stood before it and resumes inside the same word. */
  lemma RestRewrites(s: string, c: nat, i: nat)
    requires c <= i && i + 2 <= |s| && StartsName(s, i) && IsTemp(s[i..])
    ensures var after := i + 2 + HexLen(s[i + 2..]) + 1;
            after <= |s| && Rest(s, c, i) == s[c..i] + HEAD + Rest(s, after, after)
  {
    hide Canonical, Rest, HexLen, IsWord, IsTemp, WordEnd, Rename, StartsName;
    TempStarts(s, i);
    var after := i + 2 + HexLen(s[i + 2..]) + 1;
    RenamedAt(s, i);
    LetterIsWord();
    RestAtStart(s, c, i);
    CanonicalAtWord(s, i);
    var e := WordEnd(s, i);
    WordEndStays(s, i, after);
    RestWithin(s, after, after);
    PasteRenamed(s, c, i, after, e, Canonical(s[e..]));
  }

  lemma TempStarts(s: string, i: nat)
    requires i + 2 <= |s| && IsTemp(s[i..])
    ensures s[i] == 't' && s[i + 1] == '_'
  {
    hide HexLen;
  }

  lemma LetterIsWord()
    ensures IsWord('t')
  {
  }

  /** The head lies in the word at `i`, whose renaming keeps what follows it. */
  lemma RenamedAt(s: string, i: nat)
    requires i + 2 <= |s| && s[i] == 't' && s[i + 1] == '_' && IsTemp(s[i..])
    ensures var after := i + 2 + HexLen(s[i + 2..]) + 1;
            after <= WordEnd(s, i) && Rename(s[i..WordEnd(s, i)]) == HEAD + s[after..WordEnd(s, i)]
  {
    var t := s[i..];
    assert t[2..] == s[i + 2..];
    HeadWithinWord(t);
    hide HexLen, WordLen;
    var n := WordLen(t);
    assert t[..n] == s[i..WordEnd(s, i)];
    assert t[2 + HexLen(t[2..]) + 1..n] == s[i + 2 + HexLen(s[i + 2..]) + 1..WordEnd(s, i)];
    hide IsTemp, Tail;
    RenamedHead(t[..n], s[i + 2 + HexLen(s[i + 2..]) + 1..WordEnd(s, i)]);
  }

  lemma RenamedHead(w: string, tail: string)
    requires IsTemp(w) && Tail(w) == tail
    ensures Rename(w) == HEAD + tail
  {
  }

  /** The scan over the rendering. */
  method CanonicalTempNames(rendered: string) returns (out: string)
    ensures out == Canonical(rendered)
  {
    hide Rest, Canonical, IsTemp, HexLen, WordLen;
    out := "";
    NothingCopied(rendered);
    var copied: nat, i: nat := 0, 0;
    while i + 2 <= |rendered|
      invariant copied <= i <= |rendered|
      invariant out + Rest(rendered, copied, i) == Canonical(rendered)
    {
      var startsName := i == 0 || !IsWord(rendered[i - 1]);
      if !(startsName && rendered[i] == 't' && rendered[i + 1] == '_') {
        RestSkips(rendered, copied, i);
        i := i + 1;
        continue;
      }
      var hexStart := i + 2;
      var hexEnd := hexStart;
      while hexEnd < |rendered| && IsHex(rendered[hexEnd])
        invariant hexStart <= hexEnd <= |rendered|
        invariant forall k :: hexStart <= k < hexEnd ==> IsHex(rendered[k])
      {
        hexEnd := hexEnd + 1;
      }
      HeadFound(rendered, i, hexEnd);
      if hexEnd > hexStart && hexEnd < |rendered| && rendered[hexEnd] == '_' {
        RestRewrites(rendered, copied, i);
        out := out + rendered[copied..i];
        out := out + "t_$_";
        i := hexEnd + 1;
        copied := i;
      } else {
        RestSkips(rendered, copied, i);
        i := i + 1;
      }
    }
    LastCharacter(rendered, copied, i);
    out := out + rendered[copied..];
  }

  lemma NothingCopied(s: string)
    ensures Rest(s, 0, 0) == Canonical(s)
  {
    assert s[0..] == s;
  }

  /** The digits the scan has counted are those of the head. */
  lemma HeadFound(s: string, i: nat, end: nat)
    requires i + 2 <= end <= |s| && s[i] == 't' && s[i + 1] == '_'
    requires forall k :: i + 2 <= k < end ==> IsHex(s[k])
    requires end < |s| ==> !IsHex(s[end])
    ensures HexLen(s[i + 2..]) == end - (i + 2)
    ensures IsTemp(s[i..]) <==> end > i + 2 && end < |s| && s[end] == '_'
  {
    HexOf(s[i + 2..], end - (i + 2));
    assert s[i..][2..] == s[i + 2..];
  }

  /** With fewer than two characters left nothing more is rewritten. */
  lemma LastCharacter(s: string, c: nat, i: nat)
    requires c <= i <= |s| < i + 2
    ensures Rest(s, c, i) == s[c..]
  {
    if i < |s| {
      hide Rest, Canonical, IsTemp;
      RestSkips(s, c, i);
    }
    hide Rest;
    RestAtEnd(s, c);
    assert s[c..|s|] + [] == s[c..];
  }

  // ---------------------------------------------------------------------------
  // What the renaming identifies.

  /** The renaming never joins words: a text that starts outside a word still does. */
  lemma CanonicalBreaks(s: string)
    requires Breaks(s)
    ensures Breaks(Canonical(s)) && (s != [] ==> Canonical(s) != [] && Canonical(s)[0] == s[0])
    ensures s == [] ==> Canonical(s) == []
  {
    hide Rename, WordLen;
  }

  /** Unfolding the renaming at a maximal word. */
  lemma CanonicalWord(w: string, rest: string)
    requires w != [] && AllWord(w) && Breaks(rest)
    ensures Canonical(w + rest) == Rename(w) + Canonical(rest)
  {
    WordOf(w, rest);
    hide Rename, WordLen;
    assert (w + rest)[0] == w[0];
  }

  lemma CanonicalChar(c: char, rest: string)
    requires !IsWord(c)
    ensures Canonical([c] + rest) == [c] + Canonical(rest)
  {
    hide Rename, WordLen;
    assert ([c] + rest)[1..] == rest;
  }

  /** Canonical names are left alone. */
  lemma {:induction false} Idempotent(s: string)
    ensures Canonical(Canonical(s)) == Canonical(s)
    decreases |s|
  {
    hide Tail, IsTemp;
    if s != [] {
      if !IsWord(s[0]) {
        Idempotent(s[1..]);
        CanonicalChar(s[0], Canonical(s[1..]));
      } else {
        var n := WordLen(s);
        WordSplits(s);
        Idempotent(s[n..]);
        IdempotentWord(s[..n], s[n..]);
      }
    }
  }

  lemma IdempotentWord(w: string, rest: string)
    requires w != [] && AllWord(w) && Breaks(rest)
    requires Canonical(Canonical(rest)) == Canonical(rest)
    ensures Canonical(Rename(w) + Canonical(rest)) == Rename(w) + Canonical(rest)
  {
    CanonicalBreaks(rest);
    if IsTemp(w) {
      RenamedIsStable(w, Canonical(rest));
    } else {
      CanonicalWord(w, Canonical(rest));
    }
  }

  lemma NotTemps(rest: string)
    ensures Rename("_" + rest) == "_" + rest && Rename("t_") == "t_"
  {
    hide HexLen;
  }

  lemma RenamedIsStable(w: string, tail: string)
    requires AllWord(w) && IsTemp(w) && Breaks(tail)
    ensures Canonical(HEAD + Tail(w) + tail) == HEAD + Tail(w) + Canonical(tail)
  {
    hide IsTemp, Canonical, Rename, Tail;
    TailIsWord(w);
    var rest := Tail(w);
    var under := "_" + rest;
    assert AllWord(under);
    NotTemps(rest);
    CanonicalWord(under, tail);
    CanonicalChar('$', under + tail);
    var dollar := "$" + (under + tail);
    CanonicalWord("t_", dollar);
    hide IsWord, AllWord, Breaks;
    Reassociate(rest, tail);
    Reassociate(rest, Canonical(tail));
  }

  lemma Reassociate(rest: string, tail: string)
    ensures "t_" + ("$" + ("_" + rest + tail)) == HEAD + rest + tail
  {
  }

  /** The two renderings are the same but for the addresses in temporaries' names. */
  ghost predicate SameButAddresses(s: string, t: string)
    decreases |s|
  {
    if s == [] || t == [] then s == t
    else if !IsWord(s[0]) || !IsWord(t[0]) then s[0] == t[0] && SameButAddresses(s[1..], t[1..])
    else
      var n, m := WordLen(s), WordLen(t);
      && (s[..n] == t[..m] || (IsTemp(s[..n]) && IsTemp(t[..m]) && Tail(s[..n]) == Tail(t[..m])))
      && SameButAddresses(s[n..], t[m..])
  }

  lemma {:induction false} SameIsIdentified(s: string, t: string)
    requires SameButAddresses(s, t)
    ensures Canonical(s) == Canonical(t)
    decreases |s|
  {
    hide Tail, IsTemp;
    if s != [] && t != [] {
      if !IsWord(s[0]) || !IsWord(t[0]) {
        SameIsIdentified(s[1..], t[1..]);
      } else {
        SameIsIdentified(s[WordLen(s)..], t[WordLen(t)..]);
        hide WordLen;
        assert Rename(s[..WordLen(s)]) == Rename(t[..WordLen(t)]);
      }
    }
  }

  lemma TailIsWord(w: string)
    requires AllWord(w) && IsTemp(w)
    ensures AllWord(Tail(w))
  {
    hide HexLen;
  }

  lemma SplitHeads(x: string, y: string, p: string, q: string)
    requires AllWord(x) && AllWord(y) && Breaks(p) && Breaks(q)
    requires HEAD + x + p == HEAD + y + q
    ensures x == y && p == q
  {
    hide IsWord;
    assert HEAD + x + p == HEAD + (x + p) && HEAD + y + q == HEAD + (y + q);
    assert (HEAD + (x + p))[4..] == x + p && (HEAD + (y + q))[4..] == y + q;
    WordOf(x, p);
    WordOf(y, q);
  }

  /** A renamed word and what follows it can be told apart again, as long as no `$` follows. */
  lemma SplitRenamed(w: string, v: string, p: string, q: string)
    requires w != [] && v != [] && AllWord(w) && AllWord(v)
    requires Breaks(p) && Breaks(q) && (p != [] ==> p[0] != '$') && (q != [] ==> q[0] != '$')
    requires Rename(w) + p == Rename(v) + q
    ensures IsTemp(w) <==> IsTemp(v)
    ensures IsTemp(w) ==> Tail(w) == Tail(v)
    ensures !IsTemp(w) ==> w == v
    ensures p == q
  {
    hide IsTemp, Tail, WordLen, IsWord, AllWord, Breaks;
    if IsTemp(w) && IsTemp(v) {
      TailIsWord(w);
      TailIsWord(v);
      SplitHeads(Tail(w), Tail(v), p, q);
    } else if !IsTemp(w) && !IsTemp(v) {
      WordOf(w, p);
      WordOf(v, q);
    } else if IsTemp(w) {
      HeadIsNoWord(Tail(w), p, v, q);
    } else {
      HeadIsNoWord(Tail(v), q, w, p);
    }
  }

  lemma HeadIsNoWord(tail: string, p: string, v: string, q: string)
    requires v != [] && AllWord(v)
    requires Breaks(q) && (q != [] ==> q[0] != '$')
    ensures HEAD + tail + p != v + q
  {
    var x := HEAD + tail + p;
    assert x[0] == 't' && x[1] == '_' && x[2] == '$';
    assert |v| < 3 || v[2] != '$';
    assert |v| != 2 || x[2..] != q;
    assert |v| != 2 || (v + q)[2..] == q;
    assert |v| >= 3 || |v| == 2 || (v + q)[1..] == q;
    assert x[1..][0] == '_' && IsWord('_');
  }

  predicate NoDollar(s: string) {
    '$' !in s
  }

  lemma {:induction false} IdentifiedIsSame(s: string, t: string)
    requires NoDollar(s) && NoDollar(t) && Canonical(s) == Canonical(t)
    ensures SameButAddresses(s, t)
    decreases |s|
  {
    hide IsTemp, Tail, Rename, WordLen;
    if s == [] || t == [] {
      NonEmptyStays(s);
      NonEmptyStays(t);
    } else if !IsWord(s[0]) || !IsWord(t[0]) {
      FirstStays(s);
      FirstStays(t);
      IdentifiedIsSame(s[1..], t[1..]);
    } else {
      var n, m := WordLen(s), WordLen(t);
      WordsAgree(s, t);
      IdentifiedIsSame(s[n..], t[m..]);
    }
  }

  lemma WordsAgree(s: string, t: string)
    requires s != [] && t != [] && IsWord(s[0]) && IsWord(t[0])
    requires NoDollar(s) && NoDollar(t) && Canonical(s) == Canonical(t)
    ensures var w, v := s[..WordLen(s)], t[..WordLen(t)];
            w == v || (IsTemp(w) && IsTemp(v) && Tail(w) == Tail(v))
    ensures Canonical(s[WordLen(s)..]) == Canonical(t[WordLen(t)..])
    ensures 0 < WordLen(s) && 0 < WordLen(t)
  {
    var n, m := WordLen(s), WordLen(t);
    assert n > 0 && m > 0;
    WordSplits(s);
    WordSplits(t);
    CanonicalBreaks(s[n..]);
    CanonicalBreaks(t[m..]);
    assert Canonical(s) == Rename(s[..n]) + Canonical(s[n..]);
    assert Canonical(t) == Rename(t[..m]) + Canonical(t[m..]);
    hide Canonical, Rename, Tail, IsTemp, WordLen;
    SplitRenamed(s[..n], t[..m], Canonical(s[n..]), Canonical(t[m..]));
  }

  lemma NonEmptyStays(s: string)
    ensures Canonical(s) == [] <==> s == []
  {
  }

  lemma FirstStays(s: string)
    requires s != []
    ensures Canonical(s) != [] && (IsWord(Canonical(s)[0]) <==> IsWord(s[0]))
    ensures !IsWord(s[0]) ==> Canonical(s)[0] == s[0] && Canonical(s)[1..] == Canonical(s[1..])
  {
    if IsWord(s[0]) {
      var w := s[..WordLen(s)];
      assert w[0] == s[0];
      assert Rename(w) != [] && IsWord(Rename(w)[0]);
    }
  }

  /** Two renderings free of `$` get one name exactly when only temporaries' addresses tell them apart. */
  lemma IdentifiesExactlyAddresses(s: string, t: string)
    requires NoDollar(s) && NoDollar(t)
    ensures Canonical(s) == Canonical(t) <==> SameButAddresses(s, t)
  {
    if Canonical(s) == Canonical(t) {
      IdentifiedIsSame(s, t);
    }
    if SameButAddresses(s, t) {
      SameIsIdentified(s, t);
    }
  }

  // ---------------------------------------------------------------------------
  // The key of a pair of lowerings.

  const SEPARATOR: char := 1 as char

  function MemoKey(a: string, b: string): string {
    Canonical(a + [SEPARATOR] + b)
  }

  /** The separator cuts the key where it cuts the rendering. */
  lemma {:induction false} CanonicalSplits(a: string, rest: string)
    requires rest != [] && !IsWord(rest[0])
    ensures Canonical(a + rest) == Canonical(a) + Canonical(rest)
    decreases |a|
  {
    hide Rename, IsWord, Canonical;
    if a == [] {
      assert a + rest == rest;
      NonEmptyStays(a);
    } else if !IsWord(a[0]) {
      CanonicalSplits(a[1..], rest);
      assert a + rest == [a[0]] + (a[1..] + rest);
      assert a == [a[0]] + a[1..];
      CanonicalChar(a[0], a[1..] + rest);
      CanonicalChar(a[0], a[1..]);
    } else {
      var n := WordLen(a);
      assert n > 0;
      hide WordLen;
      WordSplits(a);
      CanonicalSplits(a[n..], rest);
      WordSplitsOff(a[..n], a[n..], rest);
      CanonicalWord(a[..n], a[n..]);
      assert a[..n] + a[n..] == a;
    }
  }

  lemma WordSplitsOff(w: string, tail: string, rest: string)
    requires w != [] && AllWord(w) && Breaks(tail) && rest != [] && !IsWord(rest[0])
    ensures Canonical(w + tail + rest) == Rename(w) + Canonical(tail + rest)
  {
    hide Rename, Canonical, IsWord, AllWord;
    assert w + tail + rest == w + (tail + rest);
    CanonicalWord(w, tail + rest);
  }

  lemma {:induction false} SeparatorFreeStays(a: string)
    requires SEPARATOR !in a
    ensures SEPARATOR !in Canonical(a)
    decreases |a|
  {
    hide IsTemp, Tail;
    if a != [] {
      if !IsWord(a[0]) {
        SeparatorFreeStays(a[1..]);
      } else {
        var n := WordLen(a);
        SeparatorFreeStays(a[n..]);
        RenameIsSeparatorFree(a[..n]);
      }
    }
  }

  lemma RenameIsSeparatorFree(w: string)
    requires SEPARATOR !in w
    ensures SEPARATOR !in Rename(w)
  {
    hide HexLen;
  }

  lemma {:induction false} CutAtSeparator(x: string, y: string, u: string, v: string)
    requires SEPARATOR !in x && SEPARATOR !in u
    requires x + ([SEPARATOR] + y) == u + ([SEPARATOR] + v)
    ensures x == u && y == v
    decreases |x|
  {
    var s, t := x + ([SEPARATOR] + y), u + ([SEPARATOR] + v);
    assert s[0] == t[0];
    if x != [] && u != [] {
      assert s[1..] == x[1..] + ([SEPARATOR] + y) && t[1..] == u[1..] + ([SEPARATOR] + v);
      CutAtSeparator(x[1..], y, u[1..], v);
    } else {
      assert x == [] && u == [];
      assert s[1..] == y && t[1..] == v;
    }
  }

  /** Two pairs of lowerings share a memo entry exactly when both sides differ in addresses only. */
  lemma KeyIdentifiesExactlyAddresses(a: string, b: string, c: string, d: string)
    requires NoDollar(a) && NoDollar(b) && NoDollar(c) && NoDollar(d)
    requires SEPARATOR !in a && SEPARATOR !in c
    ensures MemoKey(a, b) == MemoKey(c, d) <==> SameButAddresses(a, c) && SameButAddresses(b, d)
  {
    KeyOfParts(a, b);
    KeyOfParts(c, d);
    IdentifiesExactlyAddresses(a, c);
    IdentifiesExactlyAddresses(b, d);
    if MemoKey(a, b) == MemoKey(c, d) {
      SeparatorFreeStays(a);
      SeparatorFreeStays(c);
      CutAtSeparator(Canonical(a), Canonical(b), Canonical(c), Canonical(d));
    }
  }

  lemma KeyOfParts(a: string, b: string)
    ensures MemoKey(a, b) == Canonical(a) + ([SEPARATOR] + Canonical(b))
  {
    assert a + [SEPARATOR] + b == a + ([SEPARATOR] + b);
    CanonicalSplits(a, [SEPARATOR] + b);
    CanonicalChar(SEPARATOR, b);
  }

  /** Without the assumption on `$` different renderings collide. */
  lemma DollarCollides()
    ensures Canonical("t_$_0") == Canonical("t_a_0") && !SameButAddresses("t_$_0", "t_a_0")
  {
    hide *;
    TempLosesAddress();
    Idempotent("t_a_0");
    DollarIsOther();
  }

  lemma TempLosesAddress()
    ensures Canonical("t_a_0") == "t_$_0"
  {
    var temp := "t_a_0";
    HexOf(temp[2..], 1);
    assert Tail(temp) == "0" && IsTemp(temp);
    hide HexLen, WordLen, IsTemp, Tail;
    CanonicalWord(temp, "");
    assert temp + "" == temp && Canonical("") == "" && HEAD + "0" + "" == "t_$_0";
  }

  lemma DollarIsOther()
    ensures !SameButAddresses("t_$_0", "t_a_0")
  {
    var temp, spelled := "t_a_0", "t_$_0";
    WordOf(temp, "");
    assert temp + "" == temp;
    assert spelled == "t_" + "$_0";
    WordOf("t_", "$_0");
    assert !IsTemp("t_");
    hide WordLen, HexLen;
    assert spelled[..2] != temp[..5];
  }

  // ---------------------------------------------------------------------------
  // One address per rendering: the change of addresses is one injective renaming.

  /** The address in a temporary's name. */
  function Address(w: string): string
    requires IsTemp(w)
  {
    w[2..2 + HexLen(w[2..])]
  }

  predicate IsAddress(a: string) {
    a != [] && forall k :: 0 <= k < |a| ==> IsHex(a[k])
  }

  function TempName(a: string, tail: string): string {
    "t_" + a + "_" + tail
  }

  /** Every temporary named in the text belongs to the instruction at `a`. */
  predicate OneAddress(s: string, a: string)
    decreases |s|
  {
    if s == [] then true
    else if !IsWord(s[0]) then OneAddress(s[1..], a)
    else
      var n := WordLen(s);
      (IsTemp(s[..n]) ==> Address(s[..n]) == a) && OneAddress(s[n..], a)
  }

  function Moved(w: string, b: string): string {
    if IsTemp(w) then TempName(b, Tail(w)) else w
  }

  /** Every temporary's name moved to the instruction at `b`, everything else as it was. */
  function Readdressed(s: string, b: string): string
    decreases |s|
  {
    if s == [] then []
    else if !IsWord(s[0]) then [s[0]] + Readdressed(s[1..], b)
    else
      var n := WordLen(s);
      Moved(s[..n], b) + Readdressed(s[n..], b)
  }

  /** A temporary's name is its address and its tail. */
  lemma TempParts(w: string)
    requires IsTemp(w)
    ensures IsAddress(Address(w)) && w == TempName(Address(w), Tail(w))
  {
    HexRun(w[2..]);
    hide HexLen, IsHex;
    var n := HexLen(w[2..]);
    assert w[..2] == "t_" && w[2 + n..2 + n + 1] == "_";
    assert w == w[..2] + w[2..2 + n] + w[2 + n..2 + n + 1] + w[2 + n + 1..];
  }

  /** A made-up name is one of its address, and loses it to the same tail. */
  lemma MadeUp(b: string, tail: string)
    requires IsAddress(b) && AllWord(tail)
    ensures var w := TempName(b, tail); IsTemp(w) && Address(w) == b && Tail(w) == tail && AllWord(w)
  {
    var w := TempName(b, tail);
    var digits := w[2..];
    assert w == "t_" + (b + "_" + tail) && digits == b + "_" + tail;
    assert digits[..|b|] == b && digits[|b|] == '_' && digits[|b| + 1..] == tail;
    assert forall k :: 0 <= k < |b| ==> digits[k] == b[k];
    hide IsWord;
    HexOf(digits, |b|);
    assert w[2 + |b| + 1..] == tail && w[2..2 + |b|] == b;
    MadeUpIsWord(b, tail);
  }

  lemma MadeUpIsWord(b: string, tail: string)
    requires IsAddress(b) && AllWord(tail)
    ensures AllWord(TempName(b, tail))
  {
    var w := TempName(b, tail);
    forall k | 0 <= k < |w| ensures IsWord(w[k]) {
      if 2 <= k < 2 + |b| { assert w[k] == b[k - 2] && IsHex(b[k - 2]); }
      else if k > 2 + |b| { assert w[k] == tail[k - 3 - |b|]; }
    }
  }

  lemma MovedIsWord(w: string, b: string)
    requires AllWord(w) && w != [] && IsAddress(b)
    ensures AllWord(Moved(w, b)) && Moved(w, b) != [] && IsTemp(Moved(w, b)) == IsTemp(w)
    ensures IsTemp(w) ==> Address(Moved(w, b)) == b && Tail(Moved(w, b)) == Tail(w)
  {
    if IsTemp(w) {
      TailIsWord(w);
      MadeUp(b, Tail(w));
    }
  }

  /** Two names of one instruction moved to another stay two names. */
  lemma MovedIsInjective(w: string, v: string, a: string, b: string)
    requires AllWord(w) && AllWord(v) && w != [] && v != [] && IsAddress(b) && Moved(w, b) == Moved(v, b)
    requires (IsTemp(w) ==> Address(w) == a) && (IsTemp(v) ==> Address(v) == a)
    ensures w == v
  {
    hide IsTemp, Tail, Address, Moved;
    MovedIsWord(w, b);
    MovedIsWord(v, b);
    MovedOnly(w, b);
    MovedOnly(v, b);
    if IsTemp(w) {
      TempParts(w);
      TempParts(v);
    }
  }

  lemma MovedOnly(w: string, b: string)
    ensures !IsTemp(w) ==> Moved(w, b) == w
  {
  }

  lemma ReaddressWord(w: string, tail: string, b: string)
    requires w != [] && AllWord(w) && Breaks(tail)
    ensures Readdressed(w + tail, b) == Moved(w, b) + Readdressed(tail, b)
    ensures forall a :: OneAddress(w + tail, a) <==> (IsTemp(w) ==> Address(w) == a) && OneAddress(tail, a)
  {
    WordOf(w, tail);
    assert (w + tail)[0] == w[0];
    hide Moved, IsTemp, WordLen, Address;
  }

  lemma {:induction false} ReaddressedBreaks(s: string, b: string)
    requires Breaks(s)
    ensures Breaks(Readdressed(s, b))
  {
  }

  /** Moved to `b`, a text names temporaries of `b` alone; moved back, it is the text. */
  lemma {:induction false} ReaddressBack(s: string, a: string, b: string)
    requires OneAddress(s, a) && IsAddress(b)
    ensures OneAddress(Readdressed(s, b), b) && Readdressed(Readdressed(s, b), a) == s
    decreases |s|
  {
    if s != [] {
      if !IsWord(s[0]) {
        ReaddressBack(s[1..], a, b);
        var r := Readdressed(s[1..], b);
        assert ([s[0]] + r)[1..] == r;
      } else {
        var n := WordLen(s);
        var w, p := s[..n], s[n..];
        WordSplits(s);
        assert w[0] == s[0] && s == w + p;
        ReaddressBack(p, a, b);
        ReaddressedBreaks(p, b);
        BackWord(w, p, a, b);
      }
    }
  }

  lemma BackWord(w: string, p: string, a: string, b: string)
    requires w != [] && AllWord(w) && Breaks(p) && IsAddress(b) && (IsTemp(w) ==> Address(w) == a)
    requires Breaks(Readdressed(p, b)) && OneAddress(Readdressed(p, b), b) && Readdressed(Readdressed(p, b), a) == p
    ensures OneAddress(Readdressed(w + p, b), b) && Readdressed(Readdressed(w + p, b), a) == w + p
  {
    hide Readdressed, OneAddress, IsTemp, Tail, Address, Moved, AllWord, Breaks;
    ReaddressWord(w, p, b);
    MovedIsWord(w, b);
    ReaddressWord(Moved(w, b), Readdressed(p, b), a);
    MovedBack(w, a, b);
  }

  lemma MovedBack(w: string, a: string, b: string)
    requires w != [] && AllWord(w) && IsAddress(b) && (IsTemp(w) ==> Address(w) == a)
    ensures Moved(Moved(w, b), a) == w
  {
    hide IsTemp, Tail, Address;
    MovedIsWord(w, b);
    if IsTemp(w) { TempParts(w); }
  }

  lemma {:induction false} SameIsReaddressed(s: string, t: string, b: string)
    requires OneAddress(t, b) && SameButAddresses(s, t)
    ensures t == Readdressed(s, b)
    decreases |s|
  {
    hide IsTemp, Tail, Address;
    if s != [] && t != [] {
      if !IsWord(s[0]) || !IsWord(t[0]) {
        SameIsReaddressed(s[1..], t[1..], b);
        assert t == [t[0]] + t[1..];
      } else {
        var n, m := WordLen(s), WordLen(t);
        SameIsReaddressed(s[n..], t[m..], b);
        assert t == t[..m] + t[m..];
        if IsTemp(t[..m]) { TempParts(t[..m]); }
      }
    }
  }

  lemma {:induction false} ReaddressedIsSame(s: string, b: string)
    requires IsAddress(b)
    ensures SameButAddresses(s, Readdressed(s, b))
    decreases |s|
  {
    if s != [] {
      if !IsWord(s[0]) {
        ReaddressedIsSame(s[1..], b);
        var r := Readdressed(s[1..], b);
        assert ([s[0]] + r)[1..] == r;
      } else {
        var n := WordLen(s);
        var w, p := s[..n], s[n..];
        WordSplits(s);
        assert w[0] == s[0] && s == w + p;
        ReaddressedIsSame(p, b);
        ReaddressedBreaks(p, b);
        SameWord(w, p, b);
      }
    }
  }

  lemma SameWord(w: string, p: string, b: string)
    requires w != [] && AllWord(w) && Breaks(p) && IsAddress(b) && Breaks(Readdressed(p, b)) && SameButAddresses(p, Readdressed(p, b))
    ensures SameButAddresses(w + p, Readdressed(w + p, b))
  {
    hide Readdressed, IsTemp, Tail, Address, Moved, WordLen;
    ReaddressWord(w, p, b);
    MovedIsWord(w, b);
    MovedOnly(w, b);
    WordOf(w, p);
    WordOf(Moved(w, b), Readdressed(p, b));
  }

  /** Where every temporary of one rendering belongs to the instruction at `a` and every one of
      the other to that at `b`, the two get one key exactly when the second is the first moved
      from `a` to `b`: one renaming for all names, which moving back undoes. */
  lemma KeyIsOneRenaming(s: string, t: string, a: string, b: string)
    requires NoDollar(s) && NoDollar(t) && IsAddress(b) && OneAddress(s, a) && OneAddress(t, b)
    ensures Canonical(s) == Canonical(t) <==> t == Readdressed(s, b)
    ensures Canonical(s) == Canonical(t) ==> s == Readdressed(t, a)
  {
    hide Canonical, Readdressed, OneAddress, SameButAddresses, IsAddress;
    IdentifiesExactlyAddresses(s, t);
    if SameButAddresses(s, t) {
      SameIsReaddressed(s, t, b);
      ReaddressBack(s, a, b);
    }
    ReaddressedIsSame(s, b);
  }

  /** The same for pairs: one renaming takes both sides of one pair to the other's. */
  lemma MemoKeyIsOneRenaming(s: string, t: string, u: string, v: string, a: string, b: string)
    requires NoDollar(s) && NoDollar(t) && NoDollar(u) && NoDollar(v) && SEPARATOR !in s && SEPARATOR !in u && IsAddress(b)
    requires OneAddress(s, a) && OneAddress(t, a) && OneAddress(u, b) && OneAddress(v, b)
    ensures MemoKey(s, t) == MemoKey(u, v) <==> u == Readdressed(s, b) && v == Readdressed(t, b)
  {
    hide Canonical, Readdressed, OneAddress, SameButAddresses, IsAddress, MemoKey, NoDollar;
    KeyIdentifiesExactlyAddresses(s, t, u, v);
    IdentifiesExactlyAddresses(s, u);
    IdentifiesExactlyAddresses(t, v);
    KeyIsOneRenaming(s, u, a, b);
    KeyIsOneRenaming(t, v, a, b);
  }
}
