/** Text as the P-code parser takes it apart: trimming, numerals, and the two splitters that
    count brackets. */
module PcodeText {
  import opened Bits
  import opened Common

  // ---- White space ----

  /** Unicode white space. */
  predicate IsSpace(c: char) {
    var n := c as int;
    || 9 <= n <= 13 || n == 32 || n == 0x85 || n == 0xa0 || n == 0x1680 || 0x2000 <= n <= 0x200a
    || n == 0x2028 || n == 0x2029 || n == 0x202f || n == 0x205f || n == 0x3000
  }

  function TrimStart(s: string): (t: string)
    ensures |t| <= |s|
  {
    if s != [] && IsSpace(s[0]) then TrimStart(s[1..]) else s
  }

  function TrimEnd(s: string): (t: string)
    ensures |t| <= |s|
  {
    if s != [] && IsSpace(s[|s| - 1]) then TrimEnd(s[..|s| - 1]) else s
  }

  function Trim(s: string): (t: string)
    ensures |t| <= |s|
  {
    TrimEnd(TrimStart(s))
  }

  /** Neither end is white space. */
  predicate Clean(s: string) {
    s != [] && !IsSpace(s[0]) && !IsSpace(s[|s| - 1])
  }

  ghost predicate NoSpace(s: string) {
    forall k :: 0 <= k < |s| ==> !IsSpace(s[k])
  }

  ghost predicate AllSpace(s: string) {
    forall k :: 0 <= k < |s| ==> IsSpace(s[k])
  }

  lemma {:induction false} TrimStartOf(a: string, s: string)
    requires AllSpace(a) && (s == [] || !IsSpace(s[0]))
    ensures TrimStart(a + s) == s
    decreases |a|
  {
    hide IsSpace;
    if a == [] {
      assert a + s == s;
    } else {
      assert (a + s)[1..] == a[1..] + s;
      TrimStartOf(a[1..], s);
    }
  }

  lemma {:induction false} TrimEndOf(s: string, b: string)
    requires AllSpace(b) && (s == [] || !IsSpace(s[|s| - 1]))
    ensures TrimEnd(s + b) == s
    decreases |b|
  {
    hide IsSpace;
    if b == [] {
      assert s + b == s;
    } else {
      assert (s + b)[..|s + b| - 1] == s + b[..|b| - 1];
      TrimEndOf(s, b[..|b| - 1]);
    }
  }

  /** Trimming takes exactly the white space around a clean text. */
  lemma TrimOf(a: string, s: string, b: string)
    requires AllSpace(a) && AllSpace(b) && Clean(s)
    ensures Trim(a + s + b) == s
  {
    hide IsSpace, TrimStart, TrimEnd;
    assert a + s + b == a + (s + b);
    TrimStartOf(a, s + b);
    TrimEndOf(s, b);
  }

  lemma TrimClean(s: string)
    requires Clean(s)
    ensures Trim(s) == s
  {
    hide IsSpace, Trim;
    assert [] + s + [] == s;
    TrimOf([], s, []);
  }

  // ---- Prefixes, suffixes, first occurrences ----

  function StripPrefix(s: string, p: string): (r: Option<string>)
    ensures r.Some? ==> |r.value| + |p| == |s|
  {
    if |p| <= |s| && s[..|p|] == p then Some(s[|p|..]) else None
  }

  function StripSuffix(s: string, c: char): (r: Option<string>)
    ensures r.Some? ==> |r.value| + 1 == |s|
  {
    if s != [] && s[|s| - 1] == c then Some(s[..|s| - 1]) else None
  }

  /** The text before and after the first occurrence of `sep`. */
  function SplitOnce(s: string, sep: string): Option<(string, string)>
    decreases |s|
  {
    if |sep| <= |s| && s[..|sep|] == sep then Some(([], s[|sep|..]))
    else if s == [] then None
    else
      var r := SplitOnce(s[1..], sep);
      if r.None? then None else Some(([s[0]] + r.value.0, r.value.1))
  }

  lemma PrefixOf(p: string, s: string)
    ensures StripPrefix(p + s, p) == Some(s)
  {
    assert (p + s)[..|p|] == p && (p + s)[|p|..] == s;
  }

  lemma SuffixOf(s: string, c: char)
    ensures StripSuffix(s + [c], c) == Some(s)
  {
    assert (s + [c])[..|s|] == s;
  }

  /** The separator is found where it stands when its first character does not occur before. */
  lemma {:induction false} SplitOnceAt(a: string, sep: string, b: string)
    requires sep != [] && sep[0] !in a
    ensures SplitOnce(a + (sep + b), sep) == Some((a, b))
    decreases |a|
  {
    var s := a + (sep + b);
    if a == [] {
      assert s == sep + b;
      assert s[..|sep|] == sep && s[|sep|..] == b;
    } else {
      assert s[0] == a[0];
      assert s[0] != sep[0];
      assert s[1..] == a[1..] + (sep + b);
      SplitOnceAt(a[1..], sep, b);
      assert [a[0]] + a[1..] == a;
      assert |sep| <= |s| ==> s[..|sep|][0] != sep[0];
    }
  }

  /** The first word, and what follows the white space after it. */
  function FirstWord(s: string): (string, Option<string>)
    decreases |s|
  {
    if s == [] then ([], None)
    else if IsSpace(s[0]) then ([], Some(s[1..]))
    else
      var r := FirstWord(s[1..]);
      ([s[0]] + r.0, r.1)
  }

  lemma {:induction false} FirstWordOf(w: string, rest: string)
    requires NoSpace(w) && (rest != [] ==> IsSpace(rest[0]))
    ensures FirstWord(w + rest) == (w, if rest == [] then None else Some(rest[1..]))
    decreases |w|
  {
    hide IsSpace;
    if w == [] {
      assert w + rest == rest;
    } else {
      assert (w + rest)[1..] == w[1..] + rest;
      FirstWordOf(w[1..], rest);
      assert [w[0]] + w[1..] == w;
    }
  }

  // ---- Numerals ----

  function DigitValue(c: char): nat {
    if '0' <= c <= '9' then (c as int) - ('0' as int)
    else if 'a' <= c <= 'f' then (c as int) - ('a' as int) + 10
    else if 'A' <= c <= 'F' then (c as int) - ('A' as int) + 10
    else 16
  }

  function Value(s: string, base: nat): Option<nat> {
    if s == [] then Some(0) else
    var head, d := Value(s[..|s| - 1], base), DigitValue(s[|s| - 1]);
    if head.Some? && d < base then Some(head.value * base + d) else None
  }

  /** An unsigned numeral: an optional plus, at least one digit, at most `max`. */
  function Numeral(s: string, base: nat, max: nat): Option<nat> {
    var t := if s != [] && s[0] == '+' then s[1..] else s;
    if t == [] then None else
    var v := Value(t, base);
    if v.Some? && v.value <= max then v else None
  }

  const U64: nat := 0xffff_ffff_ffff_ffff

  /** Hexadecimal behind `0x`, decimal otherwise. */
  function Number(s: string): Option<nat> {
    var hex := StripPrefix(s, "0x");
    if hex.Some? then Numeral(hex.value, 16, U64) else Numeral(s, 10, U64)
  }

  function DigitChar(d: nat): char
    requires d < 16
  {
    if d < 10 then ('0' as int + d) as char else ('a' as int + (d - 10)) as char
  }

  /** The shortest numeral. */
  function Digits(n: nat, base: nat): (s: string)
    requires 2 <= base <= 16
    ensures s != []
  {
    if n < base then [DigitChar(n)] else
    ShareLess(n, base);
    Digits(n / base, base) + [DigitChar(n % base)]
  }

  lemma ShareLess(n: nat, base: nat)
    requires 2 <= base <= n
    ensures 0 <= n / base < n && 0 <= n % base < base
    ensures n / base * base + n % base == n
  {
    var q := n / base;
    DivNat(n, base);
    assert n == q * base + n % base;
    if q >= n {
      Product(q, base, n, 2);
    }
  }

  lemma Product(a: int, b: int, c: int, d: int)
    requires a >= c >= 0 && b >= d >= 0
    ensures a * b >= c * d
  {
    assert a * b - c * d == a * (b - d) + (a - c) * d;
    assert a * (b - d) >= 0 && (a - c) * d >= 0;
  }

  predicate IsDigit(c: char) {
    '0' <= c <= '9' || 'a' <= c <= 'f'
  }

  lemma {:induction false} DigitsAreDigits(n: nat, base: nat)
    requires 2 <= base <= 16
    ensures forall k :: 0 <= k < |Digits(n, base)| ==> IsDigit(Digits(n, base)[k])
    decreases n
  {
    if n >= base {
      ShareLess(n, base);
      DigitsAreDigits(n / base, base);
    }
  }

  lemma DigitOf(d: nat)
    requires d < 16
    ensures DigitValue(DigitChar(d)) == d
  {
  }

  lemma ValueAppend(s: string, base: nat, v: nat, d: nat)
    requires Value(s, base) == Some(v) && d < base <= 16
    ensures Value(s + [DigitChar(d)], base) == Some(v * base + d)
  {
    DigitOf(d);
    hide DigitValue, DigitChar;
    assert (s + [DigitChar(d)])[..|s|] == s;
  }

  lemma {:induction false} ValueOfDigits(n: nat, base: nat)
    requires 2 <= base <= 16
    ensures Value(Digits(n, base), base) == Some(n)
    decreases n
  {
    hide DigitValue, DigitChar;
    if n < base {
      ValueAppend([], base, 0, n);
      assert [] + [DigitChar(n)] == [DigitChar(n)];
    } else {
      ShareLess(n, base);
      ValueOfDigits(n / base, base);
      ValueAppend(Digits(n / base, base), base, n / base, n % base);
    }
  }

  /** Reading a printed numeral gives the number back. */
  lemma NumeralOfDigits(n: nat, base: nat, max: nat)
    requires 2 <= base <= 16 && n <= max
    ensures Numeral(Digits(n, base), base, max) == Some(n)
  {
    DigitsAreDigits(n, base);
    ValueOfDigits(n, base);
    assert IsDigit(Digits(n, base)[0]);
  }

  function Hex(n: nat): string {
    "0x" + Digits(n, 16)
  }

  lemma NumberOfHex(n: nat)
    requires n <= U64
    ensures Number(Hex(n)) == Some(n)
  {
    PrefixOf("0x", Digits(n, 16));
    hide StripPrefix;
    NumeralOfDigits(n, 16, U64);
  }

  // ---- Brackets ----

  function Depth(c: char, d: int): int {
    if c == '(' || c == '[' then d + 1 else if c == ')' || c == ']' then d - 1 else d
  }

  function DepthAfter(s: string, d: int): int {
    if s == [] then d else DepthAfter(s[1..], Depth(s[0], d))
  }

  /** `c` stands nowhere at depth zero. */
  predicate NotOutside(s: string, d: int, c: char) {
    s == [] || ((s[0] == c ==> d != 0) && NotOutside(s[1..], Depth(s[0], d), c))
  }

  lemma {:induction false} DepthConcat(a: string, b: string, d: int, c: char)
    ensures DepthAfter(a + b, d) == DepthAfter(b, DepthAfter(a, d))
    ensures NotOutside(a + b, d, c) <==> NotOutside(a, d, c) && NotOutside(b, DepthAfter(a, d), c)
    decreases |a|
  {
    if a == [] {
      assert a + b == b;
    } else {
      assert (a + b)[1..] == a[1..] + b;
      DepthConcat(a[1..], b, Depth(a[0], d), c);
    }
  }

  predicate IsBracket(c: char) {
    c == '(' || c == '[' || c == ')' || c == ']'
  }

  /** Without brackets the depth stays, and inside some bracket nothing is outside. */
  lemma {:induction false} Flat(s: string, d: int, c: char)
    requires forall k :: 0 <= k < |s| ==> !IsBracket(s[k])
    ensures DepthAfter(s, d) == d
    ensures d != 0 || c !in s ==> NotOutside(s, d, c)
    decreases |s|
  {
    if s != [] {
      Flat(s[1..], d, c);
    }
  }

  /** Split at the first ` = ` outside brackets. */
  function SplitAssignment(s: string, d: int): Option<(string, string)>
    decreases |s|
  {
    if |s| < 3 then None
    else if s[0] == ' ' && d == 0 && s[1] == '=' && s[2] == ' ' then Some(([], s[3..]))
    else
      var r := SplitAssignment(s[1..], Depth(s[0], d));
      if r.None? then None else Some(([s[0]] + r.value.0, r.value.1))
  }

  /** Split at the commas outside brackets. */
  function SplitList(s: string, d: int): (r: seq<string>)
    ensures r != []
    decreases |s|
  {
    if s == [] then [[]]
    else if s[0] == ',' && d == 0 then [[]] + SplitList(s[1..], d)
    else
      var r := SplitList(s[1..], Depth(s[0], d));
      [[s[0]] + r[0]] + r[1..]
  }

  /** The assignment splitter never cuts inside a text that keeps its spaces in brackets. */
  lemma {:induction false} SplitAssignmentAt(a: string, b: string, d: int)
    requires NotOutside(a, d, ' ') && DepthAfter(a, d) == 0
    ensures SplitAssignment(a + (" = " + b), d) == Some((a, b))
    decreases |a|
  {
    var s := a + (" = " + b);
    if a == [] {
      assert s == " = " + b;
      assert s[3..] == b;
    } else {
      assert s[0] == a[0] && s[1..] == a[1..] + (" = " + b);
      SplitAssignmentAt(a[1..], b, Depth(a[0], d));
      assert [a[0]] + a[1..] == a;
    }
  }

  lemma {:induction false} NoAssignment(s: string, d: int)
    requires '=' !in s
    ensures SplitAssignment(s, d) == None
    decreases |s|
  {
    if |s| >= 3 {
      assert s[1] != '=';
      NoAssignment(s[1..], Depth(s[0], d));
    }
  }

  /** The list splitter never cuts inside a text that keeps its commas in brackets. */
  lemma {:induction false} SplitListAt(a: string, rest: string, d: int)
    requires NotOutside(a, d, ',') && DepthAfter(a, d) == 0 && (rest != [] ==> rest[0] == ',')
    ensures SplitList(a + rest, d) == [a] + if rest == [] then [] else SplitList(rest[1..], 0)
    decreases |a|
  {
    var s := a + rest;
    if a == [] {
      assert s == rest;
    } else {
      assert s[0] == a[0] && s[1..] == a[1..] + rest;
      SplitListAt(a[1..], rest, Depth(a[0], d));
      var r := SplitList(s[1..], Depth(s[0], d));
      assert r[0] == a[1..] && [a[0]] + a[1..] == a;
      assert r[1..] == if rest == [] then [] else SplitList(rest[1..], 0);
    }
  }
}
