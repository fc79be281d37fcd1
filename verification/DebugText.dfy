/** The text a derived `Debug` prints, compactly, of structs, enumerations, strings, numbers and
    sequences: one text for each value, and moving its temporaries to another address is moving
    those of its strings. */
module DebugText {
  import opened TempNames

  /** What is printed: `Unit` is a bare word, the name of a variant without fields or a numeral. */
  datatype Shape =
    | Unit(name: string)
    | Text(text: string)
    | Tuple(name: string, kids: Kids)
    | Record(name: string, kids: Kids)
    | List(kids: Kids)

  /** What stands between brackets, with the field names of a record. */
  datatype Kids = End | More(tag: string, first: Shape, rest: Kids)

  /** The text of `s` with `r` after it. */
  function Show(s: Shape, r: string): string
    decreases s
  {
    match s
    case Unit(n) => n + r
    case Text(t) => "\"" + (t + ("\"" + r))
    case Tuple(n, k) => n + ("(" + ShowKids(k, ")" + r))
    case Record(n, k) => n + (" { " + ShowKids(k, " }" + r))
    case List(k) => "[" + ShowKids(k, "]" + r)
  }

  function ShowKids(k: Kids, r: string): string
    decreases k
  {
    match k
    case End => r
    case More(l, s, rest) => Labelled(l, Show(s, if rest.End? then r else ", " + ShowKids(rest, r)))
  }

  function Labelled(l: string, r: string): string {
    if l == "" then r else l + (": " + r)
  }

  // ---- Values that print as they are ----

  /** A character a string prints without an escape, and not the memo key's `$`. */
  predicate IsPlain(c: char) {
    ' ' <= c <= '~' && c != '"' && c != '\\' && c != '$'
  }

  predicate AllPlain(t: string) {
    forall k :: 0 <= k < |t| ==> IsPlain(t[k])
  }

  /** A word that is no temporary's name. */
  ghost predicate IsName(n: string) {
    n != [] && AllWord(n) && !IsTemp(n)
  }

  /** Names are words, strings print as they are, and exactly the fields of records have names. */
  ghost predicate Proper(s: Shape)
    decreases s
  {
    match s
    case Unit(n) => IsName(n)
    case Text(t) => AllPlain(t)
    case Tuple(n, k) => IsName(n) && ProperKids(k, false)
    case Record(n, k) => IsName(n) && ProperKids(k, true)
    case List(k) => ProperKids(k, false)
  }

  ghost predicate ProperKids(k: Kids, labels: bool)
    decreases k
  {
    match k
    case End => true
    case More(l, s, rest) => (if labels then IsName(l) else l == "") && Proper(s) && ProperKids(rest, labels)
  }

  // ---- No two values print alike ----

  /** What can follow a value. */
  predicate Stops(r: string) {
    r == "" || r[0] == ',' || r[0] == ')' || r[0] == ']' || (|r| >= 2 && r[0] == ' ' && r[1] == '}')
  }

  /** What can follow the last value between brackets. */
  predicate Closes(r: string) {
    r != "" && r[0] != ',' && Stops(r)
  }

  predicate Named(s: Shape) {
    s.Unit? || s.Tuple? || s.Record?
  }

  /** What follows the name. */
  function AfterName(s: Shape, r: string): string
    requires Named(s)
  {
    match s
    case Unit(_) => r
    case Tuple(_, k) => "(" + ShowKids(k, ")" + r)
    case Record(_, k) => " { " + ShowKids(k, " }" + r)
  }

  lemma ShowNamed(s: Shape, r: string)
    requires Named(s) && Stops(r)
    ensures Show(s, r) == s.name + AfterName(s, r) && Breaks(AfterName(s, r))
    ensures s.Tuple? <==> AfterName(s, r) != "" && AfterName(s, r)[0] == '('
    ensures s.Record? <==> |AfterName(s, r)| >= 2 && AfterName(s, r)[0] == ' ' && AfterName(s, r)[1] == '{'
  {
    hide ShowKids;
  }

  /** A value starts with a word, a quotation mark or a bracket. */
  lemma Starts(s: Shape, r: string)
    requires Proper(s)
    ensures var t := Show(s, r); t != "" && (IsWord(t[0]) <==> Named(s)) && (t[0] == '"' <==> s.Text?) && (t[0] == '[' <==> s.List?)
  {
    hide ShowKids, IsTemp;
    if Named(s) { assert IsWord(s.name[0]); }
  }

  lemma {:induction false} TextEnds(t: string, u: string, r: string, q: string)
    requires AllPlain(t) && AllPlain(u) && t + ("\"" + r) == u + ("\"" + q)
    ensures t == u && r == q
    decreases |t|
  {
    var x, y := t + ("\"" + r), u + ("\"" + q);
    assert x[0] == (if t == "" then '"' else t[0]) && y[0] == (if u == "" then '"' else u[0]);
    if t == "" || u == "" {
      assert t == u == "" && x == "\"" + r && y == "\"" + q;
      Dropped("\"", r, q);
    } else {
      assert t[0] == x[0] == y[0] == u[0];
      assert x[1..] == t[1..] + ("\"" + r) && y[1..] == u[1..] + ("\"" + q);
      TextEnds(t[1..], u[1..], r, q);
      assert t == [t[0]] + t[1..] && u == [u[0]] + u[1..];
    }
  }

  lemma Dropped(p: string, x: string, y: string)
    requires p + x == p + y
    ensures x == y
  {
    assert (p + x)[|p|..] == x && (p + y)[|p|..] == y;
  }

  lemma OneName(n: string, m: string, x: string, y: string)
    requires AllWord(n) && AllWord(m) && Breaks(x) && Breaks(y) && n + x == m + y
    ensures n == m && x == y
  {
    WordOf(n, x);
    WordOf(m, y);
  }

  /** A text is the print of one value and what follows it, in one way. */
  lemma {:induction false} OneValue(s: Shape, t: Shape, r: string, q: string)
    requires Proper(s) && Proper(t) && Stops(r) && Stops(q) && Show(s, r) == Show(t, q)
    ensures s == t && r == q
    decreases s
  {
    Starts(s, r);
    Starts(t, q);
    if Named(s) {
      NamedValue(s, t, r, q);
      if s.Tuple? {
        OneKids(s.kids, t.kids, false, ")" + r, ")" + q);
        Dropped(")", r, q);
      } else if s.Record? {
        OneKids(s.kids, t.kids, true, " }" + r, " }" + q);
        Dropped(" }", r, q);
      }
    } else if s.Text? {
      Dropped("\"", s.text + ("\"" + r), t.text + ("\"" + q));
      TextEnds(s.text, t.text, r, q);
    } else {
      Dropped("[", ShowKids(s.kids, "]" + r), ShowKids(t.kids, "]" + q));
      OneKids(s.kids, t.kids, false, "]" + r, "]" + q);
      Dropped("]", r, q);
    }
  }

  lemma NamedValue(s: Shape, t: Shape, r: string, q: string)
    requires Named(s) && Named(t) && Proper(s) && Proper(t) && Stops(r) && Stops(q) && Show(s, r) == Show(t, q)
    ensures s.name == t.name && (s.Unit? <==> t.Unit?) && (s.Tuple? <==> t.Tuple?)
    ensures s.Unit? ==> r == q
    ensures s.Tuple? ==> ShowKids(s.kids, ")" + r) == ShowKids(t.kids, ")" + q)
    ensures s.Record? ==> ShowKids(s.kids, " }" + r) == ShowKids(t.kids, " }" + q)
  {
    ShowNamed(s, r);
    ShowNamed(t, q);
    hide Show, ShowKids, ProperKids, IsTemp, Breaks, Stops;
    OneName(s.name, t.name, AfterName(s, r), AfterName(t, q));
    if s.Tuple? {
      Dropped("(", ShowKids(s.kids, ")" + r), ShowKids(t.kids, ")" + q));
    } else if s.Record? {
      Dropped(" { ", ShowKids(s.kids, " }" + r), ShowKids(t.kids, " }" + q));
    }
  }

  /** What follows the first of the kids. */
  function AfterFirst(k: Kids, r: string): string
    requires k.More?
  {
    if k.rest.End? then r else ", " + ShowKids(k.rest, r)
  }

  lemma {:induction false} OneKids(k: Kids, l: Kids, labels: bool, r: string, q: string)
    requires ProperKids(k, labels) && ProperKids(l, labels) && Closes(r) && Closes(q) && ShowKids(k, r) == ShowKids(l, q)
    ensures k == l && r == q
    decreases k
  {
    if k.End? || l.End? {
      if k.More? { KidStarts(k, labels, r); }
      if l.More? { KidStarts(l, labels, q); }
    } else {
      FirstKid(k, l, labels, r, q);
      OneValue(k.first, l.first, AfterFirst(k, r), AfterFirst(l, q));
      if k.rest.More? && l.rest.More? {
        Dropped(", ", ShowKids(k.rest, r), ShowKids(l.rest, q));
        OneKids(k.rest, l.rest, labels, r, q);
      }
    }
  }

  lemma KidStarts(k: Kids, labels: bool, r: string)
    requires k.More? && ProperKids(k, labels)
    ensures var t := ShowKids(k, r); t != "" && !Closes(t)
  {
    Starts(k.first, AfterFirst(k, r));
    hide Show, Proper, IsTemp;
    if labels { assert IsWord(k.tag[0]); }
  }

  lemma FirstKid(k: Kids, l: Kids, labels: bool, r: string, q: string)
    requires k.More? && l.More? && ProperKids(k, labels) && ProperKids(l, labels) && Closes(r) && Closes(q) && ShowKids(k, r) == ShowKids(l, q)
    ensures k.tag == l.tag && Show(k.first, AfterFirst(k, r)) == Show(l.first, AfterFirst(l, q))
    ensures Stops(AfterFirst(k, r)) && Stops(AfterFirst(l, q))
  {
    var x, y := Show(k.first, AfterFirst(k, r)), Show(l.first, AfterFirst(l, q));
    assert ShowKids(k, r) == Labelled(k.tag, x) && ShowKids(l, q) == Labelled(l.tag, y);
    hide Show, ShowKids, Proper, IsTemp;
    if labels {
      OneName(k.tag, l.tag, ": " + x, ": " + y);
      Dropped(": ", x, y);
    }
  }

  // ---- Its temporaries moved to another address ----

  /** The value with the temporaries its strings name moved to the instruction at `b`. */
  function ShapeAt(s: Shape, b: string): Shape
    decreases s
  {
    match s
    case Unit(_) => s
    case Text(t) => Text(Readdressed(t, b))
    case Tuple(n, k) => Tuple(n, KidsAt(k, b))
    case Record(n, k) => Record(n, KidsAt(k, b))
    case List(k) => List(KidsAt(k, b))
  }

  function KidsAt(k: Kids, b: string): Kids
    decreases k
  {
    match k
    case End => End
    case More(l, s, rest) => More(l, ShapeAt(s, b), KidsAt(rest, b))
  }

  /** Every temporary its strings name belongs to the instruction at `a`. */
  predicate HoldsAt(s: Shape, a: string)
    decreases s
  {
    match s
    case Unit(_) => true
    case Text(t) => OneAddress(t, a)
    case Tuple(_, k) => KidsHoldAt(k, a)
    case Record(_, k) => KidsHoldAt(k, a)
    case List(k) => KidsHoldAt(k, a)
  }

  predicate KidsHoldAt(k: Kids, a: string)
    decreases k
  {
    k.End? || (HoldsAt(k.first, a) && KidsHoldAt(k.rest, a))
  }

  /** A character of no word is moved past. */
  lemma PastChar(c: char, r: string, a: string, b: string)
    requires !IsWord(c)
    ensures Readdressed([c] + r, b) == [c] + Readdressed(r, b) && (OneAddress([c] + r, a) <==> OneAddress(r, a))
  {
    assert ([c] + r)[1..] == r;
    hide WordLen, Moved, Address;
  }

  /** And so is a separator. */
  lemma PastMark(p: string, r: string, a: string, b: string)
    requires p == "\"" || p == "(" || p == ")" || p == "[" || p == "]" || p == " { " || p == " }" || p == ", " || p == ": "
    ensures Readdressed(p + r, b) == p + Readdressed(r, b) && (OneAddress(p + r, a) <==> OneAddress(r, a))
  {
    hide Readdressed, OneAddress;
    if |p| == 1 {
      PastChar(p[0], r, a, b);
    } else if |p| == 2 {
      assert p + r == [p[0]] + ([p[1]] + r) && p + Readdressed(r, b) == [p[0]] + ([p[1]] + Readdressed(r, b));
      PastChar(p[1], r, a, b);
      PastChar(p[0], [p[1]] + r, a, b);
    } else {
      assert p + r == [p[0]] + ([p[1]] + ([p[2]] + r)) && p + Readdressed(r, b) == [p[0]] + ([p[1]] + ([p[2]] + Readdressed(r, b)));
      PastChar(p[2], r, a, b);
      PastChar(p[1], [p[2]] + r, a, b);
      PastChar(p[0], [p[1]] + ([p[2]] + r), a, b);
    }
  }

  lemma PastName(n: string, r: string, a: string, b: string)
    requires IsName(n) && Breaks(r)
    ensures Readdressed(n + r, b) == n + Readdressed(r, b) && (OneAddress(n + r, a) <==> OneAddress(r, a))
  {
    hide Readdressed, OneAddress, IsTemp, Address;
    ReaddressWord(n, r, b);
  }

  /** A text ends where what follows starts outside words. */
  lemma {:induction false} PastText(t: string, r: string, a: string, b: string)
    requires Breaks(r)
    ensures Readdressed(t + r, b) == Readdressed(t, b) + Readdressed(r, b)
    ensures OneAddress(t + r, a) <==> OneAddress(t, a) && OneAddress(r, a)
    decreases |t|
  {
    if t == "" {
      assert t + r == r;
    } else if !IsWord(t[0]) {
      assert (t + r)[1..] == t[1..] + r;
      PastText(t[1..], r, a, b);
    } else {
      var n := WordLen(t);
      WordSplits(t);
      var w, p := t[..n], t[n..];
      assert w[0] == t[0] && t == w + p;
      PastText(p, r, a, b);
      PastWord(w, p, r, a, b);
    }
  }

  lemma PastWord(w: string, p: string, r: string, a: string, b: string)
    requires w != "" && AllWord(w) && Breaks(p) && Breaks(r)
    requires Readdressed(p + r, b) == Readdressed(p, b) + Readdressed(r, b) && (OneAddress(p + r, a) <==> OneAddress(p, a) && OneAddress(r, a))
    ensures Readdressed(w + p + r, b) == Readdressed(w + p, b) + Readdressed(r, b)
    ensures OneAddress(w + p + r, a) <==> OneAddress(w + p, a) && OneAddress(r, a)
  {
    hide Readdressed, OneAddress, Address, Moved, IsTemp, AllWord;
    assert w + p + r == w + (p + r) && (p + r != "" ==> (p + r)[0] == if p != "" then p[0] else r[0]);
    ReaddressWord(w, p, b);
    ReaddressWord(w, p + r, b);
    assert Moved(w, b) + Readdressed(p, b) + Readdressed(r, b) == Moved(w, b) + (Readdressed(p, b) + Readdressed(r, b));
  }

  lemma {:induction false} ShowAt(s: Shape, r: string, a: string, b: string)
    requires Proper(s) && Breaks(r)
    ensures Readdressed(Show(s, r), b) == Show(ShapeAt(s, b), Readdressed(r, b))
    ensures OneAddress(Show(s, r), a) <==> HoldsAt(s, a) && OneAddress(r, a)
    decreases s
  {
    hide Readdressed, OneAddress, IsTemp, AllPlain;
    match s
    case Unit(n) => PastName(n, r, a, b);
    case Text(t) =>
      PastMark("\"", r, a, b);
      PastText(t, "\"" + r, a, b);
      PastMark("\"", t + ("\"" + r), a, b);
    case Tuple(n, k) =>
      KidsShowAt(k, ")" + r, false, a, b);
      PastMark(")", r, a, b);
      PastMark("(", ShowKids(k, ")" + r), a, b);
      PastName(n, "(" + ShowKids(k, ")" + r), a, b);
    case Record(n, k) =>
      KidsShowAt(k, " }" + r, true, a, b);
      PastMark(" }", r, a, b);
      PastMark(" { ", ShowKids(k, " }" + r), a, b);
      PastName(n, " { " + ShowKids(k, " }" + r), a, b);
    case List(k) =>
      KidsShowAt(k, "]" + r, false, a, b);
      PastMark("]", r, a, b);
      PastMark("[", ShowKids(k, "]" + r), a, b);
  }

  lemma {:induction false} KidsShowAt(k: Kids, r: string, labels: bool, a: string, b: string)
    requires ProperKids(k, labels) && Breaks(r)
    ensures Readdressed(ShowKids(k, r), b) == ShowKids(KidsAt(k, b), Readdressed(r, b))
    ensures OneAddress(ShowKids(k, r), a) <==> KidsHoldAt(k, a) && OneAddress(r, a)
    decreases k
  {
    hide Readdressed, OneAddress, IsTemp, AllPlain;
    if k.More? {
      if k.rest.More? {
        KidsShowAt(k.rest, r, labels, a, b);
        PastMark(", ", ShowKids(k.rest, r), a, b);
      }
      ShowAt(k.first, AfterFirst(k, r), a, b);
      if labels {
        PastMark(": ", Show(k.first, AfterFirst(k, r)), a, b);
        PastName(k.tag, ": " + Show(k.first, AfterFirst(k, r)), a, b);
      }
    }
  }

  // ---- Neither the key's `$` nor its separator is printed ----

  predicate Keyless(t: string) {
    NoDollar(t) && SEPARATOR !in t
  }

  lemma WordKeyless(n: string)
    requires AllWord(n)
    ensures Keyless(n)
  {
  }

  lemma PlainKeyless(t: string)
    requires AllPlain(t)
    ensures Keyless(t)
  {
  }

  lemma {:induction false} ShowKeyless(s: Shape, r: string)
    requires Proper(s) && Keyless(r)
    ensures Keyless(Show(s, r))
    decreases s
  {
    hide IsWord, IsTemp, AllPlain;
    match s
    case Unit(n) => WordKeyless(n);
    case Text(t) => PlainKeyless(t);
    case Tuple(n, k) => WordKeyless(n); KidsKeyless(k, ")" + r, false);
    case Record(n, k) => WordKeyless(n); KidsKeyless(k, " }" + r, true);
    case List(k) => KidsKeyless(k, "]" + r, false);
  }

  lemma {:induction false} KidsKeyless(k: Kids, r: string, labels: bool)
    requires ProperKids(k, labels) && Keyless(r)
    ensures Keyless(ShowKids(k, r))
    decreases k
  {
    hide IsWord, IsTemp, AllPlain;
    if k.More? {
      if k.rest.More? { KidsKeyless(k.rest, r, labels); }
      ShowKeyless(k.first, AfterFirst(k, r));
      if labels { WordKeyless(k.tag); }
    }
  }
}
