/** The parser's loops, each proved against the function that says what it finds. */
module PcodeScan {
  import opened Common
  import opened PcodeText
  import opened Pcode
  import opened PcodeParse

  /** What a split found further on, with the text passed over put back in front. */
  function Ahead(passed: string, r: Option<(string, string)>): Option<(string, string)> {
    if r.None? then None else Some((passed + r.value.0, r.value.1))
  }

  lemma AssignmentStep(line: string, i: nat, d: int)
    requires i + 3 <= |line|
    ensures var here := d == 0 && line[i] == ' ' && line[i + 1] == '=' && line[i + 2] == ' ';
            Ahead(line[..i], SplitAssignment(line[i..], d)) ==
            if here then Some((line[..i], line[i + 3..])) else Ahead(line[..i + 1], SplitAssignment(line[i + 1..], Depth(line[i], d)))
  {
    var s := line[i..];
    assert s[0] == line[i] && s[1] == line[i + 1] && s[2] == line[i + 2] && s[1..] == line[i + 1..] && s[3..] == line[i + 3..];
    assert line[..i] + [] == line[..i];
    var r := SplitAssignment(s[1..], Depth(s[0], d));
    if r.Some? {
      assert line[..i] + ([line[i]] + r.value.0) == line[..i + 1] + r.value.0;
    }
  }

  lemma NothingPassed(line: string)
    ensures Ahead(line[..0], SplitAssignment(line[0..], 0)) == SplitAssignment(line, 0)
  {
    assert line[0..] == line;
    var r := SplitAssignment(line, 0);
    if r.Some? {
      assert line[..0] + r.value.0 == r.value.0;
    }
  }

  /** Split at the first ` = ` outside brackets. */
  method ScanAssignment(line: string) returns (r: Option<(string, string)>)
    ensures r == SplitAssignment(line, 0)
  {
    var depth: int := 0;
    var i: nat := 0;
    NothingPassed(line);
    hide SplitAssignment, Ahead;
    while i + 2 < |line|
      invariant i <= |line|
      invariant Ahead(line[..i], SplitAssignment(line[i..], depth)) == SplitAssignment(line, 0)
    {
      AssignmentStep(line, i, depth);
      var c := line[i];
      if c == '(' || c == '[' {
        depth := depth + 1;
      } else if c == ')' || c == ']' {
        depth := depth - 1;
      } else if c == ' ' && depth == 0 && line[i + 1] == '=' && line[i + 2] == ' ' {
        return Some((line[..i], line[i + 3..]));
      }
      i := i + 1;
    }
    TooShort(line[..i], line[i..], depth);
    return None;
  }

  lemma TooShort(passed: string, s: string, d: int)
    requires |s| < 3
    ensures Ahead(passed, SplitAssignment(s, d)) == None
  {
  }

  /** The pieces found so far, the text since the last cut, and what the rest splits into. */
  function Resumed(parts: seq<string>, open: string, rest: seq<string>): seq<string>
    requires rest != []
  {
    parts + [open + rest[0]] + rest[1..]
  }

  /** The scan stands at `i` with the part from `start` open. */
  ghost predicate Scanned(s: string, parts: seq<string>, start: nat, i: nat, d: int)
    requires start <= i <= |s|
  {
    Resumed(parts, s[start..i], SplitList(s[i..], d)) == SplitList(s, 0)
  }

  lemma ScanStep(s: string, parts: seq<string>, start: nat, i: nat, d: int)
    requires start <= i < |s| && Scanned(s, parts, start, i, d)
    ensures if s[i] == ',' && d == 0 then Scanned(s, parts + [s[start..i]], i + 1, i + 1, d) else Scanned(s, parts, start, i + 1, Depth(s[i], d))
  {
    ListStep(s, parts, start, i, d);
    hide Resumed, SplitList, Depth;
    assert s[i + 1..i + 1] == [];
  }

  lemma ListStep(s: string, parts: seq<string>, start: nat, i: nat, d: int)
    requires start <= i < |s|
    ensures Resumed(parts, s[start..i], SplitList(s[i..], d)) ==
            if s[i] == ',' && d == 0 then Resumed(parts + [s[start..i]], [], SplitList(s[i + 1..], d))
            else Resumed(parts, s[start..i + 1], SplitList(s[i + 1..], Depth(s[i], d)))
  {
    var t := s[i..];
    assert t[0] == s[i] && t[1..] == s[i + 1..];
    if s[i] == ',' && d == 0 {
      var r := SplitList(s[i + 1..], d);
      assert SplitList(t, d) == [[]] + r;
      assert s[start..i] + [] == s[start..i] && [] + r[0] == r[0];
      assert [r[0]] + r[1..] == r;
    } else {
      var r := SplitList(s[i + 1..], Depth(s[i], d));
      assert SplitList(t, d) == [[s[i]] + r[0]] + r[1..];
      assert s[start..i] + ([s[i]] + r[0]) == s[start..i + 1] + r[0];
    }
  }

  /** Cut a list at its commas outside brackets and parse the parts that are left. */
  method ScanInputList(s: string) returns (r: Result<seq<Varnode>, PcodeError>)
    ensures r == ParseInputList(s)
  {
    var parts: seq<string> := [];
    var depth: int := 0;
    var start: nat := 0;
    var i: nat := 0;
    NothingCut(s);
    hide *;
    while i < |s|
      invariant start <= i <= |s| && Scanned(s, parts, start, i, depth)
    {
      ScanStep(s, parts, start, i, depth);
      DepthIs(s[i], depth);
      var c := s[i];
      if c == '(' || c == '[' {
        depth := depth + 1;
      } else if c == ')' || c == ']' {
        depth := depth - 1;
      } else if c == ',' && depth == 0 {
        parts := parts + [s[start..i]];
        start := i + 1;
      }
      i := i + 1;
    }
    LastPart(parts, s, start, depth);
    parts := parts + [s[start..]];
    r := ParseParts(parts);
  }

  lemma DepthIs(c: char, d: int)
    ensures Depth(c, d) == if c == '(' || c == '[' then d + 1 else if c == ')' || c == ']' then d - 1 else d
  {
  }

  lemma NothingCut(s: string)
    ensures Scanned(s, [], 0, 0, 0)
  {
    assert s[0..] == s && s[0..0] == [];
    var r := SplitList(s, 0);
    assert [] + r[0] == r[0] && [] + [r[0]] + r[1..] == r;
  }

  lemma LastPart(parts: seq<string>, s: string, start: nat, d: int)
    requires start <= |s| && Scanned(s, parts, start, |s|, d)
    ensures ParseInputList(s) == PcodeParse.ParseParts(parts + [s[start..]])
  {
    assert s[|s|..] == [] && SplitList([], d) == [[]];
    assert s[start..|s|] + [] == s[start..];
    assert parts + [s[start..]] + [] == parts + [s[start..]];
  }

  lemma {:induction false} FailureStays(a: seq<string>, b: seq<string>)
    ensures ParseLines(a).Err? ==> ParseLines(a + b) == ParseLines(a)
    decreases |b|
  {
    hide ParseLine;
    if b == [] {
      assert a + b == a;
    } else {
      FailureStays(a, b[..|b| - 1]);
      assert (a + b)[..|a + b| - 1] == a + b[..|b| - 1];
    }
  }

  lemma LineStep(lines: seq<string>, i: nat)
    requires i < |lines| && ParseLines(lines[..i]).Ok?
    ensures ParseLines(lines[..i + 1]) == ParseLine(ParseLines(lines[..i]).value, lines[i])
    ensures ParseLines(lines[..i + 1]).Err? ==> ParseLines(lines) == ParseLines(lines[..i + 1])
  {
    hide ParseLine;
    assert lines[..i + 1][..i] == lines[..i];
    FailureStays(lines[..i + 1], lines[i + 1..]);
    assert lines[..i + 1] + lines[i + 1..] == lines;
  }

  /** Read a listing line by line: headers open instructions, indented lines add operations to
      the latest one, anything else is passed over. */
  method ScanListing(text: string) returns (r: Result<seq<PcodeInsn>, PcodeError>)
    ensures r == ParsePcode(text)
  {
    var lines := Lines(text);
    var out: seq<PcodeInsn> := [];
    assert ParseLines(lines[..0]) == Ok(out);
    hide ParseLines, ParseOpLine, ParseHeader, Trim, TrimEnd, IsSpace, Lines;
    for i := 0 to |lines|
      invariant ParseLines(lines[..i]) == Ok(out)
    {
      LineStep(lines, i);
      var line := TrimEnd(lines[i]);
      if line == [] { continue; }
      if IsSpace(line[0]) {
        var op := ParseOpLine(Trim(line));
        if op.Err? { return Err(op.error); }
        if out == [] { return Err(ParseFailure); }
        var current := out[|out| - 1];
        out := out[..|out| - 1] + [PcodeInsn(current.address, current.ops + [op.value])];
      } else {
        var addr := ParseHeader(line);
        if addr.None? { continue; }
        out := out + [PcodeInsn(addr.value, [])];
      }
    }
    assert lines[..|lines|] == lines;
    return Ok(out);
  }
}
