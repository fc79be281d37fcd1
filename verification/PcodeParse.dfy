/** The P-code listing parser, the printed form of a listing, and the round trip. */
module PcodeParse {
  import opened Bits
  import opened Common
  import opened PcodeText
  import opened Pcode

  // ---- The parser ----

  /** All comma-separated fields, brackets or not. */
  function Fields(s: string): (r: seq<string>)
    ensures r != []
  {
    if s == [] then [[]]
    else
      var r := Fields(s[1..]);
      if s[0] == ',' then [[]] + r else [[s[0]] + r[0]] + r[1..]
  }

  function FieldAt(fields: seq<string>, k: nat): string {
    if k < |fields| then Trim(fields[k]) else []
  }

  predicate IsAlnum(c: char) {
    '0' <= c <= '9' || 'a' <= c <= 'z' || 'A' <= c <= 'Z'
  }

  predicate IsRegisterChar(c: char) {
    IsAlnum(c) || c == '_' || c == '.'
  }

  predicate IsRegisterText(s: string) {
    s != [] && forall k :: 0 <= k < |s| ==> IsRegisterChar(s[k])
  }

  /** `(space,offset,size)` without its parentheses; further fields are ignored. */
  function ParseSpace(inner: string): Result<Varnode, PcodeError> {
    var f := Fields(inner);
    var space, offset, size := FieldAt(f, 0), Number(FieldAt(f, 1)), Numeral(FieldAt(f, 2), 10, 255);
    if offset.None? || size.None? then Err(ParseFailure)
    else if space == "unique" then Ok(UniqueSpace(offset.value, size.value))
    else if space == "const" then Ok(Constant(offset.value, Some(size.value)))
    else Ok(Register(space + "_" + Hex(offset.value)))
  }

  function ParseCodeAddr(inner: string): Result<Varnode, PcodeError> {
    var t := Trim(inner);
    var hex := StripPrefix(t, "0x");
    var v := Numeral(if hex.Some? then hex.value else t, 16, U64);
    if v.Some? then Ok(CodeAddr(v.value)) else Err(ParseFailure)
  }

  /** What stands between an opening text and a closing character. */
  function Within(s: string, open: string, close: char): (r: Option<string>)
    ensures r.Some? ==> |r.value| < |s|
  {
    var rest := StripPrefix(s, open);
    if rest.None? then None else StripSuffix(rest.value, close)
  }

  function ParseAtom(tok: string): Result<Varnode, PcodeError> {
    var v := Number(tok);
    if v.Some? then Ok(Constant(v.value, None))
    else if IsRegisterText(tok) then Ok(Register(tok))
    else Err(ParseFailure)
  }

  function ParseVarnode(text: string): Result<Varnode, PcodeError>
    decreases |text|
  {
    var tok := Trim(text);
    var ram := Within(tok, "ram[", ']');
    if ram.Some? then
      var inner := ParseVarnode(ram.value);
      if inner.Err? then inner else Ok(Ram(inner.value))
    else
      var code := Within(tok, "qword_ptr(", ')');
      if code.Some? then ParseCodeAddr(code.value)
      else
        var space := Within(tok, "(", ')');
        if space.Some? then ParseSpace(space.value) else ParseAtom(tok)
  }

  /** The non-empty parts of a list, each a varnode; the first failure is the list's. */
  function ParseParts(parts: seq<string>): Result<seq<Varnode>, PcodeError> {
    if parts == [] then Ok([])
    else if Trim(parts[0]) == [] then ParseParts(parts[1..])
    else
      var v := ParseVarnode(Trim(parts[0]));
      if v.Err? then Err(v.error) else
      var rest := ParseParts(parts[1..]);
      if rest.Err? then rest else Ok([v.value] + rest.value)
  }

  function ParseInputList(s: string): Result<seq<Varnode>, PcodeError> {
    ParseParts(SplitList(s, 0))
  }

  /** An opcode with the inputs that follow it. */
  function ParseCall(s: string, out: Option<Varnode>): Result<PcodeOp, PcodeError> {
    var w := FirstWord(s);
    if w.1.None? then Ok(PcodeOp(out, w.0, [])) else
    var inputs := ParseInputList(Trim(w.1.value));
    if inputs.Err? then Err(inputs.error) else Ok(PcodeOp(out, w.0, inputs.value))
  }

  function ParseStore(rest: string): Result<PcodeOp, PcodeError> {
    var parts := SplitOnce(rest, " = ");
    if parts.None? then Err(ParseFailure) else
    var addr := ParseVarnode(Trim(parts.value.0));
    if addr.Err? then Err(addr.error) else
    var value := ParseVarnode(Trim(parts.value.1));
    if value.Err? then Err(value.error) else Ok(PcodeOp(None, "STORE", [addr.value, value.value]))
  }

  predicate IsOpcodeText(s: string) {
    forall k :: 0 <= k < |s| ==> 'A' <= s[k] <= 'Z' || s[k] == '_'
  }

  function ParseOpLine(line: string): Result<PcodeOp, PcodeError> {
    var store := StripPrefix(line, "STORE ");
    if store.Some? then ParseStore(store.value) else
    var parts := SplitAssignment(line, 0);
    if parts.Some? then
      var out := ParseVarnode(Trim(parts.value.0));
      if out.Err? then Err(out.error) else ParseCall(Trim(parts.value.1), Some(out.value))
    else if !IsOpcodeText(FirstWord(line).0) then Err(ParseFailure)
    else ParseCall(line, None)
  }

  function ParseHeader(line: string): Option<nat> {
    var parts := SplitOnce(line, ":");
    if parts.None? then None else
    var hex := StripPrefix(Trim(parts.value.0), "0x");
    if hex.None? then None else Numeral(hex.value, 16, U64)
  }

  function LineLen(s: string): (n: nat)
    ensures n <= |s|
  {
    if s == [] || s[0] == '\n' then 0 else 1 + LineLen(s[1..])
  }

  /** The lines of a text; a final line feed opens no further line. */
  function Lines(s: string): seq<string>
    decreases |s|
  {
    if s == [] then [] else
    var n := LineLen(s);
    [s[..n]] + if n == |s| then [] else Lines(s[n + 1..])
  }

  /** What one line does to the instructions read so far. */
  function ParseLine(done: seq<PcodeInsn>, raw: string): Result<seq<PcodeInsn>, PcodeError> {
    var line := TrimEnd(raw);
    if line == [] then Ok(done)
    else if IsSpace(line[0]) then
      var op := ParseOpLine(Trim(line));
      if op.Err? then Err(op.error)
      else if done == [] then Err(ParseFailure)
      else
        var n := |done| - 1;
        Ok(done[..n] + [PcodeInsn(done[n].address, done[n].ops + [op.value])])
    else
      var addr := ParseHeader(line);
      if addr.None? then Ok(done) else Ok(done + [PcodeInsn(addr.value, [])])
  }

  function ParseLines(lines: seq<string>): Result<seq<PcodeInsn>, PcodeError> {
    if lines == [] then Ok([]) else
    var head := ParseLines(lines[..|lines| - 1]);
    if head.Err? then head else ParseLine(head.value, lines[|lines| - 1])
  }

  function ParsePcode(text: string): Result<seq<PcodeInsn>, PcodeError> {
    ParseLines(Lines(text))
  }
}
