/** Parsing the printed form of a P-code listing gives the listing back. */
module PcodeRoundTrip {
  import opened Bits
  import opened Common
  import opened PcodeText
  import opened Pcode
  import opened PcodeParse
  import opened PcodePrint

  // ---- Operand lists ----

  /** The pieces the list splitter finds: all but the first keep the space after the comma. */
  function Pieces(lead: string, vs: seq<Varnode>): seq<string>
    decreases |vs|
  {
    if vs == [] then [] else [lead + PrintVarnode(vs[0])] + Pieces(" ", vs[1..])
  }

  lemma LeadIsBalanced(lead: string, v: Varnode)
    requires (lead == "" || lead == " ") && Printable(v)
    ensures NotOutside(lead + PrintVarnode(v), 0, ',') && DepthAfter(lead + PrintVarnode(v), 0) == 0
  {
    PrintedIsBalanced(v, 0, ',');
    Flat(lead, 0, ',');
    DepthConcat(lead, PrintVarnode(v), 0, ',');
  }

  /** The splitter cuts a printed list exactly between its varnodes. */
  lemma {:induction false} SplitPrintedList(lead: string, vs: seq<Varnode>)
    requires (lead == "" || lead == " ") && vs != [] && AllPrintable(vs)
    ensures SplitList(lead + PrintList(vs), 0) == Pieces(lead, vs)
    decreases |vs|
  {
    var v := vs[0];
    var a := lead + PrintVarnode(v);
    LeadIsBalanced(lead, v);
    hide PrintVarnode, Printable, NotOutside, DepthAfter, SplitList;
    if |vs| == 1 {
      SplitListAt(a, [], 0);
      assert a + [] == lead + PrintList(vs);
      assert Pieces(" ", vs[1..]) == [];
    } else {
      SplitPrintedList(" ", vs[1..]);
      SplitOff(lead, PrintVarnode(v), PrintList(vs[1..]));
    }
  }

  lemma SplitOff(lead: string, x: string, rest: string)
    requires NotOutside(lead + x, 0, ',') && DepthAfter(lead + x, 0) == 0
    ensures SplitList(lead + (x + (", " + rest)), 0) == [lead + x] + SplitList(" " + rest, 0)
  {
    hide SplitList, NotOutside, DepthAfter;
    var tail := ", " + rest;
    SplitListAt(lead + x, tail, 0);
    assert tail[1..] == " " + rest;
    assert lead + x + tail == lead + (x + tail);
  }

  lemma TrimLead(lead: string, v: Varnode)
    requires (lead == "" || lead == " ") && Printable(v)
    ensures Trim(lead + PrintVarnode(v)) == PrintVarnode(v) && PrintVarnode(v) != []
  {
    PrintedIsClean(v);
    assert AllSpace(lead);
    hide Trim, PrintVarnode, IsSpace;
    TrimOf(lead, PrintVarnode(v), []);
    assert lead + PrintVarnode(v) + [] == lead + PrintVarnode(v);
  }

  lemma {:induction false} ParsePieces(lead: string, vs: seq<Varnode>)
    requires (lead == "" || lead == " ") && AllPrintable(vs)
    ensures ParseParts(Pieces(lead, vs)) == Ok(vs)
    decreases |vs|
  {
    hide Trim, ParseVarnode, PrintVarnode, Printable;
    if vs != [] {
      TrimLead(lead, vs[0]);
      ParsePrinted(vs[0]);
      ParsePieces(" ", vs[1..]);
      var ps := Pieces(lead, vs);
      assert ps[0] == lead + PrintVarnode(vs[0]) && ps[1..] == Pieces(" ", vs[1..]);
      assert [vs[0]] + vs[1..] == vs;
    }
  }

  lemma {:induction false} PrintedListChars(vs: seq<Varnode>)
    requires vs != [] && AllPrintable(vs)
    ensures var s := PrintList(vs); s != [] && Clean(s) && '=' !in s && '\n' !in s
    decreases |vs|
  {
    PrintedIsClean(vs[0]);
    if |vs| > 1 {
      PrintedListChars(vs[1..]);
    }
    hide PrintVarnode, IsSpace;
  }

  lemma ParsePrintedList(vs: seq<Varnode>)
    requires vs != [] && AllPrintable(vs)
    ensures ParseInputList(Trim(PrintList(vs))) == Ok(vs)
  {
    PrintedListChars(vs);
    TrimClean(PrintList(vs));
    hide Trim;
    SplitPrintedList("", vs);
    assert "" + PrintList(vs) == PrintList(vs);
    ParsePieces("", vs);
  }

  // ---- Operations ----

  lemma CallShape(opcode: string, inputs: seq<Varnode>)
    requires opcode != [] && NoSpace(opcode) && AllPrintable(inputs)
    ensures Clean(PrintCall(opcode, inputs))
    ensures FirstWord(PrintCall(opcode, inputs)) == (opcode, if inputs == [] then None else Some(PrintList(inputs)))
    ensures '\n' !in opcode ==> '\n' !in PrintCall(opcode, inputs)
    ensures '=' !in opcode ==> '=' !in PrintCall(opcode, inputs)
  {
    var rest := if inputs == [] then [] else " " + PrintList(inputs);
    if inputs != [] {
      PrintedListChars(inputs);
      assert rest[1..] == PrintList(inputs);
    }
    FirstWordOf(opcode, rest);
    hide PrintList, FirstWord;
    assert PrintCall(opcode, inputs) == opcode + rest;
  }

  lemma NewlineIsSpace(s: string)
    requires NoSpace(s)
    ensures '\n' !in s && ' ' !in s
  {
    assert IsSpace('\n') && IsSpace(' ');
  }

  lemma CallParses(opcode: string, inputs: seq<Varnode>, out: Option<Varnode>)
    requires opcode != [] && NoSpace(opcode) && AllPrintable(inputs)
    ensures ParseCall(PrintCall(opcode, inputs), out) == Ok(PcodeOp(out, opcode, inputs))
  {
    CallShape(opcode, inputs);
    if inputs != [] {
      ParsePrintedList(inputs);
    }
    hide PrintCall, FirstWord, PrintList, ParseInputList, Trim;
  }

  lemma StoreParses(op: PcodeOp)
    requires IsStore(op) && AllPrintable(op.inputs)
    ensures ParseOpLine(PrintOp(op)) == Ok(op)
  {
    hide PrintVarnode, Printable, ParseVarnode, Clean, StripPrefix, ParseStore, ParseCall, SplitAssignment;
    var x, y := PrintVarnode(op.inputs[0]), PrintVarnode(op.inputs[1]);
    OperandParses(op.inputs[0]);
    OperandParses(op.inputs[1]);
    PrefixOf("STORE ", x + (" = " + y));
    StoreOperands(x, y, op.inputs[0], op.inputs[1]);
    assert op.inputs == [op.inputs[0], op.inputs[1]];
  }

  lemma OperandParses(vn: Varnode)
    requires Printable(vn)
    ensures var x := PrintVarnode(vn); Clean(x) && ' ' !in x && ParseVarnode(x) == Ok(vn)
  {
    PrintedIsClean(vn);
    ParsePrinted(vn);
    hide PrintVarnode, Printable, ParseVarnode, Clean, NoSpace;
    NewlineIsSpace(PrintVarnode(vn));
  }

  lemma StoreOperands(x: string, y: string, p: Varnode, q: Varnode)
    requires Clean(x) && Clean(y) && ' ' !in x && ParseVarnode(x) == Ok(p) && ParseVarnode(y) == Ok(q)
    ensures ParseStore(x + (" = " + y)) == Ok(PcodeOp(None, "STORE", [p, q]))
  {
    hide ParseVarnode, Clean, Trim, SplitOnce;
    TrimClean(x);
    TrimClean(y);
    SplitOnceAt(x, " = ", y);
  }

  /** A line that starts with the word before a store's space is that word and a space. */
  lemma StoreWord(line: string)
    ensures StripPrefix(line, "STORE ").Some? ==> FirstWord(line).0 == "STORE"
  {
    if StripPrefix(line, "STORE ").Some? {
      var rest := line[6..];
      assert line == "STORE" + (" " + rest);
      assert IsSpace(' ');
      assert NoSpace("STORE");
      FirstWordOf("STORE", " " + rest);
    }
  }

  lemma OutIsNoStore(v: Varnode)
    requires Printable(v) && v != Register("STORE")
    ensures PrintVarnode(v) != "STORE"
  {
    if v.Constant? && v.width.None? {
      assert PrintVarnode(v)[0] == '0';
    } else if !v.Register? {
      assert PrintVarnode(v)[0] == '(' || PrintVarnode(v)[0] == 'r' || PrintVarnode(v)[0] == 'q';
    }
  }

  lemma AssignmentParses(op: PcodeOp)
    requires PrintableOp(op) && op.out.Some?
    ensures ParseOpLine(PrintOp(op)) == Ok(op)
  {
    var o := op.out.value;
    var x, y := PrintVarnode(o), PrintCall(op.opcode, op.inputs);
    PrintedIsClean(o);
    PrintedIsBalanced(o, 0, ' ');
    OutIsNoStore(o);
    ParsePrinted(o);
    CallShape(op.opcode, op.inputs);
    CallParses(op.opcode, op.inputs, Some(o));
    TrimClean(x);
    TrimClean(y);
    assert IsSpace(' ');
    hide PrintVarnode, Printable, ParseVarnode, Clean, PrintCall, NotOutside, DepthAfter, ParseCall, Trim, AllPrintable;
    FirstWordOf(x, " = " + y);
    StoreWord(x + (" = " + y));
    hide NoSpace, FirstWord, StripPrefix;
    SplitAssignmentAt(x, y, 0);
  }

  lemma FlowParses(op: PcodeOp)
    requires PrintableOp(op) && op.out.None? && !IsStore(op)
    ensures ParseOpLine(PrintOp(op)) == Ok(op)
  {
    assert forall k :: 0 <= k < |op.opcode| ==> !IsSpace(op.opcode[k]) && op.opcode[k] != '=';
    var line := PrintCall(op.opcode, op.inputs);
    CallShape(op.opcode, op.inputs);
    CallParses(op.opcode, op.inputs, None);
    hide PrintCall, Clean, ParseCall, AllPrintable;
    StoreWord(line);
    hide FirstWord, StripPrefix;
    NoAssignment(line, 0);
  }

  /** Parsing the printed form of an operation gives the operation back. */
  lemma OpParses(op: PcodeOp)
    requires PrintableOp(op)
    ensures ParseOpLine(PrintOp(op)) == Ok(op)
  {
    hide ParseOpLine, PrintOp;
    if op.out.Some? {
      AssignmentParses(op);
    } else if IsStore(op) {
      StoreParses(op);
    } else {
      FlowParses(op);
    }
  }

  lemma OpShape(op: PcodeOp)
    requires PrintableOp(op)
    ensures Clean(PrintOp(op)) && '\n' !in PrintOp(op)
  {
    hide PrintVarnode, Printable, PrintCall, IsSpace;
    if IsStore(op) {
      PrintedIsClean(op.inputs[0]);
      PrintedIsClean(op.inputs[1]);
      StoreShape(PrintVarnode(op.inputs[0]), PrintVarnode(op.inputs[1]));
    } else if op.out.Some? {
      PrintedIsClean(op.out.value);
      NewlineIsSpace(op.opcode);
      CallShape(op.opcode, op.inputs);
    } else {
      OpcodeHasNoSpace(op.opcode);
      NewlineIsSpace(op.opcode);
      CallShape(op.opcode, op.inputs);
    }
  }

  lemma StoreShape(x: string, y: string)
    requires Clean(y) && '\n' !in x && '\n' !in y
    ensures Clean("STORE " + (x + (" = " + y))) && '\n' !in "STORE " + (x + (" = " + y))
  {
    assert !IsSpace('S');
    hide IsSpace;
  }

  lemma OpcodeHasNoSpace(s: string)
    requires IsOpcodeText(s)
    ensures NoSpace(s)
  {
  }

  // ---- Lines ----

  lemma {:induction false} LineLenOf(l: string, rest: string)
    requires '\n' !in l
    ensures LineLen(l + ("\n" + rest)) == |l|
    decreases |l|
  {
    var s := l + ("\n" + rest);
    if l == [] {
      assert s == "\n" + rest;
    } else {
      assert s[0] == l[0] && s[1..] == l[1..] + ("\n" + rest);
      LineLenOf(l[1..], rest);
    }
  }

  /** Cutting a text at its line feeds gives its lines back. */
  lemma {:induction false} LinesOfText(lines: seq<string>)
    requires forall k :: 0 <= k < |lines| ==> '\n' !in lines[k]
    ensures Lines(Text(lines)) == lines
    decreases |lines|
  {
    if lines != [] {
      var l, rest := lines[0], Text(lines[1..]);
      LinesOfText(lines[1..]);
      LineLenOf(l, rest);
      hide LineLen;
      var s := l + ("\n" + rest);
      assert s[..|l|] == l && s[|l| + 1..] == rest;
      assert [l] + lines[1..] == lines;
    }
  }

  lemma OpLineParses(done: seq<PcodeInsn>, op: PcodeOp)
    requires PrintableOp(op) && done != []
    ensures var n := |done| - 1;
            ParseLine(done, "    " + PrintOp(op)) == Ok(done[..n] + [PcodeInsn(done[n].address, done[n].ops + [op])])
  {
    OpShape(op);
    OpParses(op);
    var body := PrintOp(op);
    hide PrintOp, ParseOpLine, PrintableOp, Trim, TrimEnd;
    Indented(body);
  }

  lemma Indented(body: string)
    requires Clean(body)
    ensures var l := "    " + body;
            TrimEnd(l) == l && Trim(l) == body && IsSpace(l[0])
  {
    assert AllSpace("    ") && AllSpace([]) && IsSpace(' ');
    hide Trim, TrimEnd, IsSpace;
    var l := "    " + body;
    TrimEndOf(l, []);
    assert l + [] == l;
    TrimOf("    ", body, []);
  }

  /** A header's address survives whatever assembly text follows it. */
  lemma HeaderParses(done: seq<PcodeInsn>, s: Shown)
    requires s.insn.address <= U64
    ensures ParseLine(done, Header(s)) == Ok(done + [PcodeInsn(s.insn.address, [])])
  {
    var hex := Hex(s.insn.address);
    HexChars(s.insn.address);
    RegisterCharsTrim(hex);
    HeaderTrims(hex, s.asm);
    var after := TrimEnd(": " + s.asm)[1..];
    assert TrimEnd(Header(s)) == hex + (":" + after);
    assert hex[0] == '0' && !IsSpace('0');
    assert forall k :: 0 <= k < |hex| ==> IsRegisterChar(hex[k]);
    SplitOnceAt(hex, ":", after);
    HexNumeral(s.insn.address);
    hide Hex, TrimEnd, Trim, SplitOnce, Numeral, StripPrefix;
  }

  lemma HexNumeral(n: nat)
    requires n <= U64
    ensures var h := StripPrefix(Hex(n), "0x"); h.Some? && Numeral(h.value, 16, U64) == Some(n)
  {
    PrefixOf("0x", Digits(n, 16));
    NumeralOfDigits(n, 16, U64);
    hide Digits, StripPrefix, Numeral;
  }

  /** Trimming the end of a header stops at the colon at the latest. */
  lemma HeaderTrims(hex: string, asm: string)
    ensures var t := TrimEnd(": " + asm);
            t != [] && t[0] == ':' && TrimEnd(hex + (": " + asm)) == hex + (":" + t[1..])
  {
    TrimKeeps(":", " " + asm);
    assert ":" + (" " + asm) == ": " + asm;
    var t := TrimEnd(": " + asm);
    TrimKeeps(hex + ":", " " + asm);
    assert hex + ":" + (" " + asm) == hex + (": " + asm);
    var u := TrimEnd(" " + asm);
    assert t == ":" + u && t[1..] == u;
    assert hex + ":" + u == hex + (":" + u);
  }

  lemma {:induction false} TrimKeeps(a: string, b: string)
    requires a != [] && !IsSpace(a[|a| - 1])
    ensures TrimEnd(a + b) == a + TrimEnd(b)
    decreases |b|
  {
    hide IsSpace;
    if b == [] {
      assert a + b == a;
    } else {
      assert (a + b)[..|a + b| - 1] == a + b[..|b| - 1];
      TrimKeeps(a, b[..|b| - 1]);
    }
  }

  lemma ParseLinesAppend(lines: seq<string>, l: string)
    ensures ParseLines(lines).Ok? ==> ParseLines(lines + [l]) == ParseLine(ParseLines(lines).value, l)
  {
    hide ParseLine;
    assert (lines + [l])[..|lines|] == lines;
  }

  /** After a header, each operation line adds its operation. */
  lemma {:induction false} OpLinesParse(lines: seq<string>, done: seq<PcodeInsn>, address: nat, ops: seq<PcodeOp>)
    requires ParseLines(lines) == Ok(done + [PcodeInsn(address, [])])
    requires forall k :: 0 <= k < |ops| ==> PrintableOp(ops[k])
    ensures ParseLines(lines + OpLines(ops)) == Ok(done + [PcodeInsn(address, ops)])
    decreases |ops|
  {
    hide PrintableOp, ParseLine, PrintOp;
    if ops == [] {
      assert lines + OpLines(ops) == lines;
    } else {
      var rest, op := ops[..|ops| - 1], ops[|ops| - 1];
      OpLinesParse(lines, done, address, rest);
      hide ParseLines;
      var l := "    " + PrintOp(op);
      assert lines + OpLines(ops) == (lines + OpLines(rest)) + [l];
      ParseLinesAppend(lines + OpLines(rest), l);
      var now := done + [PcodeInsn(address, rest)];
      OpLineParses(now, op);
      assert now[..|now| - 1] == done && rest + [op] == ops;
    }
  }

  lemma {:induction false} ListingParses(list: seq<Shown>)
    requires forall k :: 0 <= k < |list| ==> PrintableShown(list[k])
    ensures ParseLines(ListingLines(list)) == Ok(InsnsOf(list))
    decreases |list|
  {
    hide ParseLine, Header, OpLines, PrintableOp;
    if list != [] {
      var rest, s := list[..|list| - 1], list[|list| - 1];
      ListingParses(rest);
      hide ParseLines;
      var lines := ListingLines(rest);
      HeaderParses(InsnsOf(rest), s);
      ParseLinesAppend(lines, Header(s));
      OpLinesParse(lines + [Header(s)], InsnsOf(rest), s.insn.address, s.insn.ops);
      assert PcodeInsn(s.insn.address, s.insn.ops) == s.insn;
    }
  }

  lemma HeaderHasNoNewline(s: Shown)
    requires PrintableShown(s)
    ensures '\n' !in Header(s)
  {
    HexChars(s.insn.address);
    hide Hex;
    var hex := Hex(s.insn.address);
    assert forall k :: 0 <= k < |hex| ==> IsRegisterChar(hex[k]);
  }

  lemma {:induction false} OpLinesHaveNoNewline(ops: seq<PcodeOp>)
    requires forall k :: 0 <= k < |ops| ==> PrintableOp(ops[k])
    ensures forall k :: 0 <= k < |OpLines(ops)| ==> '\n' !in OpLines(ops)[k]
    decreases |ops|
  {
    hide PrintableOp, PrintOp;
    if ops != [] {
      OpLinesHaveNoNewline(ops[..|ops| - 1]);
      OpShape(ops[|ops| - 1]);
    }
  }

  lemma {:induction false} LinesHaveNoNewline(list: seq<Shown>)
    requires forall k :: 0 <= k < |list| ==> PrintableShown(list[k])
    ensures forall k :: 0 <= k < |ListingLines(list)| ==> '\n' !in ListingLines(list)[k]
    decreases |list|
  {
    hide Header, OpLines, PrintableOp;
    if list != [] {
      LinesHaveNoNewline(list[..|list| - 1]);
      HeaderHasNoNewline(list[|list| - 1]);
      OpLinesHaveNoNewline(list[|list| - 1].insn.ops);
    }
  }

  /** Parsing the printed form of any printable listing, whatever assembly text its headers
      show, returns the same instructions. */
  lemma PrintedListingParses(list: seq<Shown>)
    requires forall k :: 0 <= k < |list| ==> PrintableShown(list[k])
    ensures ParsePcode(PrintListing(list)) == Ok(InsnsOf(list))
  {
    LinesHaveNoNewline(list);
    ListingParses(list);
    hide PrintableShown;
    LinesOfText(ListingLines(list));
  }
}
