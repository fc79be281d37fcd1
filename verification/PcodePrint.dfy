/** The printed form of a P-code listing, and parsing it back. */
module PcodePrint {
  import opened Bits
  import opened Common
  import opened PcodeText
  import opened Pcode
  import opened PcodeParse

  // ---- The printed form ----

  function PrintVarnode(v: Varnode): string {
    match v
    case Register(r) => r
    case UniqueSpace(offset, size) => "(" + ("unique" + ("," + (Hex(offset) + ("," + Digits(size, 10))))) + ")"
    case Constant(value, None) => Hex(value)
    case Constant(value, Some(size)) => "(" + ("const" + ("," + (Hex(value) + ("," + Digits(size, 10))))) + ")"
    case Ram(inner) => "ram[" + PrintVarnode(inner) + "]"
    case CodeAddr(address) => "qword_ptr(" + Hex(address) + ")"
  }

  function PrintList(vs: seq<Varnode>): string
    requires vs != []
  {
    if |vs| == 1 then PrintVarnode(vs[0]) else PrintVarnode(vs[0]) + (", " + PrintList(vs[1..]))
  }

  function PrintCall(opcode: string, inputs: seq<Varnode>): string {
    opcode + if inputs == [] then [] else " " + PrintList(inputs)
  }

  predicate IsStore(op: PcodeOp) {
    op.out.None? && op.opcode == "STORE" && |op.inputs| == 2
  }

  function PrintOp(op: PcodeOp): string {
    if IsStore(op) then "STORE " + (PrintVarnode(op.inputs[0]) + (" = " + PrintVarnode(op.inputs[1])))
    else if op.out.Some? then PrintVarnode(op.out.value) + (" = " + PrintCall(op.opcode, op.inputs))
    else PrintCall(op.opcode, op.inputs)
  }

  function OpLines(ops: seq<PcodeOp>): seq<string> {
    if ops == [] then [] else OpLines(ops[..|ops| - 1]) + ["    " + PrintOp(ops[|ops| - 1])]
  }

  /** An instruction beside the assembly text its header shows. */
  datatype Shown = Shown(insn: PcodeInsn, asm: string)

  function Header(s: Shown): string {
    Hex(s.insn.address) + (": " + s.asm)
  }

  function ListingLines(list: seq<Shown>): seq<string> {
    if list == [] then [] else
      var s := list[|list| - 1];
      ListingLines(list[..|list| - 1]) + [Header(s)] + OpLines(s.insn.ops)
  }

  function Text(lines: seq<string>): string {
    if lines == [] then [] else lines[0] + ("\n" + Text(lines[1..]))
  }

  function PrintListing(list: seq<Shown>): string {
    Text(ListingLines(list))
  }

  function InsnsOf(list: seq<Shown>): seq<PcodeInsn> {
    if list == [] then [] else InsnsOf(list[..|list| - 1]) + [list[|list| - 1].insn]
  }

  // ---- What has a printed form of its own ----

  /** A register's text is no numeral; widths and values fit their fields. */
  predicate Printable(v: Varnode) {
    match v
    case Register(r) => IsRegisterText(r) && Number(r) == None
    case UniqueSpace(offset, size) => offset <= U64 && size <= 255
    case Constant(value, None) => value <= U64
    case Constant(value, Some(size)) => value <= U64 && size <= 255
    case Ram(inner) => Printable(inner)
    case CodeAddr(address) => address <= U64
  }

  ghost predicate AllPrintable(vs: seq<Varnode>) {
    forall k :: 0 <= k < |vs| ==> Printable(vs[k])
  }

  /** An operation the listing format can say: a store, an assignment, or control flow. */
  ghost predicate PrintableOp(op: PcodeOp) {
    && AllPrintable(op.inputs)
    && match op.out
       case Some(o) => Printable(o) && o != Register("STORE") && op.opcode != [] && NoSpace(op.opcode)
       case None => IsStore(op) || (op.opcode != [] && op.opcode != "STORE" && IsOpcodeText(op.opcode))
  }

  ghost predicate PrintableShown(s: Shown) {
    && s.insn.address <= U64 && '\n' !in s.asm
    && forall k :: 0 <= k < |s.insn.ops| ==> PrintableOp(s.insn.ops[k])
  }

  // ---- The characters of a printed varnode ----

  predicate IsPrintChar(c: char) {
    IsRegisterChar(c) || IsBracket(c) || c == ','
  }

  ghost predicate PrintChars(s: string) {
    forall k :: 0 <= k < |s| ==> IsPrintChar(s[k])
  }

  ghost predicate RegisterChars(s: string) {
    forall k :: 0 <= k < |s| ==> IsRegisterChar(s[k])
  }

  lemma HexChars(n: nat)
    ensures RegisterChars(Hex(n)) && |Hex(n)| >= 3
  {
    DigitsAreDigits(n, 16);
  }

  lemma DecimalChars(n: nat)
    ensures RegisterChars(Digits(n, 10))
  {
    DigitsAreDigits(n, 10);
  }

  /** The inside of a parenthesised varnode. */
  function Triple(space: string, offset: nat, size: nat): string {
    space + ("," + (Hex(offset) + ("," + Digits(size, 10))))
  }

  lemma TripleChars(space: string, offset: nat, size: nat)
    requires RegisterChars(space)
    ensures forall k :: 0 <= k < |Triple(space, offset, size)| ==> IsRegisterChar(Triple(space, offset, size)[k]) || Triple(space, offset, size)[k] == ','
  {
    HexChars(offset);
    DecimalChars(size);
    hide Hex, Digits, IsRegisterChar;
  }

  lemma {:induction false} PrintedChars(v: Varnode)
    requires Printable(v)
    ensures PrintVarnode(v) != [] && PrintChars(PrintVarnode(v))
    decreases v
  {
    match v
    case Register(_) =>
    case UniqueSpace(offset, size) =>
      TripleChars("unique", offset, size);
      assert PrintVarnode(v) == "(" + Triple("unique", offset, size) + ")";
      hide Hex, Digits, Triple;
    case Constant(value, None) => HexChars(value);
    case Constant(value, Some(size)) =>
      TripleChars("const", value, size);
      assert PrintVarnode(v) == "(" + Triple("const", value, size) + ")";
      hide Hex, Digits, Triple;
    case Ram(inner) => PrintedChars(inner);
    case CodeAddr(address) =>
      HexChars(address);
      hide Hex;
  }

  lemma PrintCharsHaveNoSpace(s: string)
    requires PrintChars(s)
    ensures NoSpace(s) && '=' !in s && '\n' !in s && ' ' !in s
  {
  }

  lemma PrintedIsClean(v: Varnode)
    requires Printable(v)
    ensures Clean(PrintVarnode(v)) && NoSpace(PrintVarnode(v)) && '=' !in PrintVarnode(v) && '\n' !in PrintVarnode(v)
  {
    PrintedChars(v);
    PrintCharsHaveNoSpace(PrintVarnode(v));
  }

  // ---- The brackets of a printed varnode ----

  lemma OneChar(x: char, d: int, c: char)
    ensures DepthAfter([x], d) == Depth(x, d)
    ensures NotOutside([x], d, c) <==> x != c || d != 0
  {
    assert [x][1..] == [];
    assert DepthAfter([], Depth(x, d)) == Depth(x, d) && NotOutside([], Depth(x, d), c);
  }

  lemma Wrapped(p: string, o: char, s: string, e: char, d: nat, c: char)
    requires (forall k :: 0 <= k < |p| ==> !IsBracket(p[k])) && c !in p
    requires (o == '(' || o == '[') && (e == ')' || e == ']') && !IsBracket(c)
    requires NotOutside(s, d + 1, c) && DepthAfter(s, d + 1) == d + 1
    ensures NotOutside(p + [o] + s + [e], d, c) && DepthAfter(p + [o] + s + [e], d) == d
  {
    Flat(p, d, c);
    OneChar(o, d, c);
    OneChar(e, d + 1, c);
    hide NotOutside, DepthAfter, IsBracket;
    DepthConcat(p, [o], d, c);
    DepthConcat(p + [o], s, d, c);
    DepthConcat(p + [o] + s, [e], d, c);
  }

  lemma FlatIsBalanced(s: string, d: nat, c: char)
    requires RegisterChars(s) && (c == ',' || c == ' ')
    ensures NotOutside(s, d, c) && DepthAfter(s, d) == d
  {
    Flat(s, d, c);
  }

  lemma TripleIsBalanced(space: string, offset: nat, size: nat, d: nat, c: char)
    requires RegisterChars(space) && (c == ',' || c == ' ')
    ensures NotOutside("(" + Triple(space, offset, size) + ")", d, c) && DepthAfter("(" + Triple(space, offset, size) + ")", d) == d
  {
    TripleChars(space, offset, size);
    var s := Triple(space, offset, size);
    hide Triple;
    Flat(s, d + 1, c);
    hide NotOutside, DepthAfter;
    Wrapped([], '(', s, ')', d, c);
    assert [] + ['('] + s + [')'] == "(" + s + ")";
  }

  /** A printed varnode closes every bracket it opens and keeps commas and spaces inside them. */
  lemma {:induction false} PrintedIsBalanced(v: Varnode, d: nat, c: char)
    requires Printable(v) && (c == ',' || c == ' ')
    ensures NotOutside(PrintVarnode(v), d, c) && DepthAfter(PrintVarnode(v), d) == d
    decreases v
  {
    hide NotOutside, DepthAfter, Hex, Digits;
    match v
    case Register(r) => FlatIsBalanced(r, d, c);
    case UniqueSpace(offset, size) => TripleIsBalanced("unique", offset, size, d, c);
    case Constant(value, None) =>
      HexChars(value);
      FlatIsBalanced(Hex(value), d, c);
    case Constant(value, Some(size)) => TripleIsBalanced("const", value, size, d, c);
    case Ram(inner) =>
      PrintedIsBalanced(inner, d + 1, c);
      Wrapped("ram", '[', PrintVarnode(inner), ']', d, c);
      assert "ram" + ['['] == "ram[";
    case CodeAddr(address) =>
      HexChars(address);
      FlatIsBalanced(Hex(address), d + 1, c);
      Wrapped("qword_ptr", '(', Hex(address), ')', d, c);
      assert "qword_ptr" + ['('] == "qword_ptr(";
  }

  // ---- One varnode ----

  lemma WithinOf(open: string, s: string, close: char)
    ensures Within(open + s + [close], open, close) == Some(s)
  {
    assert open + s + [close] == open + (s + [close]);
    PrefixOf(open, s + [close]);
    SuffixOf(s, close);
  }

  lemma {:induction false} FieldsAt(a: string, rest: string)
    requires ',' !in a
    ensures Fields(a + ("," + rest)) == [a] + Fields(rest)
    decreases |a|
  {
    var s := a + ("," + rest);
    if a == [] {
      assert s == "," + rest && s[1..] == rest;
    } else {
      assert s[0] == a[0] && s[1..] == a[1..] + ("," + rest);
      FieldsAt(a[1..], rest);
      assert [a[0]] + a[1..] == a;
    }
  }

  lemma {:induction false} FieldsLast(a: string)
    requires ',' !in a
    ensures Fields(a) == [a]
    decreases |a|
  {
    if a != [] {
      FieldsLast(a[1..]);
      assert [a[0]] + a[1..] == a;
    }
  }

  lemma RegisterCharsTrim(s: string)
    requires RegisterChars(s) && s != []
    ensures Trim(s) == s && ',' !in s
  {
    assert Clean(s);
    hide Trim;
    TrimClean(s);
  }

  lemma TripleParses(space: string, offset: nat, size: nat)
    requires RegisterChars(space) && space != [] && offset <= U64 && size <= 255
    ensures var f := Fields(Triple(space, offset, size));
            && FieldAt(f, 0) == space && Number(FieldAt(f, 1)) == Some(offset) && Numeral(FieldAt(f, 2), 10, 255) == Some(size)
  {
    HexChars(offset);
    DecimalChars(size);
    NumberOfHex(offset);
    NumeralOfDigits(size, 10, 255);
    hide Hex, Digits, Number, Numeral, Trim;
    RegisterCharsTrim(space);
    RegisterCharsTrim(Hex(offset));
    RegisterCharsTrim(Digits(size, 10));
    hide RegisterChars, Fields;
    FieldsAt(space, Hex(offset) + ("," + Digits(size, 10)));
    FieldsAt(Hex(offset), Digits(size, 10));
    FieldsLast(Digits(size, 10));
  }

  lemma NoWithin(tok: string, open: string, close: char)
    requires open != [] && (tok == [] || tok[0] != open[0] || tok[|tok| - 1] != close)
    ensures Within(tok, open, close) == None
  {
    if |open| <= |tok| && tok[..|open|] == open {
      assert tok[..|open|][0] == tok[0];
      var rest := tok[|open|..];
      assert rest != [] ==> rest[|rest| - 1] == tok[|tok| - 1];
    }
  }

  lemma {:induction false} ParsePrinted(v: Varnode)
    requires Printable(v)
    ensures ParseVarnode(PrintVarnode(v)) == Ok(v)
    decreases v
  {
    PrintedIsClean(v);
    TrimClean(PrintVarnode(v));
    hide Trim, Clean, NoSpace, Hex, Digits, Number, Numeral, Within, IsRegisterText, ParseSpace, ParseCodeAddr, ParseAtom;
    match v
    case Register(r) => AtomParses(r);
    case UniqueSpace(offset, size) => SpaceParses("unique", offset, size);
    case Constant(value, None) =>
      HexChars(value);
      AtomParses(Hex(value));
      NumberOfHex(value);
      hide ParseVarnode;
      ConstantAtom(value);
    case Constant(value, Some(size)) => SpaceParses("const", value, size);
    case Ram(inner) =>
      ParsePrinted(inner);
      WithinOf("ram[", PrintVarnode(inner), ']');
    case CodeAddr(address) => CodeAddrParses(address);
  }

  lemma ConstantAtom(value: nat)
    requires value <= U64
    ensures ParseAtom(Hex(value)) == Ok(Constant(value, None))
  {
    NumberOfHex(value);
    hide Hex, Number;
  }

  lemma AtomParses(s: string)
    requires RegisterChars(s) && s != []
    ensures ParseVarnode(s) == ParseAtom(s)
    ensures IsRegisterText(s) && Number(s) == None ==> ParseAtom(s) == Ok(Register(s))
  {
    RegisterCharsTrim(s);
    assert IsRegisterChar(s[|s| - 1]) && IsRegisterChar(s[0]);
    NoWithin(s, "ram[", ']');
    NoWithin(s, "qword_ptr(", ')');
    NoWithin(s, "(", ')');
    hide Trim, Within, Number, IsRegisterText;
  }

  lemma SpaceParses(space: string, offset: nat, size: nat)
    requires space == "unique" || space == "const"
    requires offset <= U64 && size <= 255
    requires Trim("(" + Triple(space, offset, size) + ")") == "(" + Triple(space, offset, size) + ")"
    ensures ParseVarnode("(" + Triple(space, offset, size) + ")") == Ok(if space == "unique" then UniqueSpace(offset, size) else Constant(offset, Some(size)))
  {
    TripleParses(space, offset, size);
    var s := Triple(space, offset, size);
    hide Triple, Trim, Fields, FieldAt, Number, Numeral;
    var tok := "(" + s + ")";
    NoWithin(tok, "ram[", ']');
    NoWithin(tok, "qword_ptr(", ')');
    WithinOf("(", s, ')');
    hide Within;
  }

  lemma CodeAddrParses(address: nat)
    requires address <= U64 && Trim("qword_ptr(" + Hex(address) + ")") == "qword_ptr(" + Hex(address) + ")"
    ensures ParseVarnode("qword_ptr(" + Hex(address) + ")") == Ok(CodeAddr(address))
  {
    HexChars(address);
    RegisterCharsTrim(Hex(address));
    PrefixOf("0x", Digits(address, 16));
    NumeralOfDigits(address, 16, U64);
    assert StripPrefix(Hex(address), "0x") == Some(Digits(address, 16));
    hide Hex, Digits, Trim, StripPrefix, Numeral;
    var tok := "qword_ptr(" + Hex(address) + ")";
    NoWithin(tok, "ram[", ']');
    WithinOf("qword_ptr(", Hex(address), ')');
    hide Within;
  }
}
