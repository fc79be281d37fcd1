/** A lowering as the memo key prints it: the derived debug text of its statements. Lowerings
    print alike exactly when they are alike, and the text moved to another address is that of
    the lowering with its temporaries renamed. */
module LoweringText {
  import opened Ir
  import opened Ssa
  import opened Layouts
  import opened Namespace
  import opened TempNames
  import opened DebugText
  import opened EquivRename
  import PcodeText

  // ---- How names are spelled ----

  function Numeral(n: nat): string {
    PcodeText.Digits(n, 10)
  }

  function Numbered(head: string, n: nat): string {
    head + ("_" + Numeral(n))
  }

  /** The spelling of the names a lifter writes. */
  function NameText(x: Name): string {
    match x
    case Plain(text) => text
    case Temp(prefix, index) => Numbered("__esil_" + prefix, index)
    case Unique(offset, size) => Numbered("u_" + PcodeText.Digits(offset, 16), size)
    case _ => ""
  }

  /** A text that names no temporary: none has the empty address. */
  predicate Quiet(t: string) {
    AllPlain(t) && OneAddress(t, "")
  }

  /** A temporary of the mnemonic lifter. */
  ghost predicate IsTempName(x: Name) {
    x.Plain? && AllWord(x.text) && IsTemp(x.text)
  }

  /** A temporary, a name of one of the two spellings kept apart here, or one that is spelled
      like none of these. */
  ghost predicate Spellable(x: Name) {
    match x
    case Plain(text) => IsTempName(x) || (Quiet(text) && forall y: Name {:trigger NameText(y)} :: y.Temp? || y.Unique? ==> NameText(y) != text)
    case Temp(prefix, _) => AllWord(prefix)
    case Unique(_, _) => true
    case _ => false
  }

  // ---- Statements as values ----

  function Field(name: string, s: Shape, rest: Kids): Kids {
    More(name, s, rest)
  }

  function Item(s: Shape, rest: Kids): Kids {
    More("", s, rest)
  }

  function Num(n: nat): (s: Shape)
    ensures s.Unit?
  {
    Unit(Numeral(n))
  }

  function RoundingName(rm: Rounding): string {
    match rm
    case NearestTiesEven => "NearestTiesEven"
    case NearestTiesAway => "NearestTiesAway"
    case TowardPositive => "TowardPositive"
    case TowardNegative => "TowardNegative"
    case TowardZero => "TowardZero"
  }

  function Mode(rm: Rounding): (s: Shape)
    ensures s.Unit?
  {
    Unit(RoundingName(rm))
  }

  function VarShape(v: Var): Shape {
    Record("Var", Field("name", Text(NameText(v.name)), Field("bits", Num(v.bits), End)))
  }

  function UnName(op: UnOp): string {
    match op
    case BoolNot => "BoolNot"
    case Extract(_, _) => "Extract"
    case ZeroExtend(_) => "ZeroExtend"
    case SignExtend(_) => "SignExtend"
    case FIsNaN => "FIsNaN"
    case FSqrt(_) => "FSqrt"
    case FRoundToIntegral(_) => "FRoundToIntegral"
    case BvToFp(_, _) => "BvToFp"
    case FpToIeeeBv => "FpToIeeeBv"
    case FpToSbv(_, _) => "FpToSbv"
    case SbvToFp(_, _, _) => "SbvToFp"
    case FpToFp(_, _, _) => "FpToFp"
  }

  function Sort(ebits: nat, sbits: nat): Kids {
    Field("ebits", Num(ebits), Field("sbits", Num(sbits), End))
  }

  function UnShape(op: UnOp, x: Shape): Shape {
    match op
    case Extract(hi, lo) => Record(UnName(op), Field("src", x, Field("hi", Num(hi), Field("lo", Num(lo), End))))
    case ZeroExtend(n) => Record(UnName(op), Field("src", x, Field("to_bits", Num(n), End)))
    case SignExtend(n) => Record(UnName(op), Field("src", x, Field("to_bits", Num(n), End)))
    case FSqrt(rm) => Tuple(UnName(op), Item(x, Item(Mode(rm), End)))
    case FRoundToIntegral(rm) => Tuple(UnName(op), Item(x, Item(Mode(rm), End)))
    case BvToFp(e, s) => Record(UnName(op), Field("src", x, Sort(e, s)))
    case FpToSbv(rm, bits) => Record(UnName(op), Field("src", x, Field("rm", Mode(rm), Field("bits", Num(bits), End))))
    case SbvToFp(rm, e, s) => Record(UnName(op), Field("src", x, Field("rm", Mode(rm), Sort(e, s))))
    case FpToFp(rm, e, s) => Record(UnName(op), Field("src", x, Field("rm", Mode(rm), Sort(e, s))))
    case _ => Tuple(UnName(op), Item(x, End))
  }

  function BinName(op: BinOp): string {
    match op
    case Add => "Add"
    case Sub => "Sub"
    case Mul => "Mul"
    case UDiv => "UDiv"
    case URem => "URem"
    case SDiv => "SDiv"
    case SRem => "SRem"
    case And => "And"
    case Or => "Or"
    case Xor => "Xor"
    case Shl => "Shl"
    case LShr => "LShr"
    case AShr => "AShr"
    case Ror => "Ror"
    case Eq => "Eq"
    case Ne => "Ne"
    case Ult => "Ult"
    case Ule => "Ule"
    case Slt => "Slt"
    case Sle => "Sle"
    case BoolAnd => "BoolAnd"
    case BoolOr => "BoolOr"
    case Concat => "Concat"
    case FAdd(_) => "FAdd"
    case FSub(_) => "FSub"
    case FMul(_) => "FMul"
    case FDiv(_) => "FDiv"
    case FEq => "FEq"
    case FLt => "FLt"
    case FLe => "FLe"
  }

  function BinShape(op: BinOp, x: Shape, y: Shape): Shape {
    if op.Concat? then Record(BinName(op), Field("high", x, Field("low", y, End)))
    else if op.FAdd? || op.FSub? || op.FMul? || op.FDiv? then Tuple(BinName(op), Item(x, Item(y, Item(Mode(op.rm), End))))
    else Tuple(BinName(op), Item(x, Item(y, End)))
  }

  function ExprShape(e: Expr): (s: Shape)
    ensures s.Tuple? || s.Record?
  {
    match e
    case Ref(v) => Tuple("Var", Item(VarShape(v), End))
    case Const(value, bits) => Record("Const", Field("value", Num(value), Field("bits", Num(bits), End)))
    case FpConst(pattern, ebits, sbits) => Record("FpConst", Field("bits", Num(pattern), Sort(ebits, sbits)))
    case Unknown(hint) => Tuple("Unknown", Item(Text(hint), End))
    case Un(op, a) => UnShape(op, ExprShape(a))
    case Bin(op, a, b) => BinShape(op, ExprShape(a), ExprShape(b))
    case Ite(c, t, e') => Record("Ite", Field("cond", ExprShape(c), Field("then_expr", ExprShape(t), Field("else_expr", ExprShape(e'), End))))
  }

  /** A statement and, for an unsupported one, what it says of itself: no query looks at that. */
  datatype Line = Line(stmt: Stmt, mnemonic: string, comment: string)

  function LineShape(l: Line): Shape {
    match l.stmt
    case Assign(dst, rhs) => Record("Assign", Field("dst", VarShape(dst), Field("src", ExprShape(rhs), End)))
    case LoadMem(dst, address, bits) =>
      Record("LoadMem", Field("dst", VarShape(dst), Field("address", ExprShape(address), Field("bits", Num(bits), End))))
    case StoreMem(address, value, bits) =>
      Record("StoreMem", Field("address", ExprShape(address), Field("value", ExprShape(value), Field("bits", Num(bits), End))))
    case Unsupported => Record("Unsupported", Field("mnemonic", Text(l.mnemonic), Field("comment", Text(l.comment), End)))
    case Nop => Unit("Nop")
  }

  function LineKids(ls: seq<Line>): Kids {
    if ls == [] then End else Item(LineShape(ls[0]), LineKids(ls[1..]))
  }

  /** The text of a lowering. */
  function Printed(ls: seq<Line>): string {
    Show(List(LineKids(ls)), "")
  }

  function Statements(ls: seq<Line>): (ss: seq<Stmt>)
    ensures |ss| == |ls| && forall i :: 0 <= i < |ls| ==> ss[i] == ls[i].stmt
  {
    seq(|ls|, i requires 0 <= i < |ls| => ls[i].stmt)
  }

  // ---- Lowerings whose names and hints print as they are ----

  ghost predicate SpeltExpr(e: Expr) {
    match e
    case Ref(v) => Spellable(v.name)
    case Const(_, _) => true
    case FpConst(_, _, _) => true
    case Unknown(hint) => Quiet(hint)
    case Un(_, a) => SpeltExpr(a)
    case Bin(_, a, b) => SpeltExpr(a) && SpeltExpr(b)
    case Ite(c, t, e') => SpeltExpr(c) && SpeltExpr(t) && SpeltExpr(e')
  }

  ghost predicate SpeltLine(l: Line) {
    match l.stmt
    case Assign(dst, rhs) => Spellable(dst.name) && SpeltExpr(rhs)
    case LoadMem(dst, address, _) => Spellable(dst.name) && SpeltExpr(address)
    case StoreMem(address, value, _) => SpeltExpr(address) && SpeltExpr(value)
    case Unsupported => Quiet(l.mnemonic) && Quiet(l.comment)
    case Nop => true
  }

  /** Every name is spelled in one way, and no hint names a temporary or needs an escape. */
  ghost predicate Spelt(ls: seq<Line>) {
    forall i :: 0 <= i < |ls| ==> SpeltLine(ls[i])
  }

  // ---- One spelling, one name ----

  lemma NumeralParts(n: nat, base: nat)
    requires base == 10 || base == 16
    ensures AllWord(PcodeText.Digits(n, base)) && '_' !in PcodeText.Digits(n, base) && PcodeText.Digits(n, base) != ""
    ensures PcodeText.Digits(n, base)[0] != 't'
  {
    PcodeText.DigitsAreDigits(n, base);
    hide PcodeText.Digits;
    var d := PcodeText.Digits(n, base);
    assert PcodeText.IsDigit(d[0]);
    assert forall k :: 0 <= k < |d| ==> PcodeText.IsDigit(d[k]);
  }

  lemma OneNumeral(n: nat, m: nat, base: nat)
    requires 2 <= base <= 16 && PcodeText.Digits(n, base) == PcodeText.Digits(m, base)
    ensures n == m
  {
    PcodeText.ValueOfDigits(n, base);
    PcodeText.ValueOfDigits(m, base);
  }

  lemma LastUnderscore(a: string, b: string, c: string, d: string)
    requires '_' !in b && '_' !in d && a + ("_" + b) == c + ("_" + d)
    ensures a == c && b == d
  {
    var s := a + ("_" + b);
    assert s[|a|] == '_' && s[|c|] == '_';
    assert forall k :: |a| < k < |s| ==> s[k] == b[k - |a| - 1];
    assert forall k :: |c| < k < |s| ==> s[k] == d[k - |c| - 1];
    assert |a| == |c|;
    assert s[..|a|] == a && s[..|c|] == c && s[|a| + 1..] == b && s[|c| + 1..] == d;
  }

  lemma OneNumbered(h: string, n: nat, k: string, m: nat)
    requires Numbered(h, n) == Numbered(k, m)
    ensures h == k && n == m
  {
    NumeralParts(n, 10);
    NumeralParts(m, 10);
    hide PcodeText.Digits;
    LastUnderscore(h, Numeral(n), k, Numeral(m));
    OneNumeral(n, m, 10);
  }

  lemma FirstLetter(x: Name)
    ensures x.Temp? ==> NameText(x) != "" && NameText(x)[0] == '_'
    ensures x.Unique? ==> NameText(x) != "" && NameText(x)[0] == 'u'
    ensures IsTempName(x) ==> NameText(x) != "" && NameText(x)[0] == 't'
  {
    hide PcodeText.Digits, HexLen;
  }

  /** Names print alike only if they are one. */
  lemma NameOnce(x: Name, y: Name)
    requires Spellable(x) && Spellable(y) && NameText(x) == NameText(y)
    ensures x == y
  {
    FirstLetter(x);
    FirstLetter(y);
    hide PcodeText.Digits, Quiet, IsTemp, AllWord;
    if x.Temp? && y.Temp? {
      hide NameText;
      TempOnce(x, y);
    } else if x.Unique? && y.Unique? {
      hide NameText;
      UniqueOnce(x, y);
    }
  }

  lemma TempOnce(x: Name, y: Name)
    requires x.Temp? && y.Temp? && NameText(x) == NameText(y)
    ensures x == y
  {
    hide Numbered;
    OneNumbered("__esil_" + x.prefix, x.index, "__esil_" + y.prefix, y.index);
    Dropped("__esil_", x.prefix, y.prefix);
  }

  lemma UniqueOnce(x: Name, y: Name)
    requires x.Unique? && y.Unique? && NameText(x) == NameText(y)
    ensures x == y
  {
    hide Numbered, PcodeText.Digits;
    var h, k := PcodeText.Digits(x.offset, 16), PcodeText.Digits(y.offset, 16);
    OneNumbered("u_" + h, x.size, "u_" + k, y.size);
    Dropped("u_", h, k);
    OneNumeral(x.offset, y.offset, 16);
  }

  // ---- One text, one expression ----

  lemma OneVar(v: Var, w: Var)
    requires Spellable(v.name) && Spellable(w.name) && VarShape(v) == VarShape(w)
    ensures v == w
  {
    hide Spellable, NameText, PcodeText.Digits;
    NameOnce(v.name, w.name);
    OneNumeral(v.bits, w.bits, 10);
  }

  lemma OneNum(n: nat, m: nat)
    requires Num(n) == Num(m)
    ensures n == m
  {
    hide PcodeText.Digits;
    OneNumeral(n, m, 10);
  }

  lemma OneMode(rm: Rounding, rm': Rounding)
    requires Mode(rm) == Mode(rm')
    ensures rm == rm'
  {
    var n, m := RoundingName(rm), RoundingName(rm');
    assert n == m && |n| == |m| && n[6] == m[6] && n[|n| - 1] == m[|n| - 1];
  }

  lemma OneSort(e: nat, s: nat, e': nat, s': nat)
    requires Sort(e, s) == Sort(e', s')
    ensures e == e' && s == s'
  {
    hide Num;
    OneNum(e, e');
    OneNum(s, s');
  }

  /** The operator without its parameters. */
  function UnTag(op: UnOp): nat {
    match op
    case BoolNot => 0
    case Extract(_, _) => 1
    case ZeroExtend(_) => 2
    case SignExtend(_) => 3
    case FIsNaN => 4
    case FSqrt(_) => 5
    case FRoundToIntegral(_) => 6
    case BvToFp(_, _) => 7
    case FpToIeeeBv => 8
    case FpToSbv(_, _) => 9
    case SbvToFp(_, _, _) => 10
    case FpToFp(_, _, _) => 11
  }

  lemma OneUnName(op: UnOp, op': UnOp)
    ensures UnName(op) == UnName(op') ==> UnTag(op) == UnTag(op')
    ensures UnName(op) != "Var"
  {
    var n, m := UnName(op), UnName(op');
    if n == m { assert |n| == |m| && n[0] == m[0] && n[2] == m[2]; }
  }

  lemma OneUn(op: UnOp, op': UnOp, x: Shape, y: Shape)
    requires UnShape(op, x) == UnShape(op', y)
    ensures op == op' && x == y
  {
    hide Num, Mode, Sort, UnName;
    assert UnShape(op, x).name == UnName(op) && UnShape(op', y).name == UnName(op');
    OneUnName(op, op');
    match op
    case Extract(hi, lo) => OneNum(hi, op'.hi); OneNum(lo, op'.lo);
    case ZeroExtend(n) => OneNum(n, op'.toBits);
    case SignExtend(n) => OneNum(n, op'.toBits);
    case FSqrt(rm) => OneMode(rm, op'.rm);
    case FRoundToIntegral(rm) => OneMode(rm, op'.rm);
    case BvToFp(e, s) => OneSort(e, s, op'.ebits, op'.sbits);
    case FpToSbv(rm, bits) => OneMode(rm, op'.rm); OneNum(bits, op'.bits);
    case SbvToFp(rm, e, s) => OneMode(rm, op'.rm); OneSort(e, s, op'.ebits, op'.sbits);
    case FpToFp(rm, e, s) => OneMode(rm, op'.rm); OneSort(e, s, op'.ebits, op'.sbits);
    case _ =>
  }

  predicate Rounds(op: BinOp) {
    op.FAdd? || op.FSub? || op.FMul? || op.FDiv?
  }

  lemma OneBinName(op: BinOp, op': BinOp)
    requires BinName(op) == BinName(op')
    ensures Rounds(op) <==> Rounds(op')
    ensures (Rounds(op) && op.rm == op'.rm) || !Rounds(op) ==> op == op'
  {
    var n, m := BinName(op), BinName(op');
    assert |n| == |m| && n[0] == m[0] && n[1] == m[1] && n[|n| - 1] == m[|n| - 1];
  }

  lemma BinIs(op: BinOp, x: Shape, y: Shape)
    ensures Rounds(op) ==> BinShape(op, x, y) == Tuple(BinName(op), Item(x, Item(y, Item(Mode(op.rm), End))))
    ensures op.Concat? ==> BinShape(op, x, y) == Record(BinName(op), Field("high", x, Field("low", y, End)))
    ensures !Rounds(op) && !op.Concat? ==> BinShape(op, x, y) == Tuple(BinName(op), Item(x, Item(y, End)))
  {
    hide Mode, BinName;
  }

  lemma BinParts(op: BinOp, x: Shape, y: Shape)
    ensures
      var s := BinShape(op, x, y);
      && (s.Tuple? || s.Record?) && s.name == BinName(op)
      && s.kids.More? && s.kids.first == x && s.kids.rest.More? && s.kids.rest.first == y
      && (Rounds(op) ==> s.kids.rest.rest.More? && s.kids.rest.rest.first == Mode(op.rm))
  {
    hide Mode, BinName, BinShape;
    BinIs(op, x, y);
  }

  lemma OneBin(op: BinOp, op': BinOp, x: Shape, y: Shape, x': Shape, y': Shape)
    requires BinShape(op, x, y) == BinShape(op', x', y')
    ensures op == op' && x == x' && y == y'
  {
    BinParts(op, x, y);
    BinParts(op', x', y');
    hide Mode, BinName, BinShape;
    OneBinName(op, op');
    if Rounds(op) { OneMode(op.rm, op'.rm); }
  }

  /** Which constructor, read off the kids. */
  function KindOf(s: Shape): nat
    requires s.Tuple? || s.Record?
  {
    var k := s.kids;
    if k.End? then 0
    else if k.first.Unit? then if s.name == "Const" then 1 else 2
    else if k.first.Text? then 3
    else if k.rest.End? || k.rest.first.Unit? then if s.name == "Var" then 4 else 5
    else if k.rest.rest.End? || k.rest.rest.first.Unit? then 6
    else 7
  }

  function ExprKind(e: Expr): nat {
    match e
    case Const(_, _) => 1
    case FpConst(_, _, _) => 2
    case Unknown(_) => 3
    case Ref(_) => 4
    case Un(_, _) => 5
    case Bin(_, _, _) => 6
    case Ite(_, _, _) => 7
  }

  lemma KindIs(e: Expr)
    ensures KindOf(ExprShape(e)) == ExprKind(e)
  {
    hide Num, Mode, UnName, BinName;
    match e
    case Un(op, a) => UnKind(op, ExprShape(a));
    case _ =>
  }

  lemma UnKind(op: UnOp, x: Shape)
    requires x.Tuple? || x.Record?
    ensures KindOf(UnShape(op, x)) == 5
  {
    OneUnName(op, op);
    hide UnName, Num, Mode;
  }

  /** Expressions print alike only if they are one. */
  lemma {:induction false} ExprOnce(e: Expr, e': Expr)
    requires SpeltExpr(e) && SpeltExpr(e') && ExprShape(e) == ExprShape(e')
    ensures e == e'
    decreases e
  {
    KindIs(e);
    KindIs(e');
    hide Num, Sort, Mode, VarShape, UnShape, BinShape, Spellable, Quiet, KindOf;
    match e
    case Ref(v) => OneVar(v, e'.v);
    case Const(value, bits) => OneNum(value, e'.value); OneNum(bits, e'.bits);
    case FpConst(pattern, ebits, sbits) => OneNum(pattern, e'.pattern); OneSort(ebits, sbits, e'.ebits, e'.sbits);
    case Unknown(_) =>
    case Un(op, a) =>
      OneUn(op, e'.uop, ExprShape(a), ExprShape(e'.src));
      ExprOnce(a, e'.src);
    case Bin(op, a, b) =>
      OneBin(op, e'.op, ExprShape(a), ExprShape(b), ExprShape(e'.a), ExprShape(e'.b));
      ExprOnce(a, e'.a);
      ExprOnce(b, e'.b);
    case Ite(c, t, f) =>
      ExprOnce(c, e'.cond);
      ExprOnce(t, e'.thn);
      ExprOnce(f, e'.els);
  }

  /** And so do statements, whatever an unsupported one says of itself. */
  lemma LineOnce(l: Line, m: Line)
    requires SpeltLine(l) && SpeltLine(m) && LineShape(l) == LineShape(m)
    ensures l.stmt == m.stmt
  {
    LineKind(l, m);
    hide Num, VarShape, ExprShape, Spellable, SpeltExpr, Quiet;
    match l.stmt
    case Assign(dst, rhs) => OneVar(dst, m.stmt.dst); ExprOnce(rhs, m.stmt.rhs);
    case LoadMem(dst, address, bits) => OneVar(dst, m.stmt.dst); ExprOnce(address, m.stmt.address); OneNum(bits, m.stmt.bits);
    case StoreMem(address, value, bits) => ExprOnce(address, m.stmt.address); ExprOnce(value, m.stmt.value); OneNum(bits, m.stmt.bits);
    case Unsupported =>
    case Nop =>
  }

  lemma LineKind(l: Line, m: Line)
    requires LineShape(l) == LineShape(m)
    ensures (l.stmt.Assign? <==> m.stmt.Assign?) && (l.stmt.LoadMem? <==> m.stmt.LoadMem?) && (l.stmt.StoreMem? <==> m.stmt.StoreMem?)
    ensures (l.stmt.Unsupported? <==> m.stmt.Unsupported?) && (l.stmt.Nop? <==> m.stmt.Nop?)
  {
    hide Num, VarShape, ExprShape;
    var n, k := LineShape(l).name, LineShape(m).name;
    assert n == k && |n| == |k| && n[0] == k[0];
  }

  lemma {:induction false} KidsOnce(a: seq<Line>, c: seq<Line>)
    requires Spelt(a) && Spelt(c) && LineKids(a) == LineKids(c)
    ensures Statements(a) == Statements(c)
    decreases |a|
  {
    hide LineShape, SpeltLine;
    if a != [] {
      LineOnce(a[0], c[0]);
      KidsOnce(a[1..], c[1..]);
      assert a == [a[0]] + a[1..] && c == [c[0]] + c[1..];
      assert forall i :: 0 < i < |a| ==> a[i] == a[1..][i - 1] && c[i] == c[1..][i - 1] && Statements(a[1..])[i - 1] == Statements(c[1..])[i - 1];
    }
  }

  // ---- What is printed is proper ----

  lemma NameIf(n: string)
    requires n != "" && AllWord(n) && (n[0] != 't' || (|n| > 1 && n[1] != '_'))
    ensures IsName(n)
  {
    hide HexLen;
  }

  lemma NumProper(n: nat)
    ensures Proper(Num(n)) && (forall b :: ShapeAt(Num(n), b) == Num(n)) && forall a :: HoldsAt(Num(n), a)
  {
    NumeralParts(n, 10);
    hide PcodeText.Digits;
    NameIf(Numeral(n));
  }

  lemma ModeProper(rm: Rounding)
    ensures Proper(Mode(rm)) && (forall b :: ShapeAt(Mode(rm), b) == Mode(rm)) && forall a :: HoldsAt(Mode(rm), a)
  {
    hide IsTemp;
    NameIf(RoundingName(rm));
  }

  lemma UnNameProper(op: UnOp)
    ensures IsName(UnName(op))
  {
    hide IsTemp;
    NameIf(UnName(op));
  }

  lemma BinNameProper(op: BinOp)
    ensures IsName(BinName(op))
  {
    hide IsTemp;
    NameIf(BinName(op));
  }

  lemma FieldNames()
    ensures IsName("src") && IsName("hi") && IsName("lo") && IsName("to_bits") && IsName("rm") && IsName("bits") && IsName("ebits") && IsName("sbits")
  {
    hide IsTemp;
    NameIf("src");
    NameIf("hi");
    NameIf("lo");
    NameIf("rm");
    NameIf("bits");
    NameIf("ebits");
    NameIf("sbits");
    NameIf("to_bits");
  }

  lemma HeadNames()
    ensures IsName("Var") && IsName("Const") && IsName("FpConst") && IsName("Unknown") && IsName("Ite") && IsName("value") && IsName("name")
  {
    hide IsTemp;
    NameIf("Var");
    NameIf("Const");
    NameIf("FpConst");
    NameIf("Unknown");
    NameIf("Ite");
    NameIf("value");
    NameIf("name");
  }

  lemma PartNames()
    ensures IsName("high") && IsName("low") && IsName("cond") && IsName("then_expr") && IsName("else_expr")
  {
    hide IsTemp;
    NameIf("high");
    NameIf("low");
    NameIf("cond");
    NameIf("then_expr");
    NameIf("else_expr");
  }

  lemma LineNames()
    ensures IsName("Assign") && IsName("LoadMem") && IsName("StoreMem") && IsName("Nop") && IsName("dst") && IsName("address")
  {
    hide IsTemp;
    NameIf("Assign");
    NameIf("LoadMem");
    NameIf("StoreMem");
    NameIf("Nop");
    NameIf("dst");
    NameIf("address");
  }

  lemma ReasonNames()
    ensures IsName("Unsupported") && IsName("mnemonic") && IsName("comment")
  {
    hide IsTemp;
    NameIf("Unsupported");
    NameIf("mnemonic");
    NameIf("comment");
  }

  // ---- The renaming that moves temporaries ----

  /** Temporaries of the instruction at `p` become those of the one at `q`, and the other way
      round; every other name stays. */
  ghost function SwapName(x: Name, p: string, q: string): Name {
    if !IsTempName(x) then x
    else if Address(x.text) == p then Plain(TempName(q, Tail(x.text)))
    else if Address(x.text) == q then Plain(TempName(p, Tail(x.text)))
    else x
  }

  ghost function Swap(p: string, q: string): Name -> Name {
    (x: Name) => SwapName(x, p, q)
  }

  lemma SwapBack(x: Name, p: string, q: string)
    requires IsAddress(p) && IsAddress(q)
    ensures SwapName(SwapName(x, p, q), p, q) == x
    ensures IsTempName(SwapName(x, p, q)) == IsTempName(x)
  {
    hide IsTemp, Tail, Address, TempName, AllWord, IsAddress;
    if IsTempName(x) {
      TailIsWord(x.text);
      TempParts(x.text);
      MadeUp(p, Tail(x.text));
      MadeUp(q, Tail(x.text));
    }
  }

  /** No register of the tables is called like a temporary. */
  ghost predicate Untemporary(arch: Arch) {
    forall x {:trigger arch.layouts[x]} :: x in arch.layouts ==> !IsTempName(x) && !IsTempName(arch.layouts[x].parent)
  }

  lemma SwapSwaps(p: string, q: string, arch: Arch)
    requires IsAddress(p) && IsAddress(q) && Untemporary(arch)
    ensures Swaps(Swap(p, q), arch)
  {
    var f := Swap(p, q);
    FlagsStay();
    hide IsTempName, IsAddress, Address, Tail, TempName;
    forall x {:trigger f(x)} ensures f(f(x)) == x && (IsSource(f(x)) <==> IsSource(x)) && (!IsSource(x) ==> f(x) == x) {
      SwapBack(x, p, q);
      SwapKind(x, p, q);
    }
    hide SwapName;
    forall x {:trigger f(x)} | x in COMPARABLE_FLAGS || x in arch.layouts ensures f(x) == x {
      if x in arch.layouts { assert !IsTempName(arch.layouts[x].parent); }
      SwapStays(x, p, q);
    }
    forall x {:trigger arch.layouts[x]} | x in arch.layouts ensures f(arch.layouts[x].parent) == arch.layouts[x].parent {
      SwapStays(arch.layouts[x].parent, p, q);
    }
  }

  lemma SwapKind(x: Name, p: string, q: string)
    ensures IsSource(SwapName(x, p, q)) <==> IsSource(x)
    ensures !IsSource(x) ==> SwapName(x, p, q) == x
  {
    hide IsTemp, Address, Tail, TempName, AllWord;
  }

  lemma SwapStays(x: Name, p: string, q: string)
    requires !IsTempName(x)
    ensures SwapName(x, p, q) == x
  {
    hide IsTempName;
  }

  lemma FlagsStay()
    ensures forall x :: x in COMPARABLE_FLAGS ==> !IsTempName(x)
  {
    hide HexLen;
    assert "ZF"[0] != 't' && "CF"[0] != 't' && "SF"[0] != 't';
  }

  // ---- The text of a moved lowering ----

  lemma OneWord(w: string, a: string, b: string)
    requires w != "" && AllWord(w)
    ensures Readdressed(w, b) == Moved(w, b)
    ensures OneAddress(w, a) <==> (IsTemp(w) ==> Address(w) == a)
    ensures AllPlain(w)
  {
    assert w + "" == w;
    ReaddressWord(w, "", b);
    assert Readdressed("", b) == "" && OneAddress("", a);
    hide Readdressed, OneAddress, Moved, IsTemp, Address;
  }

  lemma {:induction false} QuietStays(t: string, a: string, b: string)
    requires OneAddress(t, "")
    ensures Readdressed(t, b) == t && OneAddress(t, a)
    decreases |t|
  {
    if t != "" {
      if !IsWord(t[0]) {
        QuietStays(t[1..], a, b);
        assert [t[0]] + t[1..] == t;
      } else {
        var n := WordLen(t);
        QuietStays(t[n..], a, b);
        NoEmptyAddress(t[..n]);
        hide WordLen, IsTemp, Address;
        assert t[..n] + t[n..] == t;
      }
    }
  }

  lemma NoEmptyAddress(w: string)
    ensures IsTemp(w) ==> Address(w) != ""
  {
    if IsTemp(w) { TempParts(w); }
  }

  /** A name of this spelling is one word, and no temporary's. */
  lemma NumberedWord(x: Name)
    requires Spellable(x) && !x.Plain?
    ensures AllWord(NameText(x)) && NameText(x) != "" && !IsTemp(NameText(x))
  {
    FirstLetter(x);
    if x.Temp? {
      NumeralParts(x.index, 10);
    } else {
      NumeralParts(x.offset, 16);
      NumeralParts(x.size, 10);
    }
    hide PcodeText.Digits, HexLen;
  }

  lemma NameMoved(x: Name, p: string, q: string)
    requires Spellable(x)
    ensures AllPlain(NameText(x))
    ensures OneAddress(NameText(x), p) && IsAddress(q) ==> NameText(SwapName(x, p, q)) == Readdressed(NameText(x), q) && Spellable(SwapName(x, p, q))
  {
    hide IsTemp, Address, Tail, TempName, PcodeText.Digits, Readdressed, OneAddress, AllPlain, IsAddress;
    if !x.Plain? {
      NumberedWord(x);
      hide NameText;
      OneWord(NameText(x), p, q);
    } else if IsTempName(x) {
      TempMoved(x, p, q);
    } else {
      QuietStays(x.text, p, q);
    }
  }

  lemma TempMoved(x: Name, p: string, q: string)
    requires IsTempName(x)
    ensures AllPlain(NameText(x))
    ensures OneAddress(NameText(x), p) && IsAddress(q) ==> NameText(SwapName(x, p, q)) == Readdressed(NameText(x), q) && Spellable(SwapName(x, p, q))
  {
    hide IsTemp, Address, Tail, TempName, PcodeText.Digits, Readdressed, OneAddress, AllPlain, IsAddress, AllWord;
    assert x.text != "" by { FirstLetter(x); }
    OneWord(x.text, p, q);
    if OneAddress(x.text, p) && IsAddress(q) {
      TailIsWord(x.text);
      MadeUp(q, Tail(x.text));
    }
  }

  /** One more kid in front. */
  lemma KidMoved(tag: string, s: Shape, rest: Kids, labels: bool, p: string, q: string)
    ensures ProperKids(More(tag, s, rest), labels) <==> (if labels then IsName(tag) else tag == "") && Proper(s) && ProperKids(rest, labels)
    ensures KidsHoldAt(More(tag, s, rest), p) <==> HoldsAt(s, p) && KidsHoldAt(rest, p)
    ensures KidsAt(More(tag, s, rest), q) == More(tag, ShapeAt(s, q), KidsAt(rest, q))
    ensures ProperKids(End, labels) && KidsHoldAt(End, p) && KidsAt(End, q) == End
  {
    hide IsName;
  }

  lemma PairMoved(tag: string, s: Shape, tag': string, s': Shape, labels: bool, p: string, q: string)
    requires if labels then IsName(tag) && IsName(tag') else tag == tag' == ""
    ensures
      var k := More(tag, s, More(tag', s', End));
      && (ProperKids(k, labels) <==> Proper(s) && Proper(s')) && (KidsHoldAt(k, p) <==> HoldsAt(s, p) && HoldsAt(s', p))
      && KidsAt(k, q) == More(tag, ShapeAt(s, q), More(tag', ShapeAt(s', q), End))
  {
    KidMoved(tag', s', End, labels, p, q);
    KidMoved(tag, s, More(tag', s', End), labels, p, q);
    hide ProperKids, KidsHoldAt, KidsAt, Proper, HoldsAt, ShapeAt, IsName;
  }

  lemma TripleMoved(tag: string, s: Shape, tag': string, s': Shape, tag'': string, s'': Shape, labels: bool, p: string, q: string)
    requires if labels then IsName(tag) && IsName(tag') && IsName(tag'') else tag == tag' == tag'' == ""
    ensures
      var k := More(tag, s, More(tag', s', More(tag'', s'', End)));
      && (ProperKids(k, labels) <==> Proper(s) && Proper(s') && Proper(s''))
      && (KidsHoldAt(k, p) <==> HoldsAt(s, p) && HoldsAt(s', p) && HoldsAt(s'', p))
      && KidsAt(k, q) == More(tag, ShapeAt(s, q), More(tag', ShapeAt(s', q), More(tag'', ShapeAt(s'', q), End)))
  {
    PairMoved(tag', s', tag'', s'', labels, p, q);
    KidMoved(tag, s, More(tag', s', More(tag'', s'', End)), labels, p, q);
    hide ProperKids, KidsHoldAt, KidsAt, Proper, HoldsAt, ShapeAt, IsName;
  }

  lemma VarMoved(v: Var, p: string, q: string)
    requires Spellable(v.name)
    ensures Proper(VarShape(v))
    ensures HoldsAt(VarShape(v), p) <==> OneAddress(NameText(v.name), p)
    ensures OneAddress(NameText(v.name), p) && IsAddress(q) ==>
      ShapeAt(VarShape(v), q) == VarShape(MoveVar(v, Swap(p, q))) && Spellable(SwapName(v.name, p, q))
  {
    NameMoved(v.name, p, q);
    NumProper(v.bits);
    FieldNames();
    HeadNames();
    PairMoved("name", Text(NameText(v.name)), "bits", Num(v.bits), true, p, q);
    hide Spellable, NameText, Num, Readdressed, OneAddress, IsAddress, IsName, AllPlain, SwapName, ProperKids, KidsHoldAt, KidsAt;
  }

  lemma SortMoved(e: nat, s: nat, p: string, q: string)
    ensures ProperKids(Sort(e, s), true) && KidsAt(Sort(e, s), q) == Sort(e, s) && KidsHoldAt(Sort(e, s), p)
  {
    NumProper(e);
    NumProper(s);
    FieldNames();
    PairMoved("ebits", Num(e), "sbits", Num(s), true, p, q);
    hide Num, IsName, ProperKids, KidsHoldAt, KidsAt, Proper, HoldsAt, ShapeAt;
  }

  lemma UnMoved(op: UnOp, x: Shape, p: string, q: string)
    ensures Proper(x) ==> Proper(UnShape(op, x))
    ensures HoldsAt(UnShape(op, x), p) <==> HoldsAt(x, p)
    ensures ShapeAt(UnShape(op, x), q) == UnShape(op, ShapeAt(x, q))
  {
    UnNameProper(op);
    FieldNames();
    hide Num, Mode, UnName, IsName, Sort, ProperKids, KidsHoldAt, KidsAt;
    match op
    case Extract(hi, lo) =>
      NumProper(hi);
      NumProper(lo);
      TripleMoved("src", x, "hi", Num(hi), "lo", Num(lo), true, p, q);
    case ZeroExtend(n) =>
      NumProper(n);
      PairMoved("src", x, "to_bits", Num(n), true, p, q);
    case SignExtend(n) =>
      NumProper(n);
      PairMoved("src", x, "to_bits", Num(n), true, p, q);
    case FSqrt(rm) =>
      ModeProper(rm);
      PairMoved("", x, "", Mode(rm), false, p, q);
    case FRoundToIntegral(rm) =>
      ModeProper(rm);
      PairMoved("", x, "", Mode(rm), false, p, q);
    case BvToFp(e, s) =>
      SortMoved(e, s, p, q);
      KidMoved("src", x, Sort(e, s), true, p, q);
    case FpToSbv(rm, bits) =>
      ModeProper(rm);
      NumProper(bits);
      TripleMoved("src", x, "rm", Mode(rm), "bits", Num(bits), true, p, q);
    case SbvToFp(rm, e, s) => ModedMoved(rm, e, s, x, p, q);
    case FpToFp(rm, e, s) => ModedMoved(rm, e, s, x, p, q);
    case _ => KidMoved("", x, End, false, p, q);
  }

  lemma ModedMoved(rm: Rounding, e: nat, s: nat, x: Shape, p: string, q: string)
    ensures
      var k := Field("src", x, Field("rm", Mode(rm), Sort(e, s)));
      && (ProperKids(k, true) <==> Proper(x)) && (KidsHoldAt(k, p) <==> HoldsAt(x, p))
      && KidsAt(k, q) == Field("src", ShapeAt(x, q), Field("rm", Mode(rm), Sort(e, s)))
  {
    FieldNames();
    ModeProper(rm);
    SortMoved(e, s, p, q);
    KidMoved("rm", Mode(rm), Sort(e, s), true, p, q);
    KidMoved("src", x, Field("rm", Mode(rm), Sort(e, s)), true, p, q);
    hide Mode, IsName, Sort, ProperKids, KidsHoldAt, KidsAt, Proper, HoldsAt, ShapeAt;
  }

  lemma BinMoved(op: BinOp, x: Shape, y: Shape, p: string, q: string)
    ensures Proper(x) && Proper(y) ==> Proper(BinShape(op, x, y))
    ensures HoldsAt(BinShape(op, x, y), p) <==> HoldsAt(x, p) && HoldsAt(y, p)
    ensures ShapeAt(BinShape(op, x, y), q) == BinShape(op, ShapeAt(x, q), ShapeAt(y, q))
  {
    hide Mode, BinName, BinShape, IsName, ProperKids, KidsHoldAt, KidsAt;
    BinNameProper(op);
    PartNames();
    BinIs(op, x, y);
    BinIs(op, ShapeAt(x, q), ShapeAt(y, q));
    if Rounds(op) {
      ModeProper(op.rm);
      TripleMoved("", x, "", y, "", Mode(op.rm), false, p, q);
    } else if op.Concat? {
      PairMoved("high", x, "low", y, true, p, q);
    } else {
      PairMoved("", x, "", y, false, p, q);
    }
  }

  lemma {:induction false} ExprMoved(e: Expr, p: string, q: string)
    requires SpeltExpr(e)
    ensures Proper(ExprShape(e))
    ensures HoldsAt(ExprShape(e), p) && IsAddress(q) ==>
      ShapeAt(ExprShape(e), q) == ExprShape(MoveExpr(e, Swap(p, q))) && SpeltExpr(MoveExpr(e, Swap(p, q)))
    decreases e
  {
    HeadNames();
    hide Spellable, Num, Sort, VarShape, UnShape, BinShape, IsName, IsAddress, Readdressed, OneAddress, NameText, SwapName, ProperKids, KidsHoldAt, KidsAt;
    match e
    case Ref(v) =>
      VarMoved(v, p, q);
      KidMoved("", VarShape(v), End, false, p, q);
    case Const(value, bits) =>
      NumProper(value);
      NumProper(bits);
      FieldNames();
      PairMoved("value", Num(value), "bits", Num(bits), true, p, q);
    case FpConst(pattern, ebits, sbits) =>
      NumProper(pattern);
      SortMoved(ebits, sbits, p, q);
      FieldNames();
      KidMoved("bits", Num(pattern), Sort(ebits, sbits), true, p, q);
    case Unknown(hint) =>
      QuietStays(hint, p, q);
      KidMoved("", Text(hint), End, false, p, q);
    case Un(op, a) =>
      ExprMoved(a, p, q);
      UnMoved(op, ExprShape(a), p, q);
    case Bin(op, a, b) =>
      ExprMoved(a, p, q);
      ExprMoved(b, p, q);
      BinMoved(op, ExprShape(a), ExprShape(b), p, q);
    case Ite(c, t, f) =>
      ExprMoved(c, p, q);
      ExprMoved(t, p, q);
      ExprMoved(f, p, q);
      PartNames();
      TripleMoved("cond", ExprShape(c), "then_expr", ExprShape(t), "else_expr", ExprShape(f), true, p, q);
  }

  function MoveLine(l: Line, f: Name -> Name): Line {
    l.(stmt := MoveStmt(l.stmt, f))
  }

  lemma LineMoved(l: Line, p: string, q: string)
    requires SpeltLine(l)
    ensures Proper(LineShape(l))
    ensures HoldsAt(LineShape(l), p) && IsAddress(q) ==>
      ShapeAt(LineShape(l), q) == LineShape(MoveLine(l, Swap(p, q))) && SpeltLine(MoveLine(l, Swap(p, q)))
  {
    LineNames();
    FieldNames();
    hide Spellable, SpeltExpr, ExprShape, Num, VarShape, IsName, IsAddress, Readdressed, OneAddress, NameText, SwapName, ProperKids, KidsHoldAt, KidsAt;
    match l.stmt
    case Assign(dst, rhs) =>
      VarMoved(dst, p, q);
      ExprMoved(rhs, p, q);
      PairMoved("dst", VarShape(dst), "src", ExprShape(rhs), true, p, q);
    case LoadMem(dst, address, bits) =>
      VarMoved(dst, p, q);
      ExprMoved(address, p, q);
      NumProper(bits);
      TripleMoved("dst", VarShape(dst), "address", ExprShape(address), "bits", Num(bits), true, p, q);
    case StoreMem(address, value, bits) =>
      ExprMoved(address, p, q);
      ExprMoved(value, p, q);
      NumProper(bits);
      HeadNames();
      TripleMoved("address", ExprShape(address), "value", ExprShape(value), "bits", Num(bits), true, p, q);
    case Unsupported =>
      QuietStays(l.mnemonic, p, q);
      QuietStays(l.comment, p, q);
      ReasonNames();
      PairMoved("mnemonic", Text(l.mnemonic), "comment", Text(l.comment), true, p, q);
    case Nop =>
  }

  function MoveLines(ls: seq<Line>, f: Name -> Name): (r: seq<Line>)
    ensures |r| == |ls| && forall i :: 0 <= i < |ls| ==> r[i] == MoveLine(ls[i], f)
  {
    seq(|ls|, i requires 0 <= i < |ls| => MoveLine(ls[i], f))
  }

  lemma MoveStatements(ls: seq<Line>, f: Name -> Name)
    ensures Statements(MoveLines(ls, f)) == Move(Statements(ls), f)
  {
    hide MoveStmt;
  }

  lemma {:induction false} KidsMoved(ls: seq<Line>, p: string, q: string)
    requires Spelt(ls)
    ensures ProperKids(LineKids(ls), false)
    ensures KidsHoldAt(LineKids(ls), p) && IsAddress(q) ==>
      KidsAt(LineKids(ls), q) == LineKids(MoveLines(ls, Swap(p, q))) && Spelt(MoveLines(ls, Swap(p, q)))
    decreases |ls|
  {
    hide SpeltLine, LineShape, IsAddress, SwapName, MoveLine;
    if ls != [] {
      var f := Swap(p, q);
      LineMoved(ls[0], p, q);
      KidsMoved(ls[1..], p, q);
      assert MoveLines(ls, f)[1..] == MoveLines(ls[1..], f);
      assert forall i :: 0 < i < |ls| ==> MoveLines(ls, f)[i] == MoveLines(ls[1..], f)[i - 1];
    }
  }

  /** The text of a lowering with its temporaries moved is the text moved. */
  lemma PrintedMoved(ls: seq<Line>, p: string, q: string)
    requires Spelt(ls) && IsAddress(q) && OneAddress(Printed(ls), p)
    ensures Printed(MoveLines(ls, Swap(p, q))) == Readdressed(Printed(ls), q) && Spelt(MoveLines(ls, Swap(p, q)))
  {
    hide Spelt, LineKids, Show, IsAddress, OneAddress, Readdressed, MoveLines, Swap;
    var s := List(LineKids(ls));
    KidsMoved(ls, p, q);
    ShowAt(s, "", p, q);
    EmptyStays(p, q);
  }

  lemma EmptyStays(p: string, q: string)
    ensures Readdressed("", q) == "" && OneAddress("", p) && Breaks("") && Stops("") && Keyless("")
  {
  }

  /** Lowerings print alike only if their statements are the same. */
  lemma PrintedOnce(a: seq<Line>, c: seq<Line>)
    requires Spelt(a) && Spelt(c) && Printed(a) == Printed(c)
    ensures Statements(a) == Statements(c)
  {
    hide Spelt, LineKids, Show, Statements, Stops, OneAddress, Readdressed;
    KidsMoved(a, "", "");
    KidsMoved(c, "", "");
    EmptyStays("", "");
    OneValue(List(LineKids(a)), List(LineKids(c)), "", "");
    KidsOnce(a, c);
  }

  lemma PrintedKeyless(ls: seq<Line>)
    requires Spelt(ls)
    ensures Keyless(Printed(ls))
  {
    hide Spelt, LineKids, Show, Keyless;
    KidsMoved(ls, "", "");
    EmptyStays("", "");
    ShowKeyless(List(LineKids(ls)), "");
  }
}
