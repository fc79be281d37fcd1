/** Building a plan: every operation fills exactly the instruction it replaces, and
    no two of them touch the same byte. */
module PatchPlan {
  import opened Bits
  import opened Common
  import Patch

  type Op = Patch.Operation

  const NOP: nat := 0x90
  const MAX_INSTRUCTION_SIZE := 16
  const ARM_INSTRUCTION_BYTES := 4
  const THUMB_HALFWORD_BYTES := 2

  datatype Isa = X86 | Aarch64 | Arm

  function ArmNop(isa: Isa): Option<seq<nat>> {
    match isa
    case X86 => None
    case Aarch64 => Some([0x1F, 0x20, 0x03, 0xD5])
    case Arm => Some([0x00, 0xF0, 0x20, 0xE3])
  }

  const THUMB_NOP: seq<nat> := [0x00, 0xBF]

  // ---- Byte rewrites ----

  predicate AreBytes(bs: seq<nat>) {
    forall i :: 0 <= i < |bs| ==> bs[i] < 256
  }

  predicate IsRex(b: nat) {
    b / 16 == 4
  }

  /** Where the opcode of a `SETcc` starts. */
  function SetccOpcode(o: seq<nat>): nat {
    if o != [] && IsRex(o[0]) then 1 else 0
  }

  /** `[REX] 0F 9x /0 ...` */
  predicate IsSetcc(o: seq<nat>) {
    var i := SetccOpcode(o);
    i + 2 < |o| && o[i] == 0x0F && o[i + 1] / 16 == 9 && o[i + 2] / 8 % 8 == 0
  }

  /** `MOV r/m8, imm8` over the same operand: prefix and addressing bytes stay, opcode and value are new. */
  predicate SetsConstant(o: seq<nat>, bs: seq<nat>, value: bool) {
    IsSetcc(o) &&
    var i := SetccOpcode(o);
    && |bs| == |o| && bs[..i] == o[..i] && bs[i] == 0xC6
    && bs[i + 1..|o| - 1] == o[i + 2..] && bs[|o| - 1] == Bit(value)
  }

  /** The rewrite accepts exactly the `SETcc` encodings; what it returns is a byte-for-
      byte `MOV r/m8, imm8` with the same prefix and operand, in the same length. */
  method PatchSetcc(o: seq<nat>, value: bool) returns (r: Option<seq<nat>>)
    requires AreBytes(o)
    ensures r.Some? <==> IsSetcc(o)
    ensures r.Some? ==> SetsConstant(o, r.value, value)
  {
    if |o| < 3 {
      return None;
    }
    var idx := 0;
    var out: seq<nat> := [];
    if o[idx] / 16 == 4 {
      out := out + [o[idx]];
      idx := idx + 1;
      if idx + 2 >= |o| {
        return None;
      }
    }
    if o[idx] != 0x0F || o[idx + 1] / 16 != 9 {
      return None;
    }
    idx := idx + 2;
    if idx >= |o| {
      return None;
    }
    if o[idx] / 8 % 8 != 0 {
      return None;
    }
    out := out + [0xC6] + o[idx..] + [Bit(value)];
    if |out| != |o| {
      return None;
    }
    return Some(out);
  }

  /** Where the opcode of a `CMOVcc` starts, after `66` and REX. */
  function CmovccOpcode(o: seq<nat>): nat {
    var p := if o != [] && o[0] == 0x66 then 1 else 0;
    if p < |o| && IsRex(o[p]) then p + 1 else p
  }

  predicate IsCmovcc(o: seq<nat>) {
    var i := CmovccOpcode(o);
    i + 2 < |o| && o[i] == 0x0F && o[i + 1] / 16 == 4
  }

  /** `MOV r, r/m` over the same operands: prefixes and addressing bytes stay, one `nop` fills up. */
  predicate Moves(o: seq<nat>, bs: seq<nat>) {
    IsCmovcc(o) &&
    var i := CmovccOpcode(o);
    && |bs| == |o| && bs[..i] == o[..i] && bs[i] == 0x8B
    && bs[i + 1..|o| - 1] == o[i + 2..] && bs[|o| - 1] == 0x90
  }

  lemma MovesFrom(o: seq<nat>, bs: seq<nat>)
    requires IsCmovcc(o) && |bs| == |o| && bs[|o| - 1] == 0x90
    requires var i := CmovccOpcode(o); bs[..|o| - 1] == o[..i] + [0x8B] + o[i + 2..]
    ensures Moves(o, bs)
  {
    hide IsRex;
    var i, front := CmovccOpcode(o), bs[..|o| - 1];
    assert bs[..i] == front[..i] && bs[i] == front[i] && bs[i + 1..|o| - 1] == front[i + 1..];
  }

  /** The rewrite accepts exactly the `CMOVcc` encodings. */
  method PatchCmovcc(o: seq<nat>) returns (r: Option<seq<nat>>)
    requires AreBytes(o)
    ensures r.Some? <==> IsCmovcc(o)
    ensures r.Some? ==> Moves(o, r.value)
  {
    var idx := 0;
    var out: seq<nat> := [];
    if 0 < |o| && o[0] == 0x66 {
      out := out + [0x66];
      idx := idx + 1;
    }
    if idx < |o| && o[idx] / 16 == 4 {
      out := out + [o[idx]];
      idx := idx + 1;
    }
    if idx + 2 >= |o| {
      return None;
    }
    if o[idx] != 0x0F || o[idx + 1] / 16 != 4 {
      return None;
    }
    assert out == o[..idx] && idx == CmovccOpcode(o) && IsCmovcc(o);
    idx := idx + 2;
    out := out + [0x8B] + o[idx..];
    assert |out| == |o| - 1 && out[..|o| - 1] == out;
    while |out| < |o|
      invariant |o| - 1 <= |out| <= |o| && out[..|o| - 1] == o[..idx - 2] + [0x8B] + o[idx..]
      invariant |out| == |o| ==> out[|o| - 1] == NOP
    {
      out := out + [NOP];
    }
    MovesFrom(o, out);
    return Some(out);
  }

  function NopBuffer(n: nat): seq<nat> {
    seq(n, _ => NOP)
  }

  /** Whole instructions only; `len` bytes of the pattern over and over. */
  method Tile(unit: seq<nat>, len: nat) returns (r: Option<seq<nat>>)
    requires unit != []
    ensures r.Some? <==> len % |unit| == 0
    ensures r.Some? ==> |r.value| == len && IsTiled(r.value, unit)
  {
    if len % |unit| != 0 {
      return None;
    }
    var out: seq<nat> := [];
    for k := 0 to len / |unit|
      invariant |out| == k * |unit| && IsTiled(out, unit)
    {
      TileStep(out, unit, k);
      out := out + unit;
    }
    DivModUnique(len, |unit|, len / |unit|, 0);
    return Some(out);
  }

  /** `out` is the start of `unit` repeated for ever. */
  predicate IsTiled(out: seq<nat>, unit: seq<nat>)
    requires unit != []
  {
    forall i :: 0 <= i < |out| ==> out[i] == unit[i % |unit|]
  }

  lemma TileStep(out: seq<nat>, unit: seq<nat>, k: nat)
    requires unit != [] && |out| == k * |unit| && IsTiled(out, unit)
    ensures |out + unit| == (k + 1) * |unit| && IsTiled(out + unit, unit)
  {
    var n := |unit|;
    assert (k + 1) * n == k * n + n;
    forall i | |out| <= i < |out + unit| ensures (out + unit)[i] == unit[i % n] {
      DivModUnique(i, n, k, i - |out|);
    }
  }

  /** The instruction a slot is filled with. */
  function NopUnit(isa: Isa, isThumb: bool): (u: seq<nat>)
    ensures u != []
  {
    if isThumb then THUMB_NOP else if isa == X86 then [NOP] else ArmNop(isa).value
  }

  /** Nothing but whole NOPs of the instruction set. */
  predicate IsNops(isa: Isa, isThumb: bool, bs: seq<nat>) {
    |bs| % |NopUnit(isa, isThumb)| == 0 && IsTiled(bs, NopUnit(isa, isThumb))
  }

  /** The number the `n` bytes from `i` on spell, low byte first. */
  function LittleEndian(bs: seq<nat>, i: nat, n: nat): nat
    requires i + n <= |bs|
    decreases n
  {
    if n == 0 then 0 else bs[i] + 256 * LittleEndian(bs, i + 1, n - 1)
  }

  /** The bytes are the `n`-byte instruction `word`, over and over. */
  predicate AreWords(bs: seq<nat>, n: nat, word: nat) {
    n > 0 && |bs| % n == 0 && forall i :: 0 <= i && i + n <= |bs| && i % n == 0 ==> LittleEndian(bs, i, n) == word
  }

  /** The architectural NOP: `nop` on x86 and Thumb, the hint instructions on ARM. */
  predicate AreNopWords(isa: Isa, isThumb: bool, bs: seq<nat>) {
    if isThumb then AreWords(bs, 2, 0xBF00)
    else match isa
      case X86 => AreWords(bs, 1, 0x90)
      case Aarch64 => AreWords(bs, 4, 0xD503201F)
      case Arm => AreWords(bs, 4, 0xE320F000)
  }

  lemma TwoBytes(bs: seq<nat>, i: nat)
    requires i + 2 <= |bs|
    ensures LittleEndian(bs, i, 2) == bs[i] + 256 * bs[i + 1]
  {
    assert LittleEndian(bs, i + 1, 1) == bs[i + 1] + 256 * LittleEndian(bs, i + 2, 0);
  }

  lemma FourBytes(bs: seq<nat>, i: nat)
    requires i + 4 <= |bs|
    ensures LittleEndian(bs, i, 4) == bs[i] + 256 * (bs[i + 1] + 256 * (bs[i + 2] + 256 * bs[i + 3]))
  {
    TwoBytes(bs, i + 2);
    assert LittleEndian(bs, i + 1, 3) == bs[i + 1] + 256 * LittleEndian(bs, i + 2, 2);
  }

  lemma TileAt(out: seq<nat>, unit: seq<nat>, i: nat)
    requires unit != [] && IsTiled(out, unit) && i < |out|
    ensures out[i] == unit[i % |unit|]
  {
  }

  lemma ByteNops(bs: seq<nat>)
    requires IsTiled(bs, [NOP])
    ensures AreWords(bs, 1, 0x90)
  {
    forall i | 0 <= i && i + 1 <= |bs| && i % 1 == 0 ensures LittleEndian(bs, i, 1) == 0x90 {
      assert LittleEndian(bs, i, 1) == bs[i] + 256 * LittleEndian(bs, i + 1, 0);
      assert i % |[NOP]| == 0;
    }
  }

  lemma ThumbNops(bs: seq<nat>)
    requires IsTiled(bs, THUMB_NOP) && |bs| % 2 == 0
    ensures AreWords(bs, 2, 0xBF00)
  {
    forall i | 0 <= i && i + 2 <= |bs| && i % 2 == 0 ensures LittleEndian(bs, i, 2) == 0xBF00 {
      TwoBytes(bs, i);
      assert (i + 1) % 2 == 1;
    }
  }

  lemma ArmNops(isa: Isa, bs: seq<nat>)
    requires isa != X86 && IsTiled(bs, ArmNop(isa).value) && |bs| % 4 == 0
    ensures AreWords(bs, 4, if isa == Arm then 0xE320F000 else 0xD503201F)
  {
    forall i | 0 <= i && i + 4 <= |bs| && i % 4 == 0
      ensures LittleEndian(bs, i, 4) == if isa == Arm then 0xE320F000 else 0xD503201F
    {
      FourBytes(bs, i);
      assert (i + 1) % 4 == 1 && (i + 2) % 4 == 2 && (i + 3) % 4 == 3;
      hide IsTiled, LittleEndian;
      TileAt(bs, ArmNop(isa).value, i);
      TileAt(bs, ArmNop(isa).value, i + 1);
      TileAt(bs, ArmNop(isa).value, i + 2);
      TileAt(bs, ArmNop(isa).value, i + 3);
    }
  }

  lemma NopsAreWords(isa: Isa, isThumb: bool, bs: seq<nat>)
    requires IsNops(isa, isThumb, bs)
    ensures AreNopWords(isa, isThumb, bs)
  {
    hide AreWords, IsTiled;
    if isThumb { ThumbNops(bs); } else if isa == X86 { ByteNops(bs); } else { ArmNops(isa, bs); }
  }

  /** A NOP-filled slot for one branch, whenever whole NOPs fill it. */
  method NopBytesFor(isa: Isa, size: nat, isThumb: bool) returns (r: Option<seq<nat>>)
    ensures r.Some? <==> size % (if isThumb then 2 else if isa == X86 then 1 else 4) == 0
    ensures r.Some? <==> size % |NopUnit(isa, isThumb)| == 0
    ensures r.Some? ==> |r.value| == size && IsNops(isa, isThumb, r.value) && AreNopWords(isa, isThumb, r.value)
  {
    if isThumb {
      r := Tile(THUMB_NOP, size);
    } else if isa == X86 {
      r := Some(NopBuffer(size));
    } else {
      r := Tile(ArmNop(isa).value, size);
    }
    if r.Some? { NopsAreWords(isa, isThumb, r.value); }
  }

  /** Grow an assembled branch to its slot; on ARM it must already fill it. */
  method PadToSize(isa: Isa, bytes: seq<nat>, size: nat) returns (r: Option<seq<nat>>)
    requires |bytes| <= size
    ensures r.Some? <==> isa == X86 || |bytes| == size
    ensures r.Some? ==> r.value == bytes + NopBuffer(size - |bytes|)
  {
    if isa != X86 {
      if |bytes| != size {
        return None;
      }
      assert bytes + NopBuffer(0) == bytes;
      return Some(bytes);
    }
    var out := bytes;
    while |out| < size
      invariant |bytes| <= |out| <= size && out == bytes + NopBuffer(|out| - |bytes|)
    {
      ghost var n := |out| - |bytes|;
      assert NopBuffer(n + 1) == NopBuffer(n) + [NOP];
      out := out + [NOP];
    }
    return Some(out);
  }

  // ---- One finding ----

  datatype Verdict = AlwaysTrue | AlwaysFalse | Undecided
  datatype Kind = Jcc | SetCc | CMovCc | OtherKind

  /** What the planner looks at; the confidence is ranked, highest confidence first. */
  datatype Finding = Finding(address: nat, actionable: bool, confidence: nat, kind: Kind, verdict: Verdict,
                             taken: Option<nat>, fallthrough: Option<nat>, isThumb: bool)

  datatype Decision = Plan(op: Op) | Skip | Abort

  /** What the adapter of the target answers: the assembled branch from one address to another, and
      whether a range is one decoded instruction. */
  datatype Adapter = Adapter(assemble: (nat, nat) -> Option<seq<nat>>, validRange: (nat, nat) -> bool)

  /** The instruction's bytes are in the target and it has a length an instruction can have. */
  ghost predicate Measured(f: Finding, c: Patch.Bytes) {
    && f.fallthrough.Some? && f.address < f.fallthrough.value <= f.address + 16
    && Patch.Mapped(c, f.address, f.fallthrough.value - f.address)
  }

  /** The distance to the next instruction; on a reliable device it is found exactly when
      the bytes are there. */
  method MeasureInstructionSize(f: Finding, device: Patch.Device) returns (r: Option<nat>, ghost fault: bool)
    ensures r.Some? ==> 0 < r.value <= 16 && f.fallthrough == Some(f.address + r.value)
    ensures r.Some? ==> Measured(f, device.contents)
    ensures r.None? ==> fault || !Measured(f, device.contents)
    ensures device.reliable ==> !fault
  {
    if f.fallthrough.None? {
      return None, false;
    }
    var raw := SaturatingSub(f.fallthrough.value, f.address);
    if raw == 0 || raw > MAX_INSTRUCTION_SIZE {
      return None, false;
    }
    var readable;
    readable, fault := device.Read(f.address, raw);
    return if readable.None? then None else Some(raw), fault;
  }

  /** A planned operation replaces exactly its finding's instruction. */
  predicate FitsFinding(op: Op, f: Finding) {
    op.address == f.address && |op.newBytes| == op.size && 0 < op.size <= 16
    && f.fallthrough == Some(op.address + op.size)
  }

  /** The bytes a decided branch is replaced by: NOPs if it is never taken, the assembled branch to its
      target and, on x86, NOPs after it if it always is. */
  predicate JccBytes(f: Finding, isa: Isa, adapter: Adapter, bs: seq<nat>) {
    if f.verdict == AlwaysFalse then IsNops(isa, f.isThumb, bs)
    else
      && f.verdict == AlwaysTrue && f.taken.Some?
      && var a := adapter.assemble(f.address, f.taken.value);
      && a.Some? && |a.value| <= |bs| && (isa != X86 ==> |a.value| == |bs|)
      && bs == a.value + NopBuffer(|bs| - |a.value|)
  }

  /** The bytes a decided finding is rewritten to, from the bytes that were there. */
  predicate Rewrites(f: Finding, isa: Isa, adapter: Adapter, o: seq<nat>, bs: seq<nat>) {
    match f.kind
    case Jcc => JccBytes(f, isa, adapter, bs)
    case SetCc => f.verdict != Undecided && SetsConstant(o, bs, f.verdict == AlwaysTrue)
    case CMovCc => if f.verdict == AlwaysFalse then bs == NopBuffer(|bs|) else f.verdict == AlwaysTrue && Moves(o, bs)
    case OtherKind => false
  }

  /** The operation is the rewrite of its finding's own instruction in the target. */
  ghost predicate Realises(op: Op, f: Finding, isa: Isa, adapter: Adapter, c: Patch.Bytes) {
    && FitsFinding(op, f)
    && (f.kind == Jcc || (f.kind == CMovCc && f.verdict == AlwaysFalse) || Patch.Mapped(c, op.address, op.size))
    && exists o: seq<nat> :: (Patch.Mapped(c, op.address, op.size) ==> o == Patch.Slot(c, op.address, op.size)) && Rewrites(f, isa, adapter, o, op.newBytes)
  }

  /** There is a rewrite: whole NOPs fill the slot, or the assembled branch fits it; the bytes there are
      the `SETcc` or `CMOVcc` they are said to be. */
  ghost predicate Rewritable(f: Finding, size: nat, isa: Isa, adapter: Adapter, c: Patch.Bytes) {
    f.verdict != Undecided &&
    match f.kind
    case Jcc =>
      if f.verdict == AlwaysFalse then size % |NopUnit(isa, f.isThumb)| == 0
      else
        f.taken.Some? && var a := adapter.assemble(f.address, f.taken.value);
        a.Some? && |a.value| <= size && (isa != X86 ==> |a.value| == size)
    case SetCc => Patch.Mapped(c, f.address, size) && IsSetcc(Patch.Slot(c, f.address, size))
    case CMovCc => f.verdict == AlwaysFalse || (Patch.Mapped(c, f.address, size) && IsCmovcc(Patch.Slot(c, f.address, size)))
    case OtherKind => false
  }

  /** What the planner gives up the whole plan for: a verdict it was not promised, NOPs that
      do not fill the slot, a branch the assembler refuses, bytes it cannot read back. */
  ghost predicate Hopeless(f: Finding, size: nat, isa: Isa, adapter: Adapter, c: Patch.Bytes) {
    f.verdict == Undecided ||
    match f.kind
    case Jcc =>
      if f.verdict == AlwaysFalse then size % |NopUnit(isa, f.isThumb)| != 0
      else f.taken.Some? && adapter.assemble(f.address, f.taken.value).None?
    case SetCc => !Patch.Mapped(c, f.address, size)
    case CMovCc => f.verdict == AlwaysTrue && !Patch.Mapped(c, f.address, size)
    case OtherKind => false
  }

  /** The decision is the one called for: a plan exactly when there is a rewrite, an abort exactly
      when there is no hope. */
  ghost predicate Rightly(d: Decision, f: Finding, size: nat, isa: Isa, adapter: Adapter, c: Patch.Bytes) {
    (d.Plan? <==> Rewritable(f, size, isa, adapter, c)) && (d.Abort? <==> Hopeless(f, size, isa, adapter, c))
  }

  method PlanJcc(f: Finding, size: nat, isa: Isa, adapter: Adapter, ghost c: Patch.Bytes) returns (d: Decision)
    requires 0 < size <= 16 && f.fallthrough == Some(f.address + size) && f.kind == Jcc
    ensures d.Plan? ==> Realises(d.op, f, isa, adapter, c)
    ensures Rightly(d, f, size, isa, adapter, c)
  {
    hide IsNops, NopBuffer, NopUnit;
    if f.verdict == Undecided {
      return Abort;
    }
    ghost var o: seq<nat> := if Patch.Mapped(c, f.address, size) then Patch.Slot(c, f.address, size) else [];
    if f.verdict == AlwaysFalse {
      var nops := NopBytesFor(isa, size, f.isThumb);
      if nops.None? {
        return Abort;
      }
      assert Rewrites(f, isa, adapter, o, nops.value);
      return Plan(Patch.Operation(f.address, size, nops.value));
    }
    if f.taken.None? {
      return Skip;
    }
    var assembled := adapter.assemble(f.address, f.taken.value);
    if assembled.None? {
      return Abort;
    }
    if |assembled.value| > size {
      return Skip;
    }
    if isa != X86 && |assembled.value| != size {
      return Skip;
    }
    var padded := PadToSize(isa, assembled.value, size);
    if padded.None? {
      return Abort;
    }
    PaddedLength(assembled.value, size);
    assert Rewrites(f, isa, adapter, o, padded.value);
    return Plan(Patch.Operation(f.address, size, padded.value));
  }

  lemma PaddedLength(bs: seq<nat>, size: nat)
    requires |bs| <= size
    ensures |bs + NopBuffer(size - |bs|)| == size
  {
  }

  method PlanSetcc(f: Finding, size: nat, isa: Isa, adapter: Adapter, device: Patch.Device) returns (d: Decision, ghost fault: bool)
    requires 0 < size <= 16 && f.fallthrough == Some(f.address + size) && f.kind == SetCc
    requires forall a :: a in device.contents ==> device.contents[a] < 256
    ensures d.Plan? ==> Realises(d.op, f, isa, adapter, device.contents)
    ensures fault || Rightly(d, f, size, isa, adapter, device.contents)
    ensures fault ==> d.Abort?
    ensures device.reliable ==> !fault
  {
    if f.verdict == Undecided {
      return Abort, false;
    }
    var original;
    original, fault := device.Read(f.address, size);
    if original.None? {
      return Abort, fault;
    }
    SlotIsBytes(device.contents, f.address, size);
    hide IsSetcc, SetsConstant, Patch.Slot, Patch.Mapped;
    var bytes := PatchSetcc(original.value, f.verdict == AlwaysTrue);
    if bytes.None? {
      return Skip, false;
    }
    SetsLength(original.value, bytes.value, f.verdict == AlwaysTrue);
    assert Rewrites(f, isa, adapter, original.value, bytes.value);
    return Plan(Patch.Operation(f.address, size, bytes.value)), false;
  }

  lemma SlotIsBytes(c: Patch.Bytes, at: nat, n: nat)
    requires Patch.Mapped(c, at, n) && forall a :: a in c ==> c[a] < 256
    ensures AreBytes(Patch.Slot(c, at, n)) && |Patch.Slot(c, at, n)| == n
  {
  }

  lemma SetsLength(o: seq<nat>, bs: seq<nat>, value: bool)
    ensures SetsConstant(o, bs, value) ==> |bs| == |o|
    ensures Moves(o, bs) ==> |bs| == |o|
  {
  }

  lemma NopsRealise(f: Finding, size: nat, isa: Isa, adapter: Adapter, c: Patch.Bytes)
    requires 0 < size <= 16 && f.fallthrough == Some(f.address + size) && f.kind == CMovCc && f.verdict == AlwaysFalse
    ensures Realises(Patch.Operation(f.address, size, NopBuffer(size)), f, isa, adapter, c)
  {
    hide IsNops, NopUnit;
    var o: seq<nat> := if Patch.Mapped(c, f.address, size) then Patch.Slot(c, f.address, size) else [];
    assert Rewrites(f, isa, adapter, o, NopBuffer(size));
  }

  method PlanCmovcc(f: Finding, size: nat, isa: Isa, adapter: Adapter, device: Patch.Device) returns (d: Decision, ghost fault: bool)
    requires 0 < size <= 16 && f.fallthrough == Some(f.address + size) && f.kind == CMovCc
    requires forall a :: a in device.contents ==> device.contents[a] < 256
    ensures d.Plan? ==> Realises(d.op, f, isa, adapter, device.contents)
    ensures fault || Rightly(d, f, size, isa, adapter, device.contents)
    ensures fault ==> d.Abort?
    ensures device.reliable ==> !fault
  {
    if f.verdict == Undecided {
      return Abort, false;
    }
    if f.verdict == AlwaysFalse {
      NopsRealise(f, size, isa, adapter, device.contents);
      return Plan(Patch.Operation(f.address, size, NopBuffer(size))), false;
    }
    hide NopBuffer, IsNops, NopUnit;
    var original;
    original, fault := device.Read(f.address, size);
    if original.None? {
      return Abort, fault;
    }
    SlotIsBytes(device.contents, f.address, size);
    hide IsCmovcc, Moves, Patch.Slot, Patch.Mapped;
    var bytes := PatchCmovcc(original.value);
    if bytes.None? {
      return Skip, false;
    }
    SetsLength(original.value, bytes.value, true);
    assert Rewrites(f, isa, adapter, original.value, bytes.value);
    return Plan(Patch.Operation(f.address, size, bytes.value)), false;
  }

  /** The gates every planned finding has passed. */
  predicate Admitted(f: Finding, minConfidence: nat, isa: Isa, adapter: Adapter) {
    && f.actionable && f.confidence <= minConfidence && f.kind != OtherKind && f.verdict != Undecided
    && f.fallthrough.Some? && f.fallthrough.value > f.address
    && var size: nat := f.fallthrough.value - f.address;
    && adapter.validRange(f.address, size)
    && (isa != X86 && !f.isThumb ==> size % 4 == 0)
    && (f.isThumb ==> size % 2 == 0)
  }

  /** The finding reaches a decision: it is wanted, and its instruction is there and aligned. */
  ghost predicate Reached(f: Finding, minConfidence: nat, isa: Isa, c: Patch.Bytes) {
    && f.actionable && f.confidence <= minConfidence && f.kind != OtherKind && Measured(f, c)
    && var size := f.fallthrough.value - f.address;
    && (isa != X86 && !f.isThumb ==> size % 4 == 0)
    && (f.isThumb ==> size % 2 == 0)
  }

  /** The finding passes every gate and has a rewrite. */
  ghost predicate Plannable(f: Finding, minConfidence: nat, isa: Isa, adapter: Adapter, c: Patch.Bytes) {
    Reached(f, minConfidence, isa, c) && var size: nat := f.fallthrough.value - f.address;
    adapter.validRange(f.address, size) && Rewritable(f, size, isa, adapter, c)
  }

  /** The finding stops the whole plan. */
  ghost predicate Stops(f: Finding, minConfidence: nat, isa: Isa, adapter: Adapter, c: Patch.Bytes) {
    Reached(f, minConfidence, isa, c) && var size: nat := f.fallthrough.value - f.address;
    !adapter.validRange(f.address, size) || Hopeless(f, size, isa, adapter, c)
  }

  /** A plan exactly for what passes every gate and has a rewrite, an abort exactly for what stops
      the plan, when the device is reliable; a failed read never makes a plan. */
  method ConsiderFinding(f: Finding, minConfidence: nat, isa: Isa, adapter: Adapter, device: Patch.Device) returns (d: Decision, ghost fault: bool)
    requires forall a :: a in device.contents ==> device.contents[a] < 256
    ensures d.Plan? ==> Realises(d.op, f, isa, adapter, device.contents) && Admitted(f, minConfidence, isa, adapter)
    ensures d.Plan? ==> Plannable(f, minConfidence, isa, adapter, device.contents)
    ensures !fault ==> (d.Plan? <==> Plannable(f, minConfidence, isa, adapter, device.contents))
    ensures !fault ==> (d.Abort? <==> Stops(f, minConfidence, isa, adapter, device.contents))
    ensures fault ==> !d.Plan?
    ensures device.reliable ==> !fault
  {
    if !f.actionable || f.confidence > minConfidence || f.kind == OtherKind {
      return Skip, false;
    }
    hide Patch.Mapped;
    var size;
    size, fault := MeasureInstructionSize(f, device);
    if size.None? {
      return Skip, fault;
    }
    if isa != X86 && !f.isThumb && size.value % ARM_INSTRUCTION_BYTES != 0 {
      return Skip, false;
    }
    if f.isThumb && size.value % THUMB_HALFWORD_BYTES != 0 {
      return Skip, false;
    }
    if !adapter.validRange(f.address, size.value) {
      return Abort, false;
    }
    d, fault := Decide(f, size.value, isa, adapter, device);
    DecidedOnly(f, size.value, isa, adapter, device.contents);
    hide Rewritable, Hopeless, Realises, Measured;
  }

  lemma DecidedOnly(f: Finding, size: nat, isa: Isa, adapter: Adapter, c: Patch.Bytes)
    ensures Rewritable(f, size, isa, adapter, c) ==> f.verdict != Undecided
    ensures !(Rewritable(f, size, isa, adapter, c) && Hopeless(f, size, isa, adapter, c))
  {
  }

  /** The rewrite for the finding's kind. */
  method Decide(f: Finding, size: nat, isa: Isa, adapter: Adapter, device: Patch.Device) returns (d: Decision, ghost fault: bool)
    requires 0 < size <= 16 && f.fallthrough == Some(f.address + size) && f.kind != OtherKind
    requires forall a :: a in device.contents ==> device.contents[a] < 256
    ensures d.Plan? ==> Realises(d.op, f, isa, adapter, device.contents)
    ensures fault || Rightly(d, f, size, isa, adapter, device.contents)
    ensures fault ==> d.Abort?
    ensures device.reliable ==> !fault
  {
    hide *;
    if f.kind == Jcc {
      d := PlanJcc(f, size, isa, adapter, device.contents);
      fault := false;
    } else if f.kind == SetCc {
      d, fault := PlanSetcc(f, size, isa, adapter, device);
    } else {
      d, fault := PlanCmovcc(f, size, isa, adapter, device);
    }
  }

  // ---- The whole plan ----

  predicate Apart(x: Op, y: Op) {
    x.address + x.size <= y.address || y.address + y.size <= x.address
  }

  predicate AllApart(ops: seq<Op>) {
    forall i, j :: 0 <= i < j < |ops| ==> Apart(ops[i], ops[j])
  }

  predicate Ordered(ops: seq<Op>) {
    forall i, j :: 0 <= i < j < |ops| ==> ops[i].address <= ops[j].address
  }

  method SortByAddress(ops: seq<Op>) returns (s: seq<Op>)
    ensures multiset(s) == multiset(ops) && Ordered(s)
  {
    s := [];
    for k := 0 to |ops|
      invariant multiset(s) == multiset(ops[..k]) && Ordered(s)
    {
      assert ops[..k + 1] == ops[..k] + [ops[k]];
      s := InsertOp(s, ops[k]);
    }
    assert ops[..|ops|] == ops;
  }

  method InsertOp(s: seq<Op>, x: Op) returns (r: seq<Op>)
    requires Ordered(s)
    ensures multiset(r) == multiset(s) + multiset{x} && Ordered(r)
  {
    var k := |s|;
    while k > 0 && s[k - 1].address > x.address
      invariant 0 <= k <= |s| && (k < |s| ==> s[k].address > x.address)
    {
      k := k - 1;
    }
    InsertKeepsOrder(s, x, k);
    r := s[..k] + [x] + s[k..];
    assert s == s[..k] + s[k..];
  }

  lemma InsertKeepsOrder(s: seq<Op>, x: Op, k: nat)
    requires Ordered(s) && k <= |s| && (k > 0 ==> s[k - 1].address <= x.address) && (k < |s| ==> x.address <= s[k].address)
    ensures Ordered(s[..k] + [x] + s[k..])
  {
    var r := s[..k] + [x] + s[k..];
    forall i, j | 0 <= i < j < |r| ensures r[i].address <= r[j].address {
      assert r[i] == if i < k then s[i] else if i == k then x else s[i - 1];
      assert r[j] == if j < k then s[j] else if j == k then x else s[j - 1];
    }
  }

  /** In address order it is enough to compare neighbours. */
  lemma {:induction false} NeighboursSuffice(s: seq<Op>, i: nat, j: nat)
    requires Ordered(s) && i < j < |s| && forall k :: 0 <= k < |s| - 1 ==> s[k].address + s[k].size <= s[k + 1].address
    ensures s[i].address + s[i].size <= s[j].address
    decreases j
  {
    if i < j - 1 { NeighboursSuffice(s, i, j - 1); }
  }

  function Without(s: seq<Op>, k: nat): seq<Op>
    requires k < |s|
  {
    s[..k] + s[k + 1..]
  }

  lemma ApartWithout(s: seq<Op>, k: nat)
    requires k < |s| && AllApart(s)
    ensures AllApart(Without(s, k)) && forall m :: 0 <= m < |s| - 1 ==> Apart(s[k], Without(s, k)[m])
  {
    var s' := Without(s, k);
    forall i | 0 <= i < |s'| ensures s'[i] == s[if i < k then i else i + 1] { }
    forall i, j | 0 <= i < j < |s'| ensures Apart(s'[i], s'[j]) {
      assert Apart(s[if i < k then i else i + 1], s[if j < k then j else j + 1]);
    }
    forall m | 0 <= m < |s'| ensures Apart(s[k], s'[m]) {
      if m < k { assert Apart(s[m], s[k]); } else { assert Apart(s[k], s[m + 1]); }
    }
  }

  lemma FirstRemoved(t: seq<Op>)
    requires t != []
    ensures Without(t, 0) == t[1..]
  {
  }

  lemma Removed(s: seq<Op>, k: nat)
    requires k < |s|
    ensures multiset(Without(s, k)) == multiset(s) - multiset{s[k]}
  {
    assert s == s[..k] + [s[k]] + s[k + 1..];
    assert multiset(s) == multiset(s[..k]) + multiset{s[k]} + multiset(s[k + 1..]);
    assert multiset(Without(s, k)) == multiset(s[..k]) + multiset(s[k + 1..]);
  }

  lemma ApartCons(x: Op, rest: seq<Op>, s: seq<Op>)
    requires AllApart(rest) && multiset(s) == multiset(rest) && forall m :: 0 <= m < |s| ==> Apart(x, s[m])
    ensures AllApart([x] + rest)
  {
    hide Apart;
    var t := [x] + rest;
    forall j | 0 <= j < |rest| ensures Apart(x, rest[j]) {
      assert rest[j] in multiset(rest) && rest[j] in multiset(s);
      var m :| 0 <= m < |s| && s[m] == rest[j];
    }
    forall i, j | 0 <= i < j < |t| ensures Apart(t[i], t[j]) {
      if i > 0 { assert Apart(rest[i - 1], rest[j - 1]); }
    }
  }

  /** The slots being apart does not depend on the order. */
  lemma {:induction false} ApartAnyOrder(s: seq<Op>, t: seq<Op>)
    requires multiset(s) == multiset(t) && AllApart(s)
    ensures AllApart(t)
    decreases |t|
  {
    hide AllApart, Apart, Without;
    if t == [] {
      assert AllApart([]) by { NoneApart(); }
    } else {
      var x, rest := t[0], t[1..];
      assert t == [x] + rest && x in multiset(t) && x in multiset(s);
      var k :| 0 <= k < |s| && s[k] == x;
      var s' := Without(s, k);
      Removed(s, k);
      Removed(t, 0);
      assert Without(t, 0) == rest by { FirstRemoved(t); }
      ApartWithout(s, k);
      ApartAnyOrder(s', rest);
      ApartCons(x, rest, s');
    }
  }

  lemma NoneApart()
    ensures AllApart([])
  {
  }

  const U64 := 0xFFFF_FFFF_FFFF_FFFF

  /** The overlap check accepts exactly the plans whose slots are apart. */
  method CheckOverlaps(ops: seq<Op>) returns (ok: bool)
    requires forall i :: 0 <= i < |ops| ==> 0 < ops[i].size && ops[i].address <= U64
    ensures ok <==> AllApart(ops)
  {
    hide Ordered, Apart, AllApart;
    var ranges := SortByAddress(ops);
    SizesStay(ops, ranges);
    var k := 0;
    while k + 1 < |ranges|
      invariant 0 <= k && forall i :: 0 <= i < k && i + 1 < |ranges| ==> ranges[i].address + ranges[i].size <= ranges[i + 1].address
    {
      var leftEnd := ranges[k].address + ranges[k].size;
      if leftEnd > U64 || leftEnd > ranges[k + 1].address {
        if AllApart(ops) {
          ApartAnyOrder(ops, ranges);
          NeighboursApart(ranges, k);
        }
        return false;
      }
      k := k + 1;
    }
    AllNeighbours(ranges);
    ApartAnyOrder(ranges, ops);
    return true;
  }

  lemma SizesStay(ops: seq<Op>, ranges: seq<Op>)
    requires multiset(ranges) == multiset(ops) && forall i :: 0 <= i < |ops| ==> 0 < ops[i].size && ops[i].address <= U64
    ensures forall i :: 0 <= i < |ranges| ==> 0 < ranges[i].size && ranges[i].address <= U64
  {
    forall i | 0 <= i < |ranges| ensures 0 < ranges[i].size && ranges[i].address <= U64 {
      assert ranges[i] in multiset(ranges) && ranges[i] in multiset(ops);
    }
  }

  /** In address order the earlier slot of two ends before the later one starts. */
  lemma NeighboursApart(s: seq<Op>, k: nat)
    requires AllApart(s) && Ordered(s) && k + 1 < |s| && 0 < s[k + 1].size
    ensures s[k].address + s[k].size <= s[k + 1].address
  {
    assert Apart(s[k], s[k + 1]);
  }

  lemma AllNeighbours(s: seq<Op>)
    requires Ordered(s) && forall k :: 0 <= k < |s| - 1 ==> s[k].address + s[k].size <= s[k + 1].address
    ensures AllApart(s)
  {
    hide Ordered;
    forall i, j | 0 <= i < j < |s| ensures Apart(s[i], s[j]) { NeighboursSuffice(s, i, j); }
  }

  /** What the plan says of its findings: `from[i]` is the finding operation `i` realises, in order. */
  ghost predicate Plans(ops: seq<Op>, from: seq<nat>, fs: seq<Finding>, minConfidence: nat, isa: Isa, adapter: Adapter, c: Patch.Bytes) {
    && |from| == |ops|
    && (forall i :: 0 <= i < |from| ==> from[i] < |fs|)
    && (forall i, j :: 0 <= i < j < |from| ==> from[i] < from[j])
    && (forall i :: 0 <= i < |ops| ==> Realises(ops[i], fs[from[i]], isa, adapter, c) && Admitted(fs[from[i]], minConfidence, isa, adapter))
  }

  lemma PlanMore(ops: seq<Op>, from: seq<nat>, fs: seq<Finding>, k: nat, op: Op, minConfidence: nat, isa: Isa, adapter: Adapter, c: Patch.Bytes)
    requires k < |fs| && Plans(ops, from, fs[..k], minConfidence, isa, adapter, c)
    ensures Plans(ops, from, fs[..k + 1], minConfidence, isa, adapter, c)
    ensures Realises(op, fs[k], isa, adapter, c) && Admitted(fs[k], minConfidence, isa, adapter) ==>
              Plans(ops + [op], from + [k], fs[..k + 1], minConfidence, isa, adapter, c)
  {
    hide Realises, Admitted;
  }

  lemma FitsSlot(op: Op, f: Finding, isa: Isa, adapter: Adapter, c: Patch.Bytes)
    requires Realises(op, f, isa, adapter, c)
    ensures 0 < op.size && op.address == f.address
  {
  }

  /** The instructions of two findings share no byte. */
  predicate Clear(f: Finding, g: Finding) {
    f.fallthrough.Some? && g.fallthrough.Some? && (f.fallthrough.value <= g.address || g.fallthrough.value <= f.address)
  }

  ghost predicate PlannableApart(fs: seq<Finding>, minConfidence: nat, isa: Isa, adapter: Adapter, c: Patch.Bytes) {
    forall i, j :: 0 <= i < j < |fs| && Plannable(fs[i], minConfidence, isa, adapter, c) && Plannable(fs[j], minConfidence, isa, adapter, c) ==>
      Clear(fs[i], fs[j])
  }

  ghost predicate NoneStops(fs: seq<Finding>, minConfidence: nat, isa: Isa, adapter: Adapter, c: Patch.Bytes) {
    forall i :: 0 <= i < |fs| ==> !Stops(fs[i], minConfidence, isa, adapter, c)
  }

  /** Exactly the findings that can be planned were. */
  ghost predicate PlansAll(from: seq<nat>, fs: seq<Finding>, minConfidence: nat, isa: Isa, adapter: Adapter, c: Patch.Bytes) {
    forall i :: 0 <= i < |fs| ==> (i in from <==> Plannable(fs[i], minConfidence, isa, adapter, c))
  }

  lemma FitsClear(x: Op, f: Finding, y: Op, g: Finding, isa: Isa, adapter: Adapter, c: Patch.Bytes)
    requires Realises(x, f, isa, adapter, c) && Realises(y, g, isa, adapter, c)
    ensures Apart(x, y) <==> Clear(f, g)
  {
  }

  lemma Ranked(from: seq<nat>, p: nat, q: nat)
    requires p < |from| && q < |from| && from[p] < from[q] && forall i, j :: 0 <= i < j < |from| ==> from[i] < from[j]
    ensures p < q
  {
  }

  /** The slots of the plan are apart exactly when the instructions of what can be planned are. */
  lemma ApartAsFindings(ops: seq<Op>, from: seq<nat>, fs: seq<Finding>, minConfidence: nat, isa: Isa, adapter: Adapter, c: Patch.Bytes)
    requires Plans(ops, from, fs, minConfidence, isa, adapter, c) && PlansAll(from, fs, minConfidence, isa, adapter, c)
    ensures AllApart(ops) <==> PlannableApart(fs, minConfidence, isa, adapter, c)
  {
    hide Realises, Admitted, Plannable, Apart, Clear;
    forall p, q | 0 <= p < q < |ops| ensures Apart(ops[p], ops[q]) <==> Clear(fs[from[p]], fs[from[q]]) {
      FitsClear(ops[p], fs[from[p]], ops[q], fs[from[q]], isa, adapter, c);
    }
    if PlannableApart(fs, minConfidence, isa, adapter, c) {
      forall p, q | 0 <= p < q < |ops| ensures Apart(ops[p], ops[q]) {
        assert from[p] in from && from[q] in from && from[p] < from[q];
      }
    }
    if AllApart(ops) {
      forall i, j | 0 <= i < j < |fs| && Plannable(fs[i], minConfidence, isa, adapter, c) && Plannable(fs[j], minConfidence, isa, adapter, c)
        ensures Clear(fs[i], fs[j])
      {
        var p :| 0 <= p < |from| && from[p] == i;
        var q :| 0 <= q < |from| && from[q] == j;
        Ranked(from, p, q);
      }
    }
  }

  lemma PlansAllMore(from: seq<nat>, fs: seq<Finding>, k: nat, minConfidence: nat, isa: Isa, adapter: Adapter, c: Patch.Bytes)
    requires k < |fs| && PlansAll(from, fs[..k], minConfidence, isa, adapter, c) && NoneStops(fs[..k], minConfidence, isa, adapter, c)
    requires forall i :: 0 <= i < |from| ==> from[i] < k
    ensures Plannable(fs[k], minConfidence, isa, adapter, c) ==> PlansAll(from + [k], fs[..k + 1], minConfidence, isa, adapter, c)
    ensures !Plannable(fs[k], minConfidence, isa, adapter, c) ==> PlansAll(from, fs[..k + 1], minConfidence, isa, adapter, c)
    ensures !Stops(fs[k], minConfidence, isa, adapter, c) ==> NoneStops(fs[..k + 1], minConfidence, isa, adapter, c)
  {
    hide Plannable, Stops;
    assert forall i :: 0 <= i < k ==> fs[..k + 1][i] == fs[..k][i];
  }

  lemma FromBelow(ops: seq<Op>, from: seq<nat>, fs: seq<Finding>, k: nat, minConfidence: nat, isa: Isa, adapter: Adapter, c: Patch.Bytes)
    requires k <= |fs| && Plans(ops, from, fs[..k], minConfidence, isa, adapter, c)
    ensures forall i :: 0 <= i < |from| ==> from[i] < k
  {
    hide Realises, Admitted;
  }

  /** Every operation rewrites its own finding's instruction, no finding is used twice or out of order,
      and no two operations share a byte. On a reliable device the plan holds exactly the findings
      that pass every gate and have a rewrite, and there is none exactly when a finding stops it or two
      of those findings overlap. */
  method BuildPlan(findings: seq<Finding>, minConfidence: nat, isa: Isa, adapter: Adapter, device: Patch.Device)
    returns (r: Option<(seq<Op>, seq<nat>)>, ghost from: seq<nat>, ghost fault: bool)
    requires forall i :: 0 <= i < |findings| ==> findings[i].address <= U64
    requires forall a :: a in device.contents ==> device.contents[a] < 256
    ensures r.Some? ==> AllApart(r.value.0) && Plans(r.value.0, from, findings, minConfidence, isa, adapter, device.contents)
    ensures r.Some? ==> |r.value.0| + |r.value.1| == |findings|
    ensures r.Some? && !fault ==> PlansAll(from, findings, minConfidence, isa, adapter, device.contents)
    ensures !fault ==>
      (r.Some? <==> NoneStops(findings, minConfidence, isa, adapter, device.contents) && PlannableApart(findings, minConfidence, isa, adapter, device.contents))
    ensures device.reliable ==> !fault
  {
    var operations: seq<Op>;
    var skipped: seq<nat>;
    var stopped;
    operations, skipped, stopped, from, fault := PlanEach(findings, minConfidence, isa, adapter, device);
    if stopped {
      return None, from, fault;
    }
    forall i | 0 <= i < |operations| ensures 0 < operations[i].size && operations[i].address <= U64 {
      FitsSlot(operations[i], findings[from[i]], isa, adapter, device.contents);
    }
    hide Realises, Admitted, Plans, PlansAll, NoneStops, PlannableApart;
    var ok := CheckOverlaps(operations);
    if !fault { ApartAsFindings(operations, from, findings, minConfidence, isa, adapter, device.contents); }
    return if ok then Some((operations, skipped)) else None, from, fault;
  }

  /** The loop over the findings; it ends early at the first one that stops the plan. */
  method PlanEach(findings: seq<Finding>, minConfidence: nat, isa: Isa, adapter: Adapter, device: Patch.Device)
    returns (operations: seq<Op>, skipped: seq<nat>, stopped: bool, ghost from: seq<nat>, ghost fault: bool)
    requires forall a :: a in device.contents ==> device.contents[a] < 256
    ensures !stopped ==> Plans(operations, from, findings, minConfidence, isa, adapter, device.contents) && |operations| + |skipped| == |findings|
    ensures !fault && !stopped ==> PlansAll(from, findings, minConfidence, isa, adapter, device.contents)
    ensures !fault ==> (stopped <==> !NoneStops(findings, minConfidence, isa, adapter, device.contents))
    ensures device.reliable ==> !fault
  {
    operations, skipped, from, fault := [], [], [], false;
    hide Realises, Admitted, Plannable, Stops;
    for k := 0 to |findings|
      invariant Plans(operations, from, findings[..k], minConfidence, isa, adapter, device.contents) && |operations| + |skipped| == k
      invariant !fault ==> PlansAll(from, findings[..k], minConfidence, isa, adapter, device.contents)
      invariant !fault ==> NoneStops(findings[..k], minConfidence, isa, adapter, device.contents)
      invariant device.reliable ==> !fault
    {
      FromBelow(operations, from, findings, k, minConfidence, isa, adapter, device.contents);
      hide Plans, PlansAll;
      var d, missed := ConsiderFinding(findings[k], minConfidence, isa, adapter, device);
      PlanMore(operations, from, findings, k, if d.Plan? then d.op else Patch.Operation(0, 0, []), minConfidence, isa, adapter, device.contents);
      if !fault { PlansAllMore(from, findings, k, minConfidence, isa, adapter, device.contents); }
      fault := fault || missed;
      match d {
        case Plan(op) =>
          operations := operations + [op];
          from := from + [k];
        case Skip => skipped := skipped + [findings[k].address];
        case Abort =>
          stopped := true;
          return;
      }
    }
    assert findings[..|findings|] == findings;
    stopped := false;
  }

  /** What `BuildPlan` hands over can be applied, verified and rolled back. */
  lemma PlansRoundTrip(ops: seq<Op>, rs: seq<Patch.Record>, c: Patch.Bytes)
    requires AllApart(ops) && Patch.Records(rs, ops, c)
    ensures var done := Patch.Written(c, rs, |rs|);
      && (forall k :: 0 <= k < |rs| ==> Patch.HoldsPatch(rs[k], done))
      && Patch.AllMatched(done, rs, 0) && Patch.Restored(done, rs, 0) == c
  {
    hide Patch.Describes, Patch.Written, Patch.Restored, Patch.HoldsPatch, Patch.AllMatched;
    assert Patch.SlotsDisjoint(rs) by {
      forall i, j, a: nat | 0 <= i < j < |rs| && Patch.Touches(rs[i], a) ensures !Patch.Touches(rs[j], a) {
        assert Apart(ops[i], ops[j]);
      }
    }
    Patch.RollbackIdentity(c, rs);
    forall k | 0 <= k < |rs| ensures Patch.HoldsPatch(rs[k], Patch.Written(c, rs, |rs|)) { Patch.CommittedVerifies(c, rs, k); }
  }
}
