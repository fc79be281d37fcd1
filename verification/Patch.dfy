/** Applying a patch plan as a transaction over a byte device whose writes may fail
    half-way, and undoing a committed one from its manifest. */
module Patch {
  import opened Common

  type Bytes = map<nat, nat>

  // ---- Slots ----

  predicate InSlot(a: nat, at: nat, n: nat) {
    at <= a < at + n
  }

  predicate Mapped(c: Bytes, at: nat, n: nat) {
    forall a :: at <= a < at + n ==> a in c
  }

  function Slot(c: Bytes, at: nat, n: nat): seq<nat>
    requires Mapped(c, at, n)
  {
    seq(n, i requires 0 <= i < n => assert InSlot(at + i, at, n); c[at + i])
  }

  function Overwrite(c: Bytes, at: nat, bs: seq<nat>): Bytes {
    c + map a: nat | at <= a < at + |bs| && InSlot(a, at, |bs|) :: bs[a - at]
  }

  /** Only the slot changes, to the bytes given. */
  lemma Overwritten(c: Bytes, at: nat, bs: seq<nat>)
    ensures forall a :: a in Overwrite(c, at, bs) <==> a in c || InSlot(a, at, |bs|)
    ensures forall a {:trigger Overwrite(c, at, bs)[a]} :: a in Overwrite(c, at, bs) ==>
      Overwrite(c, at, bs)[a] == if InSlot(a, at, |bs|) then bs[a - at] else c[a]
  {
  }

  /** `now` is `c` with anything at all in one slot. */
  ghost predicate Junked(c: Bytes, at: nat, n: nat, now: Bytes) {
    exists junk: seq<nat> :: |junk| == n && now == Overwrite(c, at, junk)
  }

  /** The target file: reads and writes may fail at any time, unless the device is a reliable
      one, and a failed write leaves anything in the slot it was for. */
  class Device {
    const reliable: bool
    var contents: Bytes
    ghost var writes: nat
    ghost var failures: nat

    constructor (contents: Bytes, reliable: bool)
      ensures this.contents == contents && this.reliable == reliable && writes == failures == 0
    {
      this.contents, this.reliable := contents, reliable;
      writes, failures := 0, 0;
    }

    /** `fault` says that the device failed on bytes that are there. */
    method Read(at: nat, n: nat) returns (r: Option<seq<nat>>, ghost fault: bool)
      ensures r.Some? ==> Mapped(contents, at, n) && r.value == Slot(contents, at, n)
      ensures r.None? ==> fault || !Mapped(contents, at, n)
      ensures r.Some? ==> !fault
      ensures reliable ==> !fault
    {
      var fails: bool := *;
      fails := fails && !reliable;
      if fails || exists a :: at <= a < at + n && a !in contents {
        return None, fails;
      }
      assert Mapped(contents, at, n);
      return Some(Slot(contents, at, n)), false;
    }

    method Write(at: nat, bs: seq<nat>) returns (ok: bool)
      modifies this
      ensures ok ==> contents == Overwrite(old(contents), at, bs)
      ensures !ok ==> Junked(old(contents), at, |bs|, contents)
      ensures writes == old(writes) + 1
      ensures failures == old(failures) + (if ok then 0 else 1)
      ensures reliable ==> ok
    {
      ok := *;
      ok := ok || reliable;
      writes := writes + 1;
      var written := bs;
      if !ok {
        failures := failures + 1;
        var junk: seq<nat> :| |junk| == |bs|;
        written := junk;
      }
      contents := Overwrite(contents, at, written);
    }
  }

  // ---- Plans and manifests ----

  datatype Operation = Operation(address: nat, size: nat, newBytes: seq<nat>)
  datatype Record = Record(address: nat, original: seq<nat>, patched: seq<nat>)
  datatype Status = Recovered | RecoveryFailed
  /** `Errored` is the bare error of a target that cannot be hashed: no manifest says what
      became of it, and `records` are the ones on disk. */
  datatype Outcome = Committed(records: seq<Record>) | Failed(status: Status, records: seq<Record>) | Errored(records: seq<Record>)

  ghost predicate Touches(r: Record, a: nat) {
    InSlot(a, r.address, |r.original|)
  }

  /** A record of the state `c`: original bytes read there, replacement of that size. */
  ghost predicate Describes(r: Record, c: Bytes) {
    Mapped(c, r.address, |r.original|) && r.original == Slot(c, r.address, |r.original|) && |r.patched| == |r.original|
  }

  ghost predicate AllDescribe(rs: seq<Record>, c: Bytes) {
    forall i :: 0 <= i < |rs| ==> Describes(rs[i], c)
  }

  /** The state after the first `n` records are written, in order. */
  function Written(c: Bytes, rs: seq<Record>, n: nat): Bytes
    requires n <= |rs|
  {
    if n == 0 then c else Overwrite(Written(c, rs, n - 1), rs[n - 1].address, rs[n - 1].patched)
  }

  /** Nothing differs from `c` but inside the first `n` slots. */
  ghost predicate DiffersOnlyIn(now: Bytes, c: Bytes, rs: seq<Record>, n: nat)
    requires n <= |rs|
  {
    now.Keys == c.Keys && forall a :: a in c && now[a] != c[a] ==> exists i :: 0 <= i < n && Touches(rs[i], a)
  }

  lemma OverwriteInside(now: Bytes, c: Bytes, rs: seq<Record>, n: nat, bs: seq<nat>)
    requires n < |rs| && DiffersOnlyIn(now, c, rs, n) && Describes(rs[n], c) && |bs| == |rs[n].original|
    ensures DiffersOnlyIn(Overwrite(now, rs[n].address, bs), c, rs, n + 1)
  {
    Overwritten(now, rs[n].address, bs);
    hide Overwrite;
    var next := Overwrite(now, rs[n].address, bs);
    forall a | a in c && next[a] != c[a] ensures exists i :: 0 <= i < n + 1 && Touches(rs[i], a) {
      if !Touches(rs[n], a) {
        var i :| 0 <= i < n && Touches(rs[i], a);
      }
    }
  }

  lemma {:induction false} WrittenInside(c: Bytes, rs: seq<Record>, n: nat)
    requires n <= |rs| && AllDescribe(rs, c)
    ensures DiffersOnlyIn(Written(c, rs, n), c, rs, n)
    decreases n
  {
    hide Overwrite, Describes;
    if n > 0 {
      WrittenInside(c, rs, n - 1);
      SameSize(rs[n - 1], c);
      OverwriteInside(Written(c, rs, n - 1), c, rs, n - 1, rs[n - 1].patched);
    }
  }

  lemma SameSize(r: Record, c: Bytes)
    requires Describes(r, c)
    ensures |r.patched| == |r.original|
  {
  }

  /** Putting a slot's original bytes back leaves one slot fewer to differ. */
  lemma RestoreInside(now: Bytes, c: Bytes, rs: seq<Record>, n: nat)
    requires 0 < n <= |rs| && DiffersOnlyIn(now, c, rs, n) && Describes(rs[n - 1], c)
    ensures DiffersOnlyIn(Overwrite(now, rs[n - 1].address, rs[n - 1].original), c, rs, n - 1)
  {
    var r := rs[n - 1];
    var next := Overwrite(now, r.address, r.original);
    RestoreKeys(now, c, r);
    forall a | a in c && next[a] != c[a] ensures exists i :: 0 <= i < n - 1 && Touches(rs[i], a) {
      RestoreStep(c, now, r, a);
      hide Overwrite, Describes, Touches;
      assert !Touches(r, a);
      var i :| 0 <= i < n && Touches(rs[i], a);
    }
  }

  lemma RestoreKeys(now: Bytes, c: Bytes, r: Record)
    requires Describes(r, c) && now.Keys == c.Keys
    ensures Overwrite(now, r.address, r.original).Keys == c.Keys
  {
    Overwritten(now, r.address, r.original);
    hide Overwrite;
    var next := Overwrite(now, r.address, r.original);
    assert forall a :: a in next.Keys <==> a in c.Keys;
  }

  lemma NothingDiffers(now: Bytes, c: Bytes, rs: seq<Record>)
    requires DiffersOnlyIn(now, c, rs, 0)
    ensures now == c
  {
  }

  lemma JunkInside(now: Bytes, c: Bytes, rs: seq<Record>, n: nat, k: nat, bs: seq<nat>)
    requires n < k <= |rs| && DiffersOnlyIn(now, c, rs, k) && Describes(rs[n], c) && |bs| == |rs[n].original|
    ensures DiffersOnlyIn(Overwrite(now, rs[n].address, bs), c, rs, k)
  {
    Overwritten(now, rs[n].address, bs);
    hide Overwrite;
    var next := Overwrite(now, rs[n].address, bs);
    forall a | a in c && next[a] != c[a] ensures exists i :: 0 <= i < k && Touches(rs[i], a) {
      assert Touches(rs[n], a) || now[a] != c[a];
    }
  }

  // ---- Apply ----

  /** The records a plan makes of the state `c`. */
  ghost predicate Records(rs: seq<Record>, ops: seq<Operation>, c: Bytes) {
    |rs| == |ops| && AllDescribe(rs, c) && forall i :: 0 <= i < |ops| ==>
      rs[i].address == ops[i].address && rs[i].patched == ops[i].newBytes && |rs[i].original| == ops[i].size
  }

  /** One recovery write: the slot is back, or still the only kind of place that differs. */
  lemma RecoverStep(before: Bytes, now: Bytes, c: Bytes, rs: seq<Record>, j: nat, n: nat, ok: bool)
    requires 0 < j <= n <= |rs| && AllDescribe(rs, c) && DiffersOnlyIn(before, c, rs, n)
    requires ok ==> now == Overwrite(before, rs[j - 1].address, rs[j - 1].original)
    requires !ok ==> Junked(before, rs[j - 1].address, |rs[j - 1].original|, now)
    ensures DiffersOnlyIn(now, c, rs, n)
    ensures ok && DiffersOnlyIn(before, c, rs, j) ==> DiffersOnlyIn(now, c, rs, j - 1)
  {
    var junk :| |junk| == |rs[j - 1].original| && now == Overwrite(before, rs[j - 1].address, junk);
    assert Describes(rs[j - 1], c);
    hide Overwrite, DiffersOnlyIn, Describes, AllDescribe, Junked;
    JunkInside(before, c, rs, j - 1, n, junk);
    if ok && DiffersOnlyIn(before, c, rs, j) { RestoreInside(before, c, rs, j); }
  }

  /** Undo the first `n` records, last first; every failure is noted. */
  method Recover(device: Device, rs: seq<Record>, n: nat, ghost c: Bytes) returns (clean: bool)
    requires n <= |rs| && AllDescribe(rs, c) && DiffersOnlyIn(device.contents, c, rs, n)
    modifies device
    ensures clean <==> device.failures == old(device.failures)
    ensures clean ==> device.contents == c
    ensures DiffersOnlyIn(device.contents, c, rs, n)
    ensures device.failures >= old(device.failures)
    ensures device.reliable ==> clean
  {
    clean := true;
    var j: nat := n;
    hide *;
    while j > 0
      invariant j <= n && DiffersOnlyIn(device.contents, c, rs, n)
      invariant clean ==> DiffersOnlyIn(device.contents, c, rs, j)
      invariant device.failures >= old(device.failures)
      invariant clean <==> device.failures == old(device.failures)
      invariant device.reliable ==> clean
    {
      ghost var before := device.contents;
      var ok := device.Write(rs[j - 1].address, rs[j - 1].original);
      RecoverStep(before, device.contents, c, rs, j, n, ok);
      clean := clean && ok;
      j := j - 1;
    }
    if clean { NothingDiffers(device.contents, c, rs); }
  }

  /** Every slot is there and as long as its replacement. */
  ghost predicate Applicable(ops: seq<Operation>, c: Bytes) {
    forall i :: 0 <= i < |ops| ==> Mapped(c, ops[i].address, ops[i].size) && ops[i].size == |ops[i].newBytes|
  }

  lemma RecordsSnoc(rs: seq<Record>, ops: seq<Operation>, k: nat, c: Bytes)
    requires k < |ops| && Records(rs, ops[..k], c) && Applicable(ops[..k], c)
    requires Mapped(c, ops[k].address, ops[k].size) && ops[k].size == |ops[k].newBytes|
    ensures Records(rs + [Record(ops[k].address, Slot(c, ops[k].address, ops[k].size), ops[k].newBytes)], ops[..k + 1], c)
    ensures Applicable(ops[..k + 1], c)
  {
    assert |Slot(c, ops[k].address, ops[k].size)| == ops[k].size;
    hide Mapped, Slot;
    var more := rs + [Record(ops[k].address, Slot(c, ops[k].address, ops[k].size), ops[k].newBytes)];
    assert Describes(more[k], c);
    hide Describes;
    assert forall i :: 0 <= i < k ==> more[i] == rs[i] && ops[..k + 1][i] == ops[..k][i];
  }

  /** Read and size every original before anything is written. */
  method Preflight(device: Device, ops: seq<Operation>) returns (rs: Option<seq<Record>>, ghost fault: bool)
    ensures rs.Some? ==> Records(rs.value, ops, device.contents) && Applicable(ops, device.contents)
    ensures rs.None? ==> fault || !Applicable(ops, device.contents)
    ensures device.reliable ==> !fault
  {
    var done: seq<Record> := [];
    fault := false;
    for k := 0 to |ops|
      invariant Records(done, ops[..k], device.contents) && Applicable(ops[..k], device.contents) && !fault
    {
      hide Records, Applicable, Mapped, Slot;
      var original, missed := device.Read(ops[k].address, ops[k].size);
      if original.None? || |original.value| != |ops[k].newBytes| {
        NotApplicable(ops, k, device.contents, missed);
        return None, missed;
      }
      RecordsSnoc(done, ops, k, device.contents);
      done := done + [Record(ops[k].address, original.value, ops[k].newBytes)];
    }
    assert ops[..|ops|] == ops;
    return Some(done), false;
  }

  lemma NotApplicable(ops: seq<Operation>, k: nat, c: Bytes, missed: bool)
    requires k < |ops|
    ensures !Mapped(c, ops[k].address, ops[k].size) || ops[k].size != |ops[k].newBytes| ==> !Applicable(ops, c)
  {
    hide Mapped;
  }

  lemma RecordAt(rs: seq<Record>, ops: seq<Operation>, c: Bytes, k: nat)
    requires Records(rs, ops, c) && k < |ops|
    ensures |rs| == |ops| && AllDescribe(rs, c) && |rs[k].patched| == |rs[k].original|
    ensures rs[k].address == ops[k].address && rs[k].patched == ops[k].newBytes
  {
    SameSize(rs[k], c);
  }

  /** The failed write leaves its own slot differing too. */
  lemma FailedInside(before: Bytes, now: Bytes, c: Bytes, rs: seq<Record>, k: nat)
    requires k < |rs| && AllDescribe(rs, c) && before == Written(c, rs, k)
    requires Junked(before, rs[k].address, |rs[k].patched|, now)
    ensures AllDescribe(rs[..k + 1], c) && DiffersOnlyIn(now, c, rs[..k + 1], k + 1)
  {
    var junk :| |junk| == |rs[k].patched| && now == Overwrite(before, rs[k].address, junk);
    assert Describes(rs[k], c);
    SameSize(rs[k], c);
    hide Overwrite, DiffersOnlyIn, Describes, Written, Junked;
    WrittenInside(c, rs, k);
    OverwriteInside(before, c, rs, k, junk);
    Shorten(now, c, rs, k + 1);
  }

  lemma WrittenStep(c: Bytes, rs: seq<Record>, k: nat)
    requires k < |rs|
    ensures Written(c, rs, k + 1) == Overwrite(Written(c, rs, k), rs[k].address, rs[k].patched)
  {
  }

  /** Write every replacement; the first failure undoes everything written so far, its own slot included. */
  method WriteAll(device: Device, ops: seq<Operation>, rs: seq<Record>) returns (r: Outcome)
    requires Records(rs, ops, device.contents)
    modifies device
    ensures !r.Errored?
    ensures r.Committed? ==> r.records == rs && device.contents == Written(old(device.contents), rs, |rs|)
    ensures r.Committed? ==> device.writes == old(device.writes) + |ops| && device.failures == old(device.failures)
    ensures r.Failed? ==> r.records != [] && |r.records| <= |ops| && AllDescribe(r.records, old(device.contents))
    ensures r.Failed? ==> DiffersOnlyIn(device.contents, old(device.contents), r.records, |r.records|)
    ensures r.Failed? && r.status == Recovered ==> device.contents == old(device.contents)
    ensures r.Failed? ==> device.failures > old(device.failures)
    ensures r.Failed? ==> (r.status == Recovered <==> device.failures == old(device.failures) + 1)
    ensures device.reliable ==> r.Committed?
  {
    ghost var c := device.contents;
    assert Written(c, rs, 0) == c && |rs| == |ops|;
    hide *;
    for k := 0 to |ops|
      invariant device.contents == Written(c, rs, k) && device.writes == old(device.writes) + k && device.failures == old(device.failures)
    {
      RecordAt(rs, ops, c, k);
      WrittenStep(c, rs, k);
      ghost var before := device.contents;
      var ok := device.Write(ops[k].address, ops[k].newBytes);
      if !ok {
        FailedInside(before, device.contents, c, rs, k);
        var clean := Recover(device, rs[..k + 1], k + 1, c);
        return Failed(if clean then Recovered else RecoveryFailed, rs[..k + 1]);
      }
    }
    return Committed(rs);
  }

  /** What became of the target is what it was: the run stopped before writing, or undid
      everything it wrote. */
  predicate Reverted(r: Outcome) {
    (r.Failed? && r.status == Recovered) || (r.Errored? && r.records == [])
  }

  /** The transaction, the target's hash before it (`None` when it cannot be taken) and
      whether one can be taken after it. Nothing is written unless every original was read
      and fits; on a reliable device the plan commits exactly when it applies and both
      hashes could be taken. An error leaves the target as it was but for two cases: a
      recovery write failed, or the hash after the last write did, which leaves every
      patch on disk and nothing recovered. */
  method ApplyPlan(device: Device, ops: seq<Operation>, hashBefore: Option<bool>, hashAfter: bool) returns (r: Outcome, ghost fault: bool)
    modifies device
    ensures r.Committed? ==> hashBefore == Some(true) && hashAfter && Applicable(ops, old(device.contents))
    ensures r.Committed? ==> Records(r.records, ops, old(device.contents))
    ensures r.Committed? ==> device.contents == Written(old(device.contents), r.records, |r.records|)
    ensures r.Committed? ==> device.writes == old(device.writes) + |ops| && device.failures == old(device.failures)
    ensures r.Failed? && r.records == [] ==> device.writes == old(device.writes) && device.contents == old(device.contents)
    ensures r.Failed? && r.records == [] ==> fault || hashBefore == Some(false) || !Applicable(ops, old(device.contents))
    ensures r.Failed? && r.records != [] ==> device.failures > old(device.failures)
    ensures r.Failed? ==> (r.status == Recovered <==> device.failures <= old(device.failures) + 1)
    ensures r.Failed? ==> |r.records| <= |ops| && AllDescribe(r.records, old(device.contents))
    ensures r.Failed? ==> DiffersOnlyIn(device.contents, old(device.contents), r.records, |r.records|)
    ensures hashBefore.None? ==> r == Errored([]) && device.writes == old(device.writes)
    ensures r.Errored? && hashBefore.Some? ==> hashBefore.value && !hashAfter && Records(r.records, ops, old(device.contents))
    ensures r.Errored? && hashBefore.Some? ==> device.writes == old(device.writes) + |ops| && device.failures == old(device.failures)
    ensures r.Errored? ==> device.contents == Written(old(device.contents), r.records, |r.records|)
    ensures Reverted(r) ==> device.contents == old(device.contents)
    ensures !r.Committed? && !Reverted(r) <==> (r.Failed? && r.status == RecoveryFailed) || (hashBefore.Some? && r.Errored? && ops != [])
    ensures device.reliable ==> !fault
    ensures device.reliable ==> (r.Committed? <==> hashBefore == Some(true) && hashAfter && Applicable(ops, old(device.contents)))
  {
    fault := false;
    UnchangedInside(device.contents);
    NothingWritten(device.contents);
    if hashBefore.None? {
      return Errored([]), false;
    }
    if !hashBefore.value {
      return Failed(Recovered, []), false;
    }
    ghost var c := device.contents;
    hide *;
    var rs;
    rs, fault := Preflight(device, ops);
    if rs.None? {
      RevertedFailure();
      return Failed(Recovered, []), fault;
    }
    r := WriteAll(device, ops, rs.value);
    ReadReverted(r);
    RecordCount(rs.value, ops, c);
    if r.Committed? && !hashAfter {
      r := Errored(r.records);
      ReadReverted(r);
    }
  }

  lemma ReadReverted(r: Outcome)
    ensures Reverted(r) <==> (r.Failed? && r.status == Recovered) || (r.Errored? && r.records == [])
  {
  }

  lemma RevertedFailure()
    ensures Reverted(Failed(Recovered, []))
  {
  }

  lemma NothingWritten(c: Bytes)
    ensures Written(c, [], 0) == c && Reverted(Errored([])) && Reverted(Failed(Recovered, []))
  {
  }

  lemma RecordCount(rs: seq<Record>, ops: seq<Operation>, c: Bytes)
    requires Records(rs, ops, c)
    ensures |rs| == |ops|
    ensures rs == [] ==> Written(c, rs, |rs|) == c
  {
  }

  lemma UnchangedInside(c: Bytes)
    ensures AllDescribe([], c) && DiffersOnlyIn(c, c, [], 0)
  {
  }

  lemma Shorten(now: Bytes, c: Bytes, rs: seq<Record>, n: nat)
    requires n <= |rs| && AllDescribe(rs, c) && DiffersOnlyIn(now, c, rs, n)
    ensures AllDescribe(rs[..n], c) && DiffersOnlyIn(now, c, rs[..n], n)
  {
    hide Describes;
    forall a | a in c && now[a] != c[a] ensures exists i :: 0 <= i < n && Touches(rs[..n][i], a) {
      var i :| 0 <= i < n && Touches(rs[i], a);
      assert Touches(rs[..n][i], a);
    }
  }

  // ---- Rollback ----

  datatype Undo = Undone | Refused(at: nat) | Broke(at: nat)

  /** The state once the records from `k` on have been undone, last first. */
  function Restored(c: Bytes, rs: seq<Record>, k: nat): Bytes
    requires k <= |rs|
    decreases |rs| - k
  {
    if k == |rs| then c else Overwrite(Restored(c, rs, k + 1), rs[k].address, rs[k].original)
  }

  predicate ByteIs(c: Bytes, a: nat, v: nat) {
    a in c && c[a] == v
  }

  /** The slot of `r` holds what the record says was written there. */
  ghost predicate HoldsPatch(r: Record, c: Bytes) {
    forall i: nat :: i < |r.patched| ==> ByteIs(c, r.address + i, r.patched[i])
  }

  ghost predicate Matches(r: Record, c: Bytes) {
    |r.patched| == |r.original| && HoldsPatch(r, c)
  }

  lemma SlotHolds(r: Record, c: Bytes)
    requires Mapped(c, r.address, |r.patched|) && Slot(c, r.address, |r.patched|) == r.patched
    ensures HoldsPatch(r, c)
  {
    forall i: nat | i < |r.patched| ensures ByteIs(c, r.address + i, r.patched[i]) {
      assert Slot(c, r.address, |r.patched|)[i] == c[r.address + i];
    }
  }

  /** Each record from `k` on matched when its turn came. */
  ghost predicate AllMatched(c: Bytes, rs: seq<Record>, k: nat)
    requires k <= |rs|
  {
    forall i {:trigger rs[i]} :: k <= i < |rs| ==> Matches(rs[i], Restored(c, rs, i + 1))
  }

  lemma SlotDiffers(r: Record, c: Bytes)
    requires HoldsPatch(r, c)
    ensures Mapped(c, r.address, |r.patched|) && Slot(c, r.address, |r.patched|) == r.patched
  {
    forall a | r.address <= a < r.address + |r.patched| ensures a in c {
      assert ByteIs(c, r.address + (a - r.address), r.patched[a - r.address]);
    }
    forall i: nat | i < |r.patched| ensures Slot(c, r.address, |r.patched|)[i] == r.patched[i] {
      assert ByteIs(c, r.address + i, r.patched[i]);
    }
  }

  /** Whether a slot still holds what the record wrote there; exact on a reliable device. */
  method StillPatched(device: Device, r: Record) returns (intact: bool, ghost fault: bool)
    ensures intact ==> Matches(r, device.contents)
    ensures !intact ==> fault || !Matches(r, device.contents)
    ensures device.reliable ==> !fault
  {
    if |r.original| != |r.patched| {
      return false, false;
    }
    var current;
    current, fault := device.Read(r.address, |r.patched|);
    if HoldsPatch(r, device.contents) { SlotDiffers(r, device.contents); }
    hide HoldsPatch, Mapped, Slot;
    if current.None? || current.value != r.patched {
      return false, fault;
    }
    SlotHolds(r, device.contents);
    return true, false;
  }

  /** Walk the manifest backwards, restoring only slots that still hold the patch.
      `Refused(k)` stops with the slots after `k` restored and slot `k` untouched. On a
      reliable device that succeeds exactly when every slot matches in its turn. */
  method Rollback(device: Device, rs: seq<Record>) returns (r: Undo, ghost fault: bool)
    modifies device
    ensures r.Undone? ==> AllMatched(old(device.contents), rs, 0) && device.contents == Restored(old(device.contents), rs, 0)
    ensures r.Refused? ==> r.at < |rs| && AllMatched(old(device.contents), rs, r.at + 1)
    ensures r.Refused? ==> device.contents == Restored(old(device.contents), rs, r.at + 1)
    ensures r.Refused? ==> fault || !Matches(rs[r.at], device.contents)
    ensures r.Broke? ==> r.at < |rs| && AllMatched(old(device.contents), rs, r.at)
    ensures r.Broke? ==> Junked(Restored(old(device.contents), rs, r.at + 1), rs[r.at].address, |rs[r.at].original|, device.contents)
    ensures r.Broke? <==> device.failures > old(device.failures)
    ensures device.reliable ==> !fault
    ensures device.reliable ==> (r.Undone? <==> AllMatched(old(device.contents), rs, 0))
  {
    ghost var c := device.contents;
    fault := false;
    hide *;
    AllUndone(c, rs);
    var k: nat := |rs|;
    while k > 0
      invariant k <= |rs| && device.contents == Restored(c, rs, k) && AllMatched(c, rs, k) && device.failures == old(device.failures)
      invariant device.reliable ==> !fault
    {
      var record := rs[k - 1];
      var intact;
      intact, fault := StillPatched(device, record);
      if !intact {
        return Refused(k - 1), fault;
      }
      MatchedStep(c, rs, k - 1);
      var ok := device.Write(record.address, record.original);
      if !ok {
        return Broke(k - 1), fault;
      }
      k := k - 1;
    }
    return Undone, fault;
  }

  lemma AllUndone(c: Bytes, rs: seq<Record>)
    ensures Restored(c, rs, |rs|) == c && AllMatched(c, rs, |rs|)
  {
  }

  lemma MatchedStep(c: Bytes, rs: seq<Record>, k: nat)
    requires k < |rs| && AllMatched(c, rs, k + 1) && Matches(rs[k], Restored(c, rs, k + 1))
    ensures AllMatched(c, rs, k) && Restored(c, rs, k) == Overwrite(Restored(c, rs, k + 1), rs[k].address, rs[k].original)
  {
    hide Overwrite;
    assert Restored(c, rs, k) == Overwrite(Restored(c, rs, k + 1), rs[k].address, rs[k].original);
    hide Matches, Restored;
    forall i {:trigger rs[i]} | k <= i < |rs| ensures Matches(rs[i], Restored(c, rs, i + 1)) { assert i == k || k + 1 <= i; }
  }

  // ---- Apply, then roll back ----

  /** Who wrote the byte at `a` last, among the first `n`. */
  lemma {:induction false} WrittenByte(c: Bytes, rs: seq<Record>, n: nat, k: nat, a: nat)
    requires k < n <= |rs| && AllDescribe(rs, c) && Touches(rs[k], a) && forall i :: k < i < n ==> !Touches(rs[i], a)
    ensures a in Written(c, rs, n) && Written(c, rs, n)[a] == rs[k].patched[a - rs[k].address]
    decreases n
  {
    SameSize(rs[n - 1], c);
    Overwritten(Written(c, rs, n - 1), rs[n - 1].address, rs[n - 1].patched);
    SameSize(rs[k], c);
    hide Describes, Overwrite;
    if n - 1 > k { WrittenByte(c, rs, n - 1, k, a); }
  }

  /** Some record from `k` on covers `a`. */
  ghost predicate Covered(rs: seq<Record>, k: nat, a: nat)
    decreases |rs| - k
  {
    k < |rs| && (Touches(rs[k], a) || Covered(rs, k + 1, a))
  }

  lemma {:induction false} CoveredIff(rs: seq<Record>, k: nat, a: nat)
    ensures Covered(rs, k, a) <==> exists i :: k <= i < |rs| && Touches(rs[i], a)
    decreases |rs| - k
  {
    hide Touches;
    if k < |rs| { CoveredIff(rs, k + 1, a); }
  }

  /** A byte some undone record covers is back to the original, any other one is as it
      was. */
  lemma {:induction false} RestoredByte(c: Bytes, now: Bytes, rs: seq<Record>, k: nat, a: nat)
    requires k <= |rs| && AllDescribe(rs, c) && now.Keys == c.Keys && a in c
    ensures Restored(now, rs, k).Keys == c.Keys
    ensures Restored(now, rs, k)[a] == if Covered(rs, k, a) then c[a] else now[a]
    decreases |rs| - k
  {
    hide Overwrite, Describes, Touches;
    if k < |rs| {
      RestoredByte(c, now, rs, k + 1, a);
      RestoreStep(c, Restored(now, rs, k + 1), rs[k], a);
    }
  }

  lemma RestoreStep(c: Bytes, mid: Bytes, r: Record, a: nat)
    requires Describes(r, c) && mid.Keys == c.Keys && a in c
    ensures var next := Overwrite(mid, r.address, r.original);
      next.Keys == c.Keys && next[a] == if Touches(r, a) then c[a] else mid[a]
  {
    Overwritten(mid, r.address, r.original);
    hide Overwrite;
    var next := Overwrite(mid, r.address, r.original);
    assert next.Keys == c.Keys;
  }

  /** Where two slots share a byte, the earlier one wrote what was there already. */
  ghost predicate Harmless(rs: seq<Record>, c: Bytes)
    requires AllDescribe(rs, c)
  {
    forall i, j, a: nat :: 0 <= i < j < |rs| && Touches(rs[i], a) && Touches(rs[j], a) ==>
      rs[i].patched[a - rs[i].address] == rs[i].original[a - rs[i].address]
  }

  /** One record of a committed plan matches on the way back. */
  ghost predicate Returns(rs: seq<Record>, k: nat)
    requires k < |rs|
  {
    |rs[k].patched| == |rs[k].original|
    && forall i: nat :: i < |rs[k].patched| && Covered(rs, k + 1, rs[k].address + i) ==> rs[k].patched[i] == rs[k].original[i]
  }

  /** The byte a record finds when its turn to be undone comes. */
  lemma ReturnedByte(c: Bytes, rs: seq<Record>, k: nat, a: nat)
    requires k < |rs| && AllDescribe(rs, c) && Touches(rs[k], a)
    ensures var back := Restored(Written(c, rs, |rs|), rs, k + 1);
      back.Keys == c.Keys && a in c && c[a] == rs[k].original[a - rs[k].address]
      && back[a] == if Covered(rs, k + 1, a) then c[a] else rs[k].patched[a - rs[k].address]
  {
    assert Describes(rs[k], c);
    hide Describes, Written, Restored, Touches, Covered, AllDescribe, Overwrite, Slot, Mapped, DiffersOnlyIn;
    OriginalByte(c, rs[k], a);
    var now := Written(c, rs, |rs|);
    WrittenInside(c, rs, |rs|);
    KeysStay(now, c, rs, |rs|);
    RestoredByte(c, now, rs, k + 1, a);
    CoveredIff(rs, k + 1, a);
    if !Covered(rs, k + 1, a) { WrittenByte(c, rs, |rs|, k, a); }
  }

  lemma KeysStay(now: Bytes, c: Bytes, rs: seq<Record>, n: nat)
    requires n <= |rs| && DiffersOnlyIn(now, c, rs, n)
    ensures now.Keys == c.Keys
  {
  }

  lemma OriginalByte(c: Bytes, r: Record, a: nat)
    requires Describes(r, c) && Touches(r, a)
    ensures a in c && 0 <= a - r.address < |r.original| == |r.patched| && c[a] == r.original[a - r.address]
  {
  }

  lemma ReturnedAt(c: Bytes, rs: seq<Record>, k: nat, i: nat)
    requires k < |rs| && AllDescribe(rs, c) && i < |rs[k].patched|
    ensures |rs[k].patched| == |rs[k].original|
    ensures ByteIs(Restored(Written(c, rs, |rs|), rs, k + 1), rs[k].address + i,
      if Covered(rs, k + 1, rs[k].address + i) then rs[k].original[i] else rs[k].patched[i])
  {
    SameSize(rs[k], c);
    assert Touches(rs[k], rs[k].address + i);
    hide Describes, Written, Restored, Touches, Covered;
    ReturnedByte(c, rs, k, rs[k].address + i);
  }

  lemma MatchesIff(c: Bytes, rs: seq<Record>, k: nat)
    requires k < |rs| && AllDescribe(rs, c)
    ensures Matches(rs[k], Restored(Written(c, rs, |rs|), rs, k + 1)) <==> Returns(rs, k)
  {
    SameSize(rs[k], c);
    hide AllDescribe, Describes, Written, Restored, Covered, ByteIs, HoldsPatch, Returns;
    var r, back := rs[k], Restored(Written(c, rs, |rs|), rs, k + 1);
    forall i: nat | i < |r.patched| ensures ByteIs(back, r.address + i, r.patched[i]) <==> FindsPatch(rs, k, i) {
      ReturnedAt(c, rs, k, i);
      OneByte(back, r.address + i, r.original[i], r.patched[i]);
    }
    HoldsByByte(r, back, rs, k);
    ReturnsByByte(rs, k);
  }

  /** The byte is there when its turn comes: nothing covered it since, or with the same value. */
  ghost predicate FindsPatch(rs: seq<Record>, k: nat, i: nat)
    requires k < |rs| && i < |rs[k].patched| == |rs[k].original|
  {
    Covered(rs, k + 1, rs[k].address + i) ==> rs[k].patched[i] == rs[k].original[i]
  }

  lemma HoldsByByte(r: Record, back: Bytes, rs: seq<Record>, k: nat)
    requires k < |rs| && r == rs[k] && |r.patched| == |r.original|
    requires forall i: nat {:trigger FindsPatch(rs, k, i)} :: i < |r.patched| ==> (ByteIs(back, r.address + i, r.patched[i]) <==> FindsPatch(rs, k, i))
    ensures Matches(r, back) <==> forall i: nat {:trigger FindsPatch(rs, k, i)} :: i < |r.patched| ==> FindsPatch(rs, k, i)
  {
    hide FindsPatch, ByteIs;
    if HoldsPatch(r, back) {
      forall i: nat | i < |r.patched| ensures FindsPatch(rs, k, i) { assert ByteIs(back, r.address + i, r.patched[i]); }
    }
    if forall i: nat {:trigger FindsPatch(rs, k, i)} :: i < |r.patched| ==> FindsPatch(rs, k, i) {
      forall i: nat | i < |r.patched| ensures ByteIs(back, r.address + i, r.patched[i]) { assert FindsPatch(rs, k, i); }
    }
  }

  lemma ReturnsByByte(rs: seq<Record>, k: nat)
    requires k < |rs| && |rs[k].patched| == |rs[k].original|
    ensures Returns(rs, k) <==> forall i: nat {:trigger FindsPatch(rs, k, i)} :: i < |rs[k].patched| ==> FindsPatch(rs, k, i)
  {
    hide Covered;
    if forall i: nat {:trigger FindsPatch(rs, k, i)} :: i < |rs[k].patched| ==> FindsPatch(rs, k, i) {
      forall i: nat | i < |rs[k].patched| && Covered(rs, k + 1, rs[k].address + i) ensures rs[k].patched[i] == rs[k].original[i] {
        assert FindsPatch(rs, k, i);
      }
    }
  }

  lemma OneByte(c: Bytes, a: nat, v: nat, w: nat)
    ensures ByteIs(c, a, v) ==> (ByteIs(c, a, w) <==> v == w)
  {
  }

  lemma ReturnsIff(c: Bytes, rs: seq<Record>)
    requires AllDescribe(rs, c)
    ensures (forall k :: 0 <= k < |rs| ==> Returns(rs, k)) <==> Harmless(rs, c)
  {
    forall i | 0 <= i < |rs| ensures |rs[i].patched| == |rs[i].original| { SameSize(rs[i], c); }
    hide Describes, Covered;
    if forall k :: 0 <= k < |rs| ==> Returns(rs, k) {
      forall i, j, a: nat | 0 <= i < j < |rs| && Touches(rs[i], a) && Touches(rs[j], a)
        ensures rs[i].patched[a - rs[i].address] == rs[i].original[a - rs[i].address]
      {
        CoveredIff(rs, i + 1, a);
        var n: nat := a - rs[i].address;
        assert Returns(rs, i) && Covered(rs, i + 1, rs[i].address + n);
      }
    }
    if Harmless(rs, c) {
      forall k, i: nat | 0 <= k < |rs| && i < |rs[k].patched| && Covered(rs, k + 1, rs[k].address + i)
        ensures rs[k].patched[i] == rs[k].original[i]
      {
        CoveredIff(rs, k + 1, rs[k].address + i);
        assert Touches(rs[k], rs[k].address + i);
      }
    }
  }

  /** Rolling back a committed plan succeeds exactly when overlapping slots are
      harmless, and then the target is what it was. */
  lemma RollbackExact(c: Bytes, rs: seq<Record>)
    requires AllDescribe(rs, c)
    ensures AllMatched(Written(c, rs, |rs|), rs, 0) <==> Harmless(rs, c)
    ensures Restored(Written(c, rs, |rs|), rs, 0) == c
  {
    var now := Written(c, rs, |rs|);
    forall k | 0 <= k < |rs| ensures Matches(rs[k], Restored(now, rs, k + 1)) <==> Returns(rs, k) { MatchesIff(c, rs, k); }
    WrittenInside(c, rs, |rs|);
    assert Restored(now, rs, 0) == c by { RestoredAll(c, now, rs); }
    ReturnsIff(c, rs);
    hide Matches, Written, Restored, Describes, Returns, Harmless;
    assert AllMatched(now, rs, 0) <==> forall k :: 0 <= k < |rs| ==> Returns(rs, k);
  }

  lemma RestoredAll(c: Bytes, now: Bytes, rs: seq<Record>)
    requires AllDescribe(rs, c) && DiffersOnlyIn(now, c, rs, |rs|)
    ensures Restored(now, rs, 0) == c
  {
    hide Describes, Touches;
    forall a | a in c ensures Restored(now, rs, 0).Keys == c.Keys && Restored(now, rs, 0)[a] == c[a] {
      RestoredByte(c, now, rs, 0, a);
      CoveredIff(rs, 0, a);
    }
    RestoredKeys(c, now, rs, 0);
  }

  lemma {:induction false} RestoredKeys(c: Bytes, now: Bytes, rs: seq<Record>, k: nat)
    requires k <= |rs| && AllDescribe(rs, c) && now.Keys == c.Keys
    ensures Restored(now, rs, k).Keys == c.Keys
    decreases |rs| - k
  {
    if k < |rs| {
      RestoredKeys(c, now, rs, k + 1);
      Overwritten(Restored(now, rs, k + 1), rs[k].address, rs[k].original);
      hide Overwrite;
      assert Describes(rs[k], c);
      assert forall a :: a in Overwrite(Restored(now, rs, k + 1), rs[k].address, rs[k].original) <==> a in c;
    }
  }

  /** No two slots share a byte. */
  ghost predicate SlotsDisjoint(rs: seq<Record>) {
    forall i, j, a: nat :: 0 <= i < j < |rs| && Touches(rs[i], a) ==> !Touches(rs[j], a)
  }

  /** So over disjoint slots plan, apply, roll back is the identity. */
  lemma RollbackIdentity(c: Bytes, rs: seq<Record>)
    requires AllDescribe(rs, c) && SlotsDisjoint(rs)
    ensures AllMatched(Written(c, rs, |rs|), rs, 0) && Restored(Written(c, rs, |rs|), rs, 0) == c
  {
    hide Describes, Written, Restored, AllMatched;
    RollbackExact(c, rs);
  }

  /** Overlapping slots do not round-trip in general. */
  lemma OverlapRefuses()
    ensures
      var c: Bytes := map[0 := 0, 1 := 0, 2 := 0];
      var rs := [Record(0, [0, 0], [1, 1]), Record(1, [0, 0], [2, 2])];
      AllDescribe(rs, c) && !AllMatched(Written(c, rs, 2), rs, 0)
  {
    var c: Bytes := map[0 := 0, 1 := 0, 2 := 0];
    var rs := [Record(0, [0, 0], [1, 1]), Record(1, [0, 0], [2, 2])];
    assert AllDescribe(rs, c) by {
      assert Slot(c, 0, 2) == [0, 0] && Slot(c, 1, 2) == [0, 0];
    }
    RollbackExact(c, rs);
    assert Touches(rs[0], 1) && Touches(rs[1], 1);
  }

  // ---- Verify ----

  /** Check a manifest against the target: every slot must hold its patch. */
  method VerifyManifest(device: Device, rs: seq<Record>, committed: bool, hashMatches: bool) returns (ok: bool, ghost fault: bool)
    ensures ok ==> committed && hashMatches && forall i :: 0 <= i < |rs| ==> HoldsPatch(rs[i], device.contents)
    ensures !ok ==> fault || !committed || !hashMatches || exists i :: 0 <= i < |rs| && !HoldsPatch(rs[i], device.contents)
    ensures device.reliable ==> !fault
  {
    fault := false;
    if !committed || !hashMatches {
      return false, false;
    }
    hide HoldsPatch, Mapped, Slot;
    for k := 0 to |rs|
      invariant forall i :: 0 <= i < k ==> HoldsPatch(rs[i], device.contents)
      invariant device.reliable ==> !fault
    {
      var current;
      current, fault := device.Read(rs[k].address, |rs[k].patched|);
      if HoldsPatch(rs[k], device.contents) { SlotDiffers(rs[k], device.contents); }
      if current.None? || current.value != rs[k].patched {
        return false, fault;
      }
      SlotHolds(rs[k], device.contents);
    }
    return true, false;
  }

  /** A committed plan over disjoint slots is what verification looks for. */
  lemma CommittedVerifies(c: Bytes, rs: seq<Record>, k: nat)
    requires AllDescribe(rs, c) && SlotsDisjoint(rs) && k < |rs|
    ensures HoldsPatch(rs[k], Written(c, rs, |rs|))
  {
    SameSize(rs[k], c);
    hide Describes, Written;
    forall i: nat | i < |rs[k].patched| ensures ByteIs(Written(c, rs, |rs|), rs[k].address + i, rs[k].patched[i]) {
      assert Touches(rs[k], rs[k].address + i);
      WrittenByte(c, rs, |rs|, k, rs[k].address + i);
    }
  }
}
