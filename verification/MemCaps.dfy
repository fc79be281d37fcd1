/** When memory can be compiled away: the caps, counted over the statements. */
module MemCaps {
  import opened Bits
  import opened Common
  import opened Ir
  import opened MemElim

  // ---- Bytes written and read ----

  /** How many bytes the list stores, every write counted. */
  function StoredBytes(ss: seq<Stmt>): nat {
    if ss == [] then 0 else
    var s := ss[|ss| - 1];
    StoredBytes(ss[..|ss| - 1]) + if s.StoreMem? then (s.bits + 7) / 8 else 0
  }

  /** How many bytes the list loads, every read counted. */
  function LoadedBytes(ss: seq<Stmt>): nat {
    if ss == [] then 0 else
    var s := ss[|ss| - 1];
    LoadedBytes(ss[..|ss| - 1]) + if s.LoadMem? then (s.bits + 7) / 8 else 0
  }

  /** The cells were written in the order their addresses were named, between two
      values of the name counter. */
  predicate Ascending(cells: seq<Cell>, from: nat, to: nat) {
    (forall i :: 0 <= i < |cells| ==> cells[i].addr.name.Minted? && from <= cells[i].addr.name.serial < to)
    && forall i, j :: 0 <= i < j < |cells| ==> cells[i].addr.name.serial < cells[j].addr.name.serial
  }

  // ---- What each operation adds ----

  lemma {:induction false} StoreBytesAdd(e: ElimState, side: seq<Cell>, base: Var, held: Var, bits: nat, n: nat, ptr: nat, from: nat)
    requires Ascending(side, from, e.counter) && from <= e.counter
    ensures
      var (e', side') := StoreBytes(e, side, base, held, bits, n, ptr);
      |side'| == |side| + n && e'.keys == e.keys && e.counter <= e'.counter && Ascending(side', from, e'.counter)
    decreases n
  {
    if n > 0 { StoreBytesAdd(e, side, base, held, bits, n - 1, ptr, from); }
  }

  lemma {:induction false} LoadBytesAdd(e: ElimState, side: seq<Cell>, base: Var, n: nat, ptr: nat)
    requires |e.keys| <= 256
    ensures
      var r := LoadBytes(e, side, base, n, ptr);
      && (r.Some? <==> |e.keys| + n <= 256)
      && (r.Some? ==> |r.value.0.keys| == |e.keys| + n && e.counter <= r.value.0.counter)
    decreases n
  {
    hide Chain;
    if n > 0 { LoadBytesAdd(e, side, base, n - 1, ptr); }
  }

  lemma StepAdds(e: ElimState, side: seq<Cell>, s: Stmt, ptr: nat, from: nat)
    requires |e.keys| <= 256 && Ascending(side, from, e.counter) && from <= e.counter
    ensures
      var r := SideStep(e, side, s, ptr);
      var stored, loaded := if s.StoreMem? then (s.bits + 7) / 8 else 0, if s.LoadMem? then (s.bits + 7) / 8 else 0;
      && (r.Some? <==> (stored > 0 ==> |side| + stored <= 128) && |e.keys| + loaded <= 256)
      && (r.Some? ==>
        && |r.value.1| == |side| + stored && |r.value.0.keys| == |e.keys| + loaded
        && from <= r.value.0.counter && Ascending(r.value.1, from, r.value.0.counter))
  {
    hide StoreBytes, LoadBytes, Assemble;
    match s
    case StoreMem(address, value, bits) =>
      var e' := Define(e, "sa", ptr, address);
      StoreBytesAdd(Define(e', "sv", bits, value), side, Fresh(e, "sa", ptr), Fresh(e', "sv", bits), bits, ByteCount(bits), ptr, from);
    case LoadMem(_, address, bits) => LoadBytesAdd(Define(e, "la", ptr, address), side, Fresh(e, "la", ptr), ByteCount(bits), ptr);
    case _ =>
  }

  /** One side goes through exactly while its stores fit the store cap and its
      loads what is left of the key cap. */
  lemma {:induction false} RunSideIff(e: ElimState, ss: seq<Stmt>, ptr: nat)
    requires |e.keys| <= 256
    ensures
      var r := RunSide(e, ss, ptr);
      && (r.Some? <==> StoredBytes(ss) <= 128 && |e.keys| + LoadedBytes(ss) <= 256)
      && (r.Some? ==>
        && |r.value.1| == StoredBytes(ss) && |r.value.0.keys| == |e.keys| + LoadedBytes(ss)
        && e.counter <= r.value.0.counter && Ascending(r.value.1, e.counter, r.value.0.counter))
    decreases |ss|
  {
    hide SideStep, Ascending;
    if ss == [] {
      NothingAscends(e.counter);
    } else {
      RunSideIff(e, ss[..|ss| - 1], ptr);
      var r := RunSide(e, ss[..|ss| - 1], ptr);
      if r.Some? { StepAdds(r.value.0, r.value.1, ss[|ss| - 1], ptr, e.counter); }
    }
  }

  lemma NothingAscends(n: nat)
    ensures Ascending([], n, n)
  {
  }

  // ---- How many addresses are probed ----

  lemma {:induction false} ListsLength(order: seq<Var>, addrs: set<Var>)
    requires Lists(order, addrs)
    ensures |order| == |addrs|
    decreases |order|
  {
    if order != [] {
      var rest, v := order[..|order| - 1], order[|order| - 1];
      assert order == rest + [v];
      assert (set x | x in rest) == addrs - {v};
      ListsLength(rest, addrs - {v});
    }
  }

  /** No two cells share an address. */
  lemma AddressCount(cells: seq<Cell>, from: nat, to: nat)
    requires Ascending(cells, from, to)
    ensures |set c | c in cells :: c.addr| == |cells|
  {
    var order, addrs := seq(|cells|, i requires 0 <= i < |cells| => cells[i].addr), set c | c in cells :: c.addr;
    forall v | v in addrs ensures v in order {
      var i :| 0 <= i < |cells| && cells[i].addr == v;
      assert order[i] == v;
    }
    ListsLength(order, addrs);
  }

  lemma WrittenCount(a: seq<Cell>, b: seq<Cell>, from: nat, mid: nat, to: nat)
    requires Ascending(a, from, mid) && Ascending(b, mid, to)
    ensures |WrittenAt(a, b)| == |a| + |b|
  {
    if a == [] {
      assert a + b == b;
      AddressCount(b, mid, to);
    } else if b == [] {
      assert a + b == a;
      AddressCount(a, from, mid);
    } else {
      assert from <= a[0].addr.name.serial < mid <= b[0].addr.name.serial < to;
      AddressCount(a + b, from, to);
    }
  }

  /** Probing stops for want of keys and for nothing else, so only how many are taken matters. */
  lemma {:induction false} ProbesByCount(e: ElimState, a: seq<Cell>, b: seq<Cell>, addrs: seq<Var>)
    ensures
      var r := ProbeAll(e, a, b, addrs);
      && (r.Some? <==> addrs == [] || |e.keys| + |addrs| <= 256)
      && (r.Some? ==> |r.value.1| == |addrs| && |r.value.0.keys| == |e.keys| + |addrs|)
    decreases |addrs|
  {
    hide Chain;
    if addrs != [] { ProbesByCount(e, a, b, addrs[..|addrs| - 1]); }
  }

  // ---- The whole pass ----

  /** The bytes probed once memory is compared: every byte either side stores. */
  function ProbedBytes(sa: seq<Stmt>, sb: seq<Stmt>, enabled: bool): nat {
    if enabled && StoredBytes(sa) > 0 && StoredBytes(sb) > 0 then StoredBytes(sa) + StoredBytes(sb) else 0
  }

  /** Memory is compiled away exactly when each side stores at most 128 bytes and
      no more than 256 are loaded and probed; each probed byte has its own pair. */
  lemma EliminatesIff(sa: seq<Stmt>, sb: seq<Stmt>, ptr: nat, enabled: bool, order: seq<Var>)
    requires Lists(order, Written(sa, sb, ptr))
    ensures
      var r := Eliminate(sa, sb, ptr, enabled, order);
      && (r.Some? <==>
        && StoredBytes(sa) <= 128 && StoredBytes(sb) <= 128
        && LoadedBytes(sa) + LoadedBytes(sb) + ProbedBytes(sa, sb, enabled) <= 256)
      && (r.Some? ==> |r.value.probes| == ProbedBytes(sa, sb, enabled))
  {
    RunSideIff(START, sa, ptr);
    var first := RunSide(START, sa, ptr);
    if first.Some? {
      var (e, a) := first.value;
      RunSideIff(e, sb, ptr);
      var second := RunSide(e, sb, ptr);
      if second.Some? {
        var (f, b) := second.value;
        ListsLength(order, WrittenAt(a, b));
        WrittenCount(a, b, 0, e.counter, f.counter);
        ProbesByCount(f, a, b, order);
      }
    }
    hide RunSide, ProbeAll, StoredBytes, LoadedBytes, WrittenAt, Lists;
  }
}
