/** The memory pass as it runs: one mutable state, appended to in place, proved
    against the functions whose meaning the other modules establish. */
module MemPass {
  import opened Bits
  import opened Common
  import opened Layouts
  import opened Ir
  import Spec = MemElim
  import opened MemElim

  /** One side's write history, oldest first. */
  class SideMem {
    var bytes: seq<Cell>

    constructor ()
      ensures bytes == []
    {
      bytes := [];
    }
  }

  class Elim {
    const ptrBits: nat
    var keys: seq<Cell>
    var out: seq<Stmt>
    var free: seq<Var>
    var counter: nat

    ghost function Now(): ElimState
      reads this
    {
      ElimState(keys, out, free, counter)
    }

    constructor (ptrBits: nat)
      ensures Now() == START && this.ptrBits == ptrBits
    {
      this.ptrBits := ptrBits;
      keys, out, free, counter := [], [], [], 0;
    }

    method Fresh(tag: string, bits: nat) returns (v: Var)
      modifies this`counter
      ensures v == Spec.Fresh(old(Now()), tag, bits) && counter == old(counter) + 1
    {
      v := Var(Minted(tag, counter), bits);
      counter := counter + 1;
    }

    /** Materialise `src` as its own definition and hand back the name. */
    method Define(tag: string, bits: nat, src: Expr) returns (v: Var)
      modifies this`counter, this`out
      ensures v == Spec.Fresh(old(Now()), tag, bits) && Now() == Spec.Define(old(Now()), tag, bits, src)
    {
      v := Fresh(tag, bits);
      out := out + [Assign(v, src)];
    }

    /** Fold the cells oldest first, so the newest comparison ends outermost. */
    static method Fold(addr: Var, cells: seq<Cell>, base: Expr) returns (value: Expr)
      ensures value == Chain(addr, cells, base)
    {
      value := base;
      for i := 0 to |cells|
        invariant value == Chain(addr, cells[..i], base)
      {
        assert cells[..i + 1][..i] == cells[..i];
        value := Ite(Bin(Eq, Ref(addr), Ref(cells[i].addr)), Ref(cells[i].byte), value);
      }
      assert cells[..|cells|] == cells;
    }

    /** The shared initial byte at `addr`. */
    method Mem0(addr: Var) returns (r: Option<Var>)
      modifies this
      ensures r.Some? <==> Spec.Mem0(old(Now()), addr).Some?
      ensures r.Some? ==> r.value == MintedByte(old(Now())) && Now() == Mint(old(Now()), addr)
    {
      if |keys| >= MEM_KEY_CAP {
        return None;
      }
      var byte := Fresh("b", 8);
      free := free + [byte];
      var value := Fold(addr, keys, Ref(byte));
      var defined := Define("v", 8, value);
      keys := keys + [Cell(addr, defined)];
      return Some(defined);
    }

    /** Read one byte of a side's memory over the initial byte `base`. */
    method FoldSide(side: SideMem, addr: Var, base: Var) returns (v: Var)
      modifies this`counter, this`out
      ensures v == Spec.Fresh(old(Now()), "r", 8) && Now() == Spec.FoldSide(old(Now()), side.bytes, addr, base)
    {
      var value := Fold(addr, side.bytes, Ref(base));
      v := Define("r", 8, value);
    }

    method ByteAddress(base: Var, index: nat) returns (v: Var)
      modifies this`counter, this`out
      ensures v == Spec.Fresh(old(Now()), "a", ptrBits) && Now() == Spec.ByteAddress(old(Now()), base, index, ptrBits)
    {
      v := Define("a", ptrBits, Bin(Add, Ref(base), Const(index, ptrBits)));
    }

    method ExpandStore(side: SideMem, address: Expr, value: Expr, bits: nat) returns (ok: bool)
      modifies this, side
      ensures
        var r := Spec.ExpandStore(old(Now()), old(side.bytes), address, value, bits, ptrBits);
        && (ok <==> r.Some?)
        && (ok ==> Now() == r.value.0 && side.bytes == r.value.1)
    {
      if bits == 0 {
        return true;
      }
      var count := (bits + 7) / 8;
      if |side.bytes| + count > MEM_STORE_CAP {
        return false;
      }
      var base := Define("sa", ptrBits, address);
      var held := Define("sv", bits, value);
      ghost var start := Now();
      hide Spec.Define, Spec.ByteAddress;
      for i := 0 to count
        invariant (Now(), side.bytes) == StoreBytes(start, old(side.bytes), base, held, bits, i, ptrBits)
      {
        var addr := ByteAddress(base, i);
        var byte := Define("sb", 8, Un(Extract(Min(8 * i + 7, SaturatingSub(bits, 1)), 8 * i), Ref(held)));
        side.bytes := side.bytes + [Cell(addr, byte)];
      }
      return true;
    }

    /** Byte `index` of a load off `base`, named; `bytes` are the ones before it. */
    method ReadByte(side: SideMem, base: Var, index: nat, ghost bytes: seq<Var>) returns (r: Option<Var>)
      modifies this
      ensures
        var s := LoadByte(old(Now()), side.bytes, bytes, base, index, ptrBits);
        && (r.Some? <==> s.Some?)
        && (r.Some? ==> s.value == (Now(), bytes + [r.value]))
    {
      hide Spec.Define, Spec.ByteAddress, Mint, Spec.FoldSide, Chain;
      var addr := ByteAddress(base, index);
      var initial := Mem0(addr);
      if initial.None? {
        return None;
      }
      var byte := FoldSide(side, addr, initial.value);
      return Some(byte);
    }

    method ExpandLoad(side: SideMem, dst: Var, address: Expr, bits: nat) returns (ok: bool)
      modifies this
      ensures
        var r := Spec.ExpandLoad(old(Now()), side.bytes, dst, address, bits, ptrBits);
        && (ok <==> r.Some?)
        && (ok ==> Now() == r.value)
    {
      if bits == 0 {
        return true;
      }
      var count := (bits + 7) / 8;
      var base := Define("la", ptrBits, address);
      ghost var start := Now();
      NoBytes(start, side.bytes, base, ptrBits);
      hide Spec.Define, LoadByte, LoadBytes, Assemble, Coerce;
      ghost var bytes: seq<Var> := [];
      var acc: Option<Expr> := None;
      for i := 0 to count
        invariant LoadBytes(start, side.bytes, base, i, ptrBits) == Some((Now(), bytes)) && |bytes| == i
        invariant acc == if i == 0 then None else Some(Assemble(bytes))
      {
        NextByte(start, side.bytes, base, i, ptrBits);
        var byte := ReadByte(side, base, i, bytes);
        if byte.None? {
          LoadDeclines(start, side.bytes, base, i + 1, count, ptrBits);
          return false;
        }
        AssembleMore(bytes, byte.value);
        acc := Some(if acc.None? then Ref(byte.value) else Bin(Concat, Ref(byte.value), acc.value));
        bytes := bytes + [byte.value];
      }
      out := out + [Assign(dst, Coerce(acc.value, 8 * count, bits))];
      return true;
    }

    static lemma NoBytes(e: ElimState, side: seq<Cell>, base: Var, ptr: nat)
      ensures LoadBytes(e, side, base, 0, ptr) == Some((e, []))
    {
    }

    static lemma NextByte(e: ElimState, side: seq<Cell>, base: Var, i: nat, ptr: nat)
      ensures var p := LoadBytes(e, side, base, i, ptr);
        LoadBytes(e, side, base, i + 1, ptr) == if p.None? then None else LoadByte(p.value.0, side, p.value.1, base, i, ptr)
    {
      hide LoadByte;
    }

    static lemma AssembleMore(bytes: seq<Var>, byte: Var)
      ensures Assemble(bytes + [byte]) == if bytes == [] then Ref(byte) else Bin(Concat, Ref(byte), Assemble(bytes))
    {
      assert (bytes + [byte])[..|bytes|] == bytes;
    }

    static lemma {:induction false} LoadDeclines(e: ElimState, side: seq<Cell>, base: Var, i: nat, n: nat, ptr: nat)
      requires i <= n && LoadBytes(e, side, base, i, ptr).None?
      ensures LoadBytes(e, side, base, n, ptr).None?
      decreases n
    {
      if i < n { LoadDeclines(e, side, base, i, n - 1, ptr); }
    }

    method RunSide(ss: seq<Stmt>, side: SideMem) returns (ok: bool)
      requires side.bytes == []
      modifies this, side
      ensures
        var r := Spec.RunSide(old(Now()), ss, ptrBits);
        && (ok <==> r.Some?)
        && (ok ==> Now() == r.value.0 && side.bytes == r.value.1)
    {
      hide Spec.ExpandStore, Spec.ExpandLoad;
      for i := 0 to |ss|
        invariant Spec.RunSide(old(Now()), ss[..i], ptrBits) == Some((Now(), side.bytes))
      {
        assert ss[..i + 1][..i] == ss[..i];
        ok := true;
        match ss[i] {
          case StoreMem(address, value, bits) => ok := ExpandStore(side, address, value, bits);
          case LoadMem(dst, address, bits) => ok := ExpandLoad(side, dst, address, bits);
          case _ => out := out + [ss[i]];
        }
        if !ok {
          SideDeclines(old(Now()), ss, i + 1, ptrBits);
          return false;
        }
      }
      assert ss[..|ss|] == ss;
      return true;
    }

    static lemma {:induction false} SideDeclines(e: ElimState, ss: seq<Stmt>, n: nat, ptr: nat)
      requires n <= |ss| && Spec.RunSide(e, ss[..n], ptr).None?
      ensures Spec.RunSide(e, ss, ptr).None?
      decreases |ss| - n
    {
      hide SideStep;
      if n < |ss| {
        assert ss[..n + 1][..n] == ss[..n];
        SideDeclines(e, ss, n + 1, ptr);
      } else {
        assert ss[..n] == ss;
      }
    }

    /** One probe pair per address, in the given order. */
    method ProbeAll(a: SideMem, b: SideMem, addrs: seq<Var>) returns (r: Option<seq<(Var, Var)>>)
      modifies this
      ensures
        var s := Spec.ProbeAll(old(Now()), a.bytes, b.bytes, addrs);
        && (r.Some? <==> s.Some?)
        && (r.Some? ==> Now() == s.value.0 && r.value == s.value.1)
    {
      var probes := [];
      hide Mint, Spec.FoldSide, Chain;
      for i := 0 to |addrs|
        invariant Spec.ProbeAll(old(Now()), a.bytes, b.bytes, addrs[..i]) == Some((Now(), probes))
      {
        assert addrs[..i + 1][..i] == addrs[..i];
        var initial := Mem0(addrs[i]);
        if initial.None? {
          ProbesDecline(old(Now()), a.bytes, b.bytes, addrs, i + 1);
          return None;
        }
        var x := FoldSide(a, addrs[i], initial.value);
        var y := FoldSide(b, addrs[i], initial.value);
        probes := probes + [(x, y)];
      }
      assert addrs[..|addrs|] == addrs;
      return Some(probes);
    }

    static lemma {:induction false} ProbesDecline(e: ElimState, a: seq<Cell>, b: seq<Cell>, addrs: seq<Var>, n: nat)
      requires n <= |addrs| && Spec.ProbeAll(e, a, b, addrs[..n]).None?
      ensures Spec.ProbeAll(e, a, b, addrs).None?
      decreases |addrs| - n
    {
      hide ProbeOne;
      if n < |addrs| {
        assert addrs[..n + 1][..n] == addrs[..n];
        ProbesDecline(e, a, b, addrs, n + 1);
      } else {
        assert addrs[..n] == addrs;
      }
    }
  }

  /** Each written address once, keeping the first occurrence. */
  method Distinct(cells: seq<Cell>) returns (order: seq<Var>)
    ensures Lists(order, set c | c in cells :: c.addr)
  {
    order := [];
    for i := 0 to |cells|
      invariant Lists(order, set c | c in cells[..i] :: c.addr)
    {
      var addr := cells[i].addr;
      assert cells[..i + 1] == cells[..i] + [cells[i]];
      assert (set c | c in cells[..i + 1] :: c.addr) == (set c | c in cells[..i] :: c.addr) + {addr};
      if addr !in order {
        assert (set v | v in order + [addr]) == (set v | v in order) + {addr};
        order := order + [addr];
      }
    }
    assert cells[..|cells|] == cells;
  }

  lemma NothingWritten(sa: seq<Stmt>, sb: seq<Stmt>, ptr: nat)
    requires var r := RunSide(START, sa, ptr); r.Some? ==> RunSide(r.value.0, sb, ptr).None?
    ensures Lists([], Written(sa, sb, ptr))
  {
    hide RunSide;
  }

  /** Rewrite both lowerings without memory statements. */
  method Rewrite(sa: seq<Stmt>, sb: seq<Stmt>, ptr: nat, enabled: bool) returns (r: Option<MemPlan>, ghost order: seq<Var>)
    ensures r == Eliminate(sa, sb, ptr, enabled, order)
    ensures Lists(order, Written(sa, sb, ptr))
  {
    hide RunSide, ProbeAll, Lists;
    order := [];
    var elim := new Elim(ptr);
    var a := new SideMem();
    var b := new SideMem();
    var ok := elim.RunSide(sa, a);
    if !ok {
      NothingWritten(sa, sb, ptr);
      return None, [];
    }
    ok := elim.RunSide(sb, b);
    if !ok {
      NothingWritten(sa, sb, ptr);
      return None, [];
    }
    var addrs := Distinct(a.bytes + b.bytes);
    if enabled && a.bytes != [] && b.bytes != [] {
      var probes := elim.ProbeAll(a, b, addrs);
      if probes.None? { return None, addrs; }
      return Some(MemPlan(elim.out, elim.free, probes.value)), addrs;
    }
    return Some(MemPlan(elim.out, elim.free, [])), addrs;
  }
}
