/** Every operation of the memory pass is a run of its micro-steps, and every
    run of micro-steps keeps the pass's invariants. */
module MemTrace {
  import opened Bits
  import opened Ir
  import opened Common
  import opened Layouts
  import opened MemElim

  predicate CellsBefore(cells: seq<Cell>, n: nat) {
    forall c :: c in cells ==> MintedBefore(c.addr, n) && MintedBefore(c.byte, n)
  }

  /** Later states only add. */
  predicate Extends(e: ElimState, e': ElimState) {
    e.counter <= e'.counter && e.keys <= e'.keys && e.statements <= e'.statements
  }

  lemma {:induction false} RunExtends(e: ElimState, ms: seq<Micro>)
    ensures Extends(e, ApplyAll(e, ms))
    decreases |ms|
  {
    hide Chain;
    if ms != [] { RunExtends(e, ms[..|ms| - 1]); }
  }

  lemma ReachesExtends(e: ElimState, e': ElimState)
    requires Reaches(e, e')
    ensures Extends(e, e')
  {
    hide Extends, ApplyAll, ValidAll;
    var ms :| ValidAll(e, ms) && ApplyAll(e, ms) == e';
    RunExtends(e, ms);
  }

  lemma DefineReaches(e: ElimState, tag: string, bits: nat, src: Expr)
    requires ReadsBelow(src, e.counter)
    ensures Reaches(e, Define(e, tag, bits, src))
  {
    hide Reaches, ReadsBelow, Define;
    ReachesSelf(e);
    ReachesStep(e, e, Def(tag, bits, src));
  }

  lemma MintReaches(e: ElimState, addr: Var)
    requires MintedBefore(addr, e.counter)
    ensures Reaches(e, Mint(e, addr))
  {
    hide Reaches, Mint;
    ReachesSelf(e);
    ReachesStep(e, e, Key(addr));
  }

  lemma {:induction false} ChainReads(addr: Var, cells: seq<Cell>, base: Expr, n: nat)
    requires NameBefore(addr.name, n) && CellsBefore(cells, n) && ReadsBelow(base, n)
    ensures ReadsBelow(Chain(addr, cells, base), n)
    decreases |cells|
  {
    if cells != [] { ChainReads(addr, cells[..|cells| - 1], base, n); }
  }

  lemma FoldSideReaches(e: ElimState, side: seq<Cell>, addr: Var, base: Var)
    requires MintedBefore(addr, e.counter) && MintedBefore(base, e.counter) && CellsBefore(side, e.counter)
    ensures Reaches(e, FoldSide(e, side, addr, base))
  {
    hide Reaches, Define;
    ChainReads(addr, side, Ref(base), e.counter);
    DefineReaches(e, "r", 8, Chain(addr, side, Ref(base)));
  }

  lemma ByteAddressReaches(e: ElimState, base: Var, i: nat, ptr: nat)
    requires MintedBefore(base, e.counter)
    ensures Reaches(e, ByteAddress(e, base, i, ptr))
  {
    hide Reaches, Define;
    DefineReaches(e, "a", ptr, Bin(Add, Ref(base), Const(i, ptr)));
  }

  lemma {:induction false} StoreBytesReaches(e: ElimState, side: seq<Cell>, base: Var, held: Var, bits: nat, n: nat, ptr: nat)
    requires MintedBefore(base, e.counter) && MintedBefore(held, e.counter) && CellsBefore(side, e.counter)
    ensures var r := StoreBytes(e, side, base, held, bits, n, ptr);
      Reaches(e, r.0) && e.counter <= r.0.counter && CellsBefore(r.1, r.0.counter)
    decreases n
  {
    hide Reaches;
    if n == 0 {
      ReachesSelf(e);
    } else {
      StoreBytesReaches(e, side, base, held, bits, n - 1, ptr);
      var (p, cells) := StoreBytes(e, side, base, held, bits, n - 1, ptr);
      ByteAddressReaches(p, base, n - 1, ptr);
      var q := ByteAddress(p, base, n - 1, ptr);
      var slice := Un(Extract(Min(8 * (n - 1) + 7, SaturatingSub(bits, 1)), 8 * (n - 1)), Ref(held));
      DefineReaches(q, "sb", 8, slice);
      ReachesTrans(e, p, q);
      ReachesTrans(e, q, Define(q, "sb", 8, slice));
    }
  }

  lemma ExpandStoreReaches(e: ElimState, side: seq<Cell>, address: Expr, value: Expr, bits: nat, ptr: nat)
    requires CellsBefore(side, e.counter) && ReadsBelow(address, 0) && ReadsBelow(value, 0)
    ensures var r := ExpandStore(e, side, address, value, bits, ptr);
      r.Some? ==> Reaches(e, r.value.0) && CellsBefore(r.value.1, r.value.0.counter)
  {
    hide Reaches, StoreBytes, ReadsBelow;
    ReachesSelf(e);
    var e' := Define(e, "sa", ptr, address);
    var e'' := Define(e', "sv", bits, value);
    ReadsBelowMono(address, 0, e.counter);
    ReadsBelowMono(value, 0, e'.counter);
    DefineReaches(e, "sa", ptr, address);
    DefineReaches(e', "sv", bits, value);
    ReachesTrans(e, e', e'');
    var base, held := Fresh(e, "sa", ptr), Fresh(e', "sv", bits);
    StoreBytesReaches(e'', side, base, held, bits, ByteCount(bits), ptr);
    ReachesTrans(e, e'', StoreBytes(e'', side, base, held, bits, ByteCount(bits), ptr).0);
  }

  lemma {:induction false} ReadsBelowMono(x: Expr, m: nat, n: nat)
    requires ReadsBelow(x, m) && m <= n
    ensures ReadsBelow(x, n)
    decreases x
  {
    match x
    case Ref(_) =>
    case Const(_, _) =>
    case FpConst(_, _, _) =>
    case Unknown(_) =>
    case Un(_, a) => ReadsBelowMono(a, m, n);
    case Bin(_, a, b) => ReadsBelowMono(a, m, n); ReadsBelowMono(b, m, n);
    case Ite(c, t, f) => ReadsBelowMono(c, m, n); ReadsBelowMono(t, m, n); ReadsBelowMono(f, m, n);
  }

  predicate VarsBefore(vs: seq<Var>, n: nat) {
    forall v :: v in vs ==> MintedBefore(v, n)
  }

  lemma LoadByteReaches(p: ElimState, side: seq<Cell>, bytes: seq<Var>, base: Var, i: nat, ptr: nat)
    requires MintedBefore(base, p.counter) && CellsBefore(side, p.counter) && VarsBefore(bytes, p.counter)
    ensures var r := LoadByte(p, side, bytes, base, i, ptr);
      r.Some? ==> Reaches(p, r.value.0) && p.counter <= r.value.0.counter && VarsBefore(r.value.1, r.value.0.counter)
  {
    hide Reaches, Chain;
    var q, addr := ByteAddress(p, base, i, ptr), Fresh(p, "a", ptr);
    ByteAddressReaches(p, base, i, ptr);
    if Mem0(q, addr).Some? {
      var m := Mint(q, addr);
      MintReaches(q, addr);
      ReachesTrans(p, q, m);
      FoldSideReaches(m, side, addr, MintedByte(q));
      ReachesTrans(p, m, FoldSide(m, side, addr, MintedByte(q)));
    }
  }

  lemma {:induction false} LoadBytesReaches(e: ElimState, side: seq<Cell>, base: Var, n: nat, ptr: nat)
    requires MintedBefore(base, e.counter) && CellsBefore(side, e.counter)
    ensures var r := LoadBytes(e, side, base, n, ptr);
      r.Some? ==> Reaches(e, r.value.0) && e.counter <= r.value.0.counter && VarsBefore(r.value.1, r.value.0.counter)
    decreases n
  {
    hide Reaches, LoadByte;
    if n == 0 {
      ReachesSelf(e);
    } else {
      LoadBytesReaches(e, side, base, n - 1, ptr);
      var prev := LoadBytes(e, side, base, n - 1, ptr);
      if prev.Some? {
        LoadByteReaches(prev.value.0, side, prev.value.1, base, n - 1, ptr);
        var r := LoadByte(prev.value.0, side, prev.value.1, base, n - 1, ptr);
        if r.Some? { ReachesTrans(e, prev.value.0, r.value.0); }
      }
    }
  }

  lemma {:induction false} AssembleReads(bytes: seq<Var>, n: nat)
    requires bytes != [] && VarsBefore(bytes, n)
    ensures ReadsBelow(Assemble(bytes), n)
    decreases |bytes|
  {
    assert bytes[|bytes| - 1] in bytes;
    if |bytes| > 1 { AssembleReads(bytes[..|bytes| - 1], n); }
  }

  lemma ExpandLoadReaches(e: ElimState, side: seq<Cell>, dst: Var, address: Expr, bits: nat, ptr: nat)
    requires CellsBefore(side, e.counter) && ReadsBelow(address, 0) && !dst.name.Minted?
    ensures var r := ExpandLoad(e, side, dst, address, bits, ptr);
      r.Some? ==> Reaches(e, r.value) && e.counter <= r.value.counter
  {
    hide Reaches, LoadBytes, ReadsBelow, Assemble;
    ReachesSelf(e);
    var e', base := Define(e, "la", ptr, address), Fresh(e, "la", ptr);
    ReadsBelowMono(address, 0, e.counter);
    DefineReaches(e, "la", ptr, address);
    var n := ByteCount(bits);
    LoadBytesReaches(e', side, base, n, ptr);
    LoadBytesLength(e', side, base, n, ptr);
    var r := LoadBytes(e', side, base, n, ptr);
    if bits != 0 && r.Some? {
      var (p, bytes) := r.value;
      ReachesTrans(e, e', p);
      AssembleReads(bytes, p.counter);
      CoerceReads(Assemble(bytes), 8 * n, bits, p.counter);
      ReachesStep(e, p, Pass(Assign(dst, Coerce(Assemble(bytes), 8 * n, bits))));
    }
  }

  lemma CoerceReads(x: Expr, from: nat, to: nat, n: nat)
    requires ReadsBelow(x, n)
    ensures ReadsBelow(Coerce(x, from, to), n)
  {
  }

  /** What the pass is given: no minted name, memory effects allowed. */
  predicate InputStmt(s: Stmt) {
    match s
    case Assign(dst, rhs) => !dst.name.Minted? && ReadsBelow(rhs, 0)
    case LoadMem(dst, address, _) => !dst.name.Minted? && ReadsBelow(address, 0)
    case StoreMem(address, value, _) => ReadsBelow(address, 0) && ReadsBelow(value, 0)
    case Unsupported => true
    case Nop => true
  }

  predicate InputProgram(ss: seq<Stmt>) {
    forall i :: 0 <= i < |ss| ==> InputStmt(ss[i])
  }

  lemma SideStepReaches(e: ElimState, side: seq<Cell>, s: Stmt, ptr: nat)
    requires InputStmt(s) && CellsBefore(side, e.counter)
    ensures var r := SideStep(e, side, s, ptr);
      r.Some? ==> Reaches(e, r.value.0) && CellsBefore(r.value.1, r.value.0.counter)
  {
    hide Reaches, ExpandStore, ExpandLoad;
    match s
    case StoreMem(address, value, bits) => ExpandStoreReaches(e, side, address, value, bits, ptr);
    case LoadMem(dst, address, bits) => ExpandLoadReaches(e, side, dst, address, bits, ptr);
    case _ =>
      ReachesSelf(e);
      ReachesStep(e, e, Pass(s));
  }

  lemma {:induction false} RunSideReaches(e: ElimState, ss: seq<Stmt>, ptr: nat)
    requires InputProgram(ss)
    ensures var r := RunSide(e, ss, ptr);
      r.Some? ==> Reaches(e, r.value.0) && CellsBefore(r.value.1, r.value.0.counter)
    decreases |ss|
  {
    hide Reaches, SideStep, InputStmt;
    if ss == [] {
      ReachesSelf(e);
    } else {
      RunSideReaches(e, ss[..|ss| - 1], ptr);
      var prev := RunSide(e, ss[..|ss| - 1], ptr);
      if prev.Some? {
        SideStepReaches(prev.value.0, prev.value.1, ss[|ss| - 1], ptr);
        var r := SideStep(prev.value.0, prev.value.1, ss[|ss| - 1], ptr);
        if r.Some? { ReachesTrans(e, prev.value.0, r.value.0); }
      }
    }
  }

  lemma ProbeOneReaches(p: ElimState, a: seq<Cell>, b: seq<Cell>, probes: seq<(Var, Var)>, addr: Var)
    requires MintedBefore(addr, p.counter) && CellsBefore(a, p.counter) && CellsBefore(b, p.counter)
    ensures var r := ProbeOne(p, a, b, probes, addr); r.Some? ==> Reaches(p, r.value.0)
  {
    hide Reaches, Chain;
    if Mem0(p, addr).Some? {
      var m := Mint(p, addr);
      MintReaches(p, addr);
      var q := FoldSide(m, a, addr, MintedByte(p));
      FoldSideReaches(m, a, addr, MintedByte(p));
      ReachesTrans(p, m, q);
      FoldSideReaches(q, b, addr, MintedByte(p));
      ReachesTrans(p, q, FoldSide(q, b, addr, MintedByte(p)));
    }
  }

  lemma {:induction false} ProbeAllReaches(e: ElimState, a: seq<Cell>, b: seq<Cell>, addrs: seq<Var>)
    requires VarsBefore(addrs, e.counter) && CellsBefore(a, e.counter) && CellsBefore(b, e.counter)
    ensures var r := ProbeAll(e, a, b, addrs); r.Some? ==> Reaches(e, r.value.0) && e.counter <= r.value.0.counter
    decreases |addrs|
  {
    hide Reaches, ProbeOne;
    if addrs == [] {
      ReachesSelf(e);
    } else {
      ProbeAllReaches(e, a, b, addrs[..|addrs| - 1]);
      var prev := ProbeAll(e, a, b, addrs[..|addrs| - 1]);
      if prev.Some? {
        assert addrs[|addrs| - 1] in addrs;
        ProbeOneReaches(prev.value.0, a, b, prev.value.1, addrs[|addrs| - 1]);
        var r := ProbeOne(prev.value.0, a, b, prev.value.1, addrs[|addrs| - 1]);
        if r.Some? {
          ReachesTrans(e, prev.value.0, r.value.0);
          ReachesExtends(prev.value.0, r.value.0);
        }
      }
    }
  }
}
