/** The memory pass emits SSA without memory statements, and its name counter
    stays far below the width the program gives it. */
module MemSsa {
  import opened Bits
  import opened Common
  import opened Layouts
  import opened Ir
  import opened SsaForm
  import opened MemElim
  import opened MemTrace
  import opened MemRun
  import opened MemSim
  import opened MemPlans

  /** Minted names come from before `n`, the program's own ones from `own`. */
  predicate Within(names: set<Name>, n: nat, own: set<Name>) {
    forall x :: x in names ==> if x.Minted? then x.serial < n else x in own
  }

  /** The output so far is SSA over names already minted, the program's own
      definitions in `defs` and its own reads in `uses`. */
  predicate Clean(e: ElimState, defs: set<Name>, uses: set<Name>) {
    IsSsa(e.statements) && Within(Defined(e.statements), e.counter, defs) && Within(ReadBy(e.statements), e.counter, uses)
  }

  // ---- Each operation ----

  lemma DefineClean(e: ElimState, tag: string, bits: nat, src: Expr, defs: set<Name>, uses: set<Name>)
    requires Clean(e, defs, uses) && Within(Reads(src), e.counter, uses)
    ensures Clean(Define(e, tag, bits, src), defs, uses)
  {
    hide Reads, IsSsa, Defined, ReadBy;
    IsSsaAppend(e.statements, Assign(Fresh(e, tag, bits), src));
  }

  lemma {:induction false} ChainWithin(addr: Var, cells: seq<Cell>, base: Expr, n: nat, own: set<Name>)
    requires MintedBefore(addr, n) && CellsBefore(cells, n) && Within(Reads(base), n, own)
    ensures Within(Reads(Chain(addr, cells, base)), n, own)
    decreases |cells|
  {
    if cells != [] {
      var c, rest := cells[|cells| - 1], Chain(addr, cells[..|cells| - 1], base);
      assert c in cells;
      ChainWithin(addr, cells[..|cells| - 1], base, n, own);
      assert Reads(Bin(Eq, Ref(addr), Ref(c.addr))) == {addr.name} + {c.addr.name} by { EqReads(addr, c.addr); }
      assert Reads(Chain(addr, cells, base)) == {addr.name} + {c.addr.name} + {c.byte.name} + Reads(rest);
    }
  }

  lemma EqReads(x: Var, y: Var)
    ensures Reads(Bin(Eq, Ref(x), Ref(y))) == {x.name} + {y.name}
  {
    assert Reads(Ref(x)) == {x.name} && Reads(Ref(y)) == {y.name};
  }

  lemma WithinMono(names: set<Name>, m: nat, n: nat, own: set<Name>)
    requires Within(names, m, own) && m <= n
    ensures Within(names, n, own)
  {
  }

  lemma MintClean(e: ElimState, addr: Var, defs: set<Name>, uses: set<Name>)
    requires Clean(e, defs, uses) && MintedBefore(addr, e.counter) && CellsBefore(e.keys, e.counter)
    ensures Clean(Mint(e, addr), defs, uses)
  {
    var free := Fresh(e, "b", 8);
    var e' := e.(free := e.free + [free], counter := e.counter + 1);
    assert CellsBefore(e.keys, e'.counter);
    hide Chain, IsSsa, Defined, ReadBy, Within, CellsBefore;
    assert Within(Reads(Ref(free)), e'.counter, uses) by { OneMinted(free, e'.counter, uses); }
    ChainWithin(addr, e.keys, Ref(free), e'.counter, uses);
    WithinMono(Defined(e.statements), e.counter, e'.counter, defs);
    WithinMono(ReadBy(e.statements), e.counter, e'.counter, uses);
    DefineClean(e', "v", 8, Chain(addr, e.keys, Ref(free)), defs, uses);
  }

  lemma OneMinted(v: Var, n: nat, own: set<Name>)
    requires MintedBefore(v, n)
    ensures Within(Reads(Ref(v)), n, own)
  {
  }

  lemma FoldSideClean(e: ElimState, side: seq<Cell>, addr: Var, base: Var, defs: set<Name>, uses: set<Name>)
    requires Clean(e, defs, uses) && MintedBefore(addr, e.counter) && MintedBefore(base, e.counter) && CellsBefore(side, e.counter)
    ensures Clean(FoldSide(e, side, addr, base), defs, uses)
  {
    hide Chain, Clean, Define, CellsBefore, Within;
    OneMinted(base, e.counter, uses);
    ChainWithin(addr, side, Ref(base), e.counter, uses);
    DefineClean(e, "r", 8, Chain(addr, side, Ref(base)), defs, uses);
  }

  lemma ByteAddressClean(e: ElimState, base: Var, i: nat, ptr: nat, defs: set<Name>, uses: set<Name>)
    requires Clean(e, defs, uses) && MintedBefore(base, e.counter)
    ensures Clean(ByteAddress(e, base, i, ptr), defs, uses)
  {
    hide Clean, Define;
    DefineClean(e, "a", ptr, Bin(Add, Ref(base), Const(i, ptr)), defs, uses);
  }

  lemma {:induction false} StoreBytesClean(e: ElimState, side: seq<Cell>, base: Var, held: Var, bits: nat, n: nat, ptr: nat,
                                           defs: set<Name>, uses: set<Name>)
    requires Clean(e, defs, uses) && MintedBefore(base, e.counter) && MintedBefore(held, e.counter) && CellsBefore(side, e.counter)
    ensures Clean(StoreBytes(e, side, base, held, bits, n, ptr).0, defs, uses)
    decreases n
  {
    hide Clean, Reaches, Define, CellsBefore;
    if n > 0 {
      StoreBytesClean(e, side, base, held, bits, n - 1, ptr, defs, uses);
      StoreBytesReaches(e, side, base, held, bits, n - 1, ptr);
      var p := StoreBytes(e, side, base, held, bits, n - 1, ptr).0;
      ByteAddressClean(p, base, n - 1, ptr, defs, uses);
      HeldClean(ByteAddress(p, base, n - 1, ptr), held, Min(8 * (n - 1) + 7, SaturatingSub(bits, 1)), 8 * (n - 1), defs, uses) by {
        AddressCounter(p, base, n - 1, ptr);
      }
    }
  }

  lemma AddressCounter(p: ElimState, base: Var, i: nat, ptr: nat)
    ensures ByteAddress(p, base, i, ptr).counter == p.counter + 1
  {
  }

  lemma HeldClean(q: ElimState, held: Var, hi: nat, lo: nat, defs: set<Name>, uses: set<Name>)
    requires Clean(q, defs, uses) && MintedBefore(held, q.counter)
    ensures Clean(Define(q, "sb", 8, Un(Extract(hi, lo), Ref(held))), defs, uses)
  {
    hide Clean, Define;
    DefineClean(q, "sb", 8, Un(Extract(hi, lo), Ref(held)), defs, uses);
  }

  lemma ExpandStoreClean(e: ElimState, side: seq<Cell>, address: Expr, value: Expr, bits: nat, ptr: nat, defs: set<Name>, uses: set<Name>)
    requires Clean(e, defs, uses) && CellsBefore(side, e.counter) && ExpandStore(e, side, address, value, bits, ptr).Some?
    requires Within(Reads(address), 0, uses) && Within(Reads(value), 0, uses)
    ensures Clean(ExpandStore(e, side, address, value, bits, ptr).value.0, defs, uses)
  {
    hide Clean, Within, StoreBytes;
    var e' := Define(e, "sa", ptr, address);
    var e'' := Define(e', "sv", bits, value);
    WithinMono(Reads(address), 0, e.counter, uses);
    WithinMono(Reads(value), 0, e'.counter, uses);
    DefineClean(e, "sa", ptr, address, defs, uses);
    DefineClean(e', "sv", bits, value, defs, uses);
    StoreBytesClean(e'', side, Fresh(e, "sa", ptr), Fresh(e', "sv", bits), bits, ByteCount(bits), ptr, defs, uses);
  }

  lemma LoadByteClean(p: ElimState, side: seq<Cell>, bytes: seq<Var>, base: Var, i: nat, ptr: nat, defs: set<Name>, uses: set<Name>)
    requires Clean(p, defs, uses) && MintedBefore(base, p.counter) && CellsBefore(side, p.counter) && CellsBefore(p.keys, p.counter)
    requires LoadByte(p, side, bytes, base, i, ptr).Some?
    ensures Clean(LoadByte(p, side, bytes, base, i, ptr).value.0, defs, uses)
  {
    hide Clean, Chain;
    var q, addr := ByteAddress(p, base, i, ptr), Fresh(p, "a", ptr);
    ByteAddressClean(p, base, i, ptr, defs, uses);
    MintClean(q, addr, defs, uses);
    FoldSideClean(Mint(q, addr), side, addr, MintedByte(q), defs, uses);
  }

  lemma {:induction false} LoadBytesClean(e: ElimState, side: seq<Cell>, base: Var, n: nat, ptr: nat, defs: set<Name>, uses: set<Name>)
    requires Clean(e, defs, uses) && MintedBefore(base, e.counter) && CellsBefore(side, e.counter) && WellFormed(e)
    requires LoadBytes(e, side, base, n, ptr).Some?
    ensures Clean(LoadBytes(e, side, base, n, ptr).value.0, defs, uses)
    decreases n
  {
    hide Clean, Reaches, LoadByte, CellsBefore, WellFormed;
    if n > 0 {
      LoadBytesClean(e, side, base, n - 1, ptr, defs, uses);
      LoadBytesReaches(e, side, base, n - 1, ptr);
      var (p, bytes) := LoadBytes(e, side, base, n - 1, ptr).value;
      SideStays(e, p, side);
      ReachesWellFormed(e, p);
      KeysBefore(p);
      LoadByteClean(p, side, bytes, base, n - 1, ptr, defs, uses);
    }
  }

  lemma {:induction false} AssembleWithin(bytes: seq<Var>, n: nat, own: set<Name>)
    requires bytes != [] && VarsBefore(bytes, n)
    ensures Within(Reads(Assemble(bytes)), n, own)
    decreases |bytes|
  {
    assert bytes[|bytes| - 1] in bytes;
    if |bytes| > 1 { AssembleWithin(bytes[..|bytes| - 1], n, own); }
  }

  /** Appending one of the program's own definitions. */
  lemma OwnClean(e: ElimState, s: Stmt, defs: set<Name>, uses: set<Name>, own: set<Name>)
    requires Clean(e, defs, uses) && Within(ReadsOf(s), e.counter, own)
    requires forall x :: x in DstOf(s) ==> !x.Minted? && x !in defs && x !in uses && x !in own
    ensures Clean(e.(statements := e.statements + [s]), defs + DstOf(s), uses + own)
  {
    hide IsSsa, Defined, ReadBy, DstOf, ReadsOf;
    IsSsaAppend(e.statements, s);
  }

  lemma CleanMono(e: ElimState, defs: set<Name>, uses: set<Name>, defs': set<Name>, uses': set<Name>)
    requires Clean(e, defs, uses) && defs <= defs' && uses <= uses'
    ensures Clean(e, defs', uses')
  {
    hide IsSsa, Defined, ReadBy;
  }

  lemma ExpandLoadClean(e: ElimState, side: seq<Cell>, dst: Var, address: Expr, bits: nat, ptr: nat, defs: set<Name>, uses: set<Name>)
    requires Clean(e, defs, uses) && CellsBefore(side, e.counter) && WellFormed(e)
    requires ReadsBelow(address, 0) && Within(Reads(address), 0, uses) && ExpandLoad(e, side, dst, address, bits, ptr).Some?
    requires !dst.name.Minted? && dst.name !in defs && dst.name !in uses
    ensures Clean(ExpandLoad(e, side, dst, address, bits, ptr).value, defs + {dst.name}, uses)
  {
    hide Clean, Within, LoadBytes, Reaches, WellFormed, ReadsBelow, Assemble, Coerce, Reads;
    var e', base, n := Define(e, "la", ptr, address), Fresh(e, "la", ptr), ByteCount(bits);
    if bits == 0 {
      CleanMono(e, defs, uses, defs + {dst.name}, uses);
    } else {
      WithinMono(Reads(address), 0, e.counter, uses);
      DefineClean(e, "la", ptr, address, defs, uses);
      ReadsBelowMono(address, 0, e.counter);
      DefineReaches(e, "la", ptr, address);
      ReachesWellFormed(e, e');
      LoadBytesClean(e', side, base, n, ptr, defs, uses);
      LoadBytesReaches(e', side, base, n, ptr);
      LoadBytesLength(e', side, base, n, ptr);
      var (p, bytes) := LoadBytes(e', side, base, n, ptr).value;
      AssembleWithin(bytes, p.counter, {});
      CoerceNames(Assemble(bytes), 8 * n, bits);
      OwnClean(p, Assign(dst, Coerce(Assemble(bytes), 8 * n, bits)), defs, uses, {});
      assert uses + {} == uses;
    }
  }

  lemma {:induction false} BelowWithin(x: Expr, n: nat)
    requires ReadsBelow(x, n)
    ensures Within(Reads(x), n, Reads(x))
    decreases x
  {
    match x
    case Ref(_) =>
    case Const(_, _) =>
    case FpConst(_, _, _) =>
    case Unknown(_) =>
    case Un(_, a) => BelowWithin(a, n);
    case Bin(_, a, b) => BelowWithin(a, n); BelowWithin(b, n);
    case Ite(c, t, f) => BelowWithin(c, n); BelowWithin(t, n); BelowWithin(f, n);
  }

  /** What the next statement may define. */
  predicate Follows(s: Stmt, defs: set<Name>, uses: set<Name>) {
    forall x :: x in DstOf(s) ==> x !in defs && x !in uses && x !in ReadsOf(s)
  }

  lemma SideStepClean(e: ElimState, side: seq<Cell>, s: Stmt, ptr: nat, defs: set<Name>, uses: set<Name>)
    requires Clean(e, defs, uses) && CellsBefore(side, e.counter) && WellFormed(e) && InputStmt(s)
    requires SideStep(e, side, s, ptr).Some? && Follows(s, defs, uses)
    ensures Clean(SideStep(e, side, s, ptr).value.0, defs + DstOf(s), uses + ReadsOf(s))
  {
    hide Clean, WellFormed, ReadsBelow, Reads, ExpandStore, ExpandLoad, Within, CellsBefore;
    var all := uses + ReadsOf(s);
    match s
    case StoreMem(address, value, bits) =>
      BelowWithin(address, 0);
      BelowWithin(value, 0);
      WithinMore(Reads(address), 0, Reads(address), all);
      WithinMore(Reads(value), 0, Reads(value), all);
      CleanMono(e, defs, uses, defs + {}, all);
      ExpandStoreClean(e, side, address, value, bits, ptr, defs + {}, all);
    case LoadMem(dst, address, bits) =>
      BelowWithin(address, 0);
      WithinMore(Reads(address), 0, Reads(address), all);
      CleanMono(e, defs, uses, defs, all);
      assert dst.name in DstOf(s);
      ExpandLoadClean(e, side, dst, address, bits, ptr, defs, all);
    case Assign(dst, rhs) =>
      BelowWithin(rhs, 0);
      WithinMono(Reads(rhs), 0, e.counter, Reads(rhs));
      OwnClean(e, s, defs, uses, ReadsOf(s));
    case _ =>
      assert Within({}, e.counter, {}) by { NoNames(e.counter); }
      OwnClean(e, s, defs, uses, {});
  }

  lemma NoNames(n: nat)
    ensures Within({}, n, {})
  {
  }

  lemma WithinMore(names: set<Name>, n: nat, own: set<Name>, own': set<Name>)
    requires Within(names, n, own) && own <= own'
    ensures Within(names, n, own')
  {
  }

  lemma {:induction false} RunSideClean(e: ElimState, pre: seq<Stmt>, ss: seq<Stmt>, ptr: nat)
    requires Clean(e, Defined(pre), ReadBy(pre)) && WellFormed(e) && InputProgram(ss) && IsSsa(pre + ss)
    requires RunSide(e, ss, ptr).Some?
    ensures Clean(RunSide(e, ss, ptr).value.0, Defined(pre + ss), ReadBy(pre + ss))
    decreases |ss|
  {
    hide Clean, WellFormed, SideStep, InputStmt, Reaches, CellsBefore, DstOf, ReadsOf, IsSsa, Defined, ReadBy;
    if ss == [] {
      assert pre + ss == pre;
    } else {
      var q, s := ss[..|ss| - 1], ss[|ss| - 1];
      assert pre + ss == (pre + q) + [s];
      IsSsaAppend(pre + q, s);
      RunSideClean(e, pre, q, ptr);
      RunSideReaches(e, q, ptr);
      var (p, side) := RunSide(e, q, ptr).value;
      ReachesWellFormed(e, p);
      SideStepClean(p, side, s, ptr, Defined(pre + q), ReadBy(pre + q));
    }
  }

  lemma ProbeOneClean(p: ElimState, a: seq<Cell>, b: seq<Cell>, probes: seq<(Var, Var)>, addr: Var, defs: set<Name>, uses: set<Name>)
    requires Clean(p, defs, uses) && MintedBefore(addr, p.counter) && CellsBefore(p.keys, p.counter)
    requires CellsBefore(a, p.counter) && CellsBefore(b, p.counter) && ProbeOne(p, a, b, probes, addr).Some?
    ensures Clean(ProbeOne(p, a, b, probes, addr).value.0, defs, uses)
  {
    hide Clean, Chain;
    var m := Mint(p, addr);
    MintClean(p, addr, defs, uses);
    FoldSideClean(m, a, addr, MintedByte(p), defs, uses);
    FoldSideClean(FoldSide(m, a, addr, MintedByte(p)), b, addr, MintedByte(p), defs, uses);
  }

  lemma {:induction false} ProbeAllClean(e: ElimState, a: seq<Cell>, b: seq<Cell>, addrs: seq<Var>, defs: set<Name>, uses: set<Name>)
    requires Clean(e, defs, uses) && VarsBefore(addrs, e.counter) && WellFormed(e)
    requires CellsBefore(a, e.counter) && CellsBefore(b, e.counter) && ProbeAll(e, a, b, addrs).Some?
    ensures Clean(ProbeAll(e, a, b, addrs).value.0, defs, uses)
    decreases |addrs|
  {
    hide Clean, WellFormed, ProbeOne, Reaches, CellsBefore;
    if addrs != [] {
      var rest, addr := addrs[..|addrs| - 1], addrs[|addrs| - 1];
      assert addr in addrs;
      ProbeAllClean(e, a, b, rest, defs, uses);
      ProbeAllReaches(e, a, b, rest);
      var (p, probes) := ProbeAll(e, a, b, rest).value;
      SideStays(e, p, a);
      SideStays(e, p, b);
      ReachesWellFormed(e, p);
      KeysBefore(p);
      ProbeOneClean(p, a, b, probes, addr, defs, uses);
    }
  }

  // ---- The whole pass ----

  /** Two lowerings that together are SSA come out as one SSA list in which no
      memory statement is left. */
  lemma EliminateIsSsa(sa: seq<Stmt>, sb: seq<Stmt>, ptr: nat, enabled: bool, order: seq<Var>)
    requires InputProgram(sa) && InputProgram(sb) && IsSsa(sa) && IsSsa(sa + sb)
    requires Eliminate(sa, sb, ptr, enabled, order).Some? && Lists(order, Written(sa, sb, ptr))
    ensures var plan := Eliminate(sa, sb, ptr, enabled, order).value; IsSsa(plan.statements) && MemoryFree(plan.statements)
  {
    hide WellFormed, RunSide, ProbeAll, Reaches, InputProgram, Lists, CellsBefore, VarsBefore, IsSsa, Clean, Defined, ReadBy, MemoryFree;
    var o := OutcomeOf(sa, sb, ptr, enabled, order);
    Stages(sa, sb, ptr, enabled, order);
    StartFacts();
    StartClean();
    assert [] + sa == sa;
    RunSideClean(START, [], sa, ptr);
    RunSideClean(o.mid, sa, sb, ptr);
    var defs, uses := Defined(sa + sb), ReadBy(sa + sb);
    if Compares(o.a, o.b, enabled) { ProbeAllClean(o.end, o.a, o.b, order, defs, uses); }
    CleanIsSsa(o.last, defs, uses);
  }

  lemma StartClean()
    ensures Clean(START, Defined([]), ReadBy([]))
  {
  }

  lemma CleanIsSsa(e: ElimState, defs: set<Name>, uses: set<Name>)
    requires Clean(e, defs, uses) && WellFormed(e)
    ensures IsSsa(e.statements) && MemoryFree(e.statements)
  {
    hide IsSsa, Defined, ReadBy;
    forall i | 0 <= i < |e.statements| ensures !e.statements[i].LoadMem? && !e.statements[i].StoreMem? {
      assert StmtBefore(e.statements[i], e.counter);
    }
  }

  // ---- The counter ----

  /** At most five names per key and four per written byte. */
  predicate Bounded(e: ElimState, writes: nat) {
    e.counter <= 5 * |e.keys| + 4 * writes && |e.keys| <= MEM_KEY_CAP
  }

  lemma {:induction false} StoreBytesCount(e: ElimState, side: seq<Cell>, base: Var, held: Var, bits: nat, n: nat, ptr: nat)
    ensures var (r, cells) := StoreBytes(e, side, base, held, bits, n, ptr);
      r.counter == e.counter + 2 * n && r.keys == e.keys && |cells| == |side| + n
    decreases n
  {
    if n > 0 { StoreBytesCount(e, side, base, held, bits, n - 1, ptr); }
  }

  lemma {:induction false} LoadBytesCount(e: ElimState, side: seq<Cell>, base: Var, n: nat, ptr: nat)
    requires LoadBytes(e, side, base, n, ptr).Some? && |e.keys| <= MEM_KEY_CAP
    ensures var r := LoadBytes(e, side, base, n, ptr).value.0;
      r.counter == e.counter + 4 * n && |r.keys| == |e.keys| + n && |r.keys| <= MEM_KEY_CAP
    decreases n
  {
    hide Chain;
    if n > 0 { LoadBytesCount(e, side, base, n - 1, ptr); }
  }

  lemma SideStepCount(e: ElimState, side: seq<Cell>, s: Stmt, ptr: nat, writes: nat)
    requires Bounded(e, writes + |side|) && SideStep(e, side, s, ptr).Some? && |side| <= MEM_STORE_CAP
    ensures var (r, cells) := SideStep(e, side, s, ptr).value; Bounded(r, writes + |cells|) && |cells| <= MEM_STORE_CAP
  {
    hide StoreBytes, LoadBytes, Assemble;
    match s
    case StoreMem(address, value, bits) =>
      var e' := Define(e, "sa", ptr, address);
      StoreBytesCount(Define(e', "sv", bits, value), side, Fresh(e, "sa", ptr), Fresh(e', "sv", bits), bits, ByteCount(bits), ptr);
    case LoadMem(dst, address, bits) =>
      if bits != 0 {
        LoadBytesCount(Define(e, "la", ptr, address), side, Fresh(e, "la", ptr), ByteCount(bits), ptr);
      }
    case _ =>
  }

  lemma {:induction false} RunSideCount(e: ElimState, ss: seq<Stmt>, ptr: nat, writes: nat)
    requires Bounded(e, writes) && RunSide(e, ss, ptr).Some?
    ensures var (r, cells) := RunSide(e, ss, ptr).value; Bounded(r, writes + |cells|) && |cells| <= MEM_STORE_CAP
    decreases |ss|
  {
    hide SideStep, Bounded;
    if ss != [] {
      RunSideCount(e, ss[..|ss| - 1], ptr, writes);
      var (p, side) := RunSide(e, ss[..|ss| - 1], ptr).value;
      SideStepCount(p, side, ss[|ss| - 1], ptr, writes);
    }
  }

  lemma {:induction false} ProbeAllCount(e: ElimState, a: seq<Cell>, b: seq<Cell>, addrs: seq<Var>, writes: nat)
    requires Bounded(e, writes) && ProbeAll(e, a, b, addrs).Some?
    ensures Bounded(ProbeAll(e, a, b, addrs).value.0, writes)
    decreases |addrs|
  {
    hide Chain;
    if addrs != [] { ProbeAllCount(e, a, b, addrs[..|addrs| - 1], writes); }
  }

  /** The caps keep the 32-bit name counter below 2305, so it cannot overflow. */
  lemma CounterNeverOverflows(sa: seq<Stmt>, sb: seq<Stmt>, ptr: nat, enabled: bool, order: seq<Var>)
    requires Eliminate(sa, sb, ptr, enabled, order).Some?
    ensures OutcomeOf(sa, sb, ptr, enabled, order).last.counter <= 2304
  {
    hide RunSide, ProbeAll;
    var o := OutcomeOf(sa, sb, ptr, enabled, order);
    RunSideCount(START, sa, ptr, 0);
    RunSideCount(o.mid, sb, ptr, |o.a|);
    if Compares(o.a, o.b, enabled) { ProbeAllCount(o.end, o.a, o.b, order, |o.a| + |o.b|); }
  }
}
