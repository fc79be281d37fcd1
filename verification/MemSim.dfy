/** The rewritten statements do what the originals do: with real loads and stores
    over an initial memory that agrees with the minted keys, every name and every
    byte comes out the same. */
module MemSim {
  import opened Bits
  import opened Common
  import opened Ir
  import opened MemElim
  import opened MemTrace
  import opened MemRun

  // ---- Values of the expressions the pass builds ----

  /** Only minted names change, and no unknown is consumed. */
  ghost predicate Quiet(e: ElimState, e': ElimState, inputs: Env, sem: Sem) {
    (forall x: Name {:trigger Get(Run(e', inputs, sem), x)} :: !x.Minted? ==>
      Get(Run(e, inputs, sem), x) == Get(Run(e', inputs, sem), x))
    && CountStmts(e'.statements) == CountStmts(e.statements)
  }

  lemma QuietTrans(e: ElimState, e': ElimState, e'': ElimState, inputs: Env, sem: Sem)
    requires Quiet(e, e', inputs, sem) && Quiet(e', e'', inputs, sem)
    ensures Quiet(e, e'', inputs, sem)
  {
    hide Run, CountStmts;
    forall x: Name | !x.Minted? ensures Get(Run(e, inputs, sem), x) == Get(Run(e'', inputs, sem), x) {
      assert Get(Run(e', inputs, sem), x) == Get(Run(e'', inputs, sem), x);
    }
  }

  lemma DefineValue(e: ElimState, tag: string, bits: nat, src: Expr, inputs: Env, sem: Sem)
    ensures var env, e' := Run(e, inputs, sem), Define(e, tag, bits, src);
      && Run(e', inputs, sem) == env[Fresh(e, tag, bits).name := Cut(Eval(src, env, sem, CountStmts(e.statements)), bits)]
      && SameBefore(env, Run(e', inputs, sem), e.counter)
      && (Count(src) == 0 ==> Quiet(e, e', inputs, sem))
      && CountStmts(e'.statements) == CountStmts(e.statements) + Count(src)
  {
    hide Run, Eval, Cut, SameBefore;
    RunAssign(e, Fresh(e, tag, bits), src, Define(e, tag, bits, src), inputs, sem);
    var env := Run(e, inputs, sem);
    UpdateKeeps(env, Fresh(e, tag, bits).name, Cut(Eval(src, env, sem, CountStmts(e.statements)), bits), e.counter);
  }

  lemma UpdatedVal(env: Env, v: Var, x: nat)
    ensures Val(env[v.name := Cut(x, v.bits)], v) == Cut(x, v.bits)
  {
    WrapBound(x, v.bits);
    hide Pow2;
    SmallMod(Cut(x, v.bits), Pow2(v.bits));
  }

  lemma OffsetValue(base: Var, i: nat, ptr: nat, env: Env, sem: Sem, k: nat)
    requires base.bits == ptr
    ensures Cut(Eval(Bin(Add, Ref(base), Const(i, ptr)), env, sem, k), ptr) == Cut(Val(env, base) + i, ptr)
    ensures Count(Bin(Add, Ref(base), Const(i, ptr))) == 0
  {
    var b, m := Val(env, base), Pow2(ptr);
    hide Pow2, Val;
    assert Eval(Ref(base), env, sem, k) == b && Eval(Const(i, ptr), env, sem, k) == i % m;
    assert Eval(Bin(Add, Ref(base), Const(i, ptr)), env, sem, k) == (b + i % m) % m;
    assert (b + i % m) % m == (b + i) % m by {
      assert b + i == (b + i % m) + i / m * m;
      ModAddMul(b + i % m, i / m, m);
    }
    SmallMod((b + i) % m, m);
  }

  lemma DivBelow(v: nat, a: nat, b: nat)
    requires a > 0 && v < b * a
    ensures 0 <= v / a < b
  {
    var q := v / a;
    DivNat(v, a);
    assert v == q * a + v % a;
    assert q * a == b * a + (q - b) * a;
    MulNonneg(q - b, a);
  }

  lemma MulNonneg(k: int, d: int)
    requires d >= 0
    ensures k >= 0 ==> k * d >= 0
  {
  }

  /** The byte slice a store takes, short at the top, is the byte stored. */
  lemma SliceByte(v: nat, bits: nat, i: nat)
    requires v < Pow2(bits) && 8 * i < bits
    ensures Cut(Slice(v, 8 * i, SliceWidth(Min(8 * i + 7, SaturatingSub(bits, 1)), 8 * i)), 8) == Slice(v, 8 * i, 8)
  {
    var w := SliceWidth(Min(8 * i + 7, SaturatingSub(bits, 1)), 8 * i);
    assert w <= 8 && (w == 8 || w == bits - 8 * i);
    hide Slice;
    if w == 8 {
      SliceBound(v, 8 * i, 8);
      hide Pow2;
      SmallMod(Slice(v, 8 * i, 8), Pow2(8));
    } else {
      ShortSlice(v, bits, 8 * i);
    }
  }

  lemma SliceBound(x: nat, lo: nat, w: nat)
    ensures Slice(x, lo, w) < Pow2(w)
  {
    hide Pow2;
  }

  lemma ShortSlice(v: nat, bits: nat, lo: nat)
    requires v < Pow2(bits) && lo <= bits <= lo + 8
    ensures Cut(Slice(v, lo, bits - lo), 8) == Slice(v, lo, 8)
  {
    Pow2Add(bits - lo, lo);
    hide Pow2;
    DivBelow(v, Pow2(lo), Pow2(bits - lo));
    var q := v / Pow2(lo);
    SmallMod(q, Pow2(bits - lo));
    CutSmall(q, bits - lo, 8);
  }

  // ---- A store ----

  /** Reading a side's writes over `m0` reads the memory `mem`. */
  ghost predicate Holds(side: seq<Cell>, env: Env, m0: Mem, mem: Mem) {
    forall a: nat :: Byte(mem, a) == Lookup(side, env, a, Byte(m0, a))
  }

  lemma HoldsSame(side: seq<Cell>, env: Env, env': Env, n: nat, m0: Mem, mem: Mem)
    requires CellsBefore(side, n) && SameBefore(env, env', n) && Holds(side, env, m0, mem)
    ensures Holds(side, env', m0, mem)
  {
    hide Byte, SameBefore, CellsBefore, Lookup;
    forall a: nat ensures Byte(mem, a) == Lookup(side, env', a, Byte(m0, a)) {
      assert Byte(mem, a) == Lookup(side, env, a, Byte(m0, a));
      LookupSame(side, env, env', n, a, Byte(m0, a));
    }
  }

  lemma HoldsSnoc(side: seq<Cell>, c: Cell, env: Env, m0: Mem, mem: Mem, a: nat, b: nat)
    requires Holds(side, env, m0, mem) && Val(env, c.addr) == a && Val(env, c.byte) == b && b < 256
    ensures Holds(side + [c], env, m0, mem[a := b])
  {
    hide Val;
    assert (side + [c])[..|side|] == side;
    forall x: nat ensures Byte(mem[a := b], x) == Lookup(side + [c], env, x, Byte(m0, x)) {
      assert Byte(mem, x) == Lookup(side, env, x, Byte(m0, x));
    }
  }

  lemma StoreByteSim(p: ElimState, cells: seq<Cell>, base: Var, held: Var, bits: nat, i: nat, ptr: nat,
                     inputs: Env, sem: Sem, m0: Mem, mem: Mem)
    requires MintedBefore(base, p.counter) && MintedBefore(held, p.counter) && CellsBefore(cells, p.counter)
    requires base.bits == ptr && held.bits == bits && 8 * i < bits
    requires Holds(cells, Run(p, inputs, sem), m0, mem)
    ensures
      var q := ByteAddress(p, base, i, ptr);
      var r := Define(q, "sb", 8, Un(Extract(Min(8 * i + 7, SaturatingSub(bits, 1)), 8 * i), Ref(held)));
      var env := Run(p, inputs, sem);
      && Holds(cells + [Cell(Fresh(p, "a", ptr), Fresh(q, "sb", 8))], Run(r, inputs, sem), m0,
               mem[Cut(Val(env, base) + i, ptr) := Slice(Val(env, held), 8 * i, 8)])
      && Quiet(p, r, inputs, sem) && SameBefore(env, Run(r, inputs, sem), p.counter)
  {
    hide CountStmts, CellsBefore, Min, SaturatingSub, Width, Count, Run, Val, Quiet, SameBefore, Holds, Eval, Slice, SliceWidth, Cut;
    var q, addr := ByteAddress(p, base, i, ptr), Fresh(p, "a", ptr);
    var slice := Un(Extract(Min(8 * i + 7, SaturatingSub(bits, 1)), 8 * i), Ref(held));
    var r, byte := Define(q, "sb", 8, slice), Fresh(q, "sb", 8);
    var env, env1, env2 := Run(p, inputs, sem), Run(q, inputs, sem), Run(r, inputs, sem);
    HeldByte(held, bits, i, env1, sem, CountStmts(q.statements));
    DefineValue(p, "a", ptr, Bin(Add, Ref(base), Const(i, ptr)), inputs, sem);
    OffsetValue(base, i, ptr, env, sem, CountStmts(p.statements));
    UpdatedVal(env, addr, Eval(Bin(Add, Ref(base), Const(i, ptr)), env, sem, CountStmts(p.statements)));
    DefineValue(q, "sb", 8, slice, inputs, sem);
    UpdatedVal(env1, byte, Eval(slice, env1, sem, CountStmts(q.statements)));
    SameVal(env, env1, p.counter, held);
    SameVal(env1, env2, q.counter, addr);
    QuietTrans(p, q, r, inputs, sem);
    SameTrans(env, env1, env2, p.counter, q.counter);
    HoldsSame(cells, env, env2, p.counter, m0, mem);
    HoldsSnoc(cells, Cell(addr, byte), env2, m0, mem, Cut(Val(env, base) + i, ptr), Slice(Val(env, held), 8 * i, 8));
  }

  lemma HeldByte(held: Var, bits: nat, i: nat, env: Env, sem: Sem, k: nat)
    requires held.bits == bits && 8 * i < bits
    ensures
      var slice := Un(Extract(Min(8 * i + 7, SaturatingSub(bits, 1)), 8 * i), Ref(held));
      && Cut(Eval(slice, env, sem, k), 8) == Slice(Val(env, held), 8 * i, 8)
      && Slice(Val(env, held), 8 * i, 8) < 256
      && Count(slice) == 0
  {
    var v := Val(env, held);
    assert v < Pow2(bits);
    SliceByte(v, bits, i);
    SliceBound(v, 8 * i, 8);
    assert Pow2(8) == 256;
    hide Pow2, Val, Slice, Cut;
    assert Eval(Ref(held), env, sem, k) == v;
  }

  lemma SameTrans(env: Env, env': Env, env'': Env, m: nat, n: nat)
    requires SameBefore(env, env', m) && SameBefore(env', env'', n) && m <= n
    ensures SameBefore(env, env'', m)
  {
    forall x: Name | x.Minted? && x.serial < m ensures Get(env, x) == Get(env'', x) {
      assert Get(env', x) == Get(env'', x);
    }
  }

  lemma {:induction false} StoreBytesSim(e: ElimState, side: seq<Cell>, base: Var, held: Var, bits: nat, n: nat, ptr: nat,
                                         inputs: Env, sem: Sem, m0: Mem, mem: Mem)
    requires MintedBefore(base, e.counter) && MintedBefore(held, e.counter) && CellsBefore(side, e.counter)
    requires base.bits == ptr && held.bits == bits && n <= ByteCount(bits)
    requires Holds(side, Run(e, inputs, sem), m0, mem)
    ensures
      var (r, cells) := StoreBytes(e, side, base, held, bits, n, ptr);
      var env := Run(e, inputs, sem);
      && Holds(cells, Run(r, inputs, sem), m0, StoreValue(mem, Val(env, base), Val(env, held), n, ptr))
      && Quiet(e, r, inputs, sem) && SameBefore(env, Run(r, inputs, sem), e.counter)
    decreases n
  {
    hide Run, Val, Quiet, SameBefore, Holds, Slice, Cut;
    var env := Run(e, inputs, sem);
    if n == 0 {
      Nothing(e, inputs, sem);
    } else {
      StoreBytesSim(e, side, base, held, bits, n - 1, ptr, inputs, sem, m0, mem);
      StoreBytesReaches(e, side, base, held, bits, n - 1, ptr);
      var (p, cells) := StoreBytes(e, side, base, held, bits, n - 1, ptr);
      var before := StoreValue(mem, Val(env, base), Val(env, held), n - 1, ptr);
      StoreByteSim(p, cells, base, held, bits, n - 1, ptr, inputs, sem, m0, before);
      SameVal(env, Run(p, inputs, sem), e.counter, base);
      SameVal(env, Run(p, inputs, sem), e.counter, held);
      var r := StoreBytes(e, side, base, held, bits, n, ptr).0;
      QuietTrans(e, p, r, inputs, sem);
      SameTrans(env, Run(p, inputs, sem), Run(r, inputs, sem), e.counter, p.counter);
    }
  }

  lemma Nothing(e: ElimState, inputs: Env, sem: Sem)
    ensures Quiet(e, e, inputs, sem)
    ensures SameBefore(Run(e, inputs, sem), Run(e, inputs, sem), e.counter)
  {
  }

  // ---- A load ----

  lemma MintQuiet(e: ElimState, addr: Var, inputs: Env, sem: Sem)
    requires MintedBefore(addr, e.counter)
    ensures Quiet(e, Mint(e, addr), inputs, sem)
  {
    MintValue(e, addr, inputs, sem);
    hide Run, Mint, Lookup, Cut, Val, SameBefore;
  }

  lemma FoldSideValue(e: ElimState, side: seq<Cell>, addr: Var, base: Var, inputs: Env, sem: Sem)
    requires MintedBefore(addr, e.counter) && MintedBefore(base, e.counter) && CellsBefore(side, e.counter)
    ensures
      var env, r := Run(e, inputs, sem), FoldSide(e, side, addr, base);
      && Val(Run(r, inputs, sem), Fresh(e, "r", 8)) == Cut(Lookup(side, env, Val(env, addr), Val(env, base)), 8)
      && Quiet(e, r, inputs, sem) && SameBefore(env, Run(r, inputs, sem), e.counter)
  {
    hide Run, Val, Quiet, SameBefore, Cut, Lookup, Chain;
    var env, src := Run(e, inputs, sem), Chain(addr, side, Ref(base));
    ChainValue(addr, side, base, env, sem, CountStmts(e.statements));
    DefineValue(e, "r", 8, src, inputs, sem);
    UpdatedVal(env, Fresh(e, "r", 8), Eval(src, env, sem, CountStmts(e.statements)));
  }

  lemma KeyByte(e: ElimState, addr: Var, inputs: Env, sem: Sem, m0: Mem)
    requires Consistent(Mint(e, addr).keys, Run(Mint(e, addr), inputs, sem), m0)
    ensures var env := Run(Mint(e, addr), inputs, sem); Val(env, MintedByte(e)) == Byte(m0, Val(env, addr))
  {
    hide Run, Byte, Val;
    assert Cell(addr, MintedByte(e)) in Mint(e, addr).keys;
  }

  /** A probe of one side at an address already keyed reads that side's memory. */
  lemma ReadSide(e: ElimState, side: seq<Cell>, addr: Var, base: Var, inputs: Env, sem: Sem, m0: Mem, mem: Mem)
    requires MintedBefore(addr, e.counter) && MintedBefore(base, e.counter) && CellsBefore(side, e.counter)
    requires var env := Run(e, inputs, sem);
      Holds(side, env, m0, mem) && Val(env, base) == Byte(m0, Val(env, addr))
    ensures
      var env, r := Run(e, inputs, sem), FoldSide(e, side, addr, base);
      && Val(Run(r, inputs, sem), Fresh(e, "r", 8)) == Byte(mem, Val(env, addr))
      && Quiet(e, r, inputs, sem) && SameBefore(env, Run(r, inputs, sem), e.counter)
  {
    assert Pow2(8) == 256;
    hide Run, Val, Quiet, SameBefore, Lookup, Pow2;
    FoldSideValue(e, side, addr, base, inputs, sem);
    var a := Val(Run(e, inputs, sem), addr);
    assert Byte(mem, a) == Lookup(side, Run(e, inputs, sem), a, Byte(m0, a));
    SmallMod(Byte(mem, a), 256);
  }

  lemma LoadByteSim(p: ElimState, side: seq<Cell>, bytes: seq<Var>, base: Var, i: nat, ptr: nat,
                    inputs: Env, sem: Sem, m0: Mem, mem: Mem)
    requires MintedBefore(base, p.counter) && CellsBefore(side, p.counter) && base.bits == ptr
    requires CellsBefore(p.keys, p.counter)
    requires LoadByte(p, side, bytes, base, i, ptr).Some?
    requires var r := LoadByte(p, side, bytes, base, i, ptr).value.0;
      Holds(side, Run(p, inputs, sem), m0, mem) && Consistent(r.keys, Run(r, inputs, sem), m0)
    ensures
      var (r, more) := LoadByte(p, side, bytes, base, i, ptr).value;
      var env := Run(p, inputs, sem);
      && more[..|bytes|] == bytes && |more| == |bytes| + 1 && more[|bytes|].bits == 8
      && Val(Run(r, inputs, sem), more[|bytes|]) == Byte(mem, Cut(Val(env, base) + i, ptr))
      && Quiet(p, r, inputs, sem) && SameBefore(env, Run(r, inputs, sem), p.counter)
  {
    var q, addr := ByteAddress(p, base, i, ptr), Fresh(p, "a", ptr);
    var m := Mint(q, addr);
    var r := FoldSide(m, side, addr, MintedByte(q));
    assert LoadByte(p, side, bytes, base, i, ptr) == Some((r, bytes + [Fresh(m, "r", 8)]));
    assert CellsBefore(m.keys, m.counter) && CellsBefore(side, m.counter);
    hide Run, Val, Quiet, SameBefore, Holds, Consistent, Cut, Eval, Byte, CellsBefore, FoldSide, Mint;
    var env, env1, env2 := Run(p, inputs, sem), Run(q, inputs, sem), Run(m, inputs, sem);
    AddressValue(p, base, i, ptr, inputs, sem);
    MintQuiet(q, addr, inputs, sem);
    MintValue(q, addr, inputs, sem);
    FoldSideReaches(m, side, addr, MintedByte(q));
    ConsistentBack(m, r, inputs, sem, m0);
    KeyByte(q, addr, inputs, sem, m0);
    SameVal(env1, env2, q.counter, addr);
    SameTrans(env, env1, env2, p.counter, q.counter);
    HoldsSame(side, env, env2, p.counter, m0, mem);
    ReadSide(m, side, addr, MintedByte(q), inputs, sem, m0, mem);
    QuietTrans(p, q, m, inputs, sem);
    QuietTrans(p, m, r, inputs, sem);
    SameTrans(env, env2, Run(r, inputs, sem), p.counter, m.counter);
  }

  lemma AddressValue(p: ElimState, base: Var, i: nat, ptr: nat, inputs: Env, sem: Sem)
    requires MintedBefore(base, p.counter) && base.bits == ptr
    ensures
      var q, env := ByteAddress(p, base, i, ptr), Run(p, inputs, sem);
      && Val(Run(q, inputs, sem), Fresh(p, "a", ptr)) == Cut(Val(env, base) + i, ptr)
      && Quiet(p, q, inputs, sem) && SameBefore(env, Run(q, inputs, sem), p.counter)
  {
    hide Run, Val, Quiet, SameBefore, Eval, Cut;
    var env, src := Run(p, inputs, sem), Bin(Add, Ref(base), Const(i, ptr));
    DefineValue(p, "a", ptr, src, inputs, sem);
    OffsetValue(base, i, ptr, env, sem, CountStmts(p.statements));
    UpdatedVal(env, Fresh(p, "a", ptr), Eval(src, env, sem, CountStmts(p.statements)));
  }

  /** The named bytes are the memory's bytes from `a` on. */
  ghost predicate BytesAt(bytes: seq<Var>, env: Env, mem: Mem, a: nat, ptr: nat) {
    forall i :: 0 <= i < |bytes| ==> bytes[i].bits == 8 && Val(env, bytes[i]) == Byte(mem, Cut(a + i, ptr))
  }

  lemma BytesAtSame(bytes: seq<Var>, env: Env, env': Env, n: nat, mem: Mem, a: nat, ptr: nat)
    requires BytesAt(bytes, env, mem, a, ptr) && VarsBefore(bytes, n) && SameBefore(env, env', n)
    ensures BytesAt(bytes, env', mem, a, ptr)
  {
    hide Val, Byte, Cut, SameBefore;
    forall i | 0 <= i < |bytes| ensures Val(env', bytes[i]) == Byte(mem, Cut(a + i, ptr)) {
      assert bytes[i] in bytes;
      SameVal(env, env', n, bytes[i]);
    }
  }

  lemma BytesAtSnoc(bytes: seq<Var>, v: Var, env: Env, mem: Mem, a: nat, ptr: nat)
    requires BytesAt(bytes, env, mem, a, ptr) && v.bits == 8 && Val(env, v) == Byte(mem, Cut(a + |bytes|, ptr))
    ensures BytesAt(bytes + [v], env, mem, a, ptr)
  {
    hide Val, Byte, Cut;
  }

  lemma {:induction false} LoadBytesSim(e: ElimState, side: seq<Cell>, base: Var, n: nat, ptr: nat,
                                        inputs: Env, sem: Sem, m0: Mem, mem: Mem)
    requires MintedBefore(base, e.counter) && CellsBefore(side, e.counter) && base.bits == ptr && WellFormed(e)
    requires LoadBytes(e, side, base, n, ptr).Some?
    requires var r := LoadBytes(e, side, base, n, ptr).value.0;
      Holds(side, Run(e, inputs, sem), m0, mem) && Consistent(r.keys, Run(r, inputs, sem), m0)
    ensures
      var (r, bytes) := LoadBytes(e, side, base, n, ptr).value;
      var env := Run(e, inputs, sem);
      && |bytes| == n && BytesAt(bytes, Run(r, inputs, sem), mem, Val(env, base), ptr)
      && Quiet(e, r, inputs, sem) && SameBefore(env, Run(r, inputs, sem), e.counter)
    decreases n
  {
    hide Run, Val, Quiet, SameBefore, Holds, Consistent, Cut, Byte, LoadByte, WellFormed, Reaches, BytesAt, CellsBefore, VarsBefore;
    var env := Run(e, inputs, sem);
    if n == 0 {
      Nothing(e, inputs, sem);
      NoBytes(env, mem, Val(env, base), ptr);
    } else {
      LoadBytesReaches(e, side, base, n - 1, ptr);
      var (p, bytes) := LoadBytes(e, side, base, n - 1, ptr).value;
      ReachesWellFormed(e, p);
      SideStays(e, p, side);
      LoadByteReaches(p, side, bytes, base, n - 1, ptr);
      var (r, more) := LoadByte(p, side, bytes, base, n - 1, ptr).value;
      KeysBefore(p);
      ConsistentBack(p, r, inputs, sem, m0);
      LoadBytesSim(e, side, base, n - 1, ptr, inputs, sem, m0, mem);
      var env1, env2 := Run(p, inputs, sem), Run(r, inputs, sem);
      HoldsSame(side, env, env1, e.counter, m0, mem);
      LoadByteSim(p, side, bytes, base, n - 1, ptr, inputs, sem, m0, mem);
      SameVal(env, env1, e.counter, base);
      BytesAtSame(bytes, env1, env2, p.counter, mem, Val(env, base), ptr);
      BytesAtSnoc(bytes, more[n - 1], env2, mem, Val(env, base), ptr);
      assert more == bytes + [more[n - 1]];
      QuietTrans(e, p, r, inputs, sem);
      SameTrans(env, env1, env2, e.counter, p.counter);
    }
  }

  lemma NoBytes(env: Env, mem: Mem, a: nat, ptr: nat)
    ensures BytesAt([], env, mem, a, ptr)
  {
  }

  lemma KeysBefore(e: ElimState)
    requires WellFormed(e)
    ensures CellsBefore(e.keys, e.counter)
  {
  }

  lemma SideStays(e: ElimState, e': ElimState, side: seq<Cell>)
    requires Reaches(e, e') && CellsBefore(side, e.counter)
    ensures CellsBefore(side, e'.counter) && e.counter <= e'.counter
  {
    hide Reaches;
    ReachesExtends(e, e');
  }

  lemma {:induction false} AssembleValue(bytes: seq<Var>, env: Env, mem: Mem, a: nat, ptr: nat, sem: Sem, k: nat)
    requires bytes != [] && BytesAt(bytes, env, mem, a, ptr)
    ensures Eval(Assemble(bytes), env, sem, k) == LoadValue(mem, a, |bytes|, ptr)
    ensures Width(Assemble(bytes)) == 8 * |bytes| && Count(Assemble(bytes)) == 0
    decreases |bytes|
  {
    hide Val, Byte, Cut, Join;
    var n := |bytes|;
    var top := Ref(bytes[n - 1]);
    assert Eval(top, env, sem, k) == Byte(mem, Cut(a + (n - 1), ptr));
    if n == 1 {
      OneByte(mem, a, ptr);
    } else {
      var rest := bytes[..n - 1];
      AssembleValue(rest, env, mem, a, ptr, sem, k);
      ConcatValue(top, Assemble(rest), env, sem, k);
    }
  }

  lemma OneByte(mem: Mem, a: nat, ptr: nat)
    ensures LoadValue(mem, a, 1, ptr) == Byte(mem, Cut(a + 0, ptr))
  {
    assert Pow2(0) == 1;
    hide Byte, Cut, Pow2;
    assert LoadValue(mem, a, 0, ptr) == 0;
  }

  lemma ConcatValue(h: Expr, l: Expr, env: Env, sem: Sem, k: nat)
    requires Count(h) == 0
    ensures Eval(Bin(Concat, h, l), env, sem, k) == Join(Eval(h, env, sem, k), Eval(l, env, sem, k), Width(l))
    ensures Width(Bin(Concat, h, l)) == Width(h) + Width(l) && Count(Bin(Concat, h, l)) == Count(l)
  {
    hide Join;
  }
}
