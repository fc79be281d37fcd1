/** The verdict as it is drawn, a contradicted width included, and why renaming temporaries does
    not change it: the query of two lowerings and that of the same two renamed are one query but
    for the names. */
module EquivDrawn {
  import opened Bits
  import opened Common
  import opened Ir
  import opened Ssa
  import opened Layouts
  import opened Namespace
  import opened Taint
  import opened EquivQuery
  import opened EquivTheorem
  import opened EquivVerdict
  import opened EquivRename
  import EquivBuild
  import MemElim

  // ---- A lowering's names in the query ----

  /** The same renaming of the names a side of a query has. */
  function Sidewise(f: Name -> Name): Name -> Name {
    (x: Name) => if x.Sided? then Sided(x.side, f(x.base), x.version) else f(x)
  }

  lemma SidewiseInjective(f: Name -> Name, arch: Arch)
    requires Swaps(f, arch)
    ensures Injective(Sidewise(f)) && KeepsMinted(Sidewise(f))
  {
    var g := Sidewise(f);
    forall x, y | g(x) == g(y) ensures x == y {
      assert f(f(x)) == x && f(f(y)) == y;
      assert !x.Sided? ==> !f(x).Sided?;
      assert !y.Sided? ==> !f(y).Sided?;
      if x.Sided? && y.Sided? { assert f(f(x.base)) == x.base && f(f(y.base)) == y.base; }
    }
  }

  ghost predicate KeepsMinted(g: Name -> Name) {
    forall x: Name {:trigger g(x)} :: x.Minted? ==> g(x) == x
  }

  /** The expression has no name of a side yet. */
  predicate Sideless(e: Expr) {
    match e
    case Ref(v) => !v.name.Sided?
    case Const(_, _) => true
    case FpConst(_, _, _) => true
    case Unknown(_) => true
    case Un(_, a) => Sideless(a)
    case Bin(_, a, b) => Sideless(a) && Sideless(b)
    case Ite(c, t, f) => Sideless(c) && Sideless(t) && Sideless(f)
  }

  predicate SidelessStmt(s: Stmt) {
    match s
    case Assign(dst, rhs) => dst.name.Versioned? && Sideless(rhs)
    case LoadMem(dst, address, _) => dst.name.Versioned? && Sideless(address)
    case StoreMem(address, value, _) => Sideless(address) && Sideless(value)
    case Unsupported => true
    case Nop => true
  }

  lemma {:induction false} ReadsSideless(e: Expr, latest: map<Name, nat>)
    requires SourceExpr(e)
    ensures Sideless(RenameReads(e, latest))
    decreases e
  {
    match e
    case Ref(_) =>
    case Const(_, _) =>
    case FpConst(_, _, _) =>
    case Unknown(_) =>
    case Un(_, a) => ReadsSideless(a, latest);
    case Bin(_, a, b) => ReadsSideless(a, latest); ReadsSideless(b, latest);
    case Ite(c, t, f) => ReadsSideless(c, latest); ReadsSideless(t, latest); ReadsSideless(f, latest);
  }

  lemma RenamedSideless(s: Ssa, x: Stmt)
    requires SourceStmt(x)
    ensures SidelessStmt(Renamed(s, x))
  {
    hide SourceExpr, Sideless, RenameReads;
    match x
    case Assign(_, rhs) => ReadsSideless(rhs, s.latest);
    case LoadMem(_, address, _) => ReadsSideless(address, s.latest);
    case StoreMem(address, value, _) => ReadsSideless(address, s.latest); ReadsSideless(value, s.latest);
    case Unsupported =>
    case Nop =>
  }

  lemma {:induction false} ConvertSideless(ss: seq<Stmt>)
    requires SourceProgram(ss)
    ensures forall i :: 0 <= i < |Convert(ss).statements| ==> SidelessStmt(Convert(ss).statements[i])
    decreases |ss|
  {
    hide SsaStep, Renamed, SourceStmt, SidelessStmt;
    if ss != [] {
      var p, x := ss[..|ss| - 1], ss[|ss| - 1];
      ConvertSideless(p);
      RenamedSideless(Convert(p), x);
      StepShape(Convert(p), x);
    } else {
      NothingConverted();
    }
  }

  lemma NothingConverted()
    ensures Convert([]).statements == []
  {
  }

  lemma CoerceMoved(e: Expr, from: nat, to: nat, g: Name -> Name)
    ensures MoveExpr(Coerce(e, from, to), g) == Coerce(MoveExpr(e, g), from, to)
  {
  }

  lemma SubstituteMoved(v: Var, f: Name -> Name, side: Side, arch: Arch)
    requires Swaps(f, arch) && Lawful(arch) && !v.name.Sided?
    ensures Substitute(MoveVar(v, Lifted(f)), side, arch) == MoveExpr(Substitute(v, side, arch), Sidewise(f))
  {
    var x, g := v.name, Sidewise(f);
    if !x.Versioned? {
      assert f(f(x)) == x && (IsSource(f(x)) <==> IsSource(x)) && (f(x) in arch.layouts <==> x in arch.layouts);
      if x in arch.layouts {
        var l := arch.layouts[x];
        var bits := ParentWidth(arch, l.parent);
        var p := Ref(Var(l.parent, bits));
        assert f(l.parent) == l.parent && IsSource(l.parent);
        assert MoveExpr(p, g) == p;
        CoerceMoved(p, bits, v.bits, g);
        CoerceMoved(Un(Extract(l.hi, l.lo), p), ViewWidth(l), v.bits, g);
        hide Coerce;
      }
    }
  }

  lemma {:induction false} LoweredExprMoved(e: Expr, f: Name -> Name, side: Side, arch: Arch, depth: nat)
    requires Swaps(f, arch) && Lawful(arch) && Sideless(e)
    ensures
      var x, y := NamespaceExpr(e, side, arch, depth), NamespaceExpr(MoveExpr(e, Lifted(f)), side, arch, depth);
      (x.Some? <==> y.Some?) && (x.Some? ==> y.value == MoveExpr(x.value, Sidewise(f)))
    decreases e
  {
    hide Substitute, Swaps, Lawful, Lifted, Sidewise, MoveVar;
    match e
    case Ref(v) => SubstituteMoved(v, f, side, arch);
    case Const(_, _) =>
    case FpConst(_, _, _) =>
    case Unknown(_) =>
    case Un(_, a) => LoweredExprMoved(a, f, side, arch, depth + 1);
    case Bin(_, a, b) => LoweredExprMoved(a, f, side, arch, depth + 1); LoweredExprMoved(b, f, side, arch, depth + 1);
    case Ite(c, t, e') =>
      LoweredExprMoved(c, f, side, arch, depth + 1);
      LoweredExprMoved(t, f, side, arch, depth + 1);
      LoweredExprMoved(e', f, side, arch, depth + 1);
  }

  lemma SidedMoved(v: Var, f: Name -> Name, side: Side)
    requires v.name.Versioned?
    ensures SidedVar(MoveVar(v, Lifted(f)), side) == MoveVar(SidedVar(v, side), Sidewise(f))
  {
  }

  lemma LoweredStmtMoved(s: Stmt, f: Name -> Name, side: Side, arch: Arch)
    requires Swaps(f, arch) && Lawful(arch) && SidelessStmt(s)
    ensures
      var x, y := NamespaceStmt(s, side, arch), NamespaceStmt(MoveStmt(s, Lifted(f)), side, arch);
      (x.Some? <==> y.Some?) && (x.Some? ==> y.value == MoveStmt(x.value, Sidewise(f)))
  {
    hide NamespaceExpr, MoveExpr, Swaps, Lawful, Sideless, Lifted, Sidewise, SidedVar, MoveVar;
    match s
    case Assign(dst, rhs) =>
      SidedMoved(dst, f, side);
      LoweredExprMoved(rhs, f, side, arch, 0);
    case LoadMem(dst, address, _) =>
      SidedMoved(dst, f, side);
      LoweredExprMoved(address, f, side, arch, 0);
    case StoreMem(address, value, _) =>
      LoweredExprMoved(address, f, side, arch, 0);
      LoweredExprMoved(value, f, side, arch, 0);
    case Unsupported =>
    case Nop =>
  }

  /** The renamed side is the side renamed. */
  lemma {:induction false} LoweredMoved(ss: seq<Stmt>, f: Name -> Name, side: Side, arch: Arch)
    requires Swaps(f, arch) && Lawful(arch) && forall i :: 0 <= i < |ss| ==> SidelessStmt(ss[i])
    ensures
      var x, y := NamespaceAll(ss, side, arch), NamespaceAll(Move(ss, Lifted(f)), side, arch);
      (x.Some? <==> y.Some?) && (x.Some? ==> y.value == Move(x.value, Sidewise(f)))
    decreases |ss|
  {
    hide NamespaceStmt, Move, MoveStmt, SidelessStmt, Swaps, Lawful, Lifted, Sidewise;
    var g, h := Lifted(f), Sidewise(f);
    if ss == [] {
      NothingMoves(g);
      NothingMoves(h);
    } else {
      MovePrefix(ss, g);
      LoweredMoved(ss[..|ss| - 1], f, side, arch);
      LoweredStmtMoved(ss[|ss| - 1], f, side, arch);
      var x, s := NamespaceAll(ss[..|ss| - 1], side, arch), NamespaceStmt(ss[|ss| - 1], side, arch);
      if x.Some? && s.Some? { MoveSnoc(x.value, s.value, h); }
    }
  }

  lemma NothingMoves(g: Name -> Name)
    ensures Move([], g) == []
  {
  }

  // ---- The memory pass on the renamed sides ----

  /** The pass is at the same point, its statements renamed. */
  ghost predicate Level(g: Name -> Name, e: MemElim.ElimState, e': MemElim.ElimState) {
    e'.keys == e.keys && e'.free == e.free && e'.counter == e.counter && e'.statements == Move(e.statements, g)
  }

  /** Cells are named by the pass itself. */
  predicate OwnCells(cells: seq<MemElim.Cell>) {
    forall i :: 0 <= i < |cells| ==> cells[i].addr.name.Minted? && cells[i].byte.name.Minted?
  }

  lemma DefineLevel(g: Name -> Name, e: MemElim.ElimState, e': MemElim.ElimState, tag: string, bits: nat, src: Expr, src': Expr)
    requires Level(g, e, e') && KeepsMinted(g) && src' == MoveExpr(src, g)
    ensures Level(g, MemElim.Define(e, tag, bits, src), MemElim.Define(e', tag, bits, src'))
  {
    var v := MemElim.Fresh(e, tag, bits);
    assert g(v.name) == v.name;
    MoveSnoc(e.statements, Assign(v, src), g);
    hide Move, MoveExpr;
  }

  lemma {:induction false} ChainStays(addr: Var, cells: seq<MemElim.Cell>, base: Expr, g: Name -> Name)
    requires KeepsMinted(g) && addr.name.Minted? && OwnCells(cells) && MoveExpr(base, g) == base
    ensures MoveExpr(MemElim.Chain(addr, cells, base), g) == MemElim.Chain(addr, cells, base)
    decreases |cells|
  {
    if cells != [] {
      var c := cells[|cells| - 1];
      assert g(addr.name) == addr.name && g(c.addr.name) == c.addr.name && g(c.byte.name) == c.byte.name;
      ChainStays(addr, cells[..|cells| - 1], base, g);
      assert MoveExpr(Bin(Eq, Ref(addr), Ref(c.addr)), g) == Bin(Eq, Ref(addr), Ref(c.addr));
      assert MoveExpr(Ref(c.byte), g) == Ref(c.byte);
    }
  }

  lemma OwnRef(v: Var, g: Name -> Name)
    requires KeepsMinted(g) && v.name.Minted?
    ensures MoveExpr(Ref(v), g) == Ref(v)
  {
    assert g(v.name) == v.name;
  }

  lemma MintLevel(g: Name -> Name, e: MemElim.ElimState, e': MemElim.ElimState, addr: Var)
    requires Level(g, e, e') && KeepsMinted(g) && addr.name.Minted? && OwnCells(e.keys)
    ensures Level(g, MemElim.Mint(e, addr), MemElim.Mint(e', addr)) && OwnCells(MemElim.Mint(e, addr).keys)
  {
    hide KeepsMinted, OwnCells, MemElim.Chain, Move, MoveExpr;
    var free := MemElim.Fresh(e, "b", 8);
    OwnRef(free, g);
    ChainStays(addr, e.keys, Ref(free), g);
    var p, p' := e.(free := e.free + [free], counter := e.counter + 1), e'.(free := e'.free + [free], counter := e'.counter + 1);
    assert Level(g, p, p');
    MoreCells(e.keys, MemElim.Cell(addr, MemElim.Fresh(p, "v", 8)));
    hide Level;
    SameCounter(g, p, p');
    DefineLevel(g, p, p', "v", 8, MemElim.Chain(addr, e.keys, Ref(free)), MemElim.Chain(addr, e.keys, Ref(free)));
  }

  lemma MoreCells(cells: seq<MemElim.Cell>, c: MemElim.Cell)
    requires OwnCells(cells) && c.addr.name.Minted? && c.byte.name.Minted?
    ensures OwnCells(cells + [c])
  {
  }

  lemma FoldLevel(g: Name -> Name, e: MemElim.ElimState, e': MemElim.ElimState, side: seq<MemElim.Cell>, addr: Var, base: Var)
    requires Level(g, e, e') && KeepsMinted(g) && addr.name.Minted? && base.name.Minted? && OwnCells(side)
    ensures Level(g, MemElim.FoldSide(e, side, addr, base), MemElim.FoldSide(e', side, addr, base))
  {
    assert g(base.name) == base.name;
    ChainStays(addr, side, Ref(base), g);
    DefineLevel(g, e, e', "r", 8, MemElim.Chain(addr, side, Ref(base)), MemElim.Chain(addr, side, Ref(base)));
  }

  lemma AddressLevel(g: Name -> Name, e: MemElim.ElimState, e': MemElim.ElimState, base: Var, i: nat, ptr: nat)
    requires Level(g, e, e') && KeepsMinted(g) && base.name.Minted?
    ensures Level(g, MemElim.ByteAddress(e, base, i, ptr), MemElim.ByteAddress(e', base, i, ptr))
  {
    assert g(base.name) == base.name;
    DefineLevel(g, e, e', "a", ptr, Bin(Add, Ref(base), Const(i, ptr)), Bin(Add, Ref(base), Const(i, ptr)));
  }

  lemma {:induction false} StoreLevel(g: Name -> Name, e: MemElim.ElimState, e': MemElim.ElimState, side: seq<MemElim.Cell>, base: Var, held: Var, bits: nat, n: nat, ptr: nat)
    requires Level(g, e, e') && KeepsMinted(g) && base.name.Minted? && held.name.Minted? && OwnCells(side)
    ensures
      var (p, c), (p', c') := MemElim.StoreBytes(e, side, base, held, bits, n, ptr), MemElim.StoreBytes(e', side, base, held, bits, n, ptr);
      Level(g, p, p') && c == c' && OwnCells(c) && p.keys == e.keys
    decreases n
  {
    hide Level;
    if n > 0 {
      StoreLevel(g, e, e', side, base, held, bits, n - 1, ptr);
      var p, p' := MemElim.StoreBytes(e, side, base, held, bits, n - 1, ptr).0, MemElim.StoreBytes(e', side, base, held, bits, n - 1, ptr).0;
      SameCounter(g, p, p');
      AddressLevel(g, p, p', base, n - 1, ptr);
      var q, q' := MemElim.ByteAddress(p, base, n - 1, ptr), MemElim.ByteAddress(p', base, n - 1, ptr);
      SameCounter(g, q, q');
      var slice := Un(Extract(Min(8 * (n - 1) + 7, SaturatingSub(bits, 1)), 8 * (n - 1)), Ref(held));
      assert g(held.name) == held.name;
      assert MoveExpr(slice, g) == slice;
      DefineLevel(g, q, q', "sb", 8, slice, slice);
      hide MoveExpr;
    }
  }

  lemma SameCounter(g: Name -> Name, e: MemElim.ElimState, e': MemElim.ElimState)
    requires Level(g, e, e')
    ensures e'.counter == e.counter && e'.keys == e.keys && e'.free == e.free
  {
  }

  lemma LoadByteLevel(g: Name -> Name, p: MemElim.ElimState, p': MemElim.ElimState, side: seq<MemElim.Cell>, bytes: seq<Var>, base: Var, i: nat, ptr: nat)
    requires Level(g, p, p') && KeepsMinted(g) && base.name.Minted? && OwnCells(side) && OwnCells(p.keys)
    ensures
      var r, r' := MemElim.LoadByte(p, side, bytes, base, i, ptr), MemElim.LoadByte(p', side, bytes, base, i, ptr);
      (r.Some? <==> r'.Some?)
      && (r.Some? ==> Level(g, r.value.0, r'.value.0) && r.value.1 == r'.value.1 && OwnCells(r.value.0.keys) && (OwnVars(bytes) ==> OwnVars(r.value.1)))
  {
    hide Level, MemElim.FoldSide, MemElim.Mint, KeepsMinted, OwnCells, OwnVars;
    var q, q', addr := MemElim.ByteAddress(p, base, i, ptr), MemElim.ByteAddress(p', base, i, ptr), MemElim.Fresh(p, "a", ptr);
    SameCounter(g, p, p');
    AddressLevel(g, p, p', base, i, ptr);
    SameCounter(g, q, q');
    assert q.keys == p.keys;
    hide MemElim.ByteAddress;
    if |q.keys| < MemElim.MEM_KEY_CAP {
      MintLevel(g, q, q', addr);
      var m, m' := MemElim.Mint(q, addr), MemElim.Mint(q', addr);
      SameCounter(g, m, m');
      FoldLevel(g, m, m', side, addr, MemElim.MintedByte(q));
      FoldKeeps(m, side, addr, MemElim.MintedByte(q));
      if OwnVars(bytes) { MoreVars(bytes, MemElim.Fresh(m, "r", 8)); }
    }
  }

  lemma MoreVars(vs: seq<Var>, v: Var)
    requires OwnVars(vs) && v.name.Minted?
    ensures OwnVars(vs + [v])
  {
  }

  lemma FoldKeeps(m: MemElim.ElimState, side: seq<MemElim.Cell>, addr: Var, base: Var)
    ensures MemElim.FoldSide(m, side, addr, base).keys == m.keys
  {
  }

  predicate OwnVars(vs: seq<Var>) {
    forall i :: 0 <= i < |vs| ==> vs[i].name.Minted?
  }

  lemma {:induction false} LoadLevel(g: Name -> Name, e: MemElim.ElimState, e': MemElim.ElimState, side: seq<MemElim.Cell>, base: Var, n: nat, ptr: nat)
    requires Level(g, e, e') && KeepsMinted(g) && base.name.Minted? && OwnCells(side) && OwnCells(e.keys)
    ensures
      var r, r' := MemElim.LoadBytes(e, side, base, n, ptr), MemElim.LoadBytes(e', side, base, n, ptr);
      (r.Some? <==> r'.Some?) && (r.Some? ==> Level(g, r.value.0, r'.value.0) && r.value.1 == r'.value.1 && OwnCells(r.value.0.keys) && OwnVars(r.value.1))
    decreases n
  {
    hide MemElim.LoadByte, Level, KeepsMinted, OwnCells;
    if n > 0 {
      LoadLevel(g, e, e', side, base, n - 1, ptr);
      var r, r' := MemElim.LoadBytes(e, side, base, n - 1, ptr), MemElim.LoadBytes(e', side, base, n - 1, ptr);
      if r.Some? { LoadByteLevel(g, r.value.0, r'.value.0, side, r.value.1, base, n - 1, ptr); }
    }
  }

  lemma {:induction false} AssembleStays(bytes: seq<Var>, g: Name -> Name)
    requires KeepsMinted(g) && OwnVars(bytes) && bytes != []
    ensures MoveExpr(MemElim.Assemble(bytes), g) == MemElim.Assemble(bytes)
    decreases |bytes|
  {
    assert g(bytes[|bytes| - 1].name) == bytes[|bytes| - 1].name;
    if |bytes| > 1 { AssembleStays(bytes[..|bytes| - 1], g); }
  }

  /** A statement handed on. */
  lemma PassLevel(g: Name -> Name, e: MemElim.ElimState, e': MemElim.ElimState, s: Stmt)
    requires Level(g, e, e')
    ensures Level(g, e.(statements := e.statements + [s]), e'.(statements := e'.statements + [MoveStmt(s, g)]))
  {
    MoveSnoc(e.statements, s, g);
    hide Move, MoveStmt;
  }

  lemma StoresLevel(g: Name -> Name, e: MemElim.ElimState, e': MemElim.ElimState, side: seq<MemElim.Cell>, address: Expr, value: Expr, bits: nat, ptr: nat)
    requires Level(g, e, e') && KeepsMinted(g) && OwnCells(side)
    ensures
      var r, r' := MemElim.ExpandStore(e, side, address, value, bits, ptr), MemElim.ExpandStore(e', side, MoveExpr(address, g), MoveExpr(value, g), bits, ptr);
      (r.Some? <==> r'.Some?) && (r.Some? ==> Level(g, r.value.0, r'.value.0) && r.value.1 == r'.value.1 && OwnCells(r.value.1) && r.value.0.keys == e.keys)
  {
    hide Level, MemElim.StoreBytes, OwnCells, KeepsMinted, MoveExpr;
    SameCounter(g, e, e');
    DefineLevel(g, e, e', "sa", ptr, address, MoveExpr(address, g));
    var p, p' := MemElim.Define(e, "sa", ptr, address), MemElim.Define(e', "sa", ptr, MoveExpr(address, g));
    SameCounter(g, p, p');
    DefineLevel(g, p, p', "sv", bits, value, MoveExpr(value, g));
    StoreLevel(g, MemElim.Define(p, "sv", bits, value), MemElim.Define(p', "sv", bits, MoveExpr(value, g)), side,
      MemElim.Fresh(e, "sa", ptr), MemElim.Fresh(p, "sv", bits), bits, ByteCount(bits), ptr);
  }

  lemma LoadsLevel(g: Name -> Name, e: MemElim.ElimState, e': MemElim.ElimState, side: seq<MemElim.Cell>, dst: Var, address: Expr, bits: nat, ptr: nat)
    requires Level(g, e, e') && KeepsMinted(g) && OwnCells(side) && OwnCells(e.keys)
    ensures
      var r, r' := MemElim.ExpandLoad(e, side, dst, address, bits, ptr), MemElim.ExpandLoad(e', side, MoveVar(dst, g), MoveExpr(address, g), bits, ptr);
      (r.Some? <==> r'.Some?) && (r.Some? ==> Level(g, r.value, r'.value) && OwnCells(r.value.keys))
  {
    hide Level, MemElim.LoadBytes, OwnCells, OwnVars, KeepsMinted, Move, Coerce, MemElim.Assemble;
    var n := ByteCount(bits);
    SameCounter(g, e, e');
    DefineLevel(g, e, e', "la", ptr, address, MoveExpr(address, g));
    var p, p' := MemElim.Define(e, "la", ptr, address), MemElim.Define(e', "la", ptr, MoveExpr(address, g));
    MemElim.LoadBytesLength(p, side, MemElim.Fresh(e, "la", ptr), n, ptr);
    LoadLevel(g, p, p', side, MemElim.Fresh(e, "la", ptr), n, ptr);
    var r, r' := MemElim.LoadBytes(p, side, MemElim.Fresh(e, "la", ptr), n, ptr), MemElim.LoadBytes(p', side, MemElim.Fresh(e, "la", ptr), n, ptr);
    if bits != 0 && r.Some? {
      AssembleStays(r.value.1, g);
      CoerceMoved(MemElim.Assemble(r.value.1), 8 * n, bits, g);
      PassLevel(g, r.value.0, r'.value.0, Assign(dst, Coerce(MemElim.Assemble(r.value.1), 8 * n, bits)));
    }
  }

  lemma StepLevel(g: Name -> Name, e: MemElim.ElimState, e': MemElim.ElimState, side: seq<MemElim.Cell>, s: Stmt, ptr: nat)
    requires Level(g, e, e') && KeepsMinted(g) && OwnCells(side) && OwnCells(e.keys)
    ensures
      var r, r' := MemElim.SideStep(e, side, s, ptr), MemElim.SideStep(e', side, MoveStmt(s, g), ptr);
      (r.Some? <==> r'.Some?) && (r.Some? ==> Level(g, r.value.0, r'.value.0) && r.value.1 == r'.value.1 && OwnCells(r.value.1) && OwnCells(r.value.0.keys))
  {
    PassLevel(g, e, e', s);
    hide Level, MemElim.ExpandStore, MemElim.ExpandLoad, OwnCells, KeepsMinted, MoveExpr;
    match s
    case StoreMem(address, value, bits) => StoresLevel(g, e, e', side, address, value, bits, ptr);
    case LoadMem(dst, address, bits) => LoadsLevel(g, e, e', side, dst, address, bits, ptr);
    case _ =>
  }

  lemma {:induction false} SideLevel(g: Name -> Name, e: MemElim.ElimState, e': MemElim.ElimState, ss: seq<Stmt>, ptr: nat)
    requires Level(g, e, e') && KeepsMinted(g) && OwnCells(e.keys)
    ensures
      var r, r' := MemElim.RunSide(e, ss, ptr), MemElim.RunSide(e', Move(ss, g), ptr);
      (r.Some? <==> r'.Some?) && (r.Some? ==> Level(g, r.value.0, r'.value.0) && r.value.1 == r'.value.1 && OwnCells(r.value.1) && OwnCells(r.value.0.keys))
    decreases |ss|
  {
    hide MemElim.SideStep, Level, Move, MoveStmt, KeepsMinted, OwnCells;
    if ss == [] {
      NothingMoves(g);
      assert OwnCells([]) by { NoCells(); }
    } else {
      MovePrefix(ss, g);
      SideLevel(g, e, e', ss[..|ss| - 1], ptr);
      var r, r' := MemElim.RunSide(e, ss[..|ss| - 1], ptr), MemElim.RunSide(e', Move(ss[..|ss| - 1], g), ptr);
      if r.Some? { StepLevel(g, r.value.0, r'.value.0, r.value.1, ss[|ss| - 1], ptr); }
    }
  }

  lemma NoCells()
    ensures OwnCells([])
  {
  }

  lemma ProbeOneLevel(g: Name -> Name, p: MemElim.ElimState, p': MemElim.ElimState, a: seq<MemElim.Cell>, b: seq<MemElim.Cell>, probes: seq<(Var, Var)>, addr: Var)
    requires Level(g, p, p') && KeepsMinted(g) && OwnCells(a) && OwnCells(b) && OwnCells(p.keys) && addr.name.Minted? && OwnProbes(probes)
    ensures
      var r, r' := MemElim.ProbeOne(p, a, b, probes, addr), MemElim.ProbeOne(p', a, b, probes, addr);
      (r.Some? <==> r'.Some?) && (r.Some? ==> Level(g, r.value.0, r'.value.0) && r.value.1 == r'.value.1 && OwnCells(r.value.0.keys) && OwnProbes(r.value.1))
  {
    SameCounter(g, p, p');
    hide Level, MemElim.FoldSide, MemElim.Mint, KeepsMinted, OwnCells;
    if |p.keys| < MemElim.MEM_KEY_CAP {
      MintLevel(g, p, p', addr);
      var m, m' := MemElim.Mint(p, addr), MemElim.Mint(p', addr);
      SameCounter(g, m, m');
      FoldLevel(g, m, m', a, addr, MemElim.MintedByte(p));
      FoldKeeps(m, a, addr, MemElim.MintedByte(p));
      var q, q' := MemElim.FoldSide(m, a, addr, MemElim.MintedByte(p)), MemElim.FoldSide(m', a, addr, MemElim.MintedByte(p));
      SameCounter(g, q, q');
      FoldLevel(g, q, q', b, addr, MemElim.MintedByte(p));
      FoldKeeps(q, b, addr, MemElim.MintedByte(p));
    }
  }

  predicate OwnProbes(probes: seq<(Var, Var)>) {
    forall i :: 0 <= i < |probes| ==> probes[i].0.name.Minted? && probes[i].1.name.Minted?
  }

  lemma {:induction false} ProbeLevel(g: Name -> Name, e: MemElim.ElimState, e': MemElim.ElimState, a: seq<MemElim.Cell>, b: seq<MemElim.Cell>, addrs: seq<Var>)
    requires Level(g, e, e') && KeepsMinted(g) && OwnCells(a) && OwnCells(b) && OwnCells(e.keys) && OwnVars(addrs)
    ensures
      var r, r' := MemElim.ProbeAll(e, a, b, addrs), MemElim.ProbeAll(e', a, b, addrs);
      (r.Some? <==> r'.Some?) && (r.Some? ==> Level(g, r.value.0, r'.value.0) && r.value.1 == r'.value.1 && OwnCells(r.value.0.keys) && OwnProbes(r.value.1))
    decreases |addrs|
  {
    hide MemElim.ProbeOne, Level, KeepsMinted, OwnCells;
    if addrs != [] {
      ProbeLevel(g, e, e', a, b, addrs[..|addrs| - 1]);
      var r, r' := MemElim.ProbeAll(e, a, b, addrs[..|addrs| - 1]), MemElim.ProbeAll(e', a, b, addrs[..|addrs| - 1]);
      if r.Some? { ProbeOneLevel(g, r.value.0, r'.value.0, a, b, r.value.1, addrs[|addrs| - 1]); }
    }
  }

  lemma OwnAddresses(a: seq<MemElim.Cell>, b: seq<MemElim.Cell>, addrs: seq<Var>)
    requires OwnCells(a) && OwnCells(b) && MemElim.Lists(addrs, MemElim.WrittenAt(a, b))
    ensures OwnVars(addrs)
  {
    forall i | 0 <= i < |addrs| ensures addrs[i].name.Minted? {
      assert addrs[i] in MemElim.WrittenAt(a, b);
      var c :| c in a + b && c.addr == addrs[i];
    }
  }

  /** The memory pass takes both pairs or neither; its statements are renamed, its probes the same. */
  lemma PlanMoved(la: seq<Stmt>, lb: seq<Stmt>, g: Name -> Name, ptr: nat, enabled: bool, addrs: seq<Var>)
    requires KeepsMinted(g)
    ensures MemElim.Written(Move(la, g), Move(lb, g), ptr) == MemElim.Written(la, lb, ptr)
    ensures MemElim.Lists(addrs, MemElim.Written(la, lb, ptr)) ==>
      var r, r' := MemElim.Eliminate(la, lb, ptr, enabled, addrs), MemElim.Eliminate(Move(la, g), Move(lb, g), ptr, enabled, addrs);
      (r.Some? <==> r'.Some?)
      && (r.Some? ==> r'.value.probes == r.value.probes && r'.value.statements == Move(r.value.statements, g) && OwnProbes(r.value.probes))
  {
    hide Move, KeepsMinted, OwnCells, MemElim.RunSide, MemElim.ProbeAll, MemElim.Lists, MemElim.WrittenAt, OwnVars;
    NothingMoves(g);
    NoCells();
    assert OwnProbes([]);
    var s := MemElim.START;
    SideLevel(g, s, s, la, ptr);
    var r, r' := MemElim.RunSide(s, la, ptr), MemElim.RunSide(s, Move(la, g), ptr);
    if r.Some? {
      SideLevel(g, r.value.0, r'.value.0, lb, ptr);
      var q, q' := MemElim.RunSide(r.value.0, lb, ptr), MemElim.RunSide(r'.value.0, Move(lb, g), ptr);
      if q.Some? && MemElim.Lists(addrs, MemElim.Written(la, lb, ptr)) {
        OwnAddresses(r.value.1, q.value.1, addrs);
        ProbeLevel(g, q.value.0, q'.value.0, r.value.1, q.value.1, addrs);
      }
    }
  }

  // ---- The condition keeps its names ----

  lemma FinalExprStays(arch: Arch, finals: map<Name, Var>, side: Side, x: Name, f: Name -> Name)
    requires Swaps(f, arch) && Lawful(arch) && x in finals && (x in COMPARABLE_FLAGS || x in arch.layouts)
    requires finals[x].name.Versioned? && finals[x].name.base == x
    ensures var e := FinalExpr(arch, finals, side, x); e.Some? ==> MoveExpr(e.value, Sidewise(f)) == e.value
  {
    var g, v := Sidewise(f), SidedVar(finals[x], side);
    assert f(x) == x && g(v.name) == v.name;
    assert MoveExpr(Ref(v), g) == Ref(v);
    if x in arch.layouts {
      var l := arch.layouts[x];
      var bits := ParentWidth(arch, l.parent);
      assert f(l.parent) == l.parent && IsSource(l.parent);
      CoerceMoved(Ref(v), finals[x].bits, bits, g);
      CoerceMoved(Ref(v), finals[x].bits, ViewWidth(l), g);
      RebuildMoved(Var(l.parent, bits), l.lo, l.hi, Coerce(Ref(v), finals[x].bits, ViewWidth(l)), g);
      hide Coerce, Rebuild, MoveExpr;
    }
  }

  lemma RebuildMoved(parent: Var, lo: nat, hi: nat, e: Expr, g: Name -> Name)
    requires g(parent.name) == parent.name
    ensures MoveExpr(Rebuild(parent, lo, hi, e), g) == Rebuild(parent, lo, hi, MoveExpr(e, g))
  {
    var low, top := Un(Extract(SaturatingSub(lo, 1), 0), Ref(parent)), Un(Extract(SaturatingSub(parent.bits, 1), SaturatingAdd(hi, 1)), Ref(parent));
    assert MoveExpr(Ref(parent), g) == Ref(parent);
    assert MoveExpr(low, g) == low && MoveExpr(top, g) == top;
    assert MoveExpr(Bin(Concat, e, low), g) == Bin(Concat, MoveExpr(e, g), low);
    var inner := if lo > 0 then Bin(Concat, e, low) else e;
    assert MoveExpr(Bin(Concat, top, inner), g) == Bin(Concat, top, MoveExpr(inner, g));
  }

  /** What a side says at the end names registers, flags and its own definitions of them. */
  lemma FinalsStay(ss: seq<Stmt>, f: Name -> Name, arch: Arch, tainted: set<Name>, side: Side, out: map<Name, Expr>)
    requires Swaps(f, arch) && Lawful(arch) && IsFinals(arch, FinalDefs(Convert(ss).defs), tainted, side, out)
    ensures forall key :: key in out ==> MoveExpr(out[key], Sidewise(f)) == out[key]
  {
    hide Swaps, Lawful, Convert, MoveExpr, FinalExpr, KeyOf, Eligible;
    var finals := FinalDefs(Convert(ss).defs);
    forall key | key in out ensures MoveExpr(out[key], Sidewise(f)) == out[key] {
      var x :| x in finals && Speaks(arch, finals, tainted, side, x) && KeyOf(arch, x) == key;
      EligibleHere(arch, finals, tainted, x);
      BaseIs(Convert(ss).defs, x);
      FinalExprStays(arch, finals, side, x, f);
    }
  }

  lemma {:induction false} BaseIs(defs: seq<Var>, x: Name)
    requires x in FinalDefs(defs)
    ensures FinalDefs(defs)[x].name.Versioned? && FinalDefs(defs)[x].name.base == x
    decreases |defs|
  {
    var d := defs[|defs| - 1];
    if !(d.name.Versioned? && d.name.base == x) { BaseIs(defs[..|defs| - 1], x); }
  }

  ghost predicate AllStay(es: seq<Expr>, g: Name -> Name) {
    forall i :: 0 <= i < |es| ==> MoveExpr(es[i], g) == es[i]
  }

  lemma {:induction false} TermsStay(fa: map<Name, Expr>, fb: map<Name, Expr>, keys: seq<Name>, g: Name -> Name)
    requires forall key :: key in fa ==> MoveExpr(fa[key], g) == fa[key]
    requires forall key :: key in fb ==> MoveExpr(fb[key], g) == fb[key]
    ensures AllStay(Terms(fa, fb, keys), g)
    decreases |keys|
  {
    if keys != [] { TermsStay(fa, fb, keys[..|keys| - 1], g); }
  }

  lemma {:induction false} ProbeTermsStay(probes: seq<(Var, Var)>, g: Name -> Name)
    requires OwnProbes(probes) && KeepsMinted(g)
    ensures AllStay(ProbeTerms(probes), g)
    decreases |probes|
  {
    if probes != [] {
      var p := probes[|probes| - 1];
      ProbeTermsStay(probes[..|probes| - 1], g);
      assert g(p.0.name) == p.0.name && g(p.1.name) == p.1.name;
      assert MoveExpr(Ref(p.0), g) == Ref(p.0) && MoveExpr(Ref(p.1), g) == Ref(p.1);
    }
  }

  lemma {:induction false} DisjunctionStays(es: seq<Expr>, g: Name -> Name)
    requires AllStay(es, g) && es != []
    ensures MoveExpr(Disjunction(es).value, g) == Disjunction(es).value
    decreases |es|
  {
    if |es| > 1 { DisjunctionStays(es[..|es| - 1], g); }
  }

  lemma ConditionStays(fa: map<Name, Expr>, fb: map<Name, Expr>, probes: seq<(Var, Var)>, keys: seq<Name>, g: Name -> Name)
    requires forall key :: key in fa ==> MoveExpr(fa[key], g) == fa[key]
    requires forall key :: key in fb ==> MoveExpr(fb[key], g) == fb[key]
    requires OwnProbes(probes) && KeepsMinted(g) && DifferCondition(fa, fb, probes, keys).Some?
    ensures var e := DifferCondition(fa, fb, probes, keys).value; MoveExpr(e, g) == e
  {
    hide Terms, ProbeTerms, Disjunction, KeepsMinted, MoveExpr;
    TermsStay(fa, fb, keys, g);
    ProbeTermsStay(probes, g);
    NoDisjunction();
    DisjunctionStays(Terms(fa, fb, keys) + ProbeTerms(probes), g);
  }

  lemma NoDisjunction()
    ensures Disjunction([]) == None
  {
  }

  // ---- The query of the renamed lowerings ----

  lemma InputsAlike(a: seq<Stmt>, b: seq<Stmt>, f: Name -> Name, arch: Arch)
    requires Swaps(f, arch) && SourceProgram(a) && SourceProgram(b) && NoneInputs(Convert(a).inputs, arch) == NoneInputs(Convert(b).inputs, arch)
    ensures NoneInputs(Convert(Move(a, f)).inputs, arch) == NoneInputs(Convert(Move(b, f)).inputs, arch)
  {
    hide Swaps, SourceProgram, Convert, TaintedDefs, FinalDefs, Move, LatestMoved, InputsMoved, MoveDefs, FinalsMoved, TaintMoved, NoneInputs;
    SideTwins(a, f, arch);
    SideTwins(b, f, arch);
    InputsCame(Convert(a), Convert(b), Convert(Move(a, f)), Convert(Move(b, f)), f, arch);
  }

  lemma InputsCame(sa: Ssa, sb: Ssa, ua: Ssa, ub: Ssa, f: Name -> Name, arch: Arch)
    requires Swaps(f, arch) && InputsMoved(f, sa.inputs, ua.inputs) && InputsMoved(f, sb.inputs, ub.inputs)
    requires NoneInputs(sa.inputs, arch) == NoneInputs(sb.inputs, arch)
    ensures NoneInputs(ua.inputs, arch) == NoneInputs(ub.inputs, arch)
  {
    var p, q := NoneInputs(sa.inputs, arch), NoneInputs(sb.inputs, arch);
    forall y ensures y in NoneInputs(ua.inputs, arch) <==> y in NoneInputs(ub.inputs, arch) { InputCame(sa, sb, ua, ub, f, arch, y); }
    forall y | y in NoneInputs(ua.inputs, arch) ensures NoneInputs(ua.inputs, arch)[y] == NoneInputs(ub.inputs, arch)[y] { InputCame(sa, sb, ua, ub, f, arch, y); }
  }

  lemma InputCame(sa: Ssa, sb: Ssa, ua: Ssa, ub: Ssa, f: Name -> Name, arch: Arch, y: Name)
    requires Swaps(f, arch) && InputsMoved(f, sa.inputs, ua.inputs) && InputsMoved(f, sb.inputs, ub.inputs)
    requires NoneInputs(sa.inputs, arch) == NoneInputs(sb.inputs, arch)
    ensures y in NoneInputs(ua.inputs, arch) <==> y in NoneInputs(ub.inputs, arch)
    ensures y in NoneInputs(ua.inputs, arch) ==> NoneInputs(ua.inputs, arch)[y] == NoneInputs(ub.inputs, arch)[y]
  {
    hide IsSource;
    var x, p, q := f(y), NoneInputs(sa.inputs, arch), NoneInputs(sb.inputs, arch);
    assert f(x) == y && (x in arch.layouts <==> y in arch.layouts);
    assert (x in sa.inputs <==> f(x) in ua.inputs) && (x in sb.inputs <==> f(x) in ub.inputs);
    assert (x in p <==> x in q) && (x in p ==> p[x] == q[x]);
  }

  lemma ModelledStays(ss: seq<Stmt>, f: Name -> Name)
    requires Modelled(ss)
    ensures Modelled(Move(ss, f))
  {
  }


  /** The query of two lowerings with the names of its sides moved is that of the renamed two,
      and its condition names none that moves. */
  lemma QueryMoved(a: seq<Stmt>, b: seq<Stmt>, f: Name -> Name, arch: Arch, addrs: seq<Var>, keys: seq<Name>, fa: map<Name, Expr>, fb: map<Name, Expr>, q: Query)
    requires Swaps(f, arch) && Lawful(arch) && SourceProgram(a) && SourceProgram(b) && IsQuery(a, b, arch, addrs, keys, fa, fb, q)
    ensures IsQuery(Move(a, f), Move(b, f), arch, addrs, keys, fa, fb, Query(Move(q.statements, Sidewise(f)), q.condition))
    ensures MoveExpr(q.condition, Sidewise(f)) == q.condition
    ensures Probed(Move(a, f), Move(b, f), arch) == Probed(a, b, arch)
  {
    QueryParts(a, b, arch, addrs, keys, fa, fb, q);
    ModelledStays(a, f);
    ModelledStays(b, f);
    hide Swaps, Lawful, SourceProgram, Convert, TaintedDefs, FinalDefs, IsFinals, Move, MoveExpr, Lowered, Modelled, NoneInputs, MemElim.Eliminate,
         MemElim.Written, MemElim.Lists, MemoryEnabled, DifferCondition, MemoryCompared, OwnProbes, Sidewise, KeepsMinted, Injective;
    var a', b', g := Move(a, f), Move(b, f), Sidewise(f);
    InputsAlike(a, b, f, arch);
    IsFinalsStays(a, f, arch, SideA, fa);
    IsFinalsStays(b, f, arch, SideB, fb);
    MemoryStays(a, b, f, arch);
    SidewiseInjective(f, arch);
    SideMoved(a, f, SideA, arch);
    SideMoved(b, f, SideB, arch);
    var sa, sb := Convert(a), Convert(b);
    var enabled := MemoryEnabled(sa, sb, TaintedDefs(sa.statements).value, TaintedDefs(sb.statements).value, arch);
    PlanMoved(Lowered(a, SideA, arch).value, Lowered(b, SideB, arch).value, g, arch.ptr, enabled, addrs);
    FinalsStay(a, f, arch, TaintedDefs(sa.statements).value.defs, SideA, fa);
    FinalsStay(b, f, arch, TaintedDefs(sb.statements).value.defs, SideB, fb);
    ConditionStays(fa, fb, PlanOf(a, b, arch, addrs).value.probes, keys, g);
  }

  lemma SideMoved(ss: seq<Stmt>, f: Name -> Name, side: Side, arch: Arch)
    requires Swaps(f, arch) && Lawful(arch) && SourceProgram(ss) && Lowered(ss, side, arch).Some?
    ensures Lowered(Move(ss, f), side, arch) == Some(Move(Lowered(ss, side, arch).value, Sidewise(f)))
  {
    hide Swaps, Lawful, SourceProgram, Convert, TaintedDefs, FinalDefs, Move, NamespaceAll, LatestMoved, InputsMoved, MoveDefs, FinalsMoved, TaintMoved, SidelessStmt;
    SideTwins(ss, f, arch);
    ConvertSideless(ss);
    LoweredMoved(Convert(ss).statements, f, side, arch);
  }

  /** The addresses a query probes. */
  function Probed(a: seq<Stmt>, b: seq<Stmt>, arch: Arch): set<Var> {
    var la, lb := Lowered(a, SideA, arch), Lowered(b, SideB, arch);
    if la.Some? && lb.Some? then MemElim.Written(la.value, lb.value, arch.ptr) else {}
  }

  // ---- Its widths are contradicted or not ----

  lemma {:induction false} WidthStays(e: Expr, g: Name -> Name)
    ensures Width(MoveExpr(e, g)) == Width(e)
    decreases e
  {
    hide UnWidth, OpWidth;
    match e
    case Ref(_) =>
    case Const(_, _) =>
    case FpConst(_, _, _) =>
    case Unknown(_) =>
    case Un(_, a) => WidthStays(a, g);
    case Bin(_, a, b) => WidthStays(a, g); WidthStays(b, g);
    case Ite(_, t, f) => WidthStays(t, g); WidthStays(f, g);
  }

  /** The same declarations under the new names. */
  ghost predicate DeclsMoved(g: Name -> Name, d: Decls, d': Decls) {
    && d'.conflict == d.conflict
    && forall x {:trigger x in d.widths} {:trigger g(x) in d'.widths} :: (x in d.widths <==> g(x) in d'.widths) && (x in d.widths ==> d'.widths[g(x)] == d.widths[x])
  }

  lemma DeclareMoved(g: Name -> Name, d: Decls, d': Decls, v: Var)
    requires DeclsMoved(g, d, d') && Injective(g)
    ensures DeclsMoved(g, ReadDecl(d, v), ReadDecl(d', MoveVar(v, g)))
    ensures DeclsMoved(g, DefineDecl(d, v), DefineDecl(d', MoveVar(v, g)))
  {
    assert v.name in d.widths <==> g(v.name) in d'.widths;
    if v.name !in d.widths {
      var e, e' := d.(widths := d.widths[v.name := v.bits]), d'.(widths := d'.widths[g(v.name) := v.bits]);
      forall x ensures (x in e.widths <==> g(x) in e'.widths) && (x in e.widths ==> e'.widths[g(x)] == e.widths[x]) {
        assert g(x) == g(v.name) ==> x == v.name;
        assert x in d.widths <==> g(x) in d'.widths;
      }
    }
  }

  lemma {:induction false} ExprDeclsMoved(g: Name -> Name, d: Decls, d': Decls, e: Expr)
    requires DeclsMoved(g, d, d') && Injective(g)
    ensures DeclsMoved(g, ExprDecls(d, e), ExprDecls(d', MoveExpr(e, g)))
    decreases e
  {
    hide Injective, ReadDecl, MoveVar, Width;
    match e
    case Ref(v) => DeclareMoved(g, d, d', v);
    case Const(_, _) =>
    case FpConst(_, _, _) =>
    case Unknown(_) =>
    case Un(_, a) =>
      ExprDeclsMoved(g, d, d', a);
      WidthStays(a, g);
    case Bin(_, a, b) =>
      hide DeclsMoved;
      ExprDeclsMoved(g, d, d', a);
      ExprDeclsMoved(g, ExprDecls(d, a), ExprDecls(d', MoveExpr(a, g)), b);
    case Ite(c, t, f) =>
      hide DeclsMoved;
      ExprDeclsMoved(g, d, d', c);
      ExprDeclsMoved(g, ExprDecls(d, c), ExprDecls(d', MoveExpr(c, g)), t);
      ExprDeclsMoved(g, ExprDecls(ExprDecls(d, c), t), ExprDecls(ExprDecls(d', MoveExpr(c, g)), MoveExpr(t, g)), f);
  }

  lemma {:induction false} StmtDeclsMoved(g: Name -> Name, ss: seq<Stmt>)
    requires Injective(g)
    ensures DeclsMoved(g, StmtDecls(ss), StmtDecls(Move(ss, g)))
    decreases |ss|
  {
    hide DeclsMoved, Injective, ExprDecls, DefineDecl, MoveExpr, Move;
    if ss == [] {
      NothingMoves(g);
      NothingDeclared(g);
    } else {
      MovePrefix(ss, g);
      StmtDeclsMoved(g, ss[..|ss| - 1]);
      var d, d', s := StmtDecls(ss[..|ss| - 1]), StmtDecls(Move(ss[..|ss| - 1], g)), ss[|ss| - 1];
      if s.Assign? {
        ExprDeclsMoved(g, d, d', s.rhs);
        DeclareMoved(g, ExprDecls(d, s.rhs), ExprDecls(d', MoveExpr(s.rhs, g)), s.dst);
      }
    }
  }

  lemma NothingDeclared(g: Name -> Name)
    ensures DeclsMoved(g, Decls(map[], false), Decls(map[], false))
  {
  }

  /** Renaming contradicts no width, and makes up for none. */
  lemma ConflictStays(g: Name -> Name, q: Query)
    requires Injective(g) && MoveExpr(q.condition, g) == q.condition
    ensures WidthConflict(Query(Move(q.statements, g), q.condition)) == WidthConflict(q)
  {
    hide Injective, StmtDecls, ExprDecls, MoveExpr, Move;
    StmtDeclsMoved(g, q.statements);
    ExprDeclsMoved(g, StmtDecls(q.statements), StmtDecls(Move(q.statements, g)), q.condition);
  }

  // ---- The verdict ----

  /** The orders a query takes its probes and its compared keys in; the program's are by name. */
  datatype Orders = Orders(addrs: set<Var> -> seq<Var>, keys: set<Name> -> seq<Name>)

  ghost predicate IsQueryBy(a: seq<Stmt>, b: seq<Stmt>, arch: Arch, o: Orders, fa: map<Name, Expr>, fb: map<Name, Expr>, q: Query) {
    IsQuery(a, b, arch, o.addrs(Probed(a, b, arch)), o.keys(fa.Keys), fa, fb, q)
  }

  /** The encoder meets a contradicted width and both answers are discarded. */
  ghost predicate Contradicted(a: seq<Stmt>, b: seq<Stmt>, arch: Arch, o: Orders) {
    exists fa, fb, q :: IsQueryBy(a, b, arch, o, fa, fb, q) && WidthConflict(q)
  }

  /** The verdict a solver that always answers leads to. */
  ghost function TrueVerdict(a: seq<Stmt>, b: seq<Stmt>, arch: Arch, fp: FpModel, o: Orders): Verdict {
    if !HasQuery(a, b, arch) || Contradicted(a, b, arch, o) then Inconclusive else if CanDiffer(a, b, arch, fp) then Disagree else Agree
  }

  /** With both checks answered, and rightly, it is what comes out. */
  lemma TrueVerdictIsDrawn(a: seq<Stmt>, b: seq<Stmt>, arch: Arch, o: Orders, fa: map<Name, Expr>, fb: map<Name, Expr>, q: Query,
                           fp: FpModel, satTrue: SatResult, satFalse: SatResult)
    requires Lawful(arch) && SourceProgram(a) && SourceProgram(b) && IsQueryBy(a, b, arch, o, fa, fb, q)
    requires Right(satTrue, q, fp, arch.ptr, true) && Right(satFalse, q, fp, arch.ptr, false)
    requires !satTrue.Unknown? && !satFalse.Unknown?
    ensures Classify(Solved(q, satTrue, satFalse)) == TrueVerdict(a, b, arch, fp, o)
  {
    hide IsQuery, Lawful, SourceProgram, DifferFrom, CanDiffer, Satisfiable, WidthConflict, Probed;
    var addrs, keys := o.addrs(Probed(a, b, arch)), o.keys(fa.Keys);
    if Contradicted(a, b, arch, o) {
      var fa', fb', q' :| IsQueryBy(a, b, arch, o, fa', fb', q') && WidthConflict(q');
      OneQuery(a, b, arch, o, fa, fb, q, fa', fb', q');
    }
    QueryMeansFinals(a, b, arch, addrs, keys, fa, fb, q, fp);
    DifferenceIsSolution(a, b, arch, addrs, keys, fa, fb, q, map[], map[], fp, [], []);
    assert Satisfiable(q, fp, arch.ptr, true) || Satisfiable(q, fp, arch.ptr, false);
  }

  /** In one order there is one query. */
  lemma OneQuery(a: seq<Stmt>, b: seq<Stmt>, arch: Arch, o: Orders, fa: map<Name, Expr>, fb: map<Name, Expr>, q: Query,
                 fa': map<Name, Expr>, fb': map<Name, Expr>, q': Query)
    requires IsQueryBy(a, b, arch, o, fa, fb, q) && IsQueryBy(a, b, arch, o, fa', fb', q')
    ensures q == q'
  {
    hide Convert, TaintedDefs, Lowered, IsFinals, FinalDefs, MemElim.Eliminate, MemElim.Written, MemElim.Lists, DifferCondition, LacksSimdModel, Modelled,
         NoneInputs, MemoryEnabled, Probed;
    EquivBuild.OneFinals(arch, FinalDefs(Convert(a).defs), TaintedDefs(Convert(a).statements).value.defs, SideA, fa, fa');
    EquivBuild.OneFinals(arch, FinalDefs(Convert(b).defs), TaintedDefs(Convert(b).statements).value.defs, SideB, fb, fb');
  }

  lemma HasQueryMoved(a: seq<Stmt>, b: seq<Stmt>, f: Name -> Name, arch: Arch)
    requires Swaps(f, arch) && Lawful(arch) && SourceProgram(a) && SourceProgram(b) && HasQuery(a, b, arch)
    ensures HasQuery(Move(a, f), Move(b, f), arch)
    ensures TaintedDefs(Convert(a).statements).Some? && TaintedDefs(Convert(b).statements).Some?
  {
    hide IsQuery, Swaps, Lawful, SourceProgram, Move, TaintedDefs, Convert, Probed, Sidewise;
    var addrs, keys, fa, fb, q :| IsQuery(a, b, arch, addrs, keys, fa, fb, q);
    QueryParts(a, b, arch, addrs, keys, fa, fb, q);
    QueryMoved(a, b, f, arch, addrs, keys, fa, fb, q);
  }

  lemma ContradictionMoved(a: seq<Stmt>, b: seq<Stmt>, f: Name -> Name, arch: Arch, o: Orders)
    requires Swaps(f, arch) && Lawful(arch) && SourceProgram(a) && SourceProgram(b) && Contradicted(a, b, arch, o)
    ensures Contradicted(Move(a, f), Move(b, f), arch, o)
  {
    hide IsQuery, Swaps, Lawful, SourceProgram, Move, Probed, Sidewise, WidthConflict, Injective, KeepsMinted;
    var fa, fb, q :| IsQueryBy(a, b, arch, o, fa, fb, q) && WidthConflict(q);
    QueryMoved(a, b, f, arch, o.addrs(Probed(a, b, arch)), o.keys(fa.Keys), fa, fb, q);
    SidewiseInjective(f, arch);
    ConflictStays(Sidewise(f), q);
    var q' := Query(Move(q.statements, Sidewise(f)), q.condition);
    assert IsQueryBy(Move(a, f), Move(b, f), arch, o, fa, fb, q');
  }

  lemma CanDifferMoved(a: seq<Stmt>, b: seq<Stmt>, f: Name -> Name, arch: Arch, fp: FpModel)
    requires Swaps(f, arch) && SourceProgram(a) && SourceProgram(b) && CanDiffer(a, b, arch, fp)
    requires TaintedDefs(Convert(a).statements).Some? && TaintedDefs(Convert(b).statements).Some?
    ensures CanDiffer(Move(a, f), Move(b, f), arch, fp)
  {
    hide DifferFrom, SourceProgram, Move, TaintedDefs, Convert, MoveEnv;
    var m, m0, pa, pb :| DifferFrom(a, b, arch, m, m0, fp, pa, pb);
    DifferMoved(a, b, f, arch, m, m0, fp, pa, pb);
  }

  /** Renaming temporaries, both sides alike, changes no verdict. */
  lemma RenamingKeepsVerdict(a: seq<Stmt>, b: seq<Stmt>, f: Name -> Name, arch: Arch, fp: FpModel, o: Orders)
    requires Swaps(f, arch) && Lawful(arch) && SourceProgram(a) && SourceProgram(b)
    ensures TrueVerdict(Move(a, f), Move(b, f), arch, fp, o) == TrueVerdict(a, b, arch, fp, o)
  {
    hide HasQuery, Contradicted, CanDiffer, SourceProgram, Move, TaintedDefs, Convert, Swaps, Lawful;
    SwapsBack(f, arch);
    MoveProgram(a, f);
    MoveProgram(b, f);
    MoveBack(a, f);
    MoveBack(b, f);
    if HasQuery(a, b, arch) {
      HasQueryMoved(a, b, f, arch);
      HasQueryMoved(Move(a, f), Move(b, f), f, arch);
      if CanDiffer(a, b, arch, fp) { CanDifferMoved(a, b, f, arch, fp); }
      if CanDiffer(Move(a, f), Move(b, f), arch, fp) { CanDifferMoved(Move(a, f), Move(b, f), f, arch, fp); }
    }
    if HasQuery(Move(a, f), Move(b, f), arch) { HasQueryMoved(Move(a, f), Move(b, f), f, arch); }
    if Contradicted(a, b, arch, o) { ContradictionMoved(a, b, f, arch, o); }
    if Contradicted(Move(a, f), Move(b, f), arch, o) { ContradictionMoved(Move(a, f), Move(b, f), f, arch, o); }
  }
}
