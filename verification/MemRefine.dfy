/** The pass against real memory: one side's rewrite simulates its loads and
    stores, and the two sides' probes read the two final memories. */
module MemRefine {
  import opened Bits
  import opened Common
  import opened Layouts
  import opened Ir
  import opened MemElim
  import opened MemTrace
  import opened MemRun
  import opened MemChoice
  import opened MemSim

  // ---- Expressions over the program's own names ----

  lemma {:induction false} EvalForeign(x: Expr, env: Env, env': Env, sem: Sem, k: nat)
    requires ReadsBelow(x, 0) && SameInputs(env, env')
    ensures Eval(x, env, sem, k) == Eval(x, env', sem, k)
    decreases x
  {
    hide UnValue, BinValue, Width, Pow2;
    match x
    case Ref(v) => assert Get(env, v.name) == Get(env', v.name);
    case Const(_, _) =>
    case FpConst(_, _, _) =>
    case Unknown(_) =>
    case Un(_, a) => EvalForeign(a, env, env', sem, k);
    case Bin(_, a, b) => EvalForeign(a, env, env', sem, k); EvalForeign(b, env, env', sem, k + Count(a));
    case Ite(c, t, f) =>
      EvalForeign(c, env, env', sem, k);
      EvalForeign(t, env, env', sem, k + Count(c));
      EvalForeign(f, env, env', sem, k + Count(c) + Count(t));
  }

  lemma MintedWriteSame(env: Env, x: Name, v: nat)
    requires x.Minted?
    ensures SameInputs(env, env[x := v])
  {
  }

  lemma BothWriteSame(env: Env, env': Env, x: Name, v: nat)
    requires SameInputs(env, env')
    ensures SameInputs(env[x := v], env'[x := v])
  {
    forall y: Name | !y.Minted? ensures Get(env[x := v], y) == Get(env'[x := v], y) {
      assert Get(env, y) == Get(env', y);
    }
  }

  // ---- One statement ----

  /** The pass, having rewritten part of a side, mirrors the real state `st`:
      same registers, the write list stands for the memory, `k` unknowns used. */
  ghost predicate Mirrors(e: ElimState, side: seq<Cell>, inputs: Env, sem: Sem, m0: Mem, st: State, k: nat) {
    SameInputs(Run(e, inputs, sem), st.env)
    && Holds(side, Run(e, inputs, sem), m0, st.mem)
    && CountStmts(e.statements) == k
  }

  /** Materialising an operand of the original statement. */
  lemma DefineOperand(e: ElimState, tag: string, bits: nat, src: Expr, side: seq<Cell>,
                      inputs: Env, sem: Sem, m0: Mem, st: State, k: nat)
    requires ReadsBelow(src, 0) && CellsBefore(side, e.counter)
    requires Mirrors(e, side, inputs, sem, m0, st, k)
    ensures
      var e' := Define(e, tag, bits, src);
      && Mirrors(e', side, inputs, sem, m0, st, k + Count(src))
      && Val(Run(e', inputs, sem), Fresh(e, tag, bits)) == Cut(Eval(src, st.env, sem, k), bits)
      && SameBefore(Run(e, inputs, sem), Run(e', inputs, sem), e.counter)
      && Reaches(e, e')
  {
    hide Run, Eval, Cut, SameBefore, SameInputs, Holds, Val, ReadsBelow, Reaches;
    var env, e' := Run(e, inputs, sem), Define(e, tag, bits, src);
    DefineValue(e, tag, bits, src, inputs, sem);
    EvalForeign(src, env, st.env, sem, k);
    UpdatedVal(env, Fresh(e, tag, bits), Eval(src, env, sem, k));
    HoldsSame(side, env, Run(e', inputs, sem), e.counter, m0, st.mem);
    MintedWriteSame(env, Fresh(e, tag, bits).name, Cut(Eval(src, env, sem, k), bits));
    SameFlip(env, Run(e', inputs, sem), st.env);
    ReadsBelowMono(src, 0, e.counter);
    DefineReaches(e, tag, bits, src);
  }

  lemma SameFlip(env: Env, env': Env, st: Env)
    requires SameInputs(env, env') && SameInputs(env, st)
    ensures SameInputs(env', st)
  {
    forall x: Name | !x.Minted? ensures Get(env', x) == Get(st, x) {
      assert Get(env, x) == Get(st, x) && Get(env, x) == Get(env', x);
    }
  }

  lemma QuietSame(e: ElimState, e': ElimState, inputs: Env, sem: Sem, st: Env)
    requires Quiet(e, e', inputs, sem) && SameInputs(Run(e, inputs, sem), st)
    ensures SameInputs(Run(e', inputs, sem), st)
  {
    hide Run;
    forall x: Name | !x.Minted? ensures Get(Run(e', inputs, sem), x) == Get(st, x) {
      assert Get(Run(e, inputs, sem), x) == Get(st, x);
    }
  }

  lemma StoreSim(e: ElimState, side: seq<Cell>, address: Expr, value: Expr, bits: nat, ptr: nat,
                 inputs: Env, sem: Sem, m0: Mem, st: State, k: nat)
    requires CellsBefore(side, e.counter) && ReadsBelow(address, 0) && ReadsBelow(value, 0) && sem.ptr == ptr
    requires Mirrors(e, side, inputs, sem, m0, st, k)
    requires ExpandStore(e, side, address, value, bits, ptr).Some?
    ensures
      var s := StoreMem(address, value, bits);
      var (r, cells) := ExpandStore(e, side, address, value, bits, ptr).value;
      Mirrors(r, cells, inputs, sem, m0, Step(s, st, sem, k), k + CountStmt(s))
  {
    hide Run, Eval, Cut, SameBefore, SameInputs, Holds, Val, ReadsBelow, Reaches, StoreBytes, StoreValue, Quiet;
    if bits != 0 {
      var e' := Define(e, "sa", ptr, address);
      var e'' := Define(e', "sv", bits, value);
      var base, held := Fresh(e, "sa", ptr), Fresh(e', "sv", bits);
      DefineOperand(e, "sa", ptr, address, side, inputs, sem, m0, st, k);
      SideStays(e, e', side);
      DefineOperand(e', "sv", bits, value, side, inputs, sem, m0, st, k + Count(address));
      SideStays(e', e'', side);
      SameVal(Run(e', inputs, sem), Run(e'', inputs, sem), e'.counter, base);
      StoreBytesSim(e'', side, base, held, bits, ByteCount(bits), ptr, inputs, sem, m0, st.mem);
      var r := StoreBytes(e'', side, base, held, bits, ByteCount(bits), ptr).0;
      QuietSame(e'', r, inputs, sem, st.env);
      QuietCount(e'', r, inputs, sem);
    }
  }

  lemma QuietCount(e: ElimState, e': ElimState, inputs: Env, sem: Sem)
    requires Quiet(e, e', inputs, sem)
    ensures CountStmts(e'.statements) == CountStmts(e.statements)
  {
    hide CountStmts;
  }

  lemma {:induction false} LoadValueBound(m: Mem, a: nat, n: nat, ptr: nat)
    ensures LoadValue(m, a, n, ptr) < Pow2(8 * n)
    decreases n
  {
    assert Pow2(8) == 256;
    hide Cut, Pow2;
    if n > 0 {
      LoadValueBound(m, a, n - 1, ptr);
      var b, l := Byte(m, Cut(a + (n - 1), ptr)), LoadValue(m, a, n - 1, ptr);
      hide Byte, LoadValue;
      JoinBound(b, l, 8, 8 * (n - 1));
    }
  }

  lemma LoadSim(e: ElimState, side: seq<Cell>, dst: Var, address: Expr, bits: nat, ptr: nat,
                inputs: Env, sem: Sem, m0: Mem, st: State, k: nat)
    requires CellsBefore(side, e.counter) && ReadsBelow(address, 0) && !dst.name.Minted? && sem.ptr == ptr && WellFormed(e)
    requires Mirrors(e, side, inputs, sem, m0, st, k)
    requires ExpandLoad(e, side, dst, address, bits, ptr).Some?
    requires var r := ExpandLoad(e, side, dst, address, bits, ptr).value; Consistent(r.keys, Run(r, inputs, sem), m0)
    ensures
      var s := LoadMem(dst, address, bits);
      var r := ExpandLoad(e, side, dst, address, bits, ptr).value;
      Mirrors(r, side, inputs, sem, m0, Step(s, st, sem, k), k + CountStmt(s))
  {
    hide Run, Eval, Cut, SameBefore, SameInputs, Holds, Val, ReadsBelow, Reaches, LoadBytes, LoadValue, Quiet, Consistent, WellFormed, Assemble;
    if bits != 0 {
      var n, e', base := ByteCount(bits), Define(e, "la", ptr, address), Fresh(e, "la", ptr);
      DefineOperand(e, "la", ptr, address, side, inputs, sem, m0, st, k);
      ReachesWellFormed(e, e');
      SideStays(e, e', side);
      LoadBytesLength(e', side, base, n, ptr);
      LoadBytesReaches(e', side, base, n, ptr);
      var (p, bytes) := LoadBytes(e', side, base, n, ptr).value;
      SideStays(e', p, side);
      var src := Coerce(Assemble(bytes), 8 * n, bits);
      var r := p.(statements := p.statements + [Assign(dst, src)]);
      LoadedSim(e', p, bytes, side, dst, bits, ptr, inputs, sem, m0, st, k + Count(address));
    }
  }

  /** The last step of a load: the bytes read become the destination's value. */
  lemma LoadedSim(e: ElimState, p: ElimState, bytes: seq<Var>, side: seq<Cell>, dst: Var, bits: nat, ptr: nat,
                  inputs: Env, sem: Sem, m0: Mem, st: State, k: nat)
    requires bits > 0 && !dst.name.Minted? && e.counter > 0 && CellsBefore(side, e.counter) && CellsBefore(side, p.counter)
    requires WellFormed(e)
    requires var base := Var(Minted("la", e.counter - 1), ptr);
      LoadBytes(e, side, base, ByteCount(bits), ptr) == Some((p, bytes))
    requires Reaches(e, p) && bytes != [] && VarsBefore(bytes, p.counter)
    requires Mirrors(e, side, inputs, sem, m0, st, k)
    requires var r := p.(statements := p.statements + [Assign(dst, Coerce(Assemble(bytes), 8 * ByteCount(bits), bits))]);
      Consistent(r.keys, Run(r, inputs, sem), m0)
    ensures
      var r := p.(statements := p.statements + [Assign(dst, Coerce(Assemble(bytes), 8 * ByteCount(bits), bits))]);
      var a := Val(Run(e, inputs, sem), Var(Minted("la", e.counter - 1), ptr));
      Mirrors(r, side, inputs, sem, m0,
        st.(env := st.env[dst.name := Cut(Cut(LoadValue(st.mem, a, ByteCount(bits), ptr), bits), dst.bits)]), k)
  {
    hide Run, Eval, Cut, SameBefore, SameInputs, Holds, Val, ReadsBelow, Reaches, LoadBytes, LoadValue, Quiet, Consistent,
         Assemble, Coerce, BytesAt, CellsBefore;
    var n, base := ByteCount(bits), Var(Minted("la", e.counter - 1), ptr);
    var src := Coerce(Assemble(bytes), 8 * n, bits);
    var r := p.(statements := p.statements + [Assign(dst, src)]);
    ReachesWellFormed(e, p);
    KeysBefore(p);
    hide WellFormed;
    AssembleReads(bytes, p.counter);
    CoerceReads(Assemble(bytes), 8 * n, bits, p.counter);
    ReachesSelf(p);
    ReachesStep(p, p, Pass(Assign(dst, src)));
    ConsistentBack(p, r, inputs, sem, m0);
    LoadBytesSim(e, side, base, n, ptr, inputs, sem, m0, st.mem);
    QuietSame(e, p, inputs, sem, st.env);
    QuietCount(e, p, inputs, sem);
    var env, a := Run(p, inputs, sem), Val(Run(e, inputs, sem), base);
    AssembleValue(bytes, env, st.mem, a, ptr, sem, k);
    LoadValueBound(st.mem, a, n, ptr);
    CoerceValue(Assemble(bytes), bits, env, sem, k);
    RunAssign(p, dst, src, r, inputs, sem);
    var v := Cut(Cut(LoadValue(st.mem, a, n, ptr), bits), dst.bits);
    BothWriteSame(env, st.env, dst.name, v);
    HoldsSame(side, Run(e, inputs, sem), env, e.counter, m0, st.mem);
    OtherWriteSame(env, dst.name, v, p.counter);
    HoldsSame(side, env, Run(r, inputs, sem), p.counter, m0, st.mem);
  }

  lemma OtherWriteSame(env: Env, x: Name, v: nat, n: nat)
    requires !x.Minted?
    ensures SameBefore(env, env[x := v], n)
  {
  }
}
