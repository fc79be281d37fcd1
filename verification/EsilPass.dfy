/** The ESIL machine as it runs: one object whose stack, statements, flag context and
    blocks change in place, each method proved against the function of its name. */
module EsilPass {
  import opened Bits
  import opened Common
  import opened Ir
  import opened RegView
  import opened Flags
  import Spec = EsilMachine
  import opened EsilMachine

  class Machine {
    const a: EsilArch
    var stack: seq<StackValue>
    var statements: seq<Stmt>
    var flagCtx: Option<FlagCtx>
    var blockStack: seq<Block>
    var pending: Option<Pending>

    ghost function Now(): Spec.Machine
      reads this
    {
      Spec.Machine(stack, statements, flagCtx, blockStack, pending)
    }

    constructor (a: EsilArch)
      ensures Now() == FRESH && this.a == a
    {
      this.a := a;
      stack, statements, flagCtx, blockStack, pending := [], [], None, [], None;
    }

    method Pop() returns (v: Option<StackValue>)
      modifies this`stack
      ensures v.None? <==> old(stack) == []
      ensures v.None? ==> stack == old(stack)
      ensures v.Some? ==> v.value == Top(old(Now())) && Now() == Drop(old(Now()), 1)
    {
      if stack == [] {
        return None;
      }
      v := Some(stack[|stack| - 1]);
      stack := stack[..|stack| - 1];
    }

    method Push(v: StackValue)
      modifies this`stack
      ensures Now() == PushTo(old(Now()), v)
    {
      stack := stack + [v];
    }

    /** Splice a snapshot in ahead of the write it precedes, keeping the open blocks
        on the same statements. */
    method InsertSnapshot(at: nat, t: Var, src: Expr)
      requires at <= |statements|
      modifies this`statements, this`blockStack
      ensures Now() == Spec.InsertSnapshot(old(Now()), at, t, src)
    {
      statements := statements[..at] + [Assign(t, src)] + statements[at..];
      var shifted: seq<Block> := [];
      for i := 0 to |blockStack|
        invariant blockStack == old(blockStack) && shifted == Shifted(blockStack[..i], at)
        invariant statements == old(statements[..at]) + [Assign(t, src)] + old(statements[at..])
        invariant stack == old(stack) && flagCtx == old(flagCtx) && pending == old(pending)
      {
        assert blockStack[..i + 1][..i] == blockStack[..i];
        var b := blockStack[i];
        shifted := shifted + [if b.start > at then b.(start := b.start + 1) else b];
      }
      assert blockStack[..|blockStack|] == blockStack;
      blockStack := shifted;
    }

    /** A deferred context belongs somewhere in what has been emitted. */
    predicate Valid()
      reads this
    {
      pending.Some? ==> pending.value.at <= |statements|
    }

    method MaterialiseCur()
      requires Valid()
      modifies this
      ensures Valid() && Now() == Spec.MaterialiseCur(old(Now()))
    {
      if pending.None? || pending.value.cur.None? {
        return;
      }
      var p := pending.value;
      pending := Some(p.(cur := None));
      InsertSnapshot(p.at, p.cur.value.0, p.cur.value.1);
    }

    method MaterialiseWas()
      requires Valid()
      modifies this
      ensures Valid() && Now() == Spec.MaterialiseWas(old(Now()))
    {
      if pending.None? || pending.value.was.None? {
        return;
      }
      var p := pending.value;
      pending := Some(p.(was := None));
      InsertSnapshot(p.at, p.was.value.0, p.was.value.1);
    }

    method SeedFlagCtx(r: RegRef, value: Expr)
      modifies this`pending, this`flagCtx
      ensures Valid() && Now() == Seed(old(Now()), r, value)
    {
      var at, bits := |statements|, RegBits(r);
      var was, cur := Var(Temp("old", at), bits), Var(Temp("cur", at), bits);
      pending := Some(Pending(at, Some((was, ReadExpr(r))), Some((cur, value))));
      flagCtx := Some(FlagCtx(Ref(was), Ref(cur), bits));
    }

    static lemma TwoPops(s: seq<StackValue>)
      requires |s| >= 2
      ensures s[..|s| - 1][..|s| - 2] == s[..|s| - 2] && s[..|s| - 1][|s| - 2] == s[|s| - 2]
    {
    }

    method ApplyArith(op: EsilOp) returns (e: Option<EsilError>)
      modifies this`stack
      ensures e.None? ==> Spec.ApplyArith(old(Now()), op) == Ok(Now())
      ensures e.Some? ==> Spec.ApplyArith(old(Now()), op) == Err(e.value)
    {
      hide ArithExpr, ValueBits;
      var lhs := Pop();
      if lhs.None? { return Some(StackUnderflow); }
      var rhs := Pop();
      if rhs.None? { return Some(StackUnderflow); }
      TwoPops(old(stack));
      var bits := Max(ValueBits(lhs.value), ValueBits(rhs.value));
      Push(Computed(ArithExpr(op, lhs.value, rhs.value), if IsCompare(op) then 1 else bits));
      return None;
    }

    method ApplyNot() returns (e: Option<EsilError>)
      modifies this`stack
      ensures e.None? ==> Spec.ApplyNot(old(Now())) == Ok(Now())
      ensures e.Some? ==> Spec.ApplyNot(old(Now())) == Err(e.value)
    {
      var v := Pop();
      if v.None? { return Some(StackUnderflow); }
      Push(Computed(AsBit(Bin(Eq, ValueExpr(v.value), Const(0, ValueBits(v.value)))), 1));
      return None;
    }

    /** The literal bit index a parametric flag consumes. */
    method PopFlagIndex() returns (r: Result<nat, EsilError>)
      modifies this`stack
      ensures r.Ok? ==> old(stack) != [] && FlagIndex(Top(old(Now()))) == Some(r.value) && Now() == Drop(old(Now()), 1)
      ensures r.Err? ==> if old(stack) == [] then r.error == StackUnderflow
                         else r.error == UnsupportedFlag && FlagIndex(Top(old(Now()))).None?
    {
      var v := Pop();
      if v.None? { return Err(StackUnderflow); }
      var index := FlagIndex(v.value);
      if index.None? { return Err(UnsupportedFlag); }
      return Ok(index.value);
    }

    method ApplyFlag(suffix: string) returns (e: Option<EsilError>)
      requires Valid()
      modifies this
      ensures e.None? ==> Valid() && Spec.ApplyFlag(old(Now()), suffix) == Ok(Now())
      ensures e.Some? ==> Spec.ApplyFlag(old(Now()), suffix) == Err(e.value)
    {
      hide FlagExpr, Spec.InsertSnapshot;
      if flagCtx.None? { return Some(UnsupportedFlag); }
      var ctx, index := flagCtx.value, 0;
      MaterialiseStack(Now());
      MaterialiseCur();
      if IsIndexed(suffix) {
        var popped := PopFlagIndex();
        if popped.Err? { return Some(popped.error); }
        index := popped.value;
        if NeedsWas(suffix) { MaterialiseWas(); }
      }
      var value := FlagExpr(suffix, ctx, index);
      if value.None? { return Some(UnsupportedFlag); }
      Push(Computed(value.value, 1));
      return None;
    }

    static lemma MaterialiseStack(m: Spec.Machine)
      ensures Spec.MaterialiseCur(m).stack == m.stack
    {
    }

    method ApplyCompare() returns (e: Option<EsilError>)
      modifies this`stack, this`flagCtx
      ensures e.None? ==> Spec.ApplyCompare(old(Now())) == Ok(Now())
      ensures e.Some? ==> Spec.ApplyCompare(old(Now())) == Err(e.value)
    {
      hide Widen, CompareBits;
      var lhs := Pop();
      if lhs.None? { return Some(StackUnderflow); }
      var rhs := Pop();
      if rhs.None? { return Some(StackUnderflow); }
      TwoPops(old(stack));
      var bits := CompareBits(lhs.value, rhs.value);
      var x, y := Widen(lhs.value, bits), Widen(rhs.value, bits);
      flagCtx := Some(FlagCtx(x, Bin(Sub, x, y), bits));
      return None;
    }

    method ApplyAssign(compound: Option<EsilOp>, seedsFlags: bool) returns (e: Option<EsilError>)
      requires Valid()
      modifies this
      ensures e.None? ==> Valid() && Spec.ApplySet(old(Now()), compound, seedsFlags) == Ok(Now())
      ensures e.Some? ==> Spec.ApplySet(old(Now()), compound, seedsFlags) == Err(e.value)
    {
      hide AssignedExpr, Widen, WriteExpr, RegBits, ReadExpr;
      var target := Pop();
      if target.None? { return Some(StackUnderflow); }
      var value := Pop();
      if value.None? { return Some(StackUnderflow); }
      TwoPops(old(stack));
      if target.value.Computed? { return Some(InvalidAssignmentTarget); }
      var r := target.value.r;
      var final := AssignedExpr(r, Widen(value.value, RegBits(r)), compound);
      if final.None? { return Some(UnknownToken); }
      if seedsFlags { SeedFlagCtx(r, final.value); }
      if !r.zero { statements := statements + [Assign(r.variable, WriteExpr(r, final.value))]; }
      return None;
    }

    method ApplyNegAssign() returns (e: Option<EsilError>)
      requires Valid()
      modifies this
      ensures e.None? ==> Valid() && Spec.ApplyNegAssign(old(Now())) == Ok(Now())
      ensures e.Some? ==> Spec.ApplyNegAssign(old(Now())) == Err(e.value)
    {
      hide WriteExpr, NegatedExpr;
      var target := Pop();
      if target.None? { return Some(StackUnderflow); }
      if target.value.Computed? { return Some(InvalidAssignmentTarget); }
      var r := target.value.r;
      statements := statements + [Assign(r.variable, WriteExpr(r, NegatedExpr(r)))];
      return None;
    }

    method MarkActiveBlockMemOp()
      modifies this`blockStack
      ensures Now() == MarkMemOp(old(Now()))
    {
      if blockStack != [] {
        var n := |blockStack| - 1;
        blockStack := blockStack[..n] + [blockStack[n].(memOp := true)];
      }
    }

    method ApplyLoad(size: nat) returns (e: Option<EsilError>)
      requires Valid()
      modifies this
      ensures e.None? ==> Valid() && Spec.ApplyLoad(old(Now()), size) == Ok(Now())
      ensures e.Some? ==> Spec.ApplyLoad(old(Now()), size) == Err(e.value)
    {
      hide ValueExpr, MarkMemOp;
      var address := Pop();
      if address.None? { return Some(StackUnderflow); }
      var dst := Var(Temp("ld", |statements|), 8 * size);
      statements := statements + [LoadMem(dst, ValueExpr(address.value), 8 * size)];
      MarkActiveBlockMemOp();
      MarkKeeps(old(Now()), size);
      Push(InRegister(WholeRef(dst)));
      return None;
    }

    static lemma MarkKeeps(m: Spec.Machine, size: nat)
      ensures MarkMemOp(m).statements == m.statements && MarkMemOp(m).pending == m.pending
      ensures forall n: Spec.Machine :: MarkMemOp(n).statements == n.statements && MarkMemOp(n).pending == n.pending
    {
    }

    method ApplyStore(size: nat) returns (e: Option<EsilError>)
      requires Valid()
      modifies this
      ensures e.None? ==> Valid() && Spec.ApplyStore(old(Now()), size) == Ok(Now())
      ensures e.Some? ==> Spec.ApplyStore(old(Now()), size) == Err(e.value)
    {
      hide ValueExpr, Widen, MarkMemOp;
      var address := Pop();
      if address.None? { return Some(StackUnderflow); }
      var value := Pop();
      if value.None? { return Some(StackUnderflow); }
      TwoPops(old(stack));
      statements := statements + [StoreMem(ValueExpr(address.value), Widen(value.value, 8 * size), 8 * size)];
      MarkActiveBlockMemOp();
      MarkKeeps(old(Now()), size);
      return None;
    }

    method OpenBlock() returns (e: Option<EsilError>)
      requires Valid()
      modifies this`stack, this`blockStack
      ensures e.None? ==> Valid() && Spec.OpenBlock(old(Now())) == Ok(Now())
      ensures e.Some? ==> Spec.OpenBlock(old(Now())) == Err(e.value)
    {
      hide ToBit;
      var cond := Pop();
      if cond.None? { return Some(StackUnderflow); }
      blockStack := blockStack + [Block(ToBit(cond.value), |statements|, false)];
      return None;
    }

    /** Wrap every assignment emitted since the block opened. */
    method CloseBlock() returns (e: Option<EsilError>)
      requires Valid()
      modifies this
      ensures e.None? ==> Valid() && Spec.CloseBlock(old(Now())) == Ok(Now())
      ensures e.Some? ==> Spec.CloseBlock(old(Now())) == Err(e.value)
    {
      if blockStack == [] { return Some(UnsupportedControlFlow); }
      var b := blockStack[|blockStack| - 1];
      blockStack := blockStack[..|blockStack| - 1];
      if b.memOp { return Some(UnsupportedControlFlow); }
      var wrapped: seq<Stmt> := [];
      hide Guarded;
      for i := 0 to |statements|
        invariant statements == old(statements) && wrapped == GuardFrom(statements[..i], b.start, b.cond) && |wrapped| == i
        invariant stack == old(stack) && flagCtx == old(flagCtx) && pending == old(pending) && blockStack == old(blockStack[..|blockStack| - 1])
      {
        assert statements[..i + 1][..i] == statements[..i];
        if i < b.start { EarlyGuard(statements[..i + 1], b.start, b.cond); EarlyGuard(statements[..i], b.start, b.cond); }
        wrapped := wrapped + [if i >= b.start then Guarded(statements[i], b.cond) else statements[i]];
      }
      assert statements[..|statements|] == statements;
      statements := wrapped;
      return None;
    }

    static lemma EarlyGuard(ss: seq<Stmt>, start: nat, cond: Expr)
      requires |ss| <= start
      ensures GuardFrom(ss, start, cond) == ss
    {
    }

    method Step(t: Token) returns (e: Option<EsilError>)
      requires Valid()
      modifies this
      ensures e.None? ==> Valid() && StepToken(old(Now()), t, a) == Ok(Now())
      ensures e.Some? ==> StepToken(old(Now()), t, a) == Err(e.value)
    {
      hide Spec.ApplyFlag, Spec.ApplyArith, Spec.ApplyNot, Spec.ApplyCompare, Spec.ApplyNegAssign, Spec.ApplySet, Spec.ApplyLoad, Spec.ApplyStore,
           Spec.OpenBlock, Spec.CloseBlock, OperandRef;
      e := None;
      ghost var before := Now();
      match t {
        case Literal(value) => Push(Computed(Const(value, a.arch.ptr), a.arch.ptr));
        case Operand(name) => Push(InRegister(OperandRef(a, name)));
        case Flag(suffix) => e := ApplyFlag(suffix);
        case Arith(op) =>
          e := ApplyArith(op);
          if e.None? { ArithPending(before, op); }
        case Not =>
          e := ApplyNot();
          if e.None? { NotPending(before); }
        case Compare =>
          e := ApplyCompare();
          if e.None? { ComparePending(before); }
        case NegAssign => e := ApplyNegAssign();
        case Set(compound, seeds) => e := ApplyAssign(compound, seeds);
        case Load(size) => e := ApplyLoad(size);
        case Store(size) => e := ApplyStore(size);
        case Open => e := OpenBlock();
        case Close => e := CloseBlock();
        case Junk(_) => e := Some(UnknownToken);
      }
    }

    static lemma ArithPending(m: Spec.Machine, op: EsilOp)
      ensures Spec.ApplyArith(m, op).Ok? ==>
        Spec.ApplyArith(m, op).value.pending == m.pending && Spec.ApplyArith(m, op).value.statements == m.statements
    {
      hide ArithExpr;
    }

    static lemma NotPending(m: Spec.Machine)
      ensures Spec.ApplyNot(m).Ok? ==> Spec.ApplyNot(m).value.pending == m.pending && Spec.ApplyNot(m).value.statements == m.statements
    {
    }

    static lemma ComparePending(m: Spec.Machine)
      ensures Spec.ApplyCompare(m).Ok? ==> Spec.ApplyCompare(m).value.pending == m.pending && Spec.ApplyCompare(m).value.statements == m.statements
    {
      hide Widen, CompareBits;
    }
  }

  /** Lift a whole token stream; nothing is handed back on an error. */
  method Lift(ts: seq<Token>, a: EsilArch) returns (r: Result<seq<Stmt>, EsilError>)
    ensures r == LiftEsil(ts, a)
  {
    hide StepToken;
    var machine := new Machine(a);
    for i := 0 to |ts|
      invariant machine.Valid() && machine.a == a && Steps(ts[..i], a) == Ok(machine.Now())
    {
      assert ts[..i + 1][..i] == ts[..i];
      var e := machine.Step(ts[i]);
      if e.Some? {
        ErrorStays(ts, i + 1, a);
        return Err(e.value);
      }
    }
    assert ts[..|ts|] == ts;
    if machine.blockStack != [] {
      return Err(UnsupportedControlFlow);
    }
    return Ok(machine.statements);
  }

  lemma {:induction false} ErrorStays(ts: seq<Token>, n: nat, a: EsilArch)
    requires n <= |ts| && Steps(ts[..n], a).Err?
    ensures Steps(ts, a) == Steps(ts[..n], a)
    decreases |ts|
  {
    hide StepToken;
    if n == |ts| {
      assert ts[..n] == ts;
    } else {
      assert ts[..|ts| - 1][..n] == ts[..n];
      ErrorStays(ts[..|ts| - 1], n, a);
    }
  }
}
