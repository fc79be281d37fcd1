/** The interpreter again, over operands already placed as the machine places them;
    the simulation runs against this form. */
module EsilResolved {
  import opened Bits
  import opened Common
  import opened Ir
  import opened RegView
  import opened EsilMachine
  import opened EsilNumbers

  datatype Entry = Lazy(r: RegRef) | Known(value: nat, bits: nat, literal: bool)

  /** `depth` blocks are being executed; inside them `skip` are being skipped. */
  datatype Run = Run(env: Env, mem: Mem, stack: seq<Entry>, ctx: Option<Ctx>, depth: nat, skip: nat)

  function EntryBits(e: Entry): nat {
    match e
    case Lazy(r) => RegBits(r)
    case Known(_, bits, _) => bits
  }

  function EntryValue(e: Entry, env: Env): nat {
    match e
    case Lazy(r) => ReadNum(r, Val(env, r.variable))
    case Known(v, _, _) => v
  }

  function EntryArchBits(e: Entry): Option<nat> {
    match e
    case Lazy(r) => Some(RegBits(r))
    case Known(_, bits, literal) => if literal then None else Some(bits)
  }

  function Pushed(i: Run, e: Entry): Run {
    i.(stack := i.stack + [e])
  }

  function Dropped(i: Run, n: nat): Run
    requires n <= |i.stack|
  {
    i.(stack := i.stack[..|i.stack| - n])
  }

  function Written(i: Run, r: RegRef, x: nat): Run {
    i.(env := i.env[r.variable.name := WriteNum(r, Val(i.env, r.variable), x)])
  }

  function RunFlag(i: Run, suffix: string): Option<Run> {
    if i.ctx.None? then None
    else if !IsIndexed(suffix) then
      match FlagNum(suffix, i.ctx.value, 0)
      case None => None
      case Some(v) => Some(Pushed(i, Known(v, 1, false)))
    else if i.stack == [] then None
    else
      var e := i.stack[|i.stack| - 1];
      if e.Lazy? || !e.literal then None else
      match FlagNum(suffix, i.ctx.value, e.value)
      case None => None
      case Some(v) => Some(Pushed(Dropped(i, 1), Known(v, 1, false)))
  }

  function RunSet(i: Run, compound: Option<EsilOp>, seeds: bool): Option<Run> {
    if |i.stack| < 2 || i.stack[|i.stack| - 1].Known? then None
    else if compound.Some? && CompoundOp(compound.value).None? then None
    else
      var r, v := i.stack[|i.stack| - 1].r, i.stack[|i.stack| - 2];
      var was := ReadNum(r, Val(i.env, r.variable));
      var x := FitNum(EntryValue(v, i.env), EntryBits(v), RegBits(r));
      var cur := if compound.None? then x else CompoundNum(compound.value, was, x, RegBits(r));
      var j := Dropped(i, 2).(ctx := if seeds then Some(Ctx(was, cur, RegBits(r))) else i.ctx);
      Some(if r.zero then j else Written(j, r, cur))
  }

  function RunCompare(i: Run): Option<Run> {
    if |i.stack| < 2 then None else
    var l, r := i.stack[|i.stack| - 1], i.stack[|i.stack| - 2];
    var bits := if EntryArchBits(l).Some? then EntryArchBits(l).value
                else if EntryArchBits(r).Some? then EntryArchBits(r).value
                else Max(EntryBits(l), EntryBits(r));
    var x, y := FitNum(EntryValue(l, i.env), EntryBits(l), bits), FitNum(EntryValue(r, i.env), EntryBits(r), bits);
    Some(Dropped(i, 2).(ctx := Some(Ctx(x, Wrap(x - y, bits), bits))))
  }

  function RunLoad(i: Run, size: nat, ptr: nat): Option<Run> {
    if i.stack == [] then None else
    var at := Cut(EntryValue(i.stack[|i.stack| - 1], i.env), ptr);
    Some(Pushed(Dropped(i, 1), Known(LoadValue(i.mem, at, size, ptr), 8 * size, false)))
  }

  function RunStore(i: Run, size: nat, ptr: nat): Option<Run> {
    if |i.stack| < 2 then None else
    var a, v := i.stack[|i.stack| - 1], i.stack[|i.stack| - 2];
    var x := FitNum(EntryValue(v, i.env), EntryBits(v), 8 * size);
    Some(Dropped(i, 2).(mem := StoreValue(i.mem, Cut(EntryValue(a, i.env), ptr), x, size, ptr)))
  }

  /** One token; `None` when the interpreter is stuck. */
  function RunToken(i: Run, t: Token, a: EsilArch): Option<Run> {
    if i.skip > 0 then
      Some(if t.Open? then i.(skip := i.skip + 1) else if t.Close? then i.(skip := i.skip - 1) else i)
    else
      match t
      case Literal(value) => Some(Pushed(i, Known(Cut(value, a.arch.ptr), a.arch.ptr, true)))
      case Operand(name) => Some(Pushed(i, Lazy(OperandRef(a, name))))
      case Flag(suffix) => RunFlag(i, suffix)
      case Arith(op) =>
        if |i.stack| < 2 then None else
        var l, r := i.stack[|i.stack| - 1], i.stack[|i.stack| - 2];
        var v := ArithNum(op, EntryValue(l, i.env), EntryBits(l), EntryValue(r, i.env), EntryBits(r));
        Some(Pushed(Dropped(i, 2), Known(v, if IsCompare(op) then 1 else Max(EntryBits(l), EntryBits(r)), false)))
      case Not =>
        if i.stack == [] then None
        else Some(Pushed(Dropped(i, 1), Known(Bit(EntryValue(i.stack[|i.stack| - 1], i.env) == 0), 1, false)))
      case Compare => RunCompare(i)
      case NegAssign =>
        if i.stack == [] || i.stack[|i.stack| - 1].Known? then None else
        var r := i.stack[|i.stack| - 1].r;
        Some(Written(Dropped(i, 1), r, Bit(ReadNum(r, Val(i.env, r.variable)) == 0)))
      case Set(compound, seeds) => RunSet(i, compound, seeds)
      case Load(size) => RunLoad(i, size, a.arch.ptr)
      case Store(size) => RunStore(i, size, a.arch.ptr)
      case Open =>
        if i.stack == [] then None
        else if EntryValue(i.stack[|i.stack| - 1], i.env) != 0 then Some(Dropped(i, 1).(depth := i.depth + 1))
        else Some(Dropped(i, 1).(skip := 1))
      case Close => if i.depth == 0 then None else Some(i.(depth := i.depth - 1))
      case Junk(_) => None
  }

  function RunTokens(i: Run, ts: seq<Token>, a: EsilArch): Option<Run> {
    if ts == [] then Some(i) else
    match RunTokens(i, ts[..|ts| - 1], a)
    case None => None
    case Some(j) => RunToken(j, ts[|ts| - 1], a)
  }

  function StartRun(env: Env, mem: Mem): Run {
    Run(env, mem, [], None, 0, 0)
  }
}
