/** What ESIL's operators and flag tokens give on numbers. */
module EsilNumbers {
  import opened Bits
  import opened Common
  import opened Flags
  import opened EsilMachine

  /** The destination's value before and after the last seeding operation. */
  datatype Ctx = Ctx(was: nat, cur: nat, bits: nat)

  /** A value zero-extended or cut to `to` bits. */
  function FitNum(v: nat, from: nat, to: nat): nat {
    if to < from then Cut(v, to) else v
  }

  function ArithNum(op: EsilOp, x: nat, xb: nat, y: nat, yb: nat): nat {
    var bits := Max(xb, yb);
    match op
    case Plus => Wrap(x + y, bits)
    case Minus => Wrap(x - y, bits)
    case Times => Wrap(x * y, bits)
    case Divide => if y == 0 then Ones(bits) else ShareOf(x, y)
    case Modulo => if y == 0 then x else x % y
    case BAnd => BitAnd(x, y)
    case BOr => BitOr(x, y)
    case BXor => BitXor(x, y)
    case ShiftL => Wrap(x * Pow2(y), bits)
    case ShiftR => ShareOf(x, Pow2(y))
    case Less => Bit(ToSigned(x, xb) < ToSigned(y, yb))
    case LessEq => Bit(ToSigned(x, xb) <= ToSigned(y, yb))
    case Greater => Bit(ToSigned(x, xb) > ToSigned(y, yb))
    case GreaterEq => Bit(ToSigned(x, xb) >= ToSigned(y, yb))
  }

  function ShareOf(x: nat, y: nat): nat
    requires y > 0
  {
    DivNat(x, y);
    x / y
  }

  /** The value of a flag; `None` where no such bit or mask exists. */
  function FlagNum(suffix: string, c: Ctx, n: nat): Option<nat> {
    var masked := 0 < c.bits <= 128 && n < 65535;
    if suffix == "z" then Some(Bit(c.cur == 0))
    else if suffix == "p" then (if c.bits == 0 then None else Some(Bit(Ones8(c.cur, Min(8, c.bits)) % 2 == 0)))
    else if suffix == "s" then (if n < c.bits then Some(BitAt(c.cur, n)) else None)
    else if suffix == "c" then (if masked then Some(CarryNum(c.was, c.cur, n, c.bits)) else None)
    else if suffix == "b" then (if masked then Some(BorrowNum(c.was, c.cur, n, c.bits)) else None)
    else if suffix == "o" then (if masked && n > 0 then Some(OverflowNum(c.was, c.cur, n, c.bits)) else None)
    else None
  }

  function CompoundNum(op: EsilOp, x: nat, y: nat, bits: nat): nat {
    ArithNum(op, x, bits, y, bits)
  }
}
