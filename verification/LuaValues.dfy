/**
 Values, 64-bit integer arithmetic and the observable effects of the Lua subset
 the compiler model covers.
*/
module LuaValues {
  import opened Wrappers

  const TWO_63: int := 0x8000_0000_0000_0000
  const TWO_64: int := 0x1_0000_0000_0000_0000

  type Int64 = x: int | -TWO_63 <= x < TWO_63

  /** Two's-complement wrap-around to 64 bits. */
  function Wrap(x: int): Int64 {
    (x + TWO_63) % TWO_64 - TWO_63
  }

  /** The bit pattern of x read as an unsigned number. */
  function Bits(x: Int64): nat {
    if x < 0 then x + TWO_64 else x
  }

  datatype BinOp =
    | Add | Sub | Mul | Mod | IDiv | BAnd | BOr | BXor | Shl | Shr
    | Eq | Ne | Lt | Le | Gt | Ge
    | And | Or

  predicate IsArith(op: BinOp) {
    op.Add? || op.Sub? || op.Mul? || op.Mod? || op.IDiv? || op.BAnd? || op.BOr? || op.BXor? || op.Shl? || op.Shr?
  }

  predicate IsComparison(op: BinOp) {
    op.Eq? || op.Ne? || op.Lt? || op.Le? || op.Gt? || op.Ge?
  }

  datatype UnOp = Neg | Not | Len | BNot

  // -- integer operators as the Lua manual defines them ---------------------

  function FloorDiv(a: int, b: int): int
    requires b != 0
  {
    if b > 0 then a / b else (-a) / (-b)
  }

  function FloorMod(a: int, b: int): int
    requires b != 0
  {
    a - b * FloorDiv(a, b)
  }

  function AndBits(a: nat, b: nat): nat {
    if a == 0 || b == 0 then 0
    else 2 * AndBits(a / 2, b / 2) + (a % 2) * (b % 2)
  }

  function XorBits(a: nat, b: nat): nat
    decreases a + b
  {
    if a == 0 && b == 0 then 0
    else 2 * XorBits(a / 2, b / 2) + (a + b) % 2
  }

  /** a | b is what the two have in common plus what they do not. */
  function OrBits(a: nat, b: nat): nat {
    AndBits(a, b) + XorBits(a, b)
  }

  /** Logical shift to the left by n, to the right when n is negative. */
  function ShiftLeft(a: Int64, n: int): Int64 {
    if n >= 64 || n <= -64 then 0
    else if n >= 0 then Wrap(Bits(a) * Pow2(n))
    else Wrap(Bits(a) / Pow2(-n))
  }

  /** The integer result of an arithmetic operator; None is "attempt to perform 'n//0'" and 'n%%0'. */
  function IntArith(op: BinOp, a: Int64, b: Int64): Option<Int64>
    requires IsArith(op)
  {
    match op
    case Add => Some(Wrap(a + b))
    case Sub => Some(Wrap(a - b))
    case Mul => Some(Wrap(a * b))
    case IDiv => if b == 0 then None else Some(Wrap(FloorDiv(a, b)))
    case Mod => if b == 0 then None else Some(Wrap(FloorMod(a, b)))
    case BAnd => Some(Wrap(AndBits(Bits(a), Bits(b))))
    case BOr => Some(Wrap(OrBits(Bits(a), Bits(b))))
    case BXor => Some(Wrap(XorBits(Bits(a), Bits(b))))
    case Shl => Some(ShiftLeft(a, b))
    case Shr => Some(ShiftLeft(a, 0 - b))
  }

  // -- values and effects ----------------------------------------------------

  /** Other(id) stands for tables, functions and userdata; floats are not part of this model. */
  datatype Value = Nil | Bool(b: bool) | Int(i: Int64) | Str(s: string) | Other(id: nat)

  predicate Truthy(v: Value) {
    !v.Nil? && v != Bool(false)
  }

  /** One request to something outside the function: a metamethod, a table access, a length. */
  datatype Event =
    | EvArith(op: BinOp, a: Value, b: Value)
    | EvUnary(uop: UnOp, a: Value)
    | EvLess(a: Value, b: Value)
    | EvLessEq(a: Value, b: Value)
    | EvEqual(a: Value, b: Value)
    | EvIndex(t: Value, k: Value)
    | EvNewIndex(t: Value, k: Value, v: Value)

  type Log = seq<Event>

  datatype Answer = Ret(v: Value) | Throw

  /** The outside world: it answers the last request of a log, knowing the whole log. */
  type Oracle = Log -> Answer

  /** What evaluating something does: it extends the log and gives a value or raises. */
  datatype Out = Val(log: Log, v: Value) | Err(log: Log)

  function Ask(o: Oracle, log: Log, ev: Event): Out {
    match o(log + [ev])
    case Ret(v) => Val(log + [ev], v)
    case Throw => Err(log + [ev])
  }

  function AskBool(o: Oracle, log: Log, ev: Event): Out {
    match Ask(o, log, ev)
    case Val(l, v) => Val(l, Bool(Truthy(v)))
    case Err(l) => Err(l)
  }

  function ArithValue(o: Oracle, log: Log, op: BinOp, a: Value, b: Value): Out
    requires IsArith(op)
  {
    if a.Int? && b.Int? then
      match IntArith(op, a.i, b.i)
      case Some(r) => Val(log, Int(r))
      case None => Err(log)
    else Ask(o, log, EvArith(op, a, b))
  }

  function UnaryValue(o: Oracle, log: Log, op: UnOp, a: Value): Out {
    match op
    case Not => Val(log, Bool(!Truthy(a)))
    case Neg => if a.Int? then Val(log, Int(Wrap(0 - a.i))) else Ask(o, log, EvUnary(op, a))
    case BNot => if a.Int? then Val(log, Int(Wrap(0 - a.i - 1))) else Ask(o, log, EvUnary(op, a))
    case Len => Ask(o, log, EvUnary(op, a))
  }

  /** Raw equality first; only two distinct non-primitive values are asked about. */
  function EqualValue(o: Oracle, log: Log, a: Value, b: Value): Out {
    if a.Other? && b.Other? && a != b then AskBool(o, log, EvEqual(a, b))
    else Val(log, Bool(a == b))
  }

  function LessValue(o: Oracle, log: Log, a: Value, b: Value): Out {
    if a.Int? && b.Int? then Val(log, Bool(a.i < b.i))
    else AskBool(o, log, EvLess(a, b))
  }

  function LessEqValue(o: Oracle, log: Log, a: Value, b: Value): Out {
    if a.Int? && b.Int? then Val(log, Bool(a.i <= b.i))
    else AskBool(o, log, EvLessEq(a, b))
  }

  function Negate(out: Out): Out {
    match out
    case Val(l, v) => Val(l, Bool(!Truthy(v)))
    case Err(l) => Err(l)
  }

  /** a > b is b < a and a >= b is b <= a, operands swapped (Lua manual, section 3.4.4). */
  function CompareValue(o: Oracle, log: Log, op: BinOp, a: Value, b: Value): (out: Out)
    requires IsComparison(op)
    ensures out.Val? ==> out.v.Bool?
  {
    match op
    case Eq => EqualValue(o, log, a, b)
    case Ne => Negate(EqualValue(o, log, a, b))
    case Lt => LessValue(o, log, a, b)
    case Le => LessEqValue(o, log, a, b)
    case Gt => LessValue(o, log, b, a)
    case Ge => LessEqValue(o, log, b, a)
  }
}
