/**
 The source language: syntax trees and their meaning, independent of registers.
*/
module LuaSource {
  import opened LuaValues

  datatype Expr =
    | NilE
    | TrueE
    | FalseE
    | IntE(n: Int64)
    | StrE(text: string)
    | Name(name: string)
    | Bin(op: BinOp, l: Expr, r: Expr)
    | Un(uop: UnOp, operand: Expr)
    | Paren(inner: Expr)
    | Field(table: Expr, field: string)
    | Index(table: Expr, key: Expr)

  const ENV: string := "_ENV"

  /** The variables in scope, oldest first, and the chunk's _ENV upvalue. */
  datatype Store = Store(vars: seq<(string, Value)>, up: Value)

  /** The position of the innermost variable called x, or -1. */
  function Find(vars: seq<(string, Value)>, x: string): (i: int)
    ensures -1 <= i < |vars|
    ensures i >= 0 ==> vars[i].0 == x
  {
    if vars == [] then -1
    else if vars[|vars| - 1].0 == x then |vars| - 1
    else Find(vars[..|vars| - 1], x)
  }

  /** The table a bare global name is looked up in. */
  function EnvValue(st: Store): Value {
    var i := Find(st.vars, ENV);
    if i >= 0 then st.vars[i].1 else st.up
  }

  function NameValue(o: Oracle, st: Store, log: Log, x: string): Out {
    var i := Find(st.vars, x);
    if i >= 0 then Val(log, st.vars[i].1)
    else if x == ENV then Val(log, st.up)
    else Ask(o, log, EvIndex(EnvValue(st), Str(x)))
  }

  function Eval(o: Oracle, st: Store, log: Log, e: Expr): Out
    decreases e
  {
    match e
    case NilE => Val(log, Nil)
    case TrueE => Val(log, Bool(true))
    case FalseE => Val(log, Bool(false))
    case IntE(n) => Val(log, Int(n))
    case StrE(s) => Val(log, Str(s))
    case Name(x) => NameValue(o, st, log, x)
    case Paren(inner) => Eval(o, st, log, inner)
    case Un(op, operand) =>
      (match Eval(o, st, log, operand)
       case Val(l1, v) => UnaryValue(o, l1, op, v)
       case Err(l1) => Err(l1))
    case Field(t, f) =>
      (match Eval(o, st, log, t)
       case Val(l1, v) => Ask(o, l1, EvIndex(v, Str(f)))
       case Err(l1) => Err(l1))
    case Index(t, k) =>
      (match Eval(o, st, log, t)
       case Val(l1, tv) =>
         (match Eval(o, st, l1, k)
          case Val(l2, kv) => Ask(o, l2, EvIndex(tv, kv))
          case Err(l2) => Err(l2))
       case Err(l1) => Err(l1))
    case Bin(op, l, r) =>
      (match Eval(o, st, log, l)
       case Err(l1) => Err(l1)
       case Val(l1, lv) =>
         if op.And? then (if Truthy(lv) then Eval(o, st, l1, r) else Val(l1, lv))
         else if op.Or? then (if Truthy(lv) then Val(l1, lv) else Eval(o, st, l1, r))
         else
           match Eval(o, st, l1, r)
           case Err(l2) => Err(l2)
           case Val(l2, rv) =>
             if IsArith(op) then ArithValue(o, l2, op, lv, rv)
             else CompareValue(o, l2, op, lv, rv))
  }
}
