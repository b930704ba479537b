/**
 Statements of the subset and their meaning. A run is bounded by a number of
 loop iterations; the results quantify over every bound.
*/
module LuaStmts {
  import opened LuaValues
  import opened LuaSource

  datatype Block = BNil | BCons(s: Stmt, rest: Block)

  /** What follows the then-block of an if. */
  datatype Tail = NoElse | Else(body: Block) | ElseIf(cond: Expr, body: Block, rest: Tail)

  datatype Stmt =
    | Local(names: seq<string>, consts: seq<bool>, values: seq<Expr>)
    | Assign(targets: seq<Expr>, values: seq<Expr>)
    | If(cond: Expr, thn: Block, tail: Tail)
    | While(cond: Expr, body: Block)
    | Repeat(body: Block, cond: Expr)
    | Do(body: Block)
    | Break
    | Empty

  /** What the grammar guarantees: no empty name, target or value list. */
  predicate Parsed(b: Block) {
    b.BCons? ==> ParsedStmt(b.s) && Parsed(b.rest)
  }

  predicate ParsedStmt(s: Stmt) {
    match s
    case Local(names, _, _) => |names| > 0
    case Assign(targets, values) => |targets| > 0 && |values| > 0
    case If(_, thn, tail) => Parsed(thn) && ParsedTail(tail)
    case While(_, body) => Parsed(body)
    case Repeat(body, _) => Parsed(body)
    case Do(body) => Parsed(body)
    case _ => true
  }

  predicate ParsedTail(t: Tail) {
    match t
    case NoElse => true
    case Else(body) => Parsed(body)
    case ElseIf(_, body, rest) => Parsed(body) && ParsedTail(rest)
  }

  // -- lists of expressions ------------------------------------------------------

  datatype Outs = Vals(log: Log, vs: seq<Value>) | ErrList(log: Log)

  function EvalList(o: Oracle, st: Store, log: Log, es: seq<Expr>): (out: Outs)
    ensures out.Vals? ==> |out.vs| == |es|
  {
    if es == [] then Vals(log, [])
    else
      match EvalList(o, st, log, es[..|es| - 1])
      case ErrList(l) => ErrList(l)
      case Vals(l, vs) =>
        match Eval(o, st, l, es[|es| - 1])
        case Val(l2, v) => Vals(l2, vs + [v])
        case Err(l2) => ErrList(l2)
  }

  /** The first n values, padded with nil. */
  function Adjust(vs: seq<Value>, n: nat): (r: seq<Value>)
    ensures |r| == n
    ensures forall i | 0 <= i < n :: r[i] == if i < |vs| then vs[i] else Nil
  {
    seq(n, i requires 0 <= i < n => if i < |vs| then vs[i] else Nil)
  }

  function Bind(names: seq<string>, vs: seq<Value>): (r: seq<(string, Value)>)
    requires |names| == |vs|
    ensures |r| == |names|
  {
    seq(|names|, i requires 0 <= i < |names| => (names[i], vs[i]))
  }

  // -- assignment --------------------------------------------------------------------

  /** Where an assignment target stores, fixed before any value is computed. */
  datatype Place = VarPlace(i: nat) | UpPlace | TablePlace(t: Value, k: Value) | NoPlace

  datatype PlaceOut = PlaceAt(log: Log, p: Place) | PlaceErr(log: Log)

  function NamePlace(st: Store, x: string): Place {
    var i := Find(st.vars, x);
    if i >= 0 then VarPlace(i)
    else if x == ENV then UpPlace
    else TablePlace(EnvValue(st), Str(x))
  }

  function EvalPlace(o: Oracle, st: Store, log: Log, target: Expr): PlaceOut {
    match target
    case Name(x) => PlaceAt(log, NamePlace(st, x))
    case Field(t, f) =>
      (match Eval(o, st, log, t)
       case Val(l, tv) => PlaceAt(l, TablePlace(tv, Str(f)))
       case Err(l) => PlaceErr(l))
    case Index(t, k) =>
      (match Eval(o, st, log, t)
       case Val(l, tv) =>
         (match Eval(o, st, l, k)
          case Val(l2, kv) => PlaceAt(l2, TablePlace(tv, kv))
          case Err(l2) => PlaceErr(l2))
       case Err(l) => PlaceErr(l))
    case _ => PlaceAt(log, NoPlace)
  }

  datatype PlacesOut = Places(log: Log, ps: seq<Place>) | PlacesErr(log: Log)

  function EvalPlaces(o: Oracle, st: Store, log: Log, targets: seq<Expr>): (out: PlacesOut)
    ensures out.Places? ==> |out.ps| == |targets|
  {
    if targets == [] then Places(log, [])
    else
      match EvalPlaces(o, st, log, targets[..|targets| - 1])
      case PlacesErr(l) => PlacesErr(l)
      case Places(l, ps) =>
        match EvalPlace(o, st, l, targets[|targets| - 1])
        case PlaceAt(l2, p) => Places(l2, ps + [p])
        case PlaceErr(l2) => PlacesErr(l2)
  }

  datatype Res =
    | Normal(st: Store, log: Log)
    | Broke(st: Store, log: Log)
    | Failed(log: Log)
    | Unfinished

  function StoreAt(o: Oracle, st: Store, log: Log, p: Place, v: Value): Res {
    match p
    case VarPlace(i) => if i < |st.vars| then Normal(st.(vars := st.vars[i := (st.vars[i].0, v)]), log) else Failed(log)
    case UpPlace => Normal(st.(up := v), log)
    case TablePlace(t, k) =>
      (match Ask(o, log, EvNewIndex(t, k, v))
       case Val(l, _) => Normal(st, l)
       case Err(l) => Failed(l))
    case NoPlace => Failed(log)
  }

  /** The stores of an assignment happen right to left. */
  function StoreAll(o: Oracle, st: Store, log: Log, ps: seq<Place>, vs: seq<Value>): Res
    requires |ps| == |vs|
    decreases |ps|
  {
    if ps == [] then Normal(st, log)
    else
      match StoreAt(o, st, log, ps[|ps| - 1], vs[|vs| - 1])
      case Normal(st2, l2) => StoreAll(o, st2, l2, ps[..|ps| - 1], vs[..|vs| - 1])
      case other => other
  }

  /** All places, then all values, then the stores. */
  function ExecAssign(o: Oracle, st: Store, log: Log, targets: seq<Expr>, values: seq<Expr>): Res {
    match EvalPlaces(o, st, log, targets)
    case PlacesErr(l) => Failed(l)
    case Places(l, ps) =>
      match EvalList(o, st, l, values)
      case ErrList(l2) => Failed(l2)
      case Vals(l2, vs) => StoreAll(o, st, l2, ps, Adjust(vs, |ps|))
  }

  function ExecLocal(o: Oracle, st: Store, log: Log, names: seq<string>, values: seq<Expr>): Res {
    match EvalList(o, st, log, values)
    case ErrList(l) => Failed(l)
    case Vals(l, vs) => Normal(st.(vars := st.vars + Bind(names, Adjust(vs, |names|))), l)
  }

  // -- control flow ---------------------------------------------------------------------

  /** Leave a block: its variables go out of scope. */
  function Leave(n: nat, r: Res): Res {
    match r
    case Normal(st, log) => Normal(if n <= |st.vars| then st.(vars := st.vars[..n]) else st, log)
    case other => other
  }

  function ExecBlock(fuel: nat, o: Oracle, st: Store, log: Log, b: Block): Res
    decreases fuel, b, 0
  {
    match b
    case BNil => Normal(st, log)
    case BCons(s, rest) =>
      match ExecStmt(fuel, o, st, log, s)
      case Normal(st2, l2) => ExecBlock(fuel, o, st2, l2, rest)
      case other => other
  }

  function ExecScope(fuel: nat, o: Oracle, st: Store, log: Log, b: Block): Res
    decreases fuel, b, 1
  {
    Leave(|st.vars|, ExecBlock(fuel, o, st, log, b))
  }

  function ExecTail(fuel: nat, o: Oracle, st: Store, log: Log, t: Tail): Res
    decreases fuel, t, 0
  {
    match t
    case NoElse => Normal(st, log)
    case Else(body) => ExecScope(fuel, o, st, log, body)
    case ElseIf(cond, body, rest) =>
      match Eval(o, st, log, cond)
      case Err(l) => Failed(l)
      case Val(l, v) => if Truthy(v) then ExecScope(fuel, o, st, l, body) else ExecTail(fuel, o, st, l, rest)
  }

  /** A break that reaches its loop ends it normally. */
  function EndLoop(n: nat, r: Res): Res {
    match r
    case Broke(st, log) => Leave(n, Normal(st, log))
    case other => other
  }

  function ExecStmt(fuel: nat, o: Oracle, st: Store, log: Log, s: Stmt): Res
    decreases fuel, s, 0
  {
    match s
    case Local(names, _, values) => ExecLocal(o, st, log, names, values)
    case Assign(targets, values) => ExecAssign(o, st, log, targets, values)
    case Do(body) => ExecScope(fuel, o, st, log, body)
    case Empty => Normal(st, log)
    case Break => Broke(st, log)
    case If(cond, thn, tail) =>
      (match Eval(o, st, log, cond)
       case Err(l) => Failed(l)
       case Val(l, v) => if Truthy(v) then ExecScope(fuel, o, st, l, thn) else ExecTail(fuel, o, st, l, tail))
    case While(cond, body) =>
      (match Eval(o, st, log, cond)
       case Err(l) => Failed(l)
       case Val(l, v) =>
         if !Truthy(v) then Normal(st, l)
         else
           match ExecScope(fuel, o, st, l, body)
           case Normal(st2, l2) => if fuel == 0 then Unfinished else ExecStmt(fuel - 1, o, st2, l2, s)
           case other => EndLoop(|st.vars|, other))
    case Repeat(body, cond) =>
      // the condition still sees the body's locals
      match ExecBlock(fuel, o, st, log, body)
      case Normal(st2, l2) =>
        (match Eval(o, st2, l2, cond)
         case Err(l3) => Failed(l3)
         case Val(l3, v) =>
           match Leave(|st.vars|, Normal(st2, l3))
           case Normal(st3, _) =>
             if Truthy(v) then Normal(st3, l3)
             else if fuel == 0 then Unfinished
             else ExecStmt(fuel - 1, o, st3, l3, s)
           case other => other)
      case other => EndLoop(|st.vars|, other)
  }
}
