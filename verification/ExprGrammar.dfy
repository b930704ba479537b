/**
 Expressions as token sequences: the trees precedence allows, how they are
 written, and the precedence-climbing parser as recursive functions.
*/
module ExprGrammar {

  datatype Sym = Plus | Minus | Times | Percent | Caret | Slash | IDiv | Amp | Pipe | Tilde | Shl | Shr | Concat
               | EqEq | Lt | Le | Ne | Gt | Ge | And | Or | Not | Hash

  datatype Token = TAtom(a: int) | TName(name: string) | TOp(op: Sym) | LParen | RParen | LBracket | RBracket | Dot | Comma | TOther(k: int)

  datatype Expr =
    | Atom(a: int)
    | Name(name: string)
    | Paren(inner: Expr)
    | Un(op: Sym, x: Expr)
    | Bin(op: Sym, l: Expr, r: Expr)
    | Field(base: Expr, name: string)
    | Index(base: Expr, key: Expr)
    | Call(base: Expr, args: seq<Expr>)

  // -- precedence -----------------------------------------------------------------------

  const LOWEST := 0
  const UNARY := 12
  const MAX_SYNTAX_LEVELS := 200

  predicate IsUn(op: Sym) {
    op == Not || op == Minus || op == Tilde || op == Hash
  }

  predicate IsBin(op: Sym) {
    op != Not && op != Hash
  }

  function LeftPri(op: Sym): nat {
    match op
    case Or => 1
    case And => 2
    case EqEq => 3 case Lt => 3 case Le => 3 case Ne => 3 case Gt => 3 case Ge => 3
    case Pipe => 4
    case Tilde => 5
    case Amp => 6
    case Shl => 7 case Shr => 7
    case Concat => 9
    case Plus => 10 case Minus => 10
    case Times => 11 case Percent => 11 case Slash => 11 case IDiv => 11
    case Caret => 14
    case _ => 0
  }

  /** Right-associative operators bind one level less on their right. */
  function RightPri(op: Sym): nat {
    if op == Concat then 8 else if op == Caret then 13 else LeftPri(op)
  }

  // -- printing ---------------------------------------------------------------------------

  function Print(e: Expr): (ts: seq<Token>)
    ensures |ts| > 0
  {
    match e
    case Atom(a) => [TAtom(a)]
    case Name(x) => [TName(x)]
    case Paren(inner) => [LParen] + Print(inner) + [RParen]
    case Un(op, x) => [TOp(op)] + Print(x)
    case Bin(op, l, r) => Print(l) + [TOp(op)] + Print(r)
    case Field(base, x) => Print(base) + [Dot, TName(x)]
    case Index(base, key) => Print(base) + [LBracket] + Print(key) + [RBracket]
    case Call(base, args) => Print(base) + [LParen] + PrintList(args, |args|) + [RParen]
  }

  /** The first n arguments, separated by commas. */
  function PrintList(args: seq<Expr>, n: nat): seq<Token>
    requires n <= |args|
    decreases args, n
  {
    if n == 0 then []
    else (if n == 1 then [] else PrintList(args, n - 1) + [Comma]) + Print(args[n - 1])
  }

  // -- the trees precedence allows -------------------------------------------------------------

  /** The loosest operator of the left spine; anything else is as tight as can be. */
  function LeftMin(e: Expr): nat {
    if e.Bin? then Min(LeftPri(e.op), LeftMin(e.l)) else 100
  }

  /** The loosest limit in force at the end of e: an operator after e that binds tighter would be taken into e. */
  function RightLimit(e: Expr): nat {
    match e
    case Bin(op, _, r) => Min(RightPri(op), RightLimit(r))
    case Un(_, x) => Min(UNARY, RightLimit(x))
    case _ => 100
  }

  function Min(a: nat, b: nat): nat {
    if a < b then a else b
  }

  /** Only a name, a parenthesis or something with a suffix can take a suffix. */
  predicate Suffixable(e: Expr) {
    e.Name? || e.Paren? || e.Field? || e.Index? || e.Call?
  }

  /** e is grouped as its tokens are, parentheses being explicit. */
  predicate Respecting(e: Expr) {
    match e
    case Atom(_) => true
    case Name(_) => true
    case Paren(inner) => Respecting(inner)
    case Un(op, x) => IsUn(op) && Respecting(x) && LeftMin(x) > UNARY
    case Bin(op, l, r) => IsBin(op) && Respecting(l) && Respecting(r) && LeftPri(op) <= RightLimit(l) && LeftMin(r) > RightPri(op)
    case Field(base, _) => Suffixable(base) && Respecting(base)
    case Index(base, key) => Suffixable(base) && Respecting(base) && Respecting(key)
    case Call(base, args) => Suffixable(base) && Respecting(base) && forall i :: 0 <= i < |args| ==> Respecting(args[i])
  }

  // -- nesting ------------------------------------------------------------------------------------

  /** Levels of parseSubExpr for e as a whole, and inside that level. */
  function Need(e: Expr): (n: nat)
    ensures n > 0
    decreases e, 1
  {
    1 + Inner(e)
  }

  function Max(a: nat, b: nat): nat {
    if a > b then a else b
  }

  function Inner(e: Expr): nat
    decreases e, 0
  {
    match e
    case Paren(inner) => Need(inner)
    case Un(_, x) => Need(x)
    case Bin(_, l, r) => Max(Inner(l), Need(r))
    case Field(base, _) => Inner(base)
    case Index(base, key) => Max(Inner(base), Need(key))
    case Call(base, args) => Max(Inner(base), NeedList(args, |args|))
    case _ => 0
  }

  function NeedList(args: seq<Expr>, n: nat): nat
    requires n <= |args|
    decreases args, n
  {
    if n == 0 then 0 else Max(NeedList(args, n - 1), Need(args[n - 1]))
  }

  // -- the parser ------------------------------------------------------------------------------------

  datatype Res<T> = Ok(v: T, next: nat) | Err

  predicate IsTok(ts: seq<Token>, i: nat, t: Token) {
    i < |ts| && ts[i] == t
  }

  predicate UnaryAt(ts: seq<Token>, i: nat) {
    i < |ts| && ts[i].TOp? && IsUn(ts[i].op)
  }

  /** A binary operator that binds tighter than limit. */
  predicate BinaryAt(ts: seq<Token>, i: nat, limit: nat) {
    i < |ts| && ts[i].TOp? && IsBin(ts[i].op) && LeftPri(ts[i].op) > limit
  }

  predicate SuffixAt(ts: seq<Token>, i: nat) {
    i < |ts| && (ts[i] == Dot || ts[i] == LBracket || ts[i] == LParen)
  }

  predicate Forward<T>(ts: seq<Token>, i: nat, r: Res<T>) {
    r.Ok? ==> i < r.next <= |ts|
  }

  /** parseSubExpr with d more levels of nesting allowed. */
  function Sub(ts: seq<Token>, i: nat, limit: nat, d: nat): (r: Res<Expr>)
    requires i <= |ts|
    ensures Forward(ts, i, r)
    decreases |ts| - i, 2
  {
    if d == 0 then Err
    else if UnaryAt(ts, i) then
      match Sub(ts, i + 1, UNARY, d - 1)
      case Err => Err
      case Ok(x, j) => Continue(ts, j, Un(ts[i].op, x), limit, d - 1)
    else
      match Simple(ts, i, d - 1)
      case Err => Err
      case Ok(e, j) => Continue(ts, j, e, limit, d - 1)
  }

  /** continueBinExpr. */
  function Continue(ts: seq<Token>, i: nat, e: Expr, limit: nat, d: nat): (r: Res<Expr>)
    requires i <= |ts|
    ensures r.Ok? ==> i <= r.next <= |ts|
    decreases |ts| - i, 3
  {
    if !BinaryAt(ts, i, limit) then Ok(e, i)
    else
      match Sub(ts, i + 1, RightPri(ts[i].op), d)
      case Err => Err
      case Ok(x, j) => Continue(ts, j, Bin(ts[i].op, e, x), limit, d)
  }

  function Simple(ts: seq<Token>, i: nat, d: nat): (r: Res<Expr>)
    requires i <= |ts|
    ensures Forward(ts, i, r)
    decreases |ts| - i, 1
  {
    if i < |ts| && ts[i].TAtom? then Ok(Atom(ts[i].a), i + 1)
    else
      match Primary(ts, i, d)
      case Err => Err
      case Ok(e, j) => Suffixes(ts, j, e, d)
  }

  function Primary(ts: seq<Token>, i: nat, d: nat): (r: Res<Expr>)
    requires i <= |ts|
    ensures Forward(ts, i, r)
    decreases |ts| - i, 0
  {
    if i < |ts| && ts[i].TName? then Ok(Name(ts[i].name), i + 1)
    else if IsTok(ts, i, LParen) then
      match Sub(ts, i + 1, LOWEST, d)
      case Err => Err
      case Ok(x, j) => if IsTok(ts, j, RParen) then Ok(Paren(x), j + 1) else Err
    else Err
  }

  /** continueSuffixedExpr. */
  function Suffixes(ts: seq<Token>, i: nat, e: Expr, d: nat): (r: Res<Expr>)
    requires i <= |ts|
    ensures r.Ok? ==> i <= r.next <= |ts|
    decreases |ts| - i, 3
  {
    if IsTok(ts, i, Dot) then
      if i + 1 < |ts| && ts[i + 1].TName? then Suffixes(ts, i + 2, Field(e, ts[i + 1].name), d) else Err
    else if IsTok(ts, i, LBracket) then
      match Sub(ts, i + 1, LOWEST, d)
      case Err => Err
      case Ok(k, j) => if IsTok(ts, j, RBracket) then Suffixes(ts, j + 1, Index(e, k), d) else Err
    else if IsTok(ts, i, LParen) then
      match Args(ts, i + 1, d)
      case Err => Err
      case Ok(args, j) => Suffixes(ts, j, Call(e, args), d)
    else Ok(e, i)
  }

  /** The arguments after '(' and the closing parenthesis. */
  function Args(ts: seq<Token>, i: nat, d: nat): (r: Res<seq<Expr>>)
    requires i <= |ts|
    ensures Forward(ts, i, r)
    decreases |ts| - i, 5
  {
    if IsTok(ts, i, RParen) then Ok([], i + 1)
    else
      match ExprList(ts, i, [], d)
      case Err => Err
      case Ok(args, j) => if IsTok(ts, j, RParen) then Ok(args, j + 1) else Err
  }

  /** One more expression after those in done, and the rest of the list. */
  function ExprList(ts: seq<Token>, i: nat, done: seq<Expr>, d: nat): (r: Res<seq<Expr>>)
    requires i <= |ts|
    ensures Forward(ts, i, r)
    decreases |ts| - i, 4
  {
    match Sub(ts, i, LOWEST, d)
    case Err => Err
    case Ok(e, j) => if IsTok(ts, j, Comma) then ExprList(ts, j + 1, done + [e], d) else Ok(done + [e], j)
  }
}
