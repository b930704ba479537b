/**
 Lua's operator table: which operator takes an operand that stands between two,
 told by place in the table and direction of grouping alone; and the trees the
 parser's numeric priorities allow are those grouped by it.
*/
module ExprPrecedence {
  import opened ExprGrammar
  import opened ExprRoundTrip

  /** An operator with an operand to its right. */
  datatype Op = Prefix(op: Sym) | Infix(op: Sym)

  /** The rows of the table, the loosest first; an operator in no row has none. */
  function Row(o: Op): int {
    match o
    case Prefix(op) => (match op case Not => 11 case Hash => 11 case Minus => 11 case Tilde => 11 case _ => 0)
    case Infix(op) =>
      match op
      case Or => 1
      case And => 2
      case Lt => 3 case Gt => 3 case Le => 3 case Ge => 3 case Ne => 3 case EqEq => 3
      case Pipe => 4
      case Tilde => 5
      case Amp => 6
      case Shl => 7 case Shr => 7
      case Concat => 8
      case Plus => 9 case Minus => 9
      case Times => 10 case Slash => 10 case IDiv => 10 case Percent => 10
      case Caret => 12
      case Not => 0 case Hash => 0
  }

  /** Concatenation and exponentiation group from the right, all others from the left. */
  predicate FromRight(op: Sym) {
    op == Concat || op == Caret
  }

  /** In `b x op y`, with x between them, x goes to op. */
  predicate Wins(op: Sym, b: Op) {
    Row(Infix(op)) > Row(b) || (Row(Infix(op)) == Row(b) && FromRight(op))
  }

  /** The operators whose left operand begins where e does. */
  function LeftEdge(e: Expr): seq<Sym> {
    if e.Bin? then [e.op] + LeftEdge(e.l) else []
  }

  /** The operators whose right operand ends where e does. */
  function RightEdge(e: Expr): seq<Op> {
    match e
    case Bin(op, _, r) => [Infix(op)] + RightEdge(r)
    case Un(op, x) => [Prefix(op)] + RightEdge(x)
    case _ => []
  }

  /** No operator along the right edge of l gives its operand up to op. */
  predicate HoldsLeft(l: Expr, op: Sym) {
    forall b :: b in RightEdge(l) ==> !Wins(op, b)
  }

  /** Every operator along the left edge of r takes its operand from b. */
  predicate HoldsRight(b: Op, r: Expr) {
    forall op :: op in LeftEdge(r) ==> Wins(op, b)
  }

  /** e is grouped as the table says its tokens are. */
  predicate Grouped(e: Expr) {
    match e
    case Atom(_) => true
    case Name(_) => true
    case Paren(inner) => Grouped(inner)
    case Un(op, x) => Row(Prefix(op)) > 0 && Grouped(x) && HoldsRight(Prefix(op), x)
    case Bin(op, l, r) => Row(Infix(op)) > 0 && Grouped(l) && Grouped(r) && HoldsLeft(l, op) && HoldsRight(Infix(op), r)
    case Field(base, _) => Suffixable(base) && Grouped(base)
    case Index(base, key) => Suffixable(base) && Grouped(base) && Grouped(key)
    case Call(base, args) => Suffixable(base) && Grouped(base) && forall i :: 0 <= i < |args| ==> Grouped(args[i])
  }

  /** The limit under which an operator's right operand is read. */
  function Limit(b: Op): nat {
    if b.Prefix? then UNARY else RightPri(b.op)
  }

  lemma PriorityIsRow(op: Sym, b: Op)
    ensures Row(Infix(op)) > 0 <==> IsBin(op)
    ensures Row(Prefix(op)) > 0 <==> IsUn(op)
    ensures IsBin(op) && Row(b) > 0 ==> (LeftPri(op) > Limit(b) <==> Wins(op, b))
    ensures Limit(b) < 100 && (IsBin(op) ==> LeftPri(op) > LOWEST)
  {
  }

  lemma {:induction false} LeftMinIsEdge(e: Expr, b: Op)
    requires Respecting(e) && Row(b) > 0
    ensures LeftMin(e) > Limit(b) <==> HoldsRight(b, e)
  {
    hide Row, LeftPri, RightPri, Wins, Limit;
    PriorityIsRow(if e.Bin? then e.op else Plus, b);
    if e.Bin? {
      LeftMinIsEdge(e.l, b);
      var edge := [e.op] + LeftEdge(e.l);
      assert LeftEdge(e) == edge && edge[0] == e.op && edge[1..] == LeftEdge(e.l);
    }
  }

  lemma {:induction false} RightLimitIsEdge(e: Expr, op: Sym)
    requires Respecting(e) && IsBin(op)
    ensures LeftPri(op) <= RightLimit(e) <==> HoldsLeft(e, op)
  {
    hide Row, LeftPri, RightPri, Wins;
    PriorityBelow(op);
    match e
    case Bin(b, _, r) =>
      RightLimitIsEdge(r, op);
      PriorityIsRow(b, Infix(op));
      PriorityIsRow(op, Infix(b));
      assert ([Infix(b)] + RightEdge(r))[0] == Infix(b) && ([Infix(b)] + RightEdge(r))[1..] == RightEdge(r);
    case Un(b, x) =>
      RightLimitIsEdge(x, op);
      PriorityIsRow(b, Infix(op));
      PriorityIsRow(op, Prefix(b));
      assert ([Prefix(b)] + RightEdge(x))[0] == Prefix(b) && ([Prefix(b)] + RightEdge(x))[1..] == RightEdge(x);
    case _ =>
  }

  lemma PriorityBelow(op: Sym)
    ensures LeftPri(op) < 100
  {
  }

  /** The parser's trees are those the table groups. */
  lemma {:induction false} RespectingIsGrouped(e: Expr)
    ensures Respecting(e) <==> Grouped(e)
  {
    hide Row, LeftPri, RightPri, Wins, LeftMin, RightLimit, HoldsLeft, HoldsRight;
    match e
    case Paren(inner) => RespectingIsGrouped(inner);
    case Un(op, x) =>
      RespectingIsGrouped(x);
      PriorityIsRow(op, Prefix(op));
      if Respecting(x) && IsUn(op) { LeftMinIsEdge(x, Prefix(op)); }
    case Bin(op, l, r) =>
      RespectingIsGrouped(l);
      RespectingIsGrouped(r);
      PriorityIsRow(op, Infix(op));
      if Respecting(l) && Respecting(r) && IsBin(op) {
        LeftMinIsEdge(r, Infix(op));
        RightLimitIsEdge(l, op);
      }
    case Field(base, _) => RespectingIsGrouped(base);
    case Index(base, key) => RespectingIsGrouped(base); RespectingIsGrouped(key);
    case Call(base, args) =>
      RespectingIsGrouped(base);
      forall i | 0 <= i < |args| ensures Respecting(args[i]) <==> Grouped(args[i]) { RespectingIsGrouped(args[i]); }
    case _ =>
  }

  // -- nesting --------------------------------------------------------------------------

  /** What is accepted needs no more levels than there are. */
  lemma {:induction false} SubNeeds(ts: seq<Token>, i: nat, limit: nat, d: nat)
    requires i <= |ts| && Sub(ts, i, limit, d).Ok?
    ensures Need(Sub(ts, i, limit, d).v) <= d
    decreases |ts| - i, 2
  {
    hide Simple, Continue;
    if UnaryAt(ts, i) {
      SubNeeds(ts, i + 1, UNARY, d - 1);
      var x := Sub(ts, i + 1, UNARY, d - 1);
      ContinueNeeds(ts, x.next, Un(ts[i].op, x.v), limit, d - 1);
    } else {
      SimpleNeeds(ts, i, d - 1);
      var x := Simple(ts, i, d - 1);
      ContinueNeeds(ts, x.next, x.v, limit, d - 1);
    }
  }

  lemma {:induction false} ContinueNeeds(ts: seq<Token>, i: nat, e: Expr, limit: nat, d: nat)
    requires i <= |ts| && Inner(e) <= d && Continue(ts, i, e, limit, d).Ok?
    ensures Inner(Continue(ts, i, e, limit, d).v) <= d
    decreases |ts| - i, 3
  {
    hide Sub;
    if BinaryAt(ts, i, limit) {
      var x := Sub(ts, i + 1, RightPri(ts[i].op), d);
      SubNeeds(ts, i + 1, RightPri(ts[i].op), d);
      ContinueNeeds(ts, x.next, Bin(ts[i].op, e, x.v), limit, d);
    }
  }

  lemma {:induction false} SimpleNeeds(ts: seq<Token>, i: nat, d: nat)
    requires i <= |ts| && Simple(ts, i, d).Ok?
    ensures Inner(Simple(ts, i, d).v) <= d
    decreases |ts| - i, 1
  {
    hide Sub, Suffixes;
    if !ts[i].TAtom? {
      if IsTok(ts, i, LParen) && !ts[i].TName? { SubNeeds(ts, i + 1, 0, d); }
      var x := Primary(ts, i, d);
      SuffixesNeed(ts, x.next, x.v, d);
    }
  }

  lemma {:induction false} SuffixesNeed(ts: seq<Token>, i: nat, e: Expr, d: nat)
    requires i <= |ts| && Inner(e) <= d && Suffixes(ts, i, e, d).Ok?
    ensures Inner(Suffixes(ts, i, e, d).v) <= d
    decreases |ts| - i, 3
  {
    hide Sub, Args;
    if IsTok(ts, i, Dot) {
      SuffixesNeed(ts, i + 2, Field(e, ts[i + 1].name), d);
    } else if IsTok(ts, i, LBracket) {
      var k := Sub(ts, i + 1, 0, d);
      SubNeeds(ts, i + 1, 0, d);
      SuffixesNeed(ts, k.next + 1, Index(e, k.v), d);
    } else if IsTok(ts, i, LParen) {
      var args := Args(ts, i + 1, d);
      ArgsNeed(ts, i + 1, d);
      SuffixesNeed(ts, args.next, Call(e, args.v), d);
    }
  }

  lemma {:induction false} ArgsNeed(ts: seq<Token>, i: nat, d: nat)
    requires i <= |ts| && Args(ts, i, d).Ok?
    ensures var args := Args(ts, i, d).v; NeedList(args, |args|) <= d
    decreases |ts| - i, 5
  {
    hide ExprList;
    if !IsTok(ts, i, RParen) { ListNeeds(ts, i, [], d); }
  }

  lemma {:induction false} ListNeeds(ts: seq<Token>, i: nat, done: seq<Expr>, d: nat)
    requires i <= |ts| && ExprList(ts, i, done, d).Ok? && NeedList(done, |done|) <= d
    ensures var args := ExprList(ts, i, done, d).v; NeedList(args, |args|) <= d
    decreases |ts| - i, 4
  {
    hide Sub;
    var x := Sub(ts, i, 0, d);
    SubNeeds(ts, i, 0, d);
    var more := done + [x.v];
    NeedPrefix(done, more, |done|);
    assert NeedList(more, |more|) <= d;
    if IsTok(ts, x.next, Comma) { ListNeeds(ts, x.next + 1, more, d); }
  }

  lemma {:induction false} NeedPrefix(a: seq<Expr>, b: seq<Expr>, n: nat)
    requires n <= |a| && a <= b
    ensures NeedList(a, n) == NeedList(b, n)
  {
    if n > 0 { NeedPrefix(a, b, n - 1); }
  }

  /** A whole token sequence is parsed into exactly the tree the table groups it into, provided the nesting it needs is there. */
  lemma {:induction false} ParseIffGrouped(ts: seq<Token>, e: Expr, d: nat)
    ensures Sub(ts, 0, 0, d) == Ok(e, |ts|) <==> ts == Print(e) && Grouped(e) && Need(e) <= d
  {
    assert ts[0..|ts|] == ts;
    RespectingIsGrouped(e);
    hide Sub, Need, Respecting, Grouped, LeftMin, RightLimit, EndsOpen, Print;
    if Sub(ts, 0, 0, d).Ok? { SubNeeds(ts, 0, 0, d); }
    if Need(e) <= d {
      ParseIffPrinted(ts, 0, |ts|, e, 0, d);
      if Respecting(e) { LeftMinPositive(e); }
    }
  }
}
