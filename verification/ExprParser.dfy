/**
 The expression parser as it runs: a cursor over the tokens, the nesting depth
 and the first error. Once an error is recorded the methods still return, with
 some tree nobody looks at.
*/
module ExprParser {
  import opened ExprGrammar
  import opened ExprRoundTrip
  import opened ExprPrecedence

  const NIL := 0

  class Parser {
    const toks: seq<Token>
    var pos: nat
    var depth: nat
    var err: bool

    constructor (ts: seq<Token>)
      ensures toks == ts && pos == 0 && depth == 0 && !err
    {
      toks := ts;
      pos, depth, err := 0, 0, false;
    }

    predicate Valid()
      reads this
    {
      pos <= |toks| && depth < MAX_SYNTAX_LEVELS
    }

    /** Levels of parseSubExpr still allowed. */
    function Left(): nat
      requires Valid()
      reads this
    {
      MAX_SYNTAX_LEVELS - 1 - depth
    }

    /** What a call that began with error flag was does, r being what the grammar says. */
    predicate Agrees<T(!new,==)>(was: bool, r: Res<T>, v: T)
      reads this
    {
      if was || r.Err? then err else !err && v == r.v && pos == r.next
    }

    /** The cursor stays inside the tokens, never goes back, and the depth is as it was. */
    predicate Moved(from: nat, level: nat)
      reads this
    {
      Valid() && from <= pos && depth == level
    }

    predicate At(t: Token)
      reads this
    {
      IsTok(toks, pos, t)
    }

    /** At the end the current token stays the end of the source. */
    method Advance()
      requires Valid()
      modifies this`pos
      ensures pos == if old(pos) < |toks| then old(pos) + 1 else old(pos)
    {
      if pos < |toks| { pos := pos + 1; }
    }

    /** expect and checkMatch. */
    method Expect(t: Token)
      requires Valid()
      modifies this`pos, this`err
      ensures if old(At(t)) then pos == old(pos) + 1 && err == old(err) else pos == old(pos) && err
    {
      if At(t) { Advance(); } else { err := true; }
    }

    method ParseName() returns (name: string)
      requires Valid()
      modifies this`pos, this`err
      ensures var t := old(pos);
              if t < |toks| && toks[t].TName? then name == toks[t].name && pos == t + 1 && err == old(err) else pos == t && err
    {
      if pos < |toks| && toks[pos].TName? {
        name := toks[pos].name;
        Advance();
      } else {
        name, err := "", true;
      }
    }

    method ParseExpr() returns (e: Expr)
      requires Valid()
      modifies this
      ensures Moved(old(pos), old(depth)) && Agrees(old(err), old(Sub(toks, pos, LOWEST, Left())), e)
      decreases |toks| - pos, 5
    {
      e := ParseSubExpr(LOWEST);
    }

    /** parseSubExpr(limit). */
    method ParseSubExpr(limit: nat) returns (e: Expr)
      requires Valid()
      modifies this
      ensures Moved(old(pos), old(depth)) && Agrees(old(err), old(Sub(toks, pos, limit, Left())), e)
      decreases |toks| - pos, 4
    {
      hide Simple, Continue;
      if depth + 1 >= MAX_SYNTAX_LEVELS { err := true; }
      if err { return Atom(NIL); }
      depth := depth + 1;
      if UnaryAt(toks, pos) {
        var op := toks[pos].op;
        Advance();
        var x := ParseSubExpr(UNARY);
        e := Un(op, x);
      } else {
        e := ParseSimpleExpr();
      }
      e := ContinueBinExpr(e, limit);
      depth := depth - 1;
    }

    /** The loop of continueBinExpr: operators are consumed while they bind tighter than limit. */
    method ContinueBinExpr(e0: Expr, limit: nat) returns (e: Expr)
      requires Valid()
      modifies this
      ensures Moved(old(pos), old(depth)) && Agrees(old(err), old(Continue(toks, pos, e0, limit, Left())), e)
      decreases |toks| - pos, 3
    {
      hide Sub;
      ghost var r := Continue(toks, pos, e0, limit, Left());
      e := e0;
      while BinaryAt(toks, pos, limit)
        invariant Moved(old(pos), old(depth)) && (old(err) ==> err)
        invariant if err then old(err) || r.Err? else r == Continue(toks, pos, e, limit, Left())
        decreases |toks| - pos
      {
        var op := toks[pos].op;
        Advance();
        var x := ParseSubExpr(RightPri(op));
        e := Bin(op, e, x);
      }
    }

    method ParseSimpleExpr() returns (e: Expr)
      requires Valid()
      modifies this
      ensures Moved(old(pos), old(depth)) && Agrees(old(err), old(Simple(toks, pos, Left())), e)
      decreases |toks| - pos, 2
    {
      hide Primary, Suffixes;
      if err { return Atom(NIL); }
      if pos < |toks| && toks[pos].TAtom? {
        e := Atom(toks[pos].a);
        Advance();
      } else {
        e := ParsePrimaryExpr();
        e := ContinueSuffixedExpr(e);
      }
    }

    method ParsePrimaryExpr() returns (e: Expr)
      requires Valid()
      modifies this
      ensures Moved(old(pos), old(depth)) && Agrees(old(err), old(Primary(toks, pos, Left())), e)
      decreases |toks| - pos, 1
    {
      hide Sub;
      if err { return Atom(NIL); }
      if pos < |toks| && toks[pos].TName? {
        var x := ParseName();
        e := Name(x);
      } else if At(LParen) {
        Advance();
        var inner := ParseExpr();
        Expect(RParen);
        e := Paren(inner);
      } else {
        err := true;
        e := Atom(NIL);
      }
    }

    /** The loop of continueSuffixedExpr over fields, indexes and calls. */
    method ContinueSuffixedExpr(e0: Expr) returns (e: Expr)
      requires Valid()
      modifies this
      ensures Moved(old(pos), old(depth)) && Agrees(old(err), old(Suffixes(toks, pos, e0, Left())), e)
      decreases |toks| - pos, 1
    {
      hide Sub, Args;
      ghost var r := Suffixes(toks, pos, e0, Left());
      e := e0;
      while !err && SuffixAt(toks, pos)
        invariant Moved(old(pos), old(depth)) && (old(err) ==> err)
        invariant if err then old(err) || r.Err? else r == Suffixes(toks, pos, e, Left())
        decreases |toks| - pos
      {
        if At(Dot) {
          Advance();
          var x := ParseName();
          e := Field(e, x);
        } else if At(LBracket) {
          Advance();
          var k := ParseExpr();
          Expect(RBracket);
          e := Index(e, k);
        } else {
          var args := ParseFuncArgs();
          e := Call(e, args);
        }
      }
    }

    method ParseFuncArgs() returns (args: seq<Expr>)
      requires Valid() && At(LParen)
      modifies this
      ensures Moved(old(pos) + 1, old(depth)) && Agrees(old(err), old(Args(toks, pos + 1, Left())), args)
      decreases |toks| - pos, 0
    {
      hide ExprList;
      Advance();
      args := [];
      if !At(RParen) { args := ParseExprList(); }
      Expect(RParen);
    }

    method ParseExprList() returns (es: seq<Expr>)
      requires Valid()
      modifies this
      ensures Moved(old(pos), old(depth)) && Agrees(old(err), old(ExprList(toks, pos, [], Left())), es)
      decreases |toks| - pos, 6
    {
      hide Sub;
      ghost var r := ExprList(toks, pos, [], Left());
      var e := ParseExpr();
      es := [e];
      assert [] + [e] == es;
      while At(Comma)
        invariant Moved(old(pos), old(depth)) && (old(err) ==> err) && es != []
        invariant if err then old(err) || r.Err?
                  else r == if At(Comma) then ExprList(toks, pos + 1, es, Left()) else Ok(es, pos)
        decreases |toks| - pos
      {
        Advance();
        e := ParseExpr();
        es := es + [e];
      }
    }

    /**
     A whole expression at the cursor: whatever is accepted is the one tree that
     respects precedence and whose tokens are those consumed, and what follows
     belongs to nothing inside it; and each such tree that needs few enough
     levels is accepted.
    */
    method ParseWhole() returns (e: Expr)
      requires Valid() && !err
      modifies this
      ensures Moved(old(pos), old(depth))
      ensures !err ==> PrintedAt(toks, old(pos), pos, e) && Grouped(e) && Need(e) <= 199 - old(depth) && Ends(toks, pos, e, LOWEST)
      ensures forall t, j :: Need(t) <= 199 - old(depth) && PrintedAt(toks, old(pos), j, t) && Grouped(t) && Ends(toks, j, t, LOWEST)
                ==> !err && e == t && pos == j
    {
      e := ParseExpr();
      hide Sub, Need, PrintedAt, Grouped, Ends;
      ghost var i, d := old(pos), old(Left());
      if !err {
        Accepted(toks, i, e, d);
      }
      forall t, j | Need(t) <= d && PrintedAt(toks, i, j, t) && Grouped(t) && Ends(toks, j, t, LOWEST)
        ensures !err && e == t && pos == j
      {
        Complete(toks, i, j, t, d);
      }
    }
  }

  lemma {:induction false} Accepted(ts: seq<Token>, i: nat, e: Expr, d: nat)
    requires i <= |ts| && Sub(ts, i, LOWEST, d).Ok? && Sub(ts, i, LOWEST, d).v == e
    ensures var j := Sub(ts, i, LOWEST, d).next; PrintedAt(ts, i, j, e) && Grouped(e) && Need(e) <= d && Ends(ts, j, e, LOWEST)
  {
    hide Sub, PrintedAt, Respecting, Grouped, Need, LeftMin, RightLimit, EndsOpen;
    SubSound(ts, i, LOWEST, d);
    SubNeeds(ts, i, LOWEST, d);
    RespectingIsGrouped(e);
  }

  lemma {:induction false} Complete(ts: seq<Token>, i: nat, j: nat, e: Expr, d: nat)
    requires PrintedAt(ts, i, j, e) && Grouped(e) && Ends(ts, j, e, LOWEST) && Need(e) <= d
    ensures Sub(ts, i, LOWEST, d) == Ok(e, j)
  {
    RespectingIsGrouped(e);
    hide Sub, PrintedAt, Respecting, Grouped, LeftMin, Ends, Need;
    LeftMinPositive(e);
    SubComplete(ts, i, j, e, LOWEST, d);
  }
}
