/**
 Parsing and printing undo each other: the parser accepts exactly the printed
 tokens of the trees that respect precedence, and gives those trees back.
*/
module ExprRoundTrip {
  import opened ExprGrammar

  /** The tokens from i to j are those of e. */
  predicate PrintedAt(ts: seq<Token>, i: nat, j: nat, e: Expr) {
    i <= j <= |ts| && ts[i..j] == Print(e)
  }

  /** The last operand of e could take a suffix. */
  predicate EndsOpen(e: Expr) {
    match e
    case Bin(_, _, r) => EndsOpen(r)
    case Un(_, x) => EndsOpen(x)
    case _ => Suffixable(e)
  }

  /** What follows position j is not taken into e, nor joined to it under limit. */
  predicate Ends(ts: seq<Token>, j: nat, e: Expr, limit: nat) {
    !BinaryAt(ts, j, Min(limit, RightLimit(e))) && (EndsOpen(e) ==> !SuffixAt(ts, j))
  }

  lemma Cut(ts: seq<Token>, i: nat, j: nat, a: seq<Token>, b: seq<Token>)
    requires i <= j <= |ts| && ts[i..j] == a + b
    ensures i + |a| <= j && ts[i..i + |a|] == a && ts[i + |a|..j] == b
  {
    assert ts[i..j][..|a|] == a && ts[i..j][|a|..] == b;
    assert ts[i..i + |a|] == ts[i..j][..|a|] && ts[i + |a|..j] == ts[i..j][|a|..];
  }

  lemma CutThree(ts: seq<Token>, i: nat, j: nat, a: seq<Token>, t: Token, b: seq<Token>)
    requires i <= j <= |ts| && ts[i..j] == a + [t] + b
    ensures var m := i + |a|; m < j && ts[i..m] == a && ts[m] == t && ts[m + 1..j] == b
  {
    Cut(ts, i, j, a + [t], b);
    Cut(ts, i, i + |a| + 1, a, [t]);
    assert ts[i + |a|..i + |a| + 1][0] == t;
  }

  lemma CutBracket(ts: seq<Token>, i: nat, j: nat, a: seq<Token>, t: Token, b: seq<Token>, u: Token)
    requires i <= j <= |ts| && ts[i..j] == a + [t] + b + [u]
    ensures var m := i + |a|; m < j - 1 && ts[i..m] == a && ts[m] == t && ts[m + 1..j - 1] == b && ts[j - 1] == u
  {
    Cut(ts, i, j, a + [t] + b, [u]);
    assert ts[j - 1] == ts[j - 1..j][0];
    CutThree(ts, i, j - 1, a, t, b);
  }

  // -- one step of the parser ---------------------------------------------------------------------

  lemma {:induction false} ContinueStep(ts: seq<Token>, i: nat, e: Expr, limit: nat, d: nat, x: Expr, j: nat)
    requires BinaryAt(ts, i, limit) && Sub(ts, i + 1, RightPri(ts[i].op), d) == Ok(x, j)
    ensures Continue(ts, i, e, limit, d) == Continue(ts, j, Bin(ts[i].op, e, x), limit, d)
  {
    hide Sub;
  }

  lemma {:induction false} ContinueStop(ts: seq<Token>, i: nat, e: Expr, limit: nat, d: nat)
    requires i <= |ts| && !BinaryAt(ts, i, limit)
    ensures Continue(ts, i, e, limit, d) == Ok(e, i)
  {
  }

  lemma UnaryStep(ts: seq<Token>, i: nat, limit: nat, d: nat, x: Expr, j: nat)
    requires UnaryAt(ts, i) && d > 0 && Sub(ts, i + 1, UNARY, d - 1) == Ok(x, j)
    ensures Sub(ts, i, limit, d) == Continue(ts, j, Un(ts[i].op, x), limit, d - 1)
  {
    hide Simple, Continue;
  }

  lemma {:induction false} SimpleStep(ts: seq<Token>, i: nat, limit: nat, d: nat, e: Expr, j: nat)
    requires i <= |ts| && !UnaryAt(ts, i) && d > 0 && Simple(ts, i, d - 1) == Ok(e, j)
    ensures Sub(ts, i, limit, d) == Continue(ts, j, e, limit, d - 1)
  {
    hide Simple, Continue;
  }

  lemma {:induction false} ParenStep(ts: seq<Token>, i: nat, d: nat, x: Expr, j: nat)
    requires IsTok(ts, i, LParen) && Sub(ts, i + 1, LOWEST, d) == Ok(x, j) && IsTok(ts, j, RParen)
    ensures Simple(ts, i, d) == Suffixes(ts, j + 1, Paren(x), d)
  {
    hide Sub, Suffixes;
  }

  lemma IndexStep(ts: seq<Token>, i: nat, e: Expr, d: nat, k: Expr, j: nat)
    requires IsTok(ts, i, LBracket) && Sub(ts, i + 1, LOWEST, d) == Ok(k, j) && IsTok(ts, j, RBracket)
    ensures Suffixes(ts, i, e, d) == Suffixes(ts, j + 1, Index(e, k), d)
  {
    hide Sub, Args;
  }

  lemma {:induction false} CallStep(ts: seq<Token>, i: nat, e: Expr, d: nat, args: seq<Expr>, j: nat)
    requires IsTok(ts, i, LParen) && Args(ts, i + 1, d) == Ok(args, j)
    ensures Suffixes(ts, i, e, d) == Suffixes(ts, j, Call(e, args), d)
  {
    hide Sub, Args;
  }

  lemma ListStep(ts: seq<Token>, i: nat, done: seq<Expr>, d: nat, e: Expr, j: nat)
    requires i <= |ts| && Sub(ts, i, LOWEST, d) == Ok(e, j)
    ensures ExprList(ts, i, done, d) == if IsTok(ts, j, Comma) then ExprList(ts, j + 1, done + [e], d) else Ok(done + [e], j)
  {
    hide Sub;
  }

  // -- the tokens of the parts ---------------------------------------------------------------------

  lemma BinPrint(ts: seq<Token>, i: nat, j: nat, e: Expr)
    requires e.Bin? && PrintedAt(ts, i, j, e)
    ensures var m := i + |Print(e.l)|; m < j && PrintedAt(ts, i, m, e.l) && ts[m] == TOp(e.op) && PrintedAt(ts, m + 1, j, e.r)
  {
    CutThree(ts, i, j, Print(e.l), TOp(e.op), Print(e.r));
  }

  lemma UnPrint(ts: seq<Token>, i: nat, j: nat, e: Expr)
    requires e.Un? && PrintedAt(ts, i, j, e)
    ensures i < j && ts[i] == TOp(e.op) && PrintedAt(ts, i + 1, j, e.x)
  {
    Cut(ts, i, j, [TOp(e.op)], Print(e.x));
    assert ts[i..i + 1][0] == TOp(e.op);
  }

  lemma ParenPrint(ts: seq<Token>, i: nat, j: nat, inner: Expr)
    requires PrintedAt(ts, i, j, Paren(inner))
    ensures i + 1 < j && ts[i] == LParen && PrintedAt(ts, i + 1, j - 1, inner) && ts[j - 1] == RParen
  {
    var body := Print(inner);
    assert [LParen] + body + [RParen] == [] + [LParen] + body + [RParen];
    CutBracket(ts, i, j, [], LParen, body, RParen);
  }

  lemma FieldPrint(ts: seq<Token>, i: nat, j: nat, base: Expr, x: string)
    requires PrintedAt(ts, i, j, Field(base, x))
    ensures i <= j - 2 && PrintedAt(ts, i, j - 2, base) && ts[j - 2] == Dot && ts[j - 1] == TName(x)
  {
    var body := Print(base);
    assert Print(Field(base, x)) == body + [Dot, TName(x)];
    hide Print;
    Cut(ts, i, j, body, [Dot, TName(x)]);
    assert ts[j - 2] == ts[j - 2..j][0] && ts[j - 1] == ts[j - 2..j][1];
  }

  lemma {:induction false} IndexPrint(ts: seq<Token>, i: nat, j: nat, base: Expr, key: Expr)
    requires PrintedAt(ts, i, j, Index(base, key))
    ensures var m := i + |Print(base)|;
            && m < j - 1 && PrintedAt(ts, i, m, base) && ts[m] == LBracket && PrintedAt(ts, m + 1, j - 1, key) && ts[j - 1] == RBracket
  {
    IndexEquation(base, key);
    hide Print;
    CutBracket(ts, i, j, Print(base), LBracket, Print(key), RBracket);
  }

  lemma {:induction false} IndexEquation(base: Expr, key: Expr)
    ensures Print(Index(base, key)) == Print(base) + [LBracket] + Print(key) + [RBracket]
  {
  }

  lemma {:induction false} CallPrint(ts: seq<Token>, i: nat, j: nat, base: Expr, args: seq<Expr>)
    requires PrintedAt(ts, i, j, Call(base, args))
    ensures var m := i + |Print(base)|;
            && m < j - 1 && PrintedAt(ts, i, m, base) && ts[m] == LParen && ts[m + 1..j - 1] == PrintList(args, |args|) && ts[j - 1] == RParen
  {
    CutBracket(ts, i, j, Print(base), LParen, PrintList(args, |args|), RParen);
  }

  lemma {:induction false} FirstOfPrint(e: Expr)
    ensures Print(e)[0] != RParen
    ensures Respecting(e) && !e.Bin? && !e.Un? ==> !Print(e)[0].TOp?
  {
    match e
    case Bin(_, l, _) => FirstOfPrint(l);
    case Field(base, _) => FirstOfPrint(base);
    case Index(base, _) => FirstOfPrint(base);
    case Call(base, _) => FirstOfPrint(base);
    case _ =>
  }

  lemma {:induction false} FirstOfList(args: seq<Expr>, n: nat)
    requires 0 < n <= |args|
    ensures PrintList(args, n) != [] && PrintList(args, n)[0] != RParen
  {
    hide Print;
    if n == 1 { FirstOfPrint(args[0]); } else { FirstOfList(args, n - 1); }
  }

  /** A printed expression starts inside the tokens. */
  lemma {:induction false} FirstAt(ts: seq<Token>, i: nat, j: nat, e: Expr)
    requires PrintedAt(ts, i, j, e) && Respecting(e)
    ensures i < j <= |ts| && (!e.Bin? && !e.Un? ==> !ts[i].TOp?)
  {
    FirstOfPrint(e);
    assert ts[i] == ts[i..j][0];
  }

  lemma {:induction false} NameStep(ts: seq<Token>, i: nat, j: nat, x: string, d: nat)
    requires PrintedAt(ts, i, j, Name(x))
    ensures Simple(ts, i, d) == Suffixes(ts, j, Name(x), d)
  {
    hide Suffixes;
    assert ts[i] == ts[i..j][0];
  }

  /** Every operator binds tighter than the lowest limit. */
  lemma {:induction false} LeftMinPositive(e: Expr)
    requires Respecting(e)
    ensures LeftMin(e) > LOWEST
  {
    if e.Bin? { LeftMinPositive(e.l); }
  }

  // -- every tree that respects precedence is parsed back --------------------------------------

  lemma {:induction false} SubComplete(ts: seq<Token>, i: nat, j: nat, e: Expr, limit: nat, d: nat)
    requires PrintedAt(ts, i, j, e) && Respecting(e) && LeftMin(e) > limit && Ends(ts, j, e, limit) && Need(e) <= d
    ensures Sub(ts, i, limit, d) == Ok(e, j)
    decreases e, 3
  {
    hide Sub, Continue, Print, Respecting, Need, LeftMin, RightLimit;
    SpineComplete(ts, i, j, e, limit, d);
    ContinueStop(ts, j, e, limit, d - 1);
  }

  /** The parser gets to the end of e with e in hand. */
  lemma {:induction false} SpineComplete(ts: seq<Token>, i: nat, j: nat, e: Expr, limit: nat, d: nat)
    requires PrintedAt(ts, i, j, e) && Respecting(e) && LeftMin(e) > limit && Ends(ts, j, e, 100) && Need(e) <= d
    ensures Sub(ts, i, limit, d) == Continue(ts, j, e, limit, d - 1)
    decreases e, 2
  {
    hide Sub, Continue, Simple, Print, LeftPri, RightPri, PrintedAt;
    FirstAt(ts, i, j, e);
    match e
    case Bin(op, l, r) => BinComplete(ts, i, j, op, l, r, limit, d);
    case Un(op, x) =>
      UnPrint(ts, i, j, e);
      SubComplete(ts, i + 1, j, x, UNARY, d - 1);
      UnaryStep(ts, i, limit, d, x, j);
    case _ =>
      SimpleComplete(ts, i, j, e, d - 1);
      SimpleStep(ts, i, limit, d, e, j);
  }

  /** What precedence says about the operands of a binary operator. */
  lemma {:induction false} BinParts(op: Sym, l: Expr, r: Expr, limit: nat)
    requires Respecting(Bin(op, l, r)) && LeftMin(Bin(op, l, r)) > limit
    ensures IsBin(op) && Respecting(l) && Respecting(r) && LeftMin(l) > limit && LeftPri(op) > limit && LeftMin(r) > RightPri(op)
    ensures LeftPri(op) <= RightLimit(l) && RightLimit(Bin(op, l, r)) == Min(RightPri(op), RightLimit(r))
    ensures Need(l) <= Need(Bin(op, l, r)) && Need(r) + 1 <= Need(Bin(op, l, r))
    ensures EndsOpen(Bin(op, l, r)) == EndsOpen(r)
  {
    hide LeftPri, RightPri;
  }

  lemma {:induction false} BinComplete(ts: seq<Token>, i: nat, j: nat, op: Sym, l: Expr, r: Expr, limit: nat, d: nat)
    requires var e := Bin(op, l, r);
             PrintedAt(ts, i, j, e) && Respecting(e) && LeftMin(e) > limit && Ends(ts, j, e, 100) && Need(e) <= d
    ensures Sub(ts, i, limit, d) == Continue(ts, j, Bin(op, l, r), limit, d - 1)
    decreases Bin(op, l, r), 1
  {
    hide Sub, Continue, Print, LeftPri, RightPri, PrintedAt, Respecting, LeftMin, RightLimit, Need, EndsOpen;
    BinParts(op, l, r, limit);
    SmallPriorities(op);
    FirstAt(ts, i, j, Bin(op, l, r));
    BinPrint(ts, i, j, Bin(op, l, r));
    var m := i + |Print(l)|;
    SpineComplete(ts, i, m, l, limit, d);
    SubComplete(ts, m + 1, j, r, RightPri(op), d - 1);
    ContinueStep(ts, m, l, limit, d - 1, r, j);
  }

  lemma {:induction false} SimpleComplete(ts: seq<Token>, i: nat, j: nat, e: Expr, d: nat)
    requires PrintedAt(ts, i, j, e) && Respecting(e) && !e.Bin? && !e.Un? && (EndsOpen(e) ==> !SuffixAt(ts, j))
    requires Inner(e) <= d
    ensures Simple(ts, i, d) == Ok(e, j)
    decreases e, 1
  {
    hide Sub, Respecting, Inner;
    if e.Atom? {
      assert ts[i] == ts[i..j][0];
    } else {
      hide Simple;
      SuffixedComplete(ts, i, j, e, d);
    }
  }

  /** The parser gets to the end of a suffixed expression with it in hand. */
  lemma {:induction false} SuffixedComplete(ts: seq<Token>, i: nat, j: nat, e: Expr, d: nat)
    requires PrintedAt(ts, i, j, e) && Respecting(e) && Suffixable(e) && Inner(e) <= d
    ensures Simple(ts, i, d) == Suffixes(ts, j, e, d)
    decreases e, 0, 1
  {
    hide Sub, Continue, Simple, Print, PrintedAt, Need, LeftMin, Args;
    FirstAt(ts, i, j, e);
    match e
    case Name(x) => NameStep(ts, i, j, x, d);
    case Paren(inner) =>
      ParenPrint(ts, i, j, inner);
      LeftMinPositive(inner);
      SubComplete(ts, i + 1, j - 1, inner, LOWEST, d);
      ParenStep(ts, i, d, inner, j - 1);
    case Field(base, x) =>
      FieldPrint(ts, i, j, base, x);
      SuffixedComplete(ts, i, j - 2, base, d);
    case Index(base, key) => IndexComplete(ts, i, j, base, key, d);
    case Call(base, args) => CallComplete(ts, i, j, base, args, d);
  }

  lemma {:induction false} IndexComplete(ts: seq<Token>, i: nat, j: nat, base: Expr, key: Expr, d: nat)
    requires var e := Index(base, key); PrintedAt(ts, i, j, e) && Respecting(e) && Inner(e) <= d
    ensures Simple(ts, i, d) == Suffixes(ts, j, Index(base, key), d)
    decreases Index(base, key), 0, 0
  {
    hide Sub, Continue, Simple, Suffixes, Print, PrintedAt, Need, LeftMin, Args;
    FirstAt(ts, i, j, Index(base, key));
    IndexPrint(ts, i, j, base, key);
    var m := i + |Print(base)|;
    SuffixedComplete(ts, i, m, base, d);
    LeftMinPositive(key);
    SubComplete(ts, m + 1, j - 1, key, LOWEST, d);
    IndexStep(ts, m, base, d, key, j - 1);
  }

  lemma {:induction false} CallComplete(ts: seq<Token>, i: nat, j: nat, base: Expr, args: seq<Expr>, d: nat)
    requires var e := Call(base, args); PrintedAt(ts, i, j, e) && Respecting(e) && Inner(e) <= d
    ensures Simple(ts, i, d) == Suffixes(ts, j, Call(base, args), d)
    decreases Call(base, args), 0, 0
  {
    hide Sub, Continue, Simple, Suffixes, Print, PrintedAt, Need, LeftMin, Args, PrintList;
    FirstAt(ts, i, j, Call(base, args));
    CallPrint(ts, i, j, base, args);
    var m := i + |Print(base)|;
    SuffixedComplete(ts, i, m, base, d);
    ArgsComplete(ts, m + 1, j - 1, args, d);
    CallStep(ts, m, base, d, args, j);
  }

  lemma {:induction false} ArgsComplete(ts: seq<Token>, i: nat, j: nat, args: seq<Expr>, d: nat)
    requires i <= j < |ts| && ts[i..j] == PrintList(args, |args|) && ts[j] == RParen
    requires (forall k :: 0 <= k < |args| ==> Respecting(args[k])) && NeedList(args, |args|) <= d
    ensures Args(ts, i, d) == Ok(args, j + 1)
    decreases args, |args| + 1
  {
    hide Sub, Respecting, ExprList, NeedList;
    if args == [] {
      assert i == j;
    } else {
      FirstOfList(args, |args|);
      assert ts[i] == ts[i..j][0];
      ListComplete(ts, i, j, args, |args|, d);
      assert args[..|args|] == args;
    }
  }

  /** The list parser gets past the first n arguments with them in hand. */
  lemma {:induction false} ListComplete(ts: seq<Token>, i: nat, m: nat, args: seq<Expr>, n: nat, d: nat)
    requires 0 < n <= |args| && i <= m < |ts| && ts[i..m] == PrintList(args, n) && (ts[m] == Comma || ts[m] == RParen)
    requires (forall k :: 0 <= k < |args| ==> Respecting(args[k])) && NeedList(args, n) <= d
    ensures ExprList(ts, i, [], d) == if ts[m] == Comma then ExprList(ts, m + 1, args[..n], d) else Ok(args[..n], m)
    decreases args, n
  {
    hide Sub, Print, Need, Respecting, LeftMin, RightLimit, ExprList;
    var e := args[n - 1];
    LeftMinPositive(e);
    assert args[..n] == args[..n - 1] + [e];
    if n == 1 {
      assert [] + Print(e) == Print(e);
      SubComplete(ts, i, m, e, LOWEST, d);
      ListStep(ts, i, [], d, e, m);
    } else {
      var m1 := i + |PrintList(args, n - 1)|;
      CutThree(ts, i, m, PrintList(args, n - 1), Comma, Print(e));
      ListComplete(ts, i, m1, args, n - 1, d);
      SubComplete(ts, m1 + 1, m, e, LOWEST, d);
      ListStep(ts, m1 + 1, args[..n - 1], d, e, m);
    }
  }

  // -- whatever is parsed respects precedence ----------------------------------------------------

  /** e is what the tokens from i to j say, grouped by precedence, and nothing of what follows belongs inside it. */
  predicate Read(ts: seq<Token>, i: nat, j: nat, e: Expr, limit: nat) {
    PrintedAt(ts, i, j, e) && Respecting(e) && LeftMin(e) > limit && Ends(ts, j, e, 100)
  }

  lemma Join(ts: seq<Token>, i: nat, m: nat, j: nat, a: seq<Token>, b: seq<Token>)
    requires i <= m <= j <= |ts| && ts[i..m] == a && ts[m..j] == b
    ensures ts[i..j] == a + b
  {
    assert ts[i..j] == ts[i..m] + ts[m..j];
  }

  lemma JoinThree(ts: seq<Token>, i: nat, m: nat, j: nat, a: seq<Token>, b: seq<Token>)
    requires i <= m < j <= |ts| && ts[i..m] == a && ts[m + 1..j] == b
    ensures ts[i..j] == a + [ts[m]] + b
  {
    assert ts[m..m + 1] == [ts[m]];
    Join(ts, i, m, m + 1, a, [ts[m]]);
    Join(ts, i, m + 1, j, a + [ts[m]], b);
  }

  /** A left operand, an operator that binds it, and a right operand. */
  lemma ReadBin(ts: seq<Token>, i: nat, m: nat, j: nat, l: Expr, r: Expr, limit: nat)
    requires Read(ts, i, m, l, limit) && BinaryAt(ts, m, limit)
    requires m < j && Read(ts, m + 1, j, r, RightPri(ts[m].op)) && !BinaryAt(ts, j, RightPri(ts[m].op))
    ensures Read(ts, i, j, Bin(ts[m].op, l, r), limit)
  {
    hide Print, LeftPri, RightPri;
    JoinThree(ts, i, m, j, Print(l), Print(r));
    BinEquation(ts[m].op, l, r);
  }

  lemma {:induction false} BinEquation(op: Sym, l: Expr, r: Expr)
    ensures Print(Bin(op, l, r)) == Print(l) + [TOp(op)] + Print(r)
  {
  }

  lemma ReadUn(ts: seq<Token>, i: nat, j: nat, x: Expr, limit: nat)
    requires UnaryAt(ts, i) && limit < 100 && Read(ts, i + 1, j, x, UNARY) && !BinaryAt(ts, j, UNARY)
    ensures Read(ts, i, j, Un(ts[i].op, x), limit)
  {
    assert ts[i..i + 1] == [ts[i]];
    Join(ts, i, i + 1, j, [ts[i]], Print(x));
  }

  lemma {:induction false} SubSound(ts: seq<Token>, i: nat, limit: nat, d: nat)
    requires i <= |ts| && limit < 100 && Sub(ts, i, limit, d).Ok?
    ensures var r := Sub(ts, i, limit, d); Read(ts, i, r.next, r.v, limit) && !BinaryAt(ts, r.next, limit)
    decreases |ts| - i, 2
  {
    hide Continue, Simple, Read, BinaryAt;
    if UnaryAt(ts, i) {
      var x := Sub(ts, i + 1, UNARY, d - 1);
      SubSound(ts, i + 1, UNARY, d - 1);
      ReadUn(ts, i, x.next, x.v, limit);
      ContinueSound(ts, i, x.next, Un(ts[i].op, x.v), limit, d - 1);
    } else {
      var x := Simple(ts, i, d - 1);
      SimpleSound(ts, i, d - 1, limit);
      ContinueSound(ts, i, x.next, x.v, limit, d - 1);
    }
  }

  lemma {:induction false} ContinueSound(ts: seq<Token>, i0: nat, i: nat, e: Expr, limit: nat, d: nat)
    requires i0 < i <= |ts| && limit < 100 && Read(ts, i0, i, e, limit) && Continue(ts, i, e, limit, d).Ok?
    ensures var r := Continue(ts, i, e, limit, d); Read(ts, i0, r.next, r.v, limit) && !BinaryAt(ts, r.next, limit)
    decreases |ts| - i, 3
  {
    hide Sub, Read, LeftPri, RightPri;
    if BinaryAt(ts, i, limit) {
      var op := ts[i].op;
      var x := Sub(ts, i + 1, RightPri(op), d);
      SmallPriorities(op);
      SubSound(ts, i + 1, RightPri(op), d);
      ReadBin(ts, i0, i, x.next, e, x.v, limit);
      ContinueSound(ts, i0, x.next, Bin(op, e, x.v), limit, d);
    }
  }

  lemma SmallPriorities(op: Sym)
    ensures RightPri(op) < 100 && LeftPri(op) < 100
  {
  }

  lemma {:induction false} SimpleSound(ts: seq<Token>, i: nat, d: nat, limit: nat)
    requires i <= |ts| && limit < 100 && Simple(ts, i, d).Ok?
    ensures var r := Simple(ts, i, d); Read(ts, i, r.next, r.v, limit)
    decreases |ts| - i, 1
  {
    hide Suffixes, Primary;
    if i < |ts| && ts[i].TAtom? {
      assert ts[i..i + 1] == [ts[i]];
      NotTight(ts, i + 1, Atom(ts[i].a));
    } else {
      var x := Primary(ts, i, d);
      PrimarySound(ts, i, d);
      SuffixesSound(ts, i, x.next, x.v, d, limit);
    }
  }

  /** No operator binds tighter than 100. */
  lemma {:induction false} NotTight(ts: seq<Token>, j: nat, e: Expr)
    requires RightLimit(e) >= 100
    ensures !BinaryAt(ts, j, Min(100, RightLimit(e)))
  {
  }

  lemma {:induction false} PrimarySound(ts: seq<Token>, i: nat, d: nat)
    requires i <= |ts| && Primary(ts, i, d).Ok?
    ensures var r := Primary(ts, i, d); PrintedAt(ts, i, r.next, r.v) && Respecting(r.v) && Suffixable(r.v)
    decreases |ts| - i, 0
  {
    hide Sub;
    if i < |ts| && ts[i].TName? {
      assert ts[i..i + 1] == [ts[i]];
    } else {
      var x := Sub(ts, i + 1, LOWEST, d);
      SubSound(ts, i + 1, LOWEST, d);
      assert ts[i..i + 1] == [LParen] && ts[x.next..x.next + 1] == [RParen];
      Join(ts, i, i + 1, x.next, [LParen], Print(x.v));
      Join(ts, i, x.next, x.next + 1, [LParen] + Print(x.v), [RParen]);
    }
  }

  lemma {:induction false} SuffixesSound(ts: seq<Token>, i0: nat, i: nat, e: Expr, d: nat, limit: nat)
    requires i0 < i <= |ts| && limit < 100 && PrintedAt(ts, i0, i, e) && Respecting(e) && Suffixable(e) && Suffixes(ts, i, e, d).Ok?
    ensures var r := Suffixes(ts, i, e, d); Read(ts, i0, r.next, r.v, limit)
    decreases |ts| - i, 3
  {
    hide Sub, Args, Print, Read, PrintList;
    if IsTok(ts, i, Dot) {
      FieldRead(ts, i0, i, e);
      SuffixesSound(ts, i0, i + 2, Field(e, ts[i + 1].name), d, limit);
    } else if IsTok(ts, i, LBracket) {
      var k := Sub(ts, i + 1, LOWEST, d);
      SubSound(ts, i + 1, LOWEST, d);
      IndexRead(ts, i0, i, k.next, e, k.v);
      SuffixesSound(ts, i0, k.next + 1, Index(e, k.v), d, limit);
    } else if IsTok(ts, i, LParen) {
      var args := Args(ts, i + 1, d);
      ArgsSound(ts, i + 1, d);
      CallRead(ts, i0, i, args.next, e, args.v);
      SuffixesSound(ts, i0, args.next, Call(e, args.v), d, limit);
    } else {
      SuffixRead(ts, i0, i, e, limit);
    }
  }

  lemma {:induction false} SuffixRead(ts: seq<Token>, i: nat, j: nat, e: Expr, limit: nat)
    requires PrintedAt(ts, i, j, e) && Respecting(e) && Suffixable(e) && limit < 100 && !SuffixAt(ts, j)
    ensures Read(ts, i, j, e, limit)
  {
    hide Print, Respecting;
    NotTight(ts, j, e);
  }

  lemma FieldRead(ts: seq<Token>, i: nat, m: nat, base: Expr)
    requires PrintedAt(ts, i, m, base) && m + 1 < |ts| && ts[m] == Dot && ts[m + 1].TName?
    ensures PrintedAt(ts, i, m + 2, Field(base, ts[m + 1].name))
  {
    var x := ts[m + 1].name;
    FieldEquation(base, x);
    hide Print;
    assert ts[m..m + 2] == [Dot, TName(x)];
    Join(ts, i, m, m + 2, Print(base), [Dot, TName(x)]);
  }

  lemma {:induction false} FieldEquation(base: Expr, x: string)
    ensures Print(Field(base, x)) == Print(base) + [Dot, TName(x)]
  {
  }

  lemma {:induction false} IndexRead(ts: seq<Token>, i: nat, m: nat, j: nat, base: Expr, key: Expr)
    requires PrintedAt(ts, i, m, base) && m < j < |ts| && ts[m] == LBracket && ts[j] == RBracket && Read(ts, m + 1, j, key, LOWEST)
    ensures PrintedAt(ts, i, j + 1, Index(base, key)) && Respecting(key)
  {
    IndexEquation(base, key);
    hide Print;
    JoinThree(ts, i, m, j, Print(base), Print(key));
    assert ts[j..j + 1] == [RBracket];
    Join(ts, i, j, j + 1, Print(base) + [LBracket] + Print(key), [RBracket]);
  }

  lemma {:induction false} CallRead(ts: seq<Token>, i: nat, m: nat, j: nat, base: Expr, args: seq<Expr>)
    requires PrintedAt(ts, i, m, base) && m + 1 < j <= |ts| && ts[m] == LParen && ts[m + 1..j - 1] == PrintList(args, |args|) && ts[j - 1] == RParen
    ensures PrintedAt(ts, i, j, Call(base, args))
  {
    CallEquation(base, args);
    hide Print, PrintList;
    JoinThree(ts, i, m, j - 1, Print(base), PrintList(args, |args|));
    assert ts[j - 1..j] == [RParen];
    Join(ts, i, j - 1, j, Print(base) + [LParen] + PrintList(args, |args|), [RParen]);
  }

  lemma {:induction false} CallEquation(base: Expr, args: seq<Expr>)
    ensures Print(Call(base, args)) == Print(base) + [LParen] + PrintList(args, |args|) + [RParen]
  {
  }

  predicate AllRespecting(args: seq<Expr>) {
    forall k :: 0 <= k < |args| ==> Respecting(args[k])
  }

  lemma {:induction false} ArgsSound(ts: seq<Token>, i: nat, d: nat)
    requires i <= |ts| && Args(ts, i, d).Ok?
    ensures var r := Args(ts, i, d);
            i < r.next && ts[i..r.next - 1] == PrintList(r.v, |r.v|) && ts[r.next - 1] == RParen && AllRespecting(r.v)
    decreases |ts| - i, 5
  {
    hide ExprList;
    if !IsTok(ts, i, RParen) {
      ListSound(ts, i, i, [], d);
    }
  }

  lemma {:induction false} ListSound(ts: seq<Token>, i0: nat, i: nat, done: seq<Expr>, d: nat)
    requires i0 <= i <= |ts| && ExprList(ts, i, done, d).Ok? && AllRespecting(done)
    requires if done == [] then i == i0 else i0 < i && ts[i0..i - 1] == PrintList(done, |done|) && ts[i - 1] == Comma
    ensures var r := ExprList(ts, i, done, d); ts[i0..r.next] == PrintList(r.v, |r.v|) && AllRespecting(r.v)
    decreases |ts| - i, 4
  {
    hide Sub, PrintList, Print, Read;
    var x := Sub(ts, i, LOWEST, d);
    SubSound(ts, i, LOWEST, d);
    ListRead(ts, i0, i, x.next, done, x.v);
    if IsTok(ts, x.next, Comma) {
      ListSound(ts, i0, x.next + 1, done + [x.v], d);
    }
  }

  lemma {:induction false} ListRead(ts: seq<Token>, i0: nat, i: nat, j: nat, done: seq<Expr>, e: Expr)
    requires i0 <= i <= j && Read(ts, i, j, e, LOWEST) && AllRespecting(done)
    requires if done == [] then i == i0 else i0 < i && ts[i0..i - 1] == PrintList(done, |done|) && ts[i - 1] == Comma
    ensures ts[i0..j] == PrintList(done + [e], |done| + 1) && AllRespecting(done + [e])
  {
    hide Print, Respecting, PrintList, LeftMin, Ends;
    var n := |done|;
    var all := done + [e];
    assert all[n] == e;
    SamePrefix(done, e, n);
    ListEquation(all, n);
    if n > 0 {
      JoinThree(ts, i0, i - 1, j, PrintList(done, n), Print(e));
    }
  }

  lemma ListEquation(args: seq<Expr>, n: nat)
    requires n < |args|
    ensures PrintList(args, n + 1) == if n == 0 then Print(args[n]) else PrintList(args, n) + [Comma] + Print(args[n])
  {
    hide Print;
    if n == 0 { assert [] + Print(args[n]) == Print(args[n]); }
  }

  lemma {:induction false} SamePrefix(done: seq<Expr>, e: Expr, n: nat)
    requires n <= |done|
    ensures PrintList(done + [e], n) == PrintList(done, n)
    decreases n
  {
    hide Print;
    if n > 0 { SamePrefix(done, e, n - 1); }
  }

  // -- both directions -------------------------------------------------------------------------------

  /** The parser reads e up to j exactly when those are its tokens, precedence groups them so, and nothing more binds. */
  lemma {:induction false} ParseIffPrinted(ts: seq<Token>, i: nat, j: nat, e: Expr, limit: nat, d: nat)
    requires i <= |ts| && limit < 100 && Need(e) <= d
    ensures Sub(ts, i, limit, d) == Ok(e, j) <==>
            PrintedAt(ts, i, j, e) && Respecting(e) && LeftMin(e) > limit && Ends(ts, j, e, limit)
  {
    hide Sub, Need, PrintedAt, Respecting, LeftMin, RightLimit, EndsOpen;
    if Sub(ts, i, limit, d) == Ok(e, j) {
      SubSound(ts, i, limit, d);
    }
    if PrintedAt(ts, i, j, e) && Respecting(e) && LeftMin(e) > limit && Ends(ts, j, e, limit) {
      SubComplete(ts, i, j, e, limit, d);
    }
  }

  /** Two trees that respect precedence and print alike are the same tree, however deep. */
  lemma {:induction false} PrintingIsUnambiguous(a: Expr, b: Expr)
    requires Respecting(a) && Respecting(b) && Print(a) == Print(b)
    ensures a == b
  {
    var ts := Print(a);
    assert ts[0..|ts|] == ts;
    hide Sub, Need, Respecting, LeftMin, RightLimit, EndsOpen, Print;
    LeftMinPositive(a);
    LeftMinPositive(b);
    var d := Max(Need(a), Need(b));
    SubComplete(ts, 0, |ts|, a, LOWEST, d);
    SubComplete(ts, 0, |ts|, b, LOWEST, d);
  }
}
