/**
 What a glob with names means: its items and how they are written, told apart
 from the matcher; a way to cut a name into one piece for each item; and that the
 matcher finds the first of these ways, the shortest pieces first, and captures
 the pieces of its names.
*/
module GlobNotation {
  import opened GlobNamed
  import GlobLanguage

  // -- items and how they are written -----------------------------------------------------

  /** A character of a set, a backslash before it or not. */
  datatype Mark = Mark(c: char, escaped: bool)

  datatype Span = Single(x: Mark) | Range(lo: Mark, hi: Mark)

  datatype Item = Any | One | Plain(c: char) | Escaped(c: char) | Set(negated: bool, spans: seq<Span>) | Name(name: string)

  function MarkText(m: Mark): (t: string)
    ensures |t| > 0
  {
    if m.escaped then ['\\', m.c] else [m.c]
  }

  function SpanText(s: Span): (t: string)
    ensures |t| > 0
  {
    match s
    case Single(x) => MarkText(x)
    case Range(lo, hi) => MarkText(lo) + "-" + MarkText(hi)
  }

  function SpansText(spans: seq<Span>): string {
    if spans == [] then "]" else SpanText(spans[0]) + SpansText(spans[1..])
  }

  function ItemText(x: Item): string {
    match x
    case Any => "*"
    case One => "?"
    case Plain(c) => [c]
    case Escaped(c) => ['\\', c]
    case Set(negated, spans) => (if negated then "[^" else "[") + SpansText(spans)
    case Name(name) => ":" + name
  }

  function Text(items: seq<Item>): string {
    if items == [] then "" else ItemText(items[0]) + Text(items[1..])
  }

  predicate Letter(c: char) {
    65 <= c as int <= 90 || 97 <= c as int <= 122
  }

  predicate ProperMark(m: Mark) {
    m.escaped || m.c != '\\'
  }

  function FirstOf(s: Span): Mark {
    if s.Single? then s.x else s.lo
  }

  /** A range does not run backwards, and nothing in a set is written so that it reads as something else. */
  predicate ProperSpans(spans: seq<Span>, first: bool) {
    spans != [] ==>
      var s := spans[0];
      && ProperMark(FirstOf(s)) && (s.Range? ==> ProperMark(s.hi) && s.lo.c <= s.hi.c)
      && (!first ==> FirstOf(s) != Mark(']', false))
      && (s.Single? && |spans| > 1 ==> FirstOf(spans[1]) != Mark('-', false))
      && ProperSpans(spans[1..], false)
  }

  /** What an item is followed by can belong to it. */
  predicate RunsOn(x: Item, after: string) {
    after != "" && Letter(after[0]) && (x.Name? || x == Plain(':'))
  }

  predicate ProperItem(x: Item) {
    match x
    case Plain(c) => c != '*' && c != '?' && c != '[' && c != '\\'
    case Set(negated, spans) => spans != [] && ProperSpans(spans, true) && (negated || FirstOf(spans[0]) != Mark('^', false))
    case Name(name) => name != "" && forall k :: 0 <= k < |name| ==> Letter(name[k])
    case _ => true
  }

  predicate Proper(items: seq<Item>) {
    items != [] ==> ProperItem(items[0]) && !RunsOn(items[0], Text(items[1..])) && Proper(items[1..])
  }

  // -- what they mean -----------------------------------------------------------------------

  /** Case does not count. */
  function Capital(c: char): char {
    if 97 <= c as int <= 122 then (c as int - 32) as char else c
  }

  predicate InSpan(s: Span, c: char) {
    Capital(FirstOf(s).c) <= Capital(c) <= Capital(if s.Range? then s.hi.c else s.x.c)
  }

  /** The character 0 stands in no span. */
  predicate InSpans(spans: seq<Span>, c: char) {
    c as int != 0 && exists k :: 0 <= k < |spans| && InSpan(spans[k], c)
  }

  /** An item takes a piece of the name. */
  predicate Takes(x: Item, piece: string) {
    match x
    case Any => true
    case Name(_) => true
    case One => |piece| == 1
    case Plain(c) => |piece| == 1 && Capital(piece[0]) == Capital(c)
    case Escaped(c) => |piece| == 1 && Capital(piece[0]) == Capital(c)
    case Set(negated, spans) => |piece| == 1 && InSpans(spans, piece[0]) != negated
  }

  /** Pieces of these lengths make up t, each taken by its item. */
  predicate Fits(items: seq<Item>, ks: seq<nat>, t: string) {
    && |ks| == |items|
    && if items == [] then t == ""
       else ks[0] <= |t| && Takes(items[0], t[..ks[0]]) && Fits(items[1..], ks[1..], t[ks[0]..])
  }

  /** Earlier pieces shorter first. */
  predicate Sooner(a: seq<nat>, b: seq<nat>) {
    a == [] || b == [] || a[0] < b[0] || (a[0] == b[0] && Sooner(a[1..], b[1..]))
  }

  ghost predicate Foremost(items: seq<Item>, ks: seq<nat>, t: string) {
    Fits(items, ks, t) && forall js :: Fits(items, js, t) ==> Sooner(ks, js)
  }

  /** The pieces of the names; the last piece counts when a name comes twice. */
  function Captured(items: seq<Item>, ks: seq<nat>, t: string, caps: Captures): Captures
    requires Fits(items, ks, t)
  {
    if items == [] then caps
    else Captured(items[1..], ks[1..], t[ks[0]..], if items[0].Name? then caps[items[0].name := t[..ks[0]]] else caps)
  }

  /** A result says whether there is a way, and what the first way captures. */
  ghost predicate Decided(items: seq<Item>, t: string, caps: Captures, r: Result) {
    match r
    case BadPattern => false
    case Result(ok, found) =>
      if ok then exists ks :: Foremost(items, ks, t) && found == Captured(items, ks, t, caps)
      else found == caps && forall js :: !Fits(items, js, t)
  }

  // -- reading ---------------------------------------------------------------------------------

  lemma Folds(c: char)
    ensures GlobLanguage.Upper(c) == Capital(c) && (IsLetter(c) <==> Letter(c))
  {
  }

  /** p has a at i, and rest after it. */
  predicate Here(p: string, i: nat, a: string, rest: string) {
    i <= |p| && p[i..] == a + rest
  }

  lemma Past(p: string, i: nat, a: string, rest: string)
    requires Here(p, i, a, rest)
    ensures i + |a| <= |p| && p[i + |a|..] == rest && forall k :: 0 <= k < |a| ==> p[i + k] == a[k]
    ensures rest != "" ==> i + |a| < |p| && p[i + |a|] == rest[0]
  {
    assert p[i + |a|..] == p[i..][|a|..];
    forall k | 0 <= k < |a| ensures p[i + k] == a[k] { assert p[i + k] == p[i..][k]; }
  }

  lemma Apart(p: string, i: nat, a: string, b: string, rest: string)
    requires Here(p, i, a + b, rest)
    ensures Here(p, i, a, b + rest) && i + |a| <= |p| && Here(p, i + |a|, b, rest)
  {
    assert a + b + rest == a + (b + rest);
    Past(p, i, a, b + rest);
  }

  lemma MarkRead(p: string, i: nat, m: Mark, rest: string)
    requires Here(p, i, MarkText(m), rest) && ProperMark(m)
    ensures i < |p| && BoundAt(p, i) == Bound(m.c, i + |MarkText(m)|)
  {
    Past(p, i, MarkText(m), rest);
  }

  /** The two ends of a range and the sign between them. */
  lemma RangeParts(p: string, i: nat, lo: Mark, hi: Mark, rest: string)
    requires Here(p, i, SpanText(Range(lo, hi)), rest) && ProperMark(lo) && ProperMark(hi)
    ensures var j := i + |MarkText(lo)|;
            && i < |p| && BoundAt(p, i) == Bound(lo.c, j) && j + 1 < |p| && p[j] == '-'
            && BoundAt(p, j + 1) == Bound(hi.c, i + |SpanText(Range(lo, hi))|)
  {
    assert SpanText(Range(lo, hi)) == MarkText(lo) + ("-" + MarkText(hi));
    Apart(p, i, MarkText(lo), "-" + MarkText(hi), rest);
    MarkRead(p, i, lo, "-" + MarkText(hi) + rest);
    var j := i + |MarkText(lo)|;
    hide BoundAt, MarkText;
    Apart(p, j, "-", MarkText(hi), rest);
    Past(p, j, "-", MarkText(hi) + rest);
    MarkRead(p, j + 1, hi, rest);
  }

  lemma {:induction false} SingleStep(p: string, i: nat, first: bool, matched: bool, c: char, lo: char, j: nat)
    requires i < |p| && !(p[i] == ']' && !first) && BoundAt(p, i) == Bound(lo, j) && (j < |p| ==> p[j] != '-')
    ensures ClassFrom(p, i, first, matched, c) == ClassFrom(p, j, false, matched || Between(lo, c, lo), c)
  {
    hide BoundAt, Between;
  }

  lemma {:induction false} RangeStep(p: string, i: nat, first: bool, matched: bool, c: char, lo: char, j: nat, hi: char, k: nat)
    requires i < |p| && !(p[i] == ']' && !first) && BoundAt(p, i) == Bound(lo, j) && j + 1 < |p| && p[j] == '-' && BoundAt(p, j + 1) == Bound(hi, k) && lo <= hi
    ensures ClassFrom(p, i, first, matched, c) == ClassFrom(p, k, false, matched || Between(lo, c, hi), c)
  {
    hide BoundAt, Between;
  }

  lemma BetweenIs(s: Span, c: char)
    ensures Between(FirstOf(s).c, c, if s.Range? then s.hi.c else s.x.c) <==> c as int != 0 && InSpan(s, c)
  {
    Folds(c);
    Folds(FirstOf(s).c);
    Folds(if s.Range? then s.hi.c else s.x.c);
  }

  lemma {:induction false} SingleRead(p: string, i: nat, x: Mark, rest: string, first: bool, matched: bool, c: char)
    requires Here(p, i, MarkText(x), rest) && ProperMark(x) && i < |p| && !(p[i] == ']' && !first) && rest != "" && rest[0] != '-'
    ensures ClassFrom(p, i, first, matched, c) == ClassFrom(p, i + |MarkText(x)|, false, matched || (c as int != 0 && InSpan(Single(x), c)), c)
  {
    Past(p, i, MarkText(x), rest);
    BetweenIs(Single(x), c);
    hide ClassFrom, Between, InSpan, BoundAt;
    MarkRead(p, i, x, rest);
    SingleStep(p, i, first, matched, c, x.c, i + |MarkText(x)|);
  }

  lemma {:induction false} RangeRead(p: string, i: nat, lo: Mark, hi: Mark, rest: string, first: bool, matched: bool, c: char)
    requires Here(p, i, SpanText(Range(lo, hi)), rest) && ProperMark(lo) && ProperMark(hi) && lo.c <= hi.c && i < |p| && !(p[i] == ']' && !first)
    ensures ClassFrom(p, i, first, matched, c) == ClassFrom(p, i + |SpanText(Range(lo, hi))|, false, matched || (c as int != 0 && InSpan(Range(lo, hi), c)), c)
  {
    BetweenIs(Range(lo, hi), c);
    hide ClassFrom, Between, InSpan, BoundAt;
    RangeParts(p, i, lo, hi, rest);
    hide Here, SpanText, MarkText;
    RangeStep(p, i, first, matched, c, lo.c, i + |MarkText(lo)|, hi.c, i + |SpanText(Range(lo, hi))|);
  }

  /** One span is read, and joins the answer. */
  lemma {:induction false} SpanRead(p: string, i: nat, s: Span, rest: string, first: bool, matched: bool, c: char)
    requires Here(p, i, SpanText(s), rest) && ProperSpans([s], first) && rest != "" && (s.Single? ==> rest[0] != '-')
    ensures i + |SpanText(s)| <= |p| && ClassFrom(p, i, first, matched, c) == ClassFrom(p, i + |SpanText(s)|, false, matched || (c as int != 0 && InSpan(s, c)), c)
  {
    hide ClassFrom, InSpan, MarkText, Here;
    BeginsHere(p, i, SpanText(s), rest);
    SpanEnds(p, i, s, first);
    if s.Single? {
      SingleRead(p, i, s.x, rest, first, matched, c);
    } else {
      hide SpanText;
      RangeRead(p, i, s.lo, s.hi, rest, first, matched, c);
    }
  }

  lemma BeginsHere(p: string, i: nat, a: string, rest: string)
    requires Here(p, i, a, rest) && a != ""
    ensures i + |a| <= |p| && p[i] == a[0]
  {
    assert p[i] == p[i..][0];
  }

  /** A span does not begin with the sign that ends a set, unless it comes first. */
  lemma {:induction false} SpanEnds(p: string, i: nat, s: Span, first: bool)
    requires ProperSpans([s], first) && i < |p| && p[i] == SpanText(s)[0]
    ensures !(p[i] == ']' && !first)
  {
    assert SpanText(s)[0] == MarkText(FirstOf(s))[0];
  }

  lemma {:induction false} SpansRead(p: string, i: nat, spans: seq<Span>, rest: string, first: bool, matched: bool, c: char)
    requires Here(p, i, SpansText(spans), rest) && ProperSpans(spans, first) && (first ==> spans != [])
    ensures ClassFrom(p, i, first, matched, c) == ClassResult(matched || InSpans(spans, c), i + |SpansText(spans)|)
    decreases |spans|
  {
    hide Here, SpanText, SpansText, ProperSpans, ClassFrom, InSpans, InSpan;
    if spans == [] {
      NoSpans(p, i, rest, matched, c);
    } else {
      var s, more := spans[0], SpansText(spans[1..]);
      SpansApart(p, i, spans, rest, first);
      SpanRead(p, i, s, more + rest, first, matched, c);
      var m := matched || (c as int != 0 && InSpan(s, c));
      SpansRead(p, i + |SpanText(s)|, spans[1..], rest, false, m, c);
      SpansOne(spans, c);
    }
  }

  lemma {:induction false} NoSpans(p: string, i: nat, rest: string, matched: bool, c: char)
    requires Here(p, i, SpansText([]), rest)
    ensures ClassFrom(p, i, false, matched, c) == ClassResult(matched, i + |SpansText([])|) && !InSpans([], c)
  {
    BeginsHere(p, i, "]", rest);
  }

  lemma {:induction false} SpansApart(p: string, i: nat, spans: seq<Span>, rest: string, first: bool)
    requires spans != [] && Here(p, i, SpansText(spans), rest) && ProperSpans(spans, first)
    ensures var (s, more) := (spans[0], SpansText(spans[1..]));
            && Here(p, i, SpanText(s), more + rest) && i + |SpanText(s)| <= |p| && Here(p, i + |SpanText(s)|, more, rest)
            && ProperSpans([s], first) && ProperSpans(spans[1..], false) && more + rest != "" && (s.Single? ==> (more + rest)[0] != '-')
            && |SpansText(spans)| == |SpanText(s)| + |more|
  {
    Apart(p, i, SpanText(spans[0]), SpansText(spans[1..]), rest);
    hide Here;
    if |spans| > 1 { assert SpanText(spans[1])[0] == MarkText(FirstOf(spans[1]))[0]; }
  }

  lemma SpansOne(spans: seq<Span>, c: char)
    requires spans != []
    ensures InSpans(spans, c) <==> (c as int != 0 && InSpan(spans[0], c)) || InSpans(spans[1..], c)
  {
    var rest := spans[1..];
    if k :| 0 <= k < |rest| && InSpan(rest[k], c) { assert InSpan(spans[k + 1], c); }
  }

  /** A set is read as one, whatever follows. */
  lemma {:induction false} SetRead(x: Item, rest: string, c: char)
    requires x.Set? && ProperItem(x)
    ensures CharClass(ItemText(x) + rest, c) == ClassResult(InSpans(x.spans, c) != x.negated, |ItemText(x)|)
  {
    var p := ItemText(x) + rest;
    var i := if x.negated then 2 else 1;
    hide ClassFrom, InSpans;
    Opened(x, rest);
    hide SpansText, ProperSpans, Here;
    SpansRead(p, i, x.spans, rest, true, false, c);
    hide ItemText;
    ClassOf(p, x.negated, InSpans(x.spans, c), |ItemText(x)|, c);
  }

  /** A set begins with its bracket and sign. */
  lemma {:induction false} Opened(x: Item, rest: string)
    requires x.Set? && ProperItem(x)
    ensures var (p, i) := (ItemText(x) + rest, if x.negated then 2 else 1);
            && |p| > 1 && (p[1] == '^' <==> x.negated) && Here(p, i, SpansText(x.spans), rest) && |ItemText(x)| == i + |SpansText(x.spans)|
  {
    var (p, body) := (ItemText(x) + rest, SpansText(x.spans));
    if !x.negated { NoCaret(x.spans, rest); }
    hide SpansText, ProperSpans;
    var head := if x.negated then "[^" else "[";
    assert p == head + (body + rest);
    assert p[|head|..] == body + rest;
  }

  lemma {:induction false} ClassOf(p: string, negated: bool, matched: bool, next: nat, c: char)
    requires |p| > 1 && (p[1] == '^' <==> negated) && ClassFrom(p, if negated then 2 else 1, true, false, c) == ClassResult(matched, next)
    ensures CharClass(p, c) == ClassResult(matched != negated, next)
  {
    hide ClassFrom;
  }

  lemma {:induction false} NoCaret(spans: seq<Span>, rest: string)
    requires spans != [] && FirstOf(spans[0]) != Mark('^', false)
    ensures (SpansText(spans) + rest)[0] != '^'
  {
    var m := FirstOf(spans[0]);
    assert (SpansText(spans) + rest)[0] == SpanText(spans[0])[0] == MarkText(m)[0];
  }

  lemma {:induction false} LettersEnd(p: string, i: nat, name: string, rest: string)
    requires Here(p, i, name, rest) && (forall k :: 0 <= k < |name| ==> Letter(name[k])) && (rest == "" || !Letter(rest[0]))
    ensures SkipLetters(p, i) == i + |name|
    decreases |name|
  {
    Past(p, i, name, rest);
    if name == "" {
      if rest != "" { Folds(rest[0]); }
    } else {
      Folds(p[i]);
      assert p[i + 0] == name[0];
      assert name == [name[0]] + name[1..];
      Apart(p, i, [name[0]], name[1..], rest);
      LettersEnd(p, i + 1, name[1..], rest);
    }
  }

  // -- one item at a time ------------------------------------------------------------------------

  predicate OneChar(x: Item) {
    !x.Any? && !x.Name?
  }

  lemma {:induction false} FitsOne(items: seq<Item>, js: seq<nat>, t: string)
    requires items != [] && Fits(items, js, t) && OneChar(items[0])
    ensures t != "" && js[0] == 1 && Takes(items[0], t[..1]) && Fits(items[1..], js[1..], t[1..])
  {
  }

  /** An item for one character either takes the first one or rules the name out. */
  lemma OneDecided(items: seq<Item>, t: string, caps: Captures, r: Result)
    requires items != [] && OneChar(items[0])
    requires if t != "" && Takes(items[0], t[..1]) then Decided(items[1..], t[1..], caps, r) else r == Result(false, caps)
    ensures Decided(items, t, caps, r)
  {
    hide Takes, Captured;
    if t != "" && Takes(items[0], t[..1]) {
      if r.ok {
        var ks :| Foremost(items[1..], ks, t[1..]) && r.caps == Captured(items[1..], ks, t[1..], caps);
        OneForemost(items, ks, t, caps);
      } else {
        forall js ensures !Fits(items, js, t) { if Fits(items, js, t) { FitsOne(items, js, t); } }
      }
    } else {
      forall js ensures !Fits(items, js, t) { if Fits(items, js, t) { FitsOne(items, js, t); } }
    }
  }

  lemma {:induction false} OneForemost(items: seq<Item>, ks: seq<nat>, t: string, caps: Captures)
    requires items != [] && OneChar(items[0]) && t != "" && Takes(items[0], t[..1]) && Foremost(items[1..], ks, t[1..])
    ensures Foremost(items, [1] + ks, t) && Captured(items, [1] + ks, t, caps) == Captured(items[1..], ks, t[1..], caps)
  {
    var all := [1] + ks;
    assert all[1..] == ks;
    forall js | Fits(items, js, t) ensures Sooner(all, js) {
      FitsOne(items, js, t);
      assert Sooner(ks, js[1..]);
    }
  }

  // -- items that take any piece -----------------------------------------------------------------

  function After(x: Item, t: string, k: nat, caps: Captures): Captures
    requires k <= |t|
  {
    if x.Name? then caps[x.name := t[..k]] else caps
  }

  function NameOf(x: Item): string {
    if x.Name? then x.name else ""
  }

  lemma {:induction false} FitsAny(items: seq<Item>, js: seq<nat>, t: string)
    requires items != [] && Fits(items, js, t)
    ensures js != [] && js[0] <= |t| && Fits(items[1..], js[1..], t[js[0]..])
  {
  }

  /** The shortest first piece that leaves something the rest fits is the first of the foremost pieces. */
  lemma {:induction false} AnyForemost(items: seq<Item>, k: nat, ks: seq<nat>, t: string, caps: Captures)
    requires items != [] && !OneChar(items[0]) && k <= |t| && Foremost(items[1..], ks, t[k..])
    requires forall js :: Fits(items, js, t) ==> js != [] && js[0] >= k
    ensures Foremost(items, [k] + ks, t) && Captured(items, [k] + ks, t, caps) == Captured(items[1..], ks, t[k..], After(items[0], t, k, caps))
  {
    var all := [k] + ks;
    assert all[1..] == ks;
    forall js | Fits(items, js, t) ensures Sooner(all, js) {
      FitsAny(items, js, t);
      if js[0] == k { assert Sooner(ks, js[1..]); }
    }
  }

  /** Whatever the first piece is, the rest is decided, and there is no way with a first piece shorter than i: then the splits from i on decide the whole. */
  lemma {:induction false} SplitsDecided(items: seq<Item>, q: string, t: string, i: nat, caps: Captures)
    requires items != [] && !OneChar(items[0]) && (items[0].Name? ==> items[0].name != "") && i <= |t|
    requires forall k: nat :: k <= |t| ==> Decided(items[1..], t[k..], After(items[0], t, k, caps), Helper(q, t[k..], After(items[0], t, k, caps)))
    requires forall js :: Fits(items, js, t) ==> js != [] && js[0] >= i
    ensures Decided(items, t, caps, Splits(q, NameOf(items[0]), t, i, caps))
    decreases |t| - i
  {
    hide Helper, Captured, Sooner, Fits;
    var c := After(items[0], t, i, caps);
    var r := Helper(q, t[i..], c);
    assert Decided(items[1..], t[i..], c, r);
    if r.ok {
      var ks :| Foremost(items[1..], ks, t[i..]) && r.caps == Captured(items[1..], ks, t[i..], c);
      AnyForemost(items, i, ks, t, caps);
    } else {
      forall js | Fits(items, js, t) ensures js != [] && js[0] >= i + 1 && js[0] <= |t| { FitsAny(items, js, t); }
      if i < |t| { SplitsDecided(items, q, t, i + 1, caps); }
    }
  }

  /** A lone star at the end takes what is left. */
  lemma LastStar(t: string, caps: Captures)
    ensures Decided([Any], t, caps, Result(true, caps))
  {
    var ks: seq<nat> := [|t|];
    assert [Any][1..] == [] && ks[1..] == [] && t[|t|..] == "";
    assert Fits([Any], ks, t);
    forall js | Fits([Any], js, t) ensures Sooner(ks, js) {
      FitsAny([Any], js, t);
      assert Fits([], js[1..], t[js[0]..]);
    }
    assert Captured([Any], ks, t, caps) == caps;
    assert Foremost([Any], ks, t);
  }

  /** A star before a star takes nothing. */
  lemma {:induction false} TwoStars(items: seq<Item>, t: string, caps: Captures, r: Result)
    requires |items| > 1 && items[0].Any? && items[1].Any? && Decided(items[1..], t, caps, r)
    ensures Decided(items, t, caps, r)
  {
    var rest := items[1..];
    assert t[0..] == t;
    if r.ok {
      var ks :| Foremost(rest, ks, t) && r.caps == Captured(rest, ks, t, caps);
      AnyForemost(items, 0, ks, t, caps);
    } else {
      forall js ensures !Fits(items, js, t) {
        if Fits(items, js, t) { Merged(items, js, t); }
      }
    }
  }

  lemma {:induction false} Merged(items: seq<Item>, js: seq<nat>, t: string)
    requires |items| > 1 && items[0].Any? && items[1].Any? && Fits(items, js, t)
    ensures exists ks :: Fits(items[1..], ks, t)
  {
    var ks := [js[0] + js[1]] + js[2..];
    assert items[1..][1..] == items[2..] && js[1..][1..] == js[2..] && ks[1..] == js[2..];
    assert t[js[0]..][js[1]..] == t[js[0] + js[1]..];
    assert Fits(items[1..], ks, t);
  }

  // -- the matcher ----------------------------------------------------------------------------------

  lemma {:induction false} StarsDrop(items: seq<Item>)
    requires Proper(items) && items != [] && !items[0].Any?
    ensures Text(items) != "" && DropStars(Text(items)) == Text(items)
  {
  }

  lemma {:induction false} NothingLeft(t: string, caps: Captures)
    ensures Decided([], t, caps, Helper("", t, caps))
  {
    if t == "" { assert Foremost([], [], t); }
  }

  /** An item for one character is read as such, whatever follows. */
  lemma {:induction false} CharRead(x: Item, rest: string, t: string, caps: Captures)
    requires OneChar(x) && ProperItem(x) && !RunsOn(x, rest)
    ensures Helper(ItemText(x) + rest, t, caps) == if t != "" && Takes(x, t[..1]) then Helper(rest, t[1..], caps) else Result(false, caps)
  {
    var p := ItemText(x) + rest;
    if t != "" { Folds(t[0]); }
    match x
    case One => assert p[1..] == rest;
    case Escaped(c) =>
      Folds(c);
      assert p[0] == '\\' && p[1] == c && p[2..] == rest;
    case Plain(c) =>
      Folds(c);
      assert p[0] == c && p[1..] == rest;
      if c == ':' { NoLetters(p, rest); }
    case Set(_, _) =>
      SetRead(x, rest, '\0');
      if t != "" { SetRead(x, rest, t[0]); }
      hide CharClass, InSpans, SpansText;
      assert p[0] == '[' && p[|ItemText(x)|..] == rest;
  }

  lemma {:induction false} NoLetters(p: string, rest: string)
    requires p != "" && p[1..] == rest && (rest == "" || !Letter(rest[0]))
    ensures SkipLetters(p, 1) == 1
  {
    if rest != "" {
      Folds(rest[0]);
      assert p[1] == p[1..][0];
    }
  }

  lemma {:induction false} OneRead(items: seq<Item>, t: string, caps: Captures)
    requires Proper(items) && items != [] && OneChar(items[0])
    requires t != "" ==> Decided(items[1..], t[1..], caps, Helper(Text(items[1..]), t[1..], caps))
    ensures Decided(items, t, caps, Helper(Text(items), t, caps))
  {
    hide Helper, Decided;
    CharRead(items[0], Text(items[1..]), t, caps);
    OneDecided(items, t, caps, if t != "" && Takes(items[0], t[..1]) then Helper(Text(items[1..]), t[1..], caps) else Result(false, caps));
  }

  lemma {:induction false} StarStarRead(items: seq<Item>, t: string, caps: Captures)
    requires |items| > 1 && items[0].Any? && items[1].Any?
    ensures Helper(Text(items), t, caps) == Helper(Text(items[1..]), t, caps)
  {
    var q := Text(items[1..]);
    assert Text(items) == "*" + q && q[0] == '*' && ("*" + q)[1..] == q;
    assert DropStars("*" + q) == DropStars(q);
  }

  lemma {:induction false} SplitsRead(items: seq<Item>, t: string, caps: Captures)
    requires Proper(items) && items != [] && if items[0].Any? then |items| > 1 && !items[1].Any? else items[0].Name?
    ensures Helper(Text(items), t, caps) == Splits(Text(items[1..]), NameOf(items[0]), t, 0, caps)
  {
    var q := Text(items[1..]);
    if items[0].Any? {
      StarsDrop(items[1..]);
      hide Helper, Splits, Proper;
      StarRead(q, t, caps);
    } else {
      hide Helper, Splits;
      NameRead(items[0].name, q, t, caps);
    }
  }

  lemma {:induction false} StarRead(q: string, t: string, caps: Captures)
    requires q != "" && DropStars(q) == q
    ensures Helper("*" + q, t, caps) == Splits(q, "", t, 0, caps)
  {
    assert ("*" + q)[1..] == q;
    hide Splits;
  }

  lemma {:induction false} NameRead(name: string, q: string, t: string, caps: Captures)
    requires name != "" && (forall k :: 0 <= k < |name| ==> Letter(name[k])) && (q == "" || !Letter(q[0]))
    ensures Helper(":" + name + q, t, caps) == Splits(q, name, t, 0, caps)
  {
    var p := ":" + name + q;
    assert p[1..] == name + q;
    LettersEnd(p, 1, name, q);
    var k := 1 + |name|;
    assert p[0] == ':' && p[1..k] == name && p[k..] == q;
    hide Splits, SkipLetters, DropStars, CharClass;
  }

  /** The matcher decides every pattern written in the notation: it says whether the name can be cut, and captures the first way. */
  lemma {:induction false} NamesDecided(items: seq<Item>, t: string, caps: Captures)
    requires Proper(items)
    ensures Decided(items, t, caps, Helper(Text(items), t, caps))
    decreases |items|
  {
    if items == [] {
      NothingLeft(t, caps);
    } else {
      var x, rest := items[0], items[1..];
      if OneChar(x) {
        hide Helper, Decided;
        if t != "" { NamesDecided(rest, t[1..], caps); }
        OneRead(items, t, caps);
      } else if x.Any? && rest == [] {
        LastStar(t, caps);
        assert items == [Any] && Text(items) == "*";
      } else if x.Any? && rest[0].Any? {
        hide Decided, Helper;
        NamesDecided(rest, t, caps);
        StarStarRead(items, t, caps);
        TwoStars(items, t, caps, Helper(Text(items), t, caps));
      } else {
        hide Decided, Helper, Proper;
        forall k: nat | k <= |t| ensures Decided(rest, t[k..], After(x, t, k, caps), Helper(Text(rest), t[k..], After(x, t, k, caps))) {
          NamesDecided(rest, t[k..], After(x, t, k, caps));
        }
        forall js | Fits(items, js, t) ensures js != [] && js[0] >= 0 { FitsAny(items, js, t); }
        SplitsDecided(items, Text(rest), t, 0, caps);
        SplitsRead(items, t, caps);
      }
    }
  }
}
