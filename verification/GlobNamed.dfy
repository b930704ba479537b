/**
 The matcher with named globs: it tries every split, carrying a map of
 captures. On plain patterns it agrees with the greedy matcher.
*/
module GlobNamed {
  import opened Wrappers
  import opened GlobLanguage

  type Captures = map<string, string>

  datatype Result = Result(ok: bool, caps: Captures) | BadPattern

  predicate IsLetter(c: char) {
    'a' <= c <= 'z' || 'A' <= c <= 'Z'
  }

  function SkipLetters(p: string, i: nat): (r: nat)
    requires i <= |p|
    ensures i <= r <= |p|
    decreases |p| - i
  {
    if i < |p| && IsLetter(p[i]) then SkipLetters(p, i + 1) else i
  }

  function DropStars(p: string): (r: string)
    ensures |r| <= |p| && (p != "" && p[0] == '*' ==> |r| < |p|) && (r != "" ==> r[0] != '*')
  {
    if p != "" && p[0] == '*' then DropStars(p[1..]) else p
  }

  // -- classes ---------------------------------------------------------------------

  datatype Bound = Bound(c: char, next: nat) | NoBound

  /** A bound of a range, possibly escaped. */
  function BoundAt(p: string, i: nat): (r: Bound)
    requires i < |p|
    ensures r.Bound? ==> i < r.next <= |p|
  {
    if p[i] != '\\' then Bound(p[i], i + 1)
    else if i + 1 < |p| then Bound(p[i + 1], i + 2)
    else NoBound
  }

  predicate Between(lo: char, c: char, hi: char) {
    c != '\0' && Upper(lo) <= Upper(c) <= Upper(hi)
  }

  datatype ClassResult = ClassResult(matched: bool, next: nat) | BadClass

  /** The ranges of a class from i on. */
  function ClassFrom(p: string, i: nat, first: bool, matched: bool, c: char): (r: ClassResult)
    requires i <= |p|
    ensures r.ClassResult? ==> i <= r.next <= |p|
    decreases |p| - i
  {
    if i == |p| then BadClass
    else if p[i] == ']' && !first then ClassResult(matched, i + 1)
    else
      match BoundAt(p, i)
      case NoBound => BadClass
      case Bound(lo, j) =>
        if j < |p| && p[j] == '-' then
          if j + 1 == |p| then BadClass
          else
            match BoundAt(p, j + 1)
            case NoBound => BadClass
            case Bound(hi, k) => if hi < lo then BadClass else ClassFrom(p, k, false, matched || Between(lo, c, hi), c)
        else ClassFrom(p, j, false, matched || Between(lo, c, lo), c)
  }

  /** matchCharClass for a pattern that starts with '['. */
  function CharClass(p: string, c: char): (r: ClassResult)
    requires p != ""
    ensures r.ClassResult? ==> 0 < r.next <= |p|
  {
    var negated := 1 < |p| && p[1] == '^';
    match ClassFrom(p, if negated then 2 else 1, true, false, c)
    case BadClass => BadClass
    case ClassResult(matched, next) => ClassResult(matched != negated, next)
  }

  // -- the matcher -----------------------------------------------------------------------

  /** matchHelper. */
  function Helper(p: string, t: string, caps: Captures): Result
    decreases |p|, 1, 0
  {
    if p == "" then Result(t == "", caps)
    else if p[0] == '*' then
      var q := DropStars(p);
      if q == "" then Result(true, caps) else Splits(q, "", t, 0, caps)
    else if p[0] == '?' then
      if t == "" then Result(false, caps) else Helper(p[1..], t[1..], caps)
    else if p[0] == '[' then
      if CharClass(p, '\0').BadClass? then BadPattern
      else if t == "" then Result(false, caps)
      else
        match CharClass(p, t[0])
        case BadClass => BadPattern
        case ClassResult(matched, next) => if matched then Helper(p[next..], t[1..], caps) else Result(false, caps)
    else if p[0] == '\\' then
      if |p| == 1 then BadPattern
      else if t == "" || Upper(p[1]) != Upper(t[0]) then Result(false, caps)
      else Helper(p[2..], t[1..], caps)
    else if p[0] == ':' && SkipLetters(p, 1) > 1 then
      var k := SkipLetters(p, 1);
      Splits(p[k..], p[1..k], t, 0, caps)
    else if t == "" || Upper(p[0]) != Upper(t[0]) then Result(false, caps)
    else Helper(p[1..], t[1..], caps)
  }

  /** Every split of t from i on, shortest first; a named glob captures what it skips. */
  function Splits(q: string, name: string, t: string, i: nat, caps: Captures): Result
    requires i <= |t|
    decreases |q|, 2, |t| - i
  {
    match Helper(q, t[i..], if name == "" then caps else caps[name := t[..i]])
    case BadPattern => BadPattern
    case Result(ok, found) =>
      if ok then Result(true, found)
      else if i == |t| then Result(false, caps)
      else Splits(q, name, t, i + 1, caps)
  }

  // -- plain patterns ------------------------------------------------------------------------

  predicate Plain(p: string) {
    forall i :: 0 <= i < |p| ==> p[i] != '[' && p[i] != '\\' && p[i] != ':'
  }

  /** The tokens of a plain pattern, case folded. */
  function PlainTokens(p: string): seq<Token> {
    if p == "" then []
    else [if p[0] == '*' then Star else if p[0] == '?' then One(Any) else One(Lit(Upper(p[0])))] + PlainTokens(p[1..])
  }

  lemma {:induction false} PlainTokensAre(p: string, i: nat)
    requires Plain(p) && i <= |p|
    ensures Tokens(ToUpper(p), i) == Some(PlainTokens(p[i..]))
    decreases |p| - i
  {
    if i < |p| {
      PlainTokensAre(p, i + 1);
      assert p[i..][1..] == p[i + 1..];
      assert ToUpper(p)[i] == Upper(p[i]);
      assert PlainTokens(p[i..]) == [PlainTokens(p[i..])[0]] + PlainTokens(p[i + 1..]);
    }
  }

  lemma {:induction false} StarsDropped(p: string, s: string)
    requires Plain(p) && p != "" && p[0] == '*'
    ensures Plain(DropStars(p)) && (InLanguage(PlainTokens(p), s) <==> InLanguage([Star] + PlainTokens(DropStars(p)), s))
    decreases |p|
  {
    hide InLanguage;
    if |p| > 1 && p[1] == '*' {
      StarsDropped(p[1..], s);
      StarStar(PlainTokens(p[1..]), s);
    }
  }

  lemma UpperTail(t: string, i: nat)
    requires i <= |t|
    ensures ToUpper(t)[i..] == ToUpper(t[i..])
  {
  }

  /** Trying every split decides the language of a plain pattern. */
  lemma {:induction false} HelperDecides(p: string, t: string, caps: Captures)
    requires Plain(p)
    ensures Helper(p, t, caps).Result? && (Helper(p, t, caps).ok <==> InLanguage(PlainTokens(p), ToUpper(t)))
    decreases |p|, 1, 0
  {
    hide Splits, CharClass;
    if p != "" {
      if p[0] == '*' {
        var q := DropStars(p);
        StarsDropped(p, ToUpper(t));
        if q == "" {
          LoneStar(ToUpper(t));
        } else {
          SplitsDecide(q, t, 0, caps);
          StarSplits(PlainTokens(q), ToUpper(t));
        }
      } else if t != "" {
        HelperDecides(p[1..], t[1..], caps);
        UpperTail(t, 1);
      }
    }
  }

  lemma {:induction false} LoneStar(s: string)
    ensures InLanguage([Star] + [], s)
  {
    assert ([Star] + [])[1..] == [] && InLanguage([], s[|s|..]);
  }

  lemma {:induction false} SplitsDecide(q: string, t: string, i: nat, caps: Captures)
    requires Plain(q) && i <= |t|
    ensures Splits(q, "", t, i, caps).Result?
    ensures Splits(q, "", t, i, caps).ok <==> exists k: nat :: i <= k <= |t| && InLanguage(PlainTokens(q), ToUpper(t)[k..])
    decreases |q|, 2, |t| - i
  {
    hide Helper, InLanguage;
    HelperDecides(q, t[i..], caps);
    UpperTail(t, i);
    if i < |t| {
      SplitsDecide(q, t, i + 1, caps);
    }
  }

  /** On plain patterns the two matchers agree: both decide the language. */
  lemma {:induction false} MatchersAgree(p: string, t: string)
    requires Plain(p)
    ensures WellFormed(ToUpper(p)) && Helper(p, t, map[]).Result?
    ensures Helper(p, t, map[]).ok <==> InLanguage(Tokens(ToUpper(p), 0).value, ToUpper(t))
  {
    hide Helper, InLanguage, Tokens;
    PlainTokensAre(p, 0);
    assert p[0..] == p;
    HelperDecides(p, t, map[]);
  }

  // -- as the program does it -------------------------------------------------------------------

  /** matchCharClass. */
  method MatchCharClass(p: string, c: char) returns (r: ClassResult)
    requires p != "" && p[0] == '['
    ensures r == CharClass(p, c)
  {
    hide Between;
    var i, negated := 1, false;
    if i < |p| && p[i] == '^' {
      negated := true;
      i := i + 1;
    }
    var matched, nrange := false, 0;
    ghost var all := ClassFrom(p, i, true, false, c);
    while true
      invariant 1 <= i <= |p| && nrange >= 0 && ClassFrom(p, i, nrange == 0, matched, c) == all
      decreases |p| - i
    {
      if i == |p| {
        return BadClass;
      }
      if p[i] == ']' && nrange > 0 {
        return ClassResult(matched != negated, i + 1);
      }
      var lo := BoundAt(p, i);
      if lo.NoBound? {
        return BadClass;
      }
      var hi := lo;
      if lo.next < |p| && p[lo.next] == '-' {
        if lo.next + 1 == |p| {
          return BadClass;
        }
        hi := BoundAt(p, lo.next + 1);
        if hi.NoBound? || hi.c < lo.c {
          return BadClass;
        }
      }
      matched := matched || Between(lo.c, c, hi.c);
      nrange := nrange + 1;
      i := hi.next;
    }
  }

  method TrySplits(q: string, name: string, t: string, caps: Captures) returns (r: Result)
    ensures r == Splits(q, name, t, 0, caps)
    decreases |q|, 2
  {
    hide Helper;
    var i := 0;
    while true
      invariant 0 <= i <= |t| && Splits(q, name, t, i, caps) == Splits(q, name, t, 0, caps)
      decreases |t| - i
    {
      var tried := MatchHelper(q, t[i..], if name == "" then caps else caps[name := t[..i]]);
      if tried.BadPattern? {
        return BadPattern;
      }
      if tried.ok {
        return tried;
      }
      if i == |t| {
        return Result(false, caps);
      }
      i := i + 1;
    }
  }

  method MatchHelper(p: string, t: string, caps: Captures) returns (r: Result)
    ensures r == Helper(p, t, caps)
    decreases |p|, 1
  {
    hide Splits, CharClass;
    if p == "" {
      return Result(t == "", caps);
    }
    match p[0]
    case '*' =>
      var q := p;
      while q != "" && q[0] == '*'
        invariant |q| <= |p| && DropStars(q) == DropStars(p) && (|q| == |p| ==> q == p)
        decreases |q|
      {
        q := q[1..];
      }
      if q == "" {
        return Result(true, caps);
      }
      r := TrySplits(q, "", t, caps);
    case '?' =>
      if t == "" {
        return Result(false, caps);
      }
      r := MatchHelper(p[1..], t[1..], caps);
    case '[' =>
      var shape := MatchCharClass(p, '\0');
      if shape.BadClass? {
        return BadPattern;
      }
      if t == "" {
        return Result(false, caps);
      }
      var m := MatchCharClass(p, t[0]);
      if m.BadClass? {
        return BadPattern;
      }
      if !m.matched {
        return Result(false, caps);
      }
      r := MatchHelper(p[m.next..], t[1..], caps);
    case '\\' =>
      if |p| == 1 {
        return BadPattern;
      }
      if t == "" || Upper(p[1]) != Upper(t[0]) {
        return Result(false, caps);
      }
      r := MatchHelper(p[2..], t[1..], caps);
    case _ =>
      var k := 1;
      if p[0] == ':' {
        while k < |p| && IsLetter(p[k])
          invariant 1 <= k <= |p| && SkipLetters(p, k) == SkipLetters(p, 1)
        {
          k := k + 1;
        }
        if k > 1 {
          r := TrySplits(p[k..], p[1..k], t, caps);
          return;
        }
      }
      if t == "" || Upper(p[0]) != Upper(t[0]) {
        return Result(false, caps);
      }
      r := MatchHelper(p[1..], t[1..], caps);
  }
}
