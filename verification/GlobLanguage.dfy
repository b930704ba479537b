/**
 Glob patterns over ASCII text: the terms of a pattern and the language they
 describe, independent of any matching order.
*/
module GlobLanguage {
  import opened Wrappers

  /** One character: any, a given one, or one of a class of ranges. */
  datatype Term = Any | Lit(c: char) | Class(negated: bool, ranges: seq<(char, char)>)

  datatype Token = Star | One(t: Term)

  predicate InRanges(ranges: seq<(char, char)>, c: char) {
    exists k :: 0 <= k < |ranges| && ranges[k].0 <= c <= ranges[k].1
  }

  predicate Accepts(t: Term, c: char) {
    match t
    case Any => true
    case Lit(d) => c == d
    case Class(negated, ranges) => InRanges(ranges, c) != negated
  }

  /** The language of a token list. */
  ghost predicate InLanguage(ts: seq<Token>, s: string)
    decreases |ts|
  {
    if ts == [] then s == ""
    else if ts[0].Star? then exists k: nat :: k <= |s| && InLanguage(ts[1..], s[k..])
    else s != "" && Accepts(ts[0].t, s[0]) && InLanguage(ts[1..], s[1..])
  }

  // -- reading a pattern -----------------------------------------------------------------

  datatype Parsed<T> = Bad | Got(v: T, next: nat)

  /** A character of a class, possibly escaped; something must follow it. */
  function ClassChar(p: string, i: nat): (r: Parsed<char>)
    requires i <= |p|
    ensures r.Got? ==> i < r.next < |p|
  {
    if i == |p| || p[i] == '-' || p[i] == ']' then Bad
    else
      var j := if p[i] == '\\' then i + 1 else i;
      if j + 1 < |p| then Got(p[j], j + 1) else Bad
  }

  function RangeAt(p: string, i: nat): (r: Parsed<(char, char)>)
    requires i <= |p|
    ensures r.Got? ==> i < r.next < |p|
  {
    match ClassChar(p, i)
    case Bad => Bad
    case Got(lo, j) =>
      if p[j] != '-' then Got((lo, lo), j)
      else
        match ClassChar(p, j + 1)
        case Bad => Bad
        case Got(hi, k) => if hi < lo then Bad else Got((lo, hi), k)
  }

  /** The ranges from i on, up to the ']' that ends the class; at least one in all. */
  function RangesAt(p: string, i: nat, first: bool): (r: Parsed<seq<(char, char)>>)
    requires i <= |p|
    ensures r.Got? ==> i < r.next <= |p|
    decreases |p| - i
  {
    if i < |p| && p[i] == ']' && !first then Got([], i + 1)
    else
      match RangeAt(p, i)
      case Bad => Bad
      case Got(range, j) =>
        match RangesAt(p, j, false)
        case Bad => Bad
        case Got(rest, k) => Got([range] + rest, k)
  }

  function TermAt(p: string, i: nat): (r: Parsed<Term>)
    requires i < |p|
    ensures r.Got? ==> i < r.next <= |p|
  {
    match p[i]
    case '[' =>
      var negated := i + 1 < |p| && p[i + 1] == '^';
      (match RangesAt(p, if negated then i + 2 else i + 1, true)
       case Bad => Bad
       case Got(ranges, k) => Got(Class(negated, ranges), k))
    case '?' => Got(Any, i + 1)
    case '\\' => if i + 1 < |p| then Got(Lit(p[i + 1]), i + 2) else Bad
    case c => Got(Lit(c), i + 1)
  }

  /** The tokens of a pattern from i on, None if it is malformed. */
  function Tokens(p: string, i: nat): (r: Option<seq<Token>>)
    requires i <= |p|
    decreases |p| - i
  {
    if i == |p| then Some([])
    else if p[i] == '*' then
      match Tokens(p, i + 1)
      case None => None
      case Some(ts) => Some([Star] + ts)
    else
      match TermAt(p, i)
      case Bad => None
      case Got(t, j) =>
        match Tokens(p, j)
        case None => None
        case Some(ts) => Some([One(t)] + ts)
  }

  predicate WellFormed(p: string) {
    Tokens(p, 0).Some?
  }

  function Upper(c: char): char {
    if 'a' <= c <= 'z' then (c as int - 32) as char else c
  }

  function ToUpper(s: string): (r: string)
    ensures |r| == |s| && forall i :: 0 <= i < |s| ==> r[i] == Upper(s[i])
  {
    seq(|s|, i requires 0 <= i < |s| => Upper(s[i]))
  }

  // -- facts about the language ---------------------------------------------------------------

  /** Terms in front each take one character. */
  lemma {:induction false} TermsFirst(ts: seq<Term>, rest: seq<Token>, s: string)
    ensures InLanguage(Ones(ts) + rest, s) <==> |ts| <= |s| && AcceptAll(ts, s) && InLanguage(rest, s[|ts|..])
    decreases |ts|
  {
    var all := Ones(ts) + rest;
    if ts == [] {
      assert all == rest && s[0..] == s;
    } else {
      assert all[1..] == Ones(ts[1..]) + rest && all[0] == One(ts[0]);
      if s != "" {
        TermsFirst(ts[1..], rest, s[1..]);
        assert |ts| <= |s| ==> s[1..][|ts| - 1..] == s[|ts|..];
        assert AcceptAll(ts, s) <==> Accepts(ts[0], s[0]) && AcceptAll(ts[1..], s[1..]);
      }
    }
  }

  function Ones(ts: seq<Term>): (r: seq<Token>)
    ensures |r| == |ts| && forall i :: 0 <= i < |r| ==> r[i] == One(ts[i])
  {
    seq(|ts|, i requires 0 <= i < |ts| => One(ts[i]))
  }

  predicate AcceptAll(ts: seq<Term>, s: string) {
    |ts| <= |s| && forall i :: 0 <= i < |ts| ==> Accepts(ts[i], s[i])
  }

  predicate FitsAt(ts: seq<Term>, s: string, k: nat) {
    k + |ts| <= |s| && AcceptAll(ts, s[k..])
  }

  /** A star takes more: what it leaves for its rest can only shrink. */
  lemma {:induction false} StarAbsorbs(rest: seq<Token>, s: string, i: nat, j: nat)
    requires rest != [] && rest[0].Star? && i <= j <= |s| && InLanguage(rest, s[j..])
    ensures InLanguage(rest, s[i..])
  {
    var k: nat :| k <= |s[j..]| && InLanguage(rest[1..], s[j..][k..]);
    assert s[j..][k..] == s[i..][j - i + k..];
  }

  /** A star before a star adds nothing. */
  lemma {:induction false} StarStar(rest: seq<Token>, s: string)
    requires rest != [] && rest[0].Star?
    ensures InLanguage([Star] + rest, s) <==> InLanguage(rest, s)
  {
    var all := [Star] + rest;
    assert all[1..] == rest;
    if InLanguage(all, s) {
      var k: nat :| k <= |s| && InLanguage(rest, s[k..]);
      StarAbsorbs(rest, s, 0, k);
      assert s[0..] == s;
    }
    if InLanguage(rest, s) { assert s[0..] == s; }
  }

  /** After a star, the leftmost place of a chunk that another star follows is as good as any. */
  lemma {:induction false} LeftmostSuffices(ts: seq<Term>, rest: seq<Token>, s: string, i: nat)
    requires rest != [] && rest[0].Star? && FitsAt(ts, s, i)
    requires forall j: nat :: j < i ==> !FitsAt(ts, s, j)
    ensures InLanguage([Star] + (Ones(ts) + rest), s) <==> InLanguage(rest, s[i + |ts|..])
  {
    hide InLanguage;
    StarSplits(Ones(ts) + rest, s);
    PlacedAt(ts, rest, s, i);
    if k: nat :| k <= |s| && InLanguage(Ones(ts) + rest, s[k..]) {
      PlacedAt(ts, rest, s, k);
      assert FitsAt(ts, s, k);
      StarAbsorbs(rest, s, i + |ts|, k + |ts|);
    }
  }

  lemma {:induction false} StarSplits(rest: seq<Token>, s: string)
    ensures InLanguage([Star] + rest, s) <==> exists k: nat :: k <= |s| && InLanguage(rest, s[k..])
  {
    assert ([Star] + rest)[1..] == rest;
  }

  lemma {:induction false} PlacedAt(ts: seq<Term>, rest: seq<Token>, s: string, k: nat)
    requires k <= |s|
    ensures InLanguage(Ones(ts) + rest, s[k..]) <==> FitsAt(ts, s, k) && InLanguage(rest, s[k + |ts|..])
  {
    hide InLanguage;
    TermsFirst(ts, rest, s[k..]);
    if k + |ts| <= |s| { assert s[k..][|ts|..] == s[k + |ts|..]; }
  }

  /** A chunk after a star that nowhere fits rules the name out. */
  lemma {:induction false} NowhereFits(ts: seq<Term>, rest: seq<Token>, s: string)
    requires forall j: nat :: FitsAt(ts, s, j) ==> !InLanguage(rest, s[j + |ts|..])
    ensures !InLanguage([Star] + (Ones(ts) + rest), s)
  {
    var all := [Star] + (Ones(ts) + rest);
    assert all[1..] == Ones(ts) + rest;
    forall k: nat | k <= |s|
      ensures !InLanguage(all[1..], s[k..])
    {
      PlacedAt(ts, rest, s, k);
    }
  }
}
