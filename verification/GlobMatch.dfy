/**
 The greedy matcher: split off a chunk, place it at the leftmost position that
 fits, and never look back. On well-formed patterns it decides the language.
*/
module GlobMatch {
  import opened Wrappers
  import opened GlobLanguage

  // -- reading chunks ------------------------------------------------------------------

  /** The terms of the chunk that starts at i and ends with q. */
  function ChunkTerms(q: string, i: nat): (r: Option<seq<Term>>)
    requires i <= |q|
    decreases |q| - i
  {
    if i == |q| then Some([])
    else
      match TermAt(q, i)
      case Bad => None
      case Got(t, j) =>
        match ChunkTerms(q, j)
        case None => None
        case Some(ts) => Some([t] + ts)
  }

  /** scanChunk's scan: the first star outside brackets. */
  function ScanEnd(p: string, i: nat, inRange: bool): (r: nat)
    requires i <= |p|
    ensures i <= r <= |p| && (r < |p| ==> p[r] == '*')
    decreases |p| - i
  {
    if i == |p| then i
    else if p[i] == '\\' then ScanEnd(p, if i + 1 < |p| then i + 2 else i + 1, inRange)
    else if p[i] == '[' then ScanEnd(p, i + 1, true)
    else if p[i] == ']' then ScanEnd(p, i + 1, false)
    else if p[i] == '*' && !inRange then i
    else ScanEnd(p, i + 1, inRange)
  }

  function SkipStars(p: string, i: nat): (r: nat)
    requires i <= |p|
    ensures i <= r <= |p| && (r < |p| ==> p[r] != '*') && forall k :: i <= k < r ==> p[k] == '*'
    decreases |p| - i
  {
    if i < |p| && p[i] == '*' then SkipStars(p, i + 1) else i
  }

  // -- the scan stops where a token ends -------------------------------------------------

  lemma {:induction false} ScanRange(p: string, i: nat)
    requires i <= |p| && RangeAt(p, i).Got?
    ensures ScanEnd(p, i, true) == ScanEnd(p, RangeAt(p, i).next, true)
  {
    var lo := ClassChar(p, i);
    assert ScanEnd(p, i, true) == ScanEnd(p, lo.next, true);
    if p[lo.next] == '-' {
      var hi := ClassChar(p, lo.next + 1);
      assert ScanEnd(p, lo.next, true) == ScanEnd(p, lo.next + 1, true);
      assert ScanEnd(p, lo.next + 1, true) == ScanEnd(p, hi.next, true);
    }
  }

  lemma {:induction false} ScanRanges(p: string, i: nat, first: bool)
    requires i <= |p| && RangesAt(p, i, first).Got?
    ensures ScanEnd(p, i, true) == ScanEnd(p, RangesAt(p, i, first).next, false)
    decreases |p| - i
  {
    if !(i < |p| && p[i] == ']' && !first) {
      ScanRange(p, i);
      ScanRanges(p, RangeAt(p, i).next, false);
    }
  }

  lemma {:induction false} ScanTerm(p: string, i: nat)
    requires i < |p| && p[i] != '*' && TermAt(p, i).Got?
    ensures ScanEnd(p, i, false) == ScanEnd(p, TermAt(p, i).next, false)
  {
    if p[i] == '[' {
      var j := if i + 1 < |p| && p[i + 1] == '^' then i + 2 else i + 1;
      assert ScanEnd(p, i, false) == ScanEnd(p, i + 1, true) == ScanEnd(p, j, true);
      ScanRanges(p, j, true);
    }
  }

  lemma {:induction false} RangesPrefix(p: string, i: nat, first: bool, e: nat)
    requires i <= |p| && RangesAt(p, i, first).Got? && RangesAt(p, i, first).next <= e <= |p|
    ensures RangesAt(p[..e], i, first) == RangesAt(p, i, first)
    decreases |p| - i
  {
    if !(i < |p| && p[i] == ']' && !first) {
      RangesPrefix(p, RangeAt(p, i).next, false, e);
      assert RangeAt(p[..e], i) == RangeAt(p, i);
    }
  }

  lemma TermPrefix(p: string, i: nat, e: nat)
    requires i < |p| && TermAt(p, i).Got? && TermAt(p, i).next <= e <= |p|
    ensures TermAt(p[..e], i) == TermAt(p, i)
  {
    if p[i] == '[' {
      RangesPrefix(p, if i + 1 < |p| && p[i + 1] == '^' then i + 2 else i + 1, true, e);
    }
  }

  lemma {:induction false} ScanStop(p: string, i: nat)
    requires i <= |p| && (i == |p| || p[i] == '*')
    ensures ScanEnd(p, i, false) == i
  {
  }

  lemma {:induction false} FirstTerm(q: string, i: nat)
    requires i < |q| && TermAt(q, i).Got? && ChunkTerms(q, TermAt(q, i).next).Some?
    ensures ChunkTerms(q, i) == Some([TermAt(q, i).v] + ChunkTerms(q, TermAt(q, i).next).value)
  {
    hide TermAt;
  }

  /** The tokens from i on are the terms of the chunk and the tokens after it. */
  lemma {:induction false} ChunkOf(p: string, i: nat) returns (ts: seq<Term>)
    requires i <= |p| && Tokens(p, i).Some?
    ensures var e := ScanEnd(p, i, false);
            && ChunkTerms(p[..e], i) == Some(ts) && Tokens(p, e).Some?
            && Tokens(p, i).value == Ones(ts) + Tokens(p, e).value
    decreases |p| - i
  {
    hide TermAt, ScanEnd;
    var e := ScanEnd(p, i, false);
    if i == |p| || p[i] == '*' {
      ScanStop(p, i);
      ts := [];
      assert Ones(ts) + Tokens(p, e).value == Tokens(p, e).value;
    } else {
      var (t, j) := (TermAt(p, i).v, TermAt(p, i).next);
      ScanTerm(p, i);
      TermPrefix(p, i, e);
      var rest := ChunkOf(p, j);
      ts := [t] + rest;
      FirstTerm(p[..e], i);
      assert Ones(ts) == [One(t)] + Ones(rest);
      assert [One(t)] + (Ones(rest) + Tokens(p, e).value) == Ones(ts) + Tokens(p, e).value;
    }
  }

  /** Leading stars are as good as one. */
  lemma {:induction false} StarsCollapse(p: string, i: nat, s: string)
    requires i < |p| && p[i] == '*' && Tokens(p, i).Some?
    ensures var j := SkipStars(p, i);
            Tokens(p, j).Some? && (InLanguage(Tokens(p, i).value, s) <==> InLanguage([Star] + Tokens(p, j).value, s))
    decreases |p| - i
  {
    hide InLanguage;
    if i + 1 < |p| && p[i + 1] == '*' {
      StarsCollapse(p, i + 1, s);
      StarStar(Tokens(p, i + 1).value, s);
    }
  }

  // -- as the program does it ----------------------------------------------------------------

  datatype Outcome = NoMatch | MatchedUpTo(n: nat) | BadPattern

  method GetEsc(q: string, i: nat) returns (r: Parsed<char>)
    requires i <= |q|
    ensures r == ClassChar(q, i)
  {
    if i == |q| || q[i] == '-' || q[i] == ']' {
      return Bad;
    }
    var j := i;
    if q[j] == '\\' {
      j := j + 1;
      if j == |q| {
        return Bad;
      }
    }
    if j + 1 == |q| {
      return Bad;
    }
    r := Got(q[j], j + 1);
  }

  function Prefix(ranges: seq<(char, char)>, r: Parsed<seq<(char, char)>>): Parsed<seq<(char, char)>> {
    match r
    case Bad => Bad
    case Got(more, k) => Got(ranges + more, k)
  }

  /** The ranges of a class, tested against c on the way. */
  method MatchRanges(q: string, start: nat, c: char) returns (r: Parsed<bool>)
    requires start <= |q|
    ensures match RangesAt(q, start, true)
            case Bad => r == Bad
            case Got(ranges, k) => r == Got(InRanges(ranges, c), k)
  {
    hide ClassChar;
    var i, matched, nrange := start, false, 0;
    ghost var done: seq<(char, char)> := [];
    NothingBefore(RangesAt(q, start, true));
    while true
      invariant start <= i <= |q| && nrange == |done| && matched == InRanges(done, c)
      invariant RangesAt(q, start, true) == Prefix(done, RangesAt(q, i, nrange == 0))
      decreases |q| - i
    {
      if i < |q| && q[i] == ']' && nrange > 0 {
        assert done + [] == done;
        return Got(matched, i + 1);
      }
      var lo := GetEsc(q, i);
      if lo.Bad? {
        return Bad;
      }
      var hi := lo;
      if q[lo.next] == '-' {
        hi := GetEsc(q, lo.next + 1);
        if hi.Bad? {
          return Bad;
        }
      }
      if hi.v < lo.v {
        return Bad;
      }
      if lo.v <= c <= hi.v {
        matched := true;
      }
      OneMoreRange(q, done, i, hi.next, (lo.v, hi.v), nrange == 0);
      RangeAdded(done, (lo.v, hi.v), c);
      done := done + [(lo.v, hi.v)];
      nrange := nrange + 1;
      i := hi.next;
    }
  }

  lemma NothingBefore(r: Parsed<seq<(char, char)>>)
    ensures Prefix([], r) == r
  {
    if r.Got? { assert [] + r.v == r.v; }
  }

  lemma {:induction false} OneMoreRange(q: string, done: seq<(char, char)>, i: nat, j: nat, range: (char, char), first: bool)
    requires i <= |q| && RangeAt(q, i) == Got(range, j) && (first || i == |q| || q[i] != ']')
    ensures Prefix(done, RangesAt(q, i, first)) == Prefix(done + [range], RangesAt(q, j, false))
  {
    hide RangeAt;
    if RangesAt(q, j, false).Got? {
      var more := RangesAt(q, j, false).v;
      assert done + ([range] + more) == done + [range] + more;
    }
  }

  lemma RangeAdded(done: seq<(char, char)>, range: (char, char), c: char)
    ensures InRanges(done + [range], c) <==> InRanges(done, c) || range.0 <= c <= range.1
  {
    var all := done + [range];
    if range.0 <= c <= range.1 { assert all[|done|] == range; }
    if k :| 0 <= k < |done| && done[k].0 <= c <= done[k].1 { assert all[k] == done[k]; }
  }

  /** matchChunk: does the chunk from start on match the beginning of s? */
  method MatchChunk(q: string, start: nat, s: string) returns (r: Outcome)
    requires start <= |q|
    ensures match ChunkTerms(q, start)
            case None => !r.MatchedUpTo?
            case Some(ts) => r == if AcceptAll(ts, s) then MatchedUpTo(|ts|) else NoMatch
    ensures r.MatchedUpTo? ==> r.n <= |s|
  {
    hide Accepts;
    var i, n := start, 0;
    ghost var done: seq<Term> := [];
    while i < |q|
      invariant start <= i <= |q| && n == |done| <= |s| && AcceptAll(done, s)
      invariant ChunkTerms(q, start).Some? ==> ChunkTerms(q, i).Some? && ChunkTerms(q, start).value == done + ChunkTerms(q, i).value
      invariant ChunkTerms(q, start).None? ==> ChunkTerms(q, i).None?
      decreases |q| - i
    {
      if n == |s| {
        return NoMatch;
      }
      var next: Parsed<bool> := MatchOne(q, i, s[n]);
      if next.Bad? {
        return BadPattern;
      }
      TermNext(q, i, done);
      if !next.v {
        if ChunkTerms(q, start).Some? {
          assert ChunkTerms(q, start).value[n] == TermAt(q, i).v;
        }
        return NoMatch;
      }
      done := done + [TermAt(q, i).v];
      i, n := next.next, n + 1;
    }
    assert done + [] == done;
    r := MatchedUpTo(n);
  }

  lemma {:induction false} TermNext(q: string, i: nat, done: seq<Term>)
    requires i < |q| && TermAt(q, i).Got?
    ensures ChunkTerms(q, i).Some? <==> ChunkTerms(q, TermAt(q, i).next).Some?
    ensures ChunkTerms(q, i).Some? ==> done + ChunkTerms(q, i).value == (done + [TermAt(q, i).v]) + ChunkTerms(q, TermAt(q, i).next).value
  {
    hide TermAt;
  }

  /** One operator of a chunk against one character. A class that does not parse is an error; so is a lone backslash. */
  method MatchOne(q: string, i: nat, c: char) returns (r: Parsed<bool>)
    requires i < |q|
    ensures match TermAt(q, i)
            case Bad => r == Bad
            case Got(t, k) => r == Got(Accepts(t, c), k)
  {
    hide RangesAt, InRanges;
    if q[i] == '[' {
      var negated := i + 1 < |q| && q[i + 1] == '^';
      var m := MatchRanges(q, if negated then i + 2 else i + 1, c);
      if m.Bad? {
        return Bad;
      }
      return Got(m.v != negated, m.next);
    }
    if q[i] == '?' {
      return Got(true, i + 1);
    }
    var j := i;
    if q[i] == '\\' {
      j := i + 1;
      if j == |q| {
        return Bad;
      }
    }
    r := Got(q[j] == c, j + 1);
  }

  /** scanChunk: whether stars come first, and the bounds of the chunk after them. */
  method ScanChunk(p: string, start: nat) returns (star: bool, from: nat, to: nat)
    requires start <= |p|
    ensures star == (start < |p| && p[start] == '*') && from == SkipStars(p, start) && to == ScanEnd(p, from, false)
  {
    star, from := false, start;
    while from < |p| && p[from] == '*'
      invariant start <= from <= |p| && SkipStars(p, from) == SkipStars(p, start) && star == (from > start)
      invariant from > start ==> p[start] == '*'
    {
      star := true;
      from := from + 1;
    }
    var inRange := false;
    to := from;
    while to < |p|
      invariant from <= to <= |p| && ScanEnd(p, to, inRange) == ScanEnd(p, from, false)
    {
      if p[to] == '\\' {
        if to + 1 < |p| {
          to := to + 1;
        }
      } else if p[to] == '[' {
        inRange := true;
      } else if p[to] == ']' {
        inRange := false;
      } else if p[to] == '*' && !inRange {
        break;
      }
      to := to + 1;
    }
  }

  /** What is left of a well-formed pattern and of the name decides the match. */
  ghost predicate Decides(p: string, i: nat, s: string, all: bool)
    requires i <= |p|
  {
    Tokens(p, i).Some? && (all <==> InLanguage(Tokens(p, i).value, s))
  }

  /** One round: the chunk q[from..], stars before it or not, against s. */
  lemma RoundSplits(p: string, start: nat, star: bool, from: nat, to: nat, s: string, all: bool) returns (ts: seq<Term>)
    requires start < |p| && star == (p[start] == '*') && from == SkipStars(p, start) && to == ScanEnd(p, from, false)
    requires Decides(p, start, s, all)
    ensures ChunkTerms(p[..to], from) == Some(ts) && Split(p, to, star, ts, s, all)
  {
    hide InLanguage, ScanEnd, Tokens, AcceptAll;
    if star { StarsCollapse(p, start, s); } else { NoStars(p, start); }
    ts := ChunkOf(p, from);
    if !star {
      PlacedAt(ts, Tokens(p, to).value, s, 0);
      assert s[0..] == s;
    }
    RestAfter(p, from, to);
  }

  /** After stars, a chunk is tried at every later position. */
  method TryLater(q: string, from: nat, s: string, last: bool) returns (r: Outcome)
    requires from <= |q|
    ensures r.BadPattern? ==> ChunkTerms(q, from).None?
    ensures r.MatchedUpTo? ==> r.n <= |s| && (last ==> r.n == |s|)
    ensures ChunkTerms(q, from).Some? ==>
              var ts := ChunkTerms(q, from).value;
              match r
              case MatchedUpTo(n) => |ts| < n && FitsAt(ts, s, n - |ts|) && (!last ==> forall k: nat :: 0 < k < n - |ts| ==> !FitsAt(ts, s, k))
              case _ => forall k: nat :: k > 0 && FitsAt(ts, s, k) ==> last && k + |ts| != |s|
  {
    hide AcceptAll;
    for i := 0 to |s|
      invariant ChunkTerms(q, from).Some? ==>
                  forall k: nat :: 0 < k <= i && FitsAt(ChunkTerms(q, from).value, s, k) ==> last && k + |ChunkTerms(q, from).value| != |s|
    {
      var m := MatchChunk(q, from, s[i + 1..]);
      if m.MatchedUpTo? {
        AcceptedLength(ChunkTerms(q, from).value, s[i + 1..]);
        if !last || i + 1 + m.n == |s| {
          return MatchedUpTo(i + 1 + m.n);
        }
      } else if m.BadPattern? {
        return BadPattern;
      }
    }
    r := NoMatch;
  }

  lemma AcceptedLength(ts: seq<Term>, s: string)
    ensures AcceptAll(ts, s) ==> |ts| <= |s|
  {
  }

  // -- rounds of the matcher ---------------------------------------------------------------

  lemma {:induction false} TrailingStar(p: string, i: nat, from: nat, s: string)
    requires i < |p| && p[i] == '*' && from == SkipStars(p, i) && from == ScanEnd(p, from, false)
    ensures WellFormed(p) && Tokens(p, i).Some? ==> InLanguage(Tokens(p, i).value, s)
  {
    assert from == |p|;
    if Tokens(p, i).Some? {
      StarsCollapse(p, i, s);
      assert Tokens(p, from).value == [];
      assert [Star][1..] == [] && s[|s|..] == "";
      assert InLanguage([], s[|s|..]);
      assert [Star] + [] == [Star];
    }
  }

  lemma {:induction false} ChunkNotEmpty(p: string, i: nat, star: bool, from: nat, to: nat)
    requires i < |p| && star == (p[i] == '*') && from == SkipStars(p, i) && to == ScanEnd(p, from, false) && !(star && from == to)
    ensures i < to <= |p|
  {
  }

  lemma FitsHere(ts: seq<Term>, s: string)
    ensures FitsAt(ts, s, 0) <==> AcceptAll(ts, s)
  {
    assert s[0..] == s;
  }

  lemma {:induction false} NoStars(p: string, i: nat)
    requires i < |p| && p[i] != '*'
    ensures SkipStars(p, i) == i
  {
  }

  /** What follows a chunk is empty or starts with a star. */
  lemma {:induction false} RestAfter(p: string, from: nat, to: nat)
    requires from <= |p| && to == ScanEnd(p, from, false) && Tokens(p, to).Some?
    ensures var rest := Tokens(p, to).value; if to == |p| then rest == [] else rest != [] && rest[0].Star?
  {
  }

  lemma EmptyRest(s: string, n: nat)
    requires n <= |s|
    ensures InLanguage([], s[n..]) <==> n == |s|
  {
  }

  /** What one round is about: a chunk, stars before it or not, and the rest of the pattern. */
  ghost predicate Split(p: string, to: nat, star: bool, ts: seq<Term>, s: string, all: bool)
    requires to <= |p|
  {
    && Tokens(p, to).Some?
    && (if to == |p| then Tokens(p, to).value == [] else Tokens(p, to).value != [] && Tokens(p, to).value[0].Star?)
    && (!star ==> (all <==> FitsAt(ts, s, 0) && InLanguage(Tokens(p, to).value, s[|ts|..])))
    && (star ==> (all <==> InLanguage([Star] + (Ones(ts) + Tokens(p, to).value), s)))
  }

  /** The chunk fits where the name stands, and something may follow it. */
  lemma PlacedFirst(p: string, to: nat, star: bool, ts: seq<Term>, s: string, all: bool)
    requires to <= |p| && Split(p, to, star, ts, s, all) && FitsAt(ts, s, 0) && (|ts| == |s| || to < |p|)
    ensures Decides(p, to, s[|ts|..], all)
  {
    hide InLanguage, Tokens, AcceptAll;
    if star {
      if to < |p| {
        LeftmostSuffices(ts, Tokens(p, to).value, s, 0);
      } else {
        LastPlaced(ts, s, 0);
      }
    }
  }

  /** A last chunk that fits at the end of the name. */
  lemma {:induction false} LastPlaced(ts: seq<Term>, s: string, k: nat)
    requires FitsAt(ts, s, k) && k + |ts| == |s|
    ensures InLanguage([Star] + (Ones(ts) + []), s) && InLanguage([], s[k + |ts|..])
  {
    hide InLanguage, AcceptAll;
    EmptyRest(s, k + |ts|);
    PlacedAt(ts, [], s, k);
    StarSplits(Ones(ts) + [], s);
  }

  lemma PlacedLater(p: string, to: nat, ts: seq<Term>, s: string, all: bool, k: nat)
    requires to <= |p| && Split(p, to, true, ts, s, all) && FitsAt(ts, s, k)
    requires if to == |p| then k + |ts| == |s| else forall j: nat :: j < k ==> !FitsAt(ts, s, j)
    ensures Decides(p, to, s[k + |ts|..], all)
  {
    hide InLanguage, Tokens, AcceptAll, FitsAt;
    if to < |p| {
      LeftmostSuffices(ts, Tokens(p, to).value, s, k);
    } else {
      LastPlaced(ts, s, k);
    }
  }

  lemma NotPlaced(p: string, to: nat, star: bool, ts: seq<Term>, s: string, all: bool)
    requires to <= |p| && Split(p, to, star, ts, s, all)
    requires FitsAt(ts, s, 0) ==> to == |p| && |ts| != |s|
    requires star ==> forall k: nat :: FitsAt(ts, s, k) ==> to == |p| && k + |ts| != |s|
    ensures !all
  {
    hide InLanguage, Tokens, AcceptAll;
    var rest := Tokens(p, to).value;
    if star {
      forall k: nat | FitsAt(ts, s, k)
        ensures !InLanguage(rest, s[k + |ts|..])
      {
        EmptyRest(s, k + |ts|);
      }
      NowhereFits(ts, rest, s);
    } else if FitsAt(ts, s, 0) {
      EmptyRest(s, |ts|);
    }
  }

  lemma {:induction false} AtTheEnd(p: string, s: string)
    ensures Tokens(p, |p|) == Some([]) && (InLanguage([], s) <==> s == "")
  {
  }

  /** Match on upper-cased text. */
  method MatchUpper(p: string, name: string) returns (matched: bool, bad: bool)
    ensures WellFormed(p) ==> !bad && (matched <==> InLanguage(Tokens(p, 0).value, name))
    ensures bad ==> !WellFormed(p) && !matched
  {
    hide InLanguage, ScanEnd, SkipStars, Tokens, ChunkTerms, FitsAt, AcceptAll, Split;
    var i: nat, s := 0, name;
    ghost var all := WellFormed(p) && InLanguage(Tokens(p, 0).value, name);
    while i < |p|
      invariant i <= |p| && (WellFormed(p) ==> Decides(p, i, s, all))
      decreases |p| - i
    {
      var star, from, to := ScanChunk(p, i);
      ghost var ts: seq<Term> := [];
      if WellFormed(p) { ts := RoundSplits(p, i, star, from, to, s, all); }
      if star && from == to {
        TrailingStar(p, i, from, s);
        return true, false;
      }
      ChunkNotEmpty(p, i, star, from, to);
      var last := to == |p|;
      var r := MatchChunk(p[..to], from, s);
      if WellFormed(p) { FitsHere(ts, s); }
      if r.MatchedUpTo? && (r.n == |s| || !last) {
        if WellFormed(p) { PlacedFirst(p, to, star, ts, s, all); }
        i, s := to, s[r.n..];
        continue;
      }
      if r.BadPattern? {
        return false, true;
      }
      if star {
        r := TryLater(p[..to], from, s, last);
        if r.BadPattern? {
          return false, true;
        }
        if r.MatchedUpTo? {
          if WellFormed(p) { PlacedLater(p, to, ts, s, all, r.n - |ts|); }
          i, s := to, s[r.n..];
          continue;
        }
      }
      if WellFormed(p) { NotPlaced(p, to, star, ts, s, all); }
      return false, false;
    }
    AtTheEnd(p, s);
    matched, bad := s == "", false;
  }

  /** Match: case is folded first. */
  method Match(pattern: string, name: string) returns (matched: bool, bad: bool)
    ensures var p := ToUpper(pattern);
            && (WellFormed(p) ==> !bad && (matched <==> InLanguage(Tokens(p, 0).value, ToUpper(name))))
            && (bad ==> !WellFormed(p) && !matched)
  {
    matched, bad := MatchUpper(ToUpper(pattern), ToUpper(name));
  }
}
