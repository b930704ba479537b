/**
 string.find, gmatch and gsub on top of the matcher: leftmost matches, the
 iteration over all matches, and the substitution loop.
*/
module PatternDrivers {
  import opened Wrappers
  import opened PatternSyntax
  import opened PatternSpec
  import opened PatternMatcher

  datatype Match = Match(start: nat, end: nat, caps: seq<Slot>)

  /** luaMatchAt without state. */
  function MatchAt(s: string, p: string, pos: nat): (o: Outcome)
    requires pos <= |s|
    ensures o.End? ==> pos <= o.e <= |s| && Within(o.caps, o.e)
  {
    Enter(s, p, 0, pos, [], 0)
  }

  method LuaMatchAt(s: string, p: string, pos: nat) returns (o: Outcome)
    requires pos <= |s|
    ensures o == MatchAt(s, p, pos)
  {
    hide Enter;
    var ms := new MatchState(s, p);
    assert ms.Live() == [];
    var r := ms.Match(pos, 0);
    match r
    case NoMatch => o := Fail;
    case Panicked(msg) => o := Panic(msg);
    case EndsAt(e) => o := End(e, ms.cap[..ms.level]);
  }

  // -- find ---------------------------------------------------------------------------

  datatype Found = NotFound | FoundAt(m: Match) | Raised(msg: string)

  /** What a search that looks at positions from i on finds: nothing, the leftmost match, or the first panic. */
  ghost predicate Leftmost(s: string, p: string, i: nat, r: Found) {
    match r
    case NotFound => forall j :: i <= j <= |s| ==> MatchAt(s, p, j) == Fail
    case FoundAt(m) =>
      && i <= m.start <= |s| && MatchAt(s, p, m.start) == End(m.end, m.caps)
      && forall j :: i <= j < m.start ==> MatchAt(s, p, j) == Fail
    case Raised(msg) =>
      exists k :: i <= k <= |s| && MatchAt(s, p, k) == Panic(msg) && forall j :: i <= j < k ==> MatchAt(s, p, j) == Fail
  }

  function Unanchored(pattern: string): string {
    if pattern != "" && pattern[0] == '^' then pattern[1..] else pattern
  }

  /** The first position looked at; init counts from 1, or back from the end, and past the end there is none. */
  function StartOf(n: nat, init: int): (r: nat)
    ensures init > 0 ==> init == r + 1
    ensures init < 0 <= init + n ==> r == init + n
    ensures init == 0 || init + n < 0 ==> r == 0
  {
    var i := if init < 0 then n + init + 1 else init;
    if i < 1 then 0 else i - 1
  }

  method LuaMatchFrom(s: string, pattern: string, init: int) returns (r: Found)
    ensures var start := StartOf(|s|, init);
            if start > |s| then r == NotFound
            else if pattern != "" && pattern[0] == '^' then
              r == match MatchAt(s, pattern[1..], start)
                   case Fail => NotFound
                   case End(e, caps) => FoundAt(Match(start, e, caps))
                   case Panic(msg) => Raised(msg)
            else Leftmost(s, pattern, start, r)
  {
    hide MatchAt;
    var start := StartOf(|s|, init);
    if start > |s| {
      return NotFound;
    }
    var anchored := pattern != "" && pattern[0] == '^';
    var searchPat := Unanchored(pattern);
    var i := start;
    while i <= |s|
      invariant start <= i <= |s| + 1 && (anchored ==> i == start)
      invariant forall j :: start <= j < i ==> MatchAt(s, searchPat, j) == Fail
    {
      var o := LuaMatchAt(s, searchPat, i);
      match o {
        case End(e, caps) => return FoundAt(Match(i, e, caps));
        case Panic(msg) => return Raised(msg);
        case Fail =>
      }
      if anchored {
        return NotFound;
      }
      i := i + 1;
    }
    r := NotFound;
  }

  // -- all matches --------------------------------------------------------------------------

  datatype Matches = Matches(ms: seq<Match>, err: Option<string>)

  function Prepend(m: Match, r: Matches): Matches {
    Matches([m] + r.ms, r.err)
  }

  /** Scan on from pos; a match that ends where the last one ended is not taken again. */
  function AllMatches(s: string, p: string, pos: nat, last: int): (r: Matches)
    decreases |s| + 1 - pos
  {
    if pos > |s| then Matches([], None)
    else
      match MatchAt(s, p, pos)
      case Panic(msg) => Matches([], Some(msg))
      case Fail => AllMatches(s, p, pos + 1, last)
      case End(e, caps) =>
        if e == last then AllMatches(s, p, pos + 1, last)
        else Prepend(Match(pos, e, caps), AllMatches(s, p, if e == pos then pos + 1 else e, e))
  }

  /** Matches in order, each where the matcher found it, none overlapping the one before, ends strictly increasing. */
  ghost predicate InOrder(s: string, p: string, ms: seq<Match>, pos: nat, last: int) {
    && (forall i :: 0 <= i < |ms| ==> pos <= ms[i].start <= ms[i].end <= |s| && MatchAt(s, p, ms[i].start) == End(ms[i].end, ms[i].caps))
    && (forall i :: 0 <= i < |ms| ==> ms[i].end > last)
    && (forall i, j :: 0 <= i < j < |ms| ==> ms[i].end < ms[j].end && ms[i].end <= ms[j].start)
  }

  lemma FirstInOrder(s: string, p: string, m: Match, ms: seq<Match>, pos': nat, last: int)
    requires m.start <= m.end <= |s| && m.end > last && m.end <= pos' && MatchAt(s, p, m.start) == End(m.end, m.caps)
    requires m.start <= pos' && InOrder(s, p, ms, pos', m.end)
    ensures InOrder(s, p, [m] + ms, m.start, last)
  {
    hide MatchAt;
  }

  lemma {:induction false} MatchesInOrder(s: string, p: string, pos: nat, last: int)
    requires last <= pos
    ensures InOrder(s, p, AllMatches(s, p, pos, last).ms, pos, last)
    decreases |s| + 1 - pos
  {
    hide MatchAt;
    if pos <= |s| {
      match MatchAt(s, p, pos)
      case Panic(_) =>
      case Fail => MatchesInOrder(s, p, pos + 1, last);
      case End(e, caps) =>
        if e == last {
          MatchesInOrder(s, p, pos + 1, last);
        } else {
          var pos' := if e == pos then pos + 1 else e;
          MatchesInOrder(s, p, pos', e);
          FirstInOrder(s, p, Match(pos, e, caps), AllMatches(s, p, pos', e).ms, pos', last);
        }
    }
  }

  /** At most one match per position. */
  lemma {:induction false} MatchesBounded(s: string, p: string, pos: nat, last: int)
    requires pos <= |s| + 1
    ensures |AllMatches(s, p, pos, last).ms| <= |s| + 1 - pos
    decreases |s| + 1 - pos
  {
    hide MatchAt;
    if pos <= |s| {
      match MatchAt(s, p, pos)
      case Panic(_) =>
      case Fail => MatchesBounded(s, p, pos + 1, last);
      case End(e, caps) =>
        if e == last {
          MatchesBounded(s, p, pos + 1, last);
        } else {
          MatchesBounded(s, p, if e == pos then pos + 1 else e, e);
        }
    }
  }

  /** No match is missed: before the first one, a position matches nothing or only what ends at the last match. */
  lemma {:induction false} NoneMissed(s: string, p: string, pos: nat, last: int, j: nat)
    requires pos <= j <= |s|
    requires var r := AllMatches(s, p, pos, last); if r.ms == [] then r.err.None? else j < r.ms[0].start
    ensures MatchAt(s, p, j) == Fail || (MatchAt(s, p, j).End? && MatchAt(s, p, j).e == last)
    decreases |s| + 1 - pos
  {
    hide MatchAt;
    if pos < j {
      NoneMissed(s, p, pos + 1, last, j);
    }
  }

  /** Nor between two matches, nor after the last one. */
  lemma {:induction false} NoneMissedBetween(s: string, p: string, pos: nat, last: int, i: nat, j: nat)
    requires var r := AllMatches(s, p, pos, last);
             i < |r.ms| && r.ms[i].end <= j <= |s| && (if i + 1 < |r.ms| then j < r.ms[i + 1].start else r.err.None?)
    ensures var e := AllMatches(s, p, pos, last).ms[i].end;
            MatchAt(s, p, j) == Fail || (MatchAt(s, p, j).End? && MatchAt(s, p, j).e == e)
    decreases |s| + 1 - pos
  {
    hide MatchAt;
    match MatchAt(s, p, pos)
    case Fail => NoneMissedBetween(s, p, pos + 1, last, i, j);
    case End(e, caps) =>
      var pos' := if e == pos then pos + 1 else e;
      if e == last {
        NoneMissedBetween(s, p, pos + 1, last, i, j);
      } else if i > 0 {
        NoneMissedBetween(s, p, pos', e, i - 1, j);
      } else {
        var (r, rest) := (AllMatches(s, p, pos, last), AllMatches(s, p, pos', e));
        assert rest.ms == r.ms[1..] && rest.err == r.err;
        assert rest.ms != [] ==> rest.ms[0] == r.ms[1];
        AfterOne(s, p, pos', e, rest, j);
      }
  }

  /** The rest of the matches, from just past the match that ended at e. */
  lemma {:induction false} AfterOne(s: string, p: string, pos: nat, e: nat, rest: Matches, j: nat)
    requires rest == AllMatches(s, p, pos, e) && (pos == e || (pos == e + 1 && e <= |s| && MatchAt(s, p, e).End? && MatchAt(s, p, e).e == e))
    requires e <= j <= |s| && if rest.ms != [] then j < rest.ms[0].start else rest.err.None?
    ensures MatchAt(s, p, j) == Fail || (MatchAt(s, p, j).End? && MatchAt(s, p, j).e == e)
  {
    hide MatchAt, AllMatches;
    if j >= pos { NoneMissed(s, p, pos, e, j); }
  }

  const UNFINISHED := "unfinished capture"

  predicate HasUnfinished(caps: seq<Slot>) {
    exists i :: 0 <= i < |caps| && caps[i].Unfinished?
  }

  /** The state of a gmatch iterator. */
  class GmatchState {
    var pos: nat
    var lastMatch: int

    constructor (s: string, init: int)
      ensures pos == StartOf(|s|, init) && lastMatch == -1
    {
      pos, lastMatch := StartOf(|s|, init), -1;
    }

    /** One call of the iterator takes the first of the remaining matches. */
    method Next(s: string, p: string) returns (r: Found)
      modifies this
      ensures var all := AllMatches(s, p, old(pos), old(lastMatch));
              match r
              case FoundAt(m) => all == Prepend(m, AllMatches(s, p, pos, lastMatch)) && !HasUnfinished(m.caps)
              case NotFound => all == Matches([], None)
              case Raised(msg) => if all.ms == [] then all.err == Some(msg) else msg == UNFINISHED && HasUnfinished(all.ms[0].caps)
    {
      hide MatchAt;
      while pos <= |s|
        invariant AllMatches(s, p, pos, lastMatch) == AllMatches(s, p, old(pos), old(lastMatch))
        decreases |s| + 1 - pos
      {
        var o := LuaMatchAt(s, p, pos);
        if o.Panic? {
          return Raised(o.msg);
        }
        if o.End? && o.e != lastMatch {
          var m := Match(pos, o.e, o.caps);
          lastMatch := o.e;
          pos := if o.e == pos then pos + 1 else o.e;
          if HasUnfinished(o.caps) {
            return Raised(UNFINISHED);
          }
          return FoundAt(m);
        }
        pos := pos + 1;
      }
      r := NotFound;
    }
  }

  // -- gsub ---------------------------------------------------------------------------------------

  /** What a replacement function, table or string gives for a match. */
  datatype Answer = Text(t: string) | Keep | Error(msg: string)

  type Repl = (nat, Match) -> Answer

  function Replaced(s: string, m: Match, a: Answer): string
    requires m.start <= m.end <= |s|
  {
    if a.Text? then a.t else s[m.start..m.end]
  }

  /** Matches that can be cut out of s one after the other. */
  predicate Disjoint(s: string, ms: seq<Match>) {
    && (forall i :: 0 <= i < |ms| ==> ms[i].start <= ms[i].end <= |s|)
    && (forall i, j :: 0 <= i < j < |ms| ==> ms[i].end <= ms[j].start)
  }

  function EndOf(ms: seq<Match>): nat {
    if ms == [] then 0 else ms[|ms| - 1].end
  }

  /** s up to the end of the last match, with match k replaced by repl(k, ms[k]). */
  function Built(s: string, ms: seq<Match>, repl: Repl): string
    requires Disjoint(s, ms)
  {
    if ms == [] then ""
    else
      var (init, m) := (ms[..|ms| - 1], ms[|ms| - 1]);
      Built(s, init, repl) + s[EndOf(init)..m.start] + Replaced(s, m, repl(|ms| - 1, m))
  }

  function Spliced(s: string, ms: seq<Match>, repl: Repl): string
    requires Disjoint(s, ms)
  {
    Built(s, ms, repl) + s[EndOf(ms)..]
  }

  /** Replacing every match by itself rebuilds s. */
  lemma {:induction false} SplicedSame(s: string, ms: seq<Match>, repl: Repl)
    requires Disjoint(s, ms)
    requires forall k :: 0 <= k < |ms| ==> Replaced(s, ms[k], repl(k, ms[k])) == s[ms[k].start..ms[k].end]
    ensures Built(s, ms, repl) == s[..EndOf(ms)] && Spliced(s, ms, repl) == s
  {
    if ms == [] {
      CutThree(s, 0, 0, 0);
    } else {
      var (init, m) := (ms[..|ms| - 1], ms[|ms| - 1]);
      SplicedSame(s, init, repl);
      hide Built;
      CutThree(s, EndOf(init), m.start, m.end);
    }
  }

  lemma CutThree(s: string, a: nat, b: nat, c: nat)
    requires a <= b <= c <= |s|
    ensures s[..a] + s[a..b] + s[b..c] == s[..c] && s[..c] + s[c..] == s
  {
  }

  /** The matches gsub replaces when nothing stops it: all of them, or the one at the start if the pattern is anchored. */
  function GsubMatches(s: string, pattern: string): Matches {
    if pattern != "" && pattern[0] == '^' then
      match MatchAt(s, pattern[1..], 0)
      case Panic(msg) => Matches([], Some(msg))
      case Fail => Matches([], None)
      case End(e, caps) => Matches([Match(0, e, caps)], None)
    else AllMatches(s, pattern, 0, -1)
  }

  datatype GsubResult = Ok(text: string, count: nat) | Failed(msg: string)

  predicate Clean(ms: seq<Match>, repl: Repl) {
    forall k :: 0 <= k < |ms| ==> !repl(k, ms[k]).Error?
  }

  /** The outcome of gsub with at most max replacements (any number if max is negative). */
  ghost predicate GsubIs(s: string, all: Matches, max: int, repl: Repl, r: GsubResult) {
    var n := if max < 0 || |all.ms| < max then |all.ms| else max;
    match r
    case Ok(text, count) =>
      && count == n && Clean(all.ms[..n], repl) && Disjoint(s, all.ms[..n]) && text == Spliced(s, all.ms[..n], repl)
      && (all.err.Some? ==> n == max)
    case Failed(msg) =>
      || (exists k :: 0 <= k < n && repl(k, all.ms[k]) == Error(msg) && Clean(all.ms[..k], repl))
      || (all.err == Some(msg) && Clean(all.ms, repl) && (max < 0 || |all.ms| < max))
  }

  lemma {:induction false} BuiltMore(s: string, ms: seq<Match>, m: Match, repl: Repl)
    requires Disjoint(s, ms) && EndOf(ms) <= m.start <= m.end <= |s|
    ensures Disjoint(s, ms + [m]) && EndOf(ms + [m]) == m.end
    ensures Built(s, ms + [m], repl) == Built(s, ms, repl) + s[EndOf(ms)..m.start] + Replaced(s, m, repl(|ms|, m))
  {
    assert (ms + [m])[..|ms|] == ms;
  }

  lemma CopyMore(s: string, from: nat, pos: nat)
    requires from <= pos < |s|
    ensures s[from..pos] + [s[pos]] == s[from..pos + 1]
  {
  }

  /** What gsub has built when it stands at pos. */
  ghost predicate BuiltTo(s: string, done: seq<Match>, repl: Repl, pos: nat, result: string) {
    Disjoint(s, done) && EndOf(done) <= pos && EndOf(done) <= |s|
    && result == Built(s, done, repl) + s[EndOf(done)..if pos <= |s| then pos else |s|]
  }

  /** The character at pos, if there is one. */
  function Here(s: string, pos: nat): string {
    if pos < |s| then [s[pos]] else ""
  }

  /** One step without a match copies a character. */
  lemma CopyStep(s: string, done: seq<Match>, repl: Repl, pos: nat, result: string)
    requires BuiltTo(s, done, repl, pos, result) && pos <= |s|
    ensures BuiltTo(s, done, repl, pos + 1, result + Here(s, pos))
  {
    var b := Built(s, done, repl);
    if pos < |s| {
      CopyMore(s, EndOf(done), pos);
      assert b + s[EndOf(done)..pos] + [s[pos]] == b + (s[EndOf(done)..pos] + [s[pos]]);
    } else {
      assert result + "" == result;
    }
  }

  lemma MatchStep(s: string, done: seq<Match>, repl: Repl, pos: nat, result: string, m: Match)
    requires BuiltTo(s, done, repl, pos, result) && m.start == pos <= m.end <= |s|
    ensures BuiltTo(s, done + [m], repl, m.end, result + Replaced(s, m, repl(|done|, m)))
  {
    BuiltMore(s, done, m, repl);
  }

  lemma ReplFails(s: string, all: Matches, done: seq<Match>, max: int, repl: Repl, msg: string)
    requires done < all.ms && Clean(done, repl) && (max < 0 || |done| < max)
    requires repl(|done|, all.ms[|done|]) == Error(msg)
    ensures GsubIs(s, all, max, repl, Failed(msg))
  {
    assert all.ms[..|done|] == done;
  }

  /** Those already replaced and those still to come. */
  predicate Parts(all: Matches, done: seq<Match>, rest: Matches) {
    all == Matches(done + rest.ms, rest.err)
  }

  lemma NoneDone(all: Matches)
    ensures Parts(all, [], all)
  {
    assert [] + all.ms == all.ms;
  }

  lemma MatcherFails(s: string, all: Matches, done: seq<Match>, max: int, repl: Repl, msg: string)
    requires Parts(all, done, Matches([], Some(msg))) && Clean(done, repl) && (max < 0 || |done| < max)
    ensures GsubIs(s, all, max, repl, Failed(msg))
  {
    assert done + [] == done;
  }

  predicate Anchored(pattern: string) {
    pattern != "" && pattern[0] == '^'
  }

  /** The matches gsub still has to see at pos; an anchored pattern is tried once. */
  function Remaining(s: string, pattern: string, pos: nat, last: int): Matches {
    if !Anchored(pattern) then AllMatches(s, pattern, pos, last)
    else if pos == 0 && last == -1 then GsubMatches(s, pattern)
    else Matches([], None)
  }

  lemma NoneRemain(s: string, pattern: string, pos: nat, last: int)
    requires pos > |s| || (Anchored(pattern) && pos > 0)
    ensures Remaining(s, pattern, pos, last) == Matches([], None)
  {
    hide MatchAt;
  }

  lemma RemainPanic(s: string, pattern: string, pos: nat, last: int, msg: string)
    requires pos <= |s| && (Anchored(pattern) ==> pos == 0 && last == -1) && MatchAt(s, Unanchored(pattern), pos) == Panic(msg)
    ensures Remaining(s, pattern, pos, last) == Matches([], Some(msg))
  {
    hide MatchAt;
  }

  lemma RemainMatch(s: string, pattern: string, pos: nat, last: int, e: nat, caps: seq<Slot>)
    requires pos <= |s| && (Anchored(pattern) ==> pos == 0 && last == -1) && MatchAt(s, Unanchored(pattern), pos) == End(e, caps) && e != last
    ensures Remaining(s, pattern, pos, last) == Prepend(Match(pos, e, caps), Remaining(s, pattern, if e == pos then pos + 1 else e, e))
  {
    hide MatchAt;
  }

  lemma RemainSkip(s: string, pattern: string, pos: nat, last: int)
    requires pos <= |s| && (Anchored(pattern) ==> pos == 0 && last == -1)
    requires var o := MatchAt(s, Unanchored(pattern), pos); o.Fail? || (o.End? && o.e == last)
    ensures Remaining(s, pattern, pos, last) == Remaining(s, pattern, pos + 1, last)
  {
    hide MatchAt;
  }

  /** stringGsub's loop. */
  method Gsub(s: string, pattern: string, repl: Repl, max: int) returns (r: GsubResult)
    ensures GsubIs(s, GsubMatches(s, pattern), max, repl, r)
  {
    hide MatchAt, Disjoint, Built, BuiltTo, Spliced, AllMatches, Remaining, Here, Replaced, GsubIs, GsubMatches, Clean, AllKeep, Parts;
    var anchored := pattern != "" && pattern[0] == '^';
    var searchPat := Unanchored(pattern);
    var (result, count, changed) := ("", 0, false);
    var pos: nat, lastMatch: int := 0, -1;
    ghost var all := GsubMatches(s, pattern);
    ghost var done: seq<Match> := [];
    ghost var rest := all;
    AllRemain(s, pattern);
    NothingBuilt(s, repl);
    NoneDone(all);
    while pos <= |s| && (max < 0 || count < max)
      invariant count == |done| && Parts(all, done, rest) && Clean(done, repl) && (max >= 0 ==> count <= max)
      invariant rest == Remaining(s, pattern, pos, lastMatch) && (anchored ==> pos == 0 && lastMatch == -1)
      invariant BuiltTo(s, done, repl, pos, result)
      invariant !changed ==> AllKeep(done, repl)
      decreases |s| + 1 - pos
    {
      var o := LuaMatchAt(s, searchPat, pos);
      if o.Panic? {
        RemainPanic(s, pattern, pos, lastMatch, o.msg);
        MatcherFails(s, all, done, max, repl, o.msg);
        return Failed(o.msg);
      }
      if o.End? && o.e != lastMatch {
        var m := Match(pos, o.e, o.caps);
        RemainMatch(s, pattern, pos, lastMatch, o.e, o.caps);
        var a := repl(count, m);
        OneDone(all, done, rest, m, repl);
        if a.Error? {
          ReplFails(s, all, done, max, repl, a.msg);
          return Failed(a.msg);
        }
        MatchStep(s, done, repl, pos, result, m);
        changed := changed || a.Text?;
        result := result + Replaced(s, m, a);
        count := count + 1;
        lastMatch := o.e;
        done, rest := done + [m], Matches(rest.ms[1..], rest.err);
        if o.e == pos {
          CopyStep(s, done, repl, pos, result);
          result := result + Here(s, pos);
          pos := pos + 1;
        } else {
          pos := o.e;
        }
      } else {
        RemainSkip(s, pattern, pos, lastMatch);
        CopyStep(s, done, repl, pos, result);
        result := result + Here(s, pos);
        pos := pos + 1;
      }
      if anchored {
        break;
      }
    }
    if max < 0 || count < max { NoneRemain(s, pattern, pos, lastMatch); }
    RestOfText(s, done, repl, pos, result);
    if pos <= |s| {
      result := result + s[pos..];
    }
    if !changed {
      AllKept(s, done, repl);
      result := s;
    }
    GsubEnds(s, all, done, rest, max, repl, result);
    r := Ok(result, count);
  }

  lemma AllRemain(s: string, pattern: string)
    ensures GsubMatches(s, pattern) == Remaining(s, pattern, 0, -1)
  {
    hide MatchAt;
  }

  lemma GsubEnds(s: string, all: Matches, done: seq<Match>, rest: Matches, max: int, repl: Repl, text: string)
    requires Parts(all, done, rest) && Clean(done, repl) && Disjoint(s, done) && text == Spliced(s, done, repl)
    requires rest == Matches([], None) || |done| == max
    requires max >= 0 ==> |done| <= max
    ensures GsubIs(s, all, max, repl, Ok(text, |done|))
  {
    hide Disjoint, Spliced;
    assert rest.ms == [] ==> all.ms == done;
    assert all.ms[..|done|] == done;
  }

  lemma NothingBuilt(s: string, repl: Repl)
    ensures BuiltTo(s, [], repl, 0, "") && Clean([], repl) && AllKeep([], repl)
  {
  }

  predicate AllKeep(done: seq<Match>, repl: Repl) {
    forall k :: 0 <= k < |done| ==> repl(k, done[k]).Keep?
  }

  /** The next of the remaining matches has been replaced. */
  lemma OneDone(all: Matches, done: seq<Match>, rest: Matches, m: Match, repl: Repl)
    requires Parts(all, done, rest) && rest.ms != [] && rest.ms[0] == m && Clean(done, repl)
    ensures Parts(all, done + [m], Matches(rest.ms[1..], rest.err)) && done < all.ms && all.ms[|done|] == m
    ensures !repl(|done|, m).Error? ==> Clean(done + [m], repl)
    ensures AllKeep(done, repl) && repl(|done|, m).Keep? ==> AllKeep(done + [m], repl)
  {
    assert done + rest.ms == done + [m] + rest.ms[1..];
  }

  lemma RestOfText(s: string, done: seq<Match>, repl: Repl, pos: nat, result: string)
    requires BuiltTo(s, done, repl, pos, result)
    ensures Disjoint(s, done) && Spliced(s, done, repl) == if pos <= |s| then result + s[pos..] else result
  {
    var b := Built(s, done, repl);
    if pos <= |s| {
      assert s[EndOf(done)..pos] + s[pos..] == s[EndOf(done)..];
      assert b + s[EndOf(done)..pos] + s[pos..] == b + (s[EndOf(done)..pos] + s[pos..]);
    } else {
      assert s[EndOf(done)..|s|] == s[EndOf(done)..];
    }
  }

  lemma AllKept(s: string, done: seq<Match>, repl: Repl)
    requires Disjoint(s, done) && AllKeep(done, repl)
    ensures Spliced(s, done, repl) == s
  {
    SplicedSame(s, done, repl);
  }

  // -- replacement strings -----------------------------------------------------------------------

  function Decimal(n: nat): string {
    (if n < 10 then "" else Decimal(n / 10)) + [(n % 10 + '0' as int) as char]
  }

  const BAD_PERCENT := "invalid use of '%' in replacement string"

  /** Capture idx of a match; without captures the whole match counts as the first. */
  function CaptureText(s: string, m: Match, idx: nat): Answer
    requires m.start <= m.end <= |s| && Within(m.caps, m.end)
  {
    if idx == 0 || (idx == 1 && m.caps == []) then Text(s[m.start..m.end])
    else if idx > |m.caps| then Error(BAD_BACKREF + Decimal(idx))
    else
      match m.caps[idx - 1]
      case Unfinished(_) => Error(UNFINISHED)
      case Position(init) => Text(Decimal(init + 1))
      case Span(init, len) =>
        assert SlotEnd(m.caps[idx - 1]) <= m.end;
        Text(s[init..init + len])
  }

  function Append(a: Answer, b: Answer): Answer {
    if !a.Text? then a else if !b.Text? then b else Text(a.t + b.t)
  }

  /** A replacement string from i on. */
  function Expand(repl: string, i: nat, s: string, m: Match): (a: Answer)
    requires m.start <= m.end <= |s| && Within(m.caps, m.end)
    ensures !a.Keep?
    decreases |repl| - i
  {
    if i >= |repl| then Text("")
    else if repl[i] != '%' then Append(Text([repl[i]]), Expand(repl, i + 1, s, m))
    else if i + 1 >= |repl| then Error(BAD_PERCENT)
    else if IsDigit(repl[i + 1]) then
      Append(CaptureText(s, m, repl[i + 1] as int - '0' as int), Expand(repl, i + 2, s, m))
    else if repl[i + 1] == '%' then Append(Text("%"), Expand(repl, i + 2, s, m))
    else Error(BAD_PERCENT)
  }

  lemma AppendText(a: string, b: Answer, c: Answer)
    ensures Append(Text(a), Append(b, c)) == Append(Append(Text(a), b), c)
    ensures Append(Text(a), Text("")) == Text(a) && Append(Text(""), c) == if c.Keep? then Keep else c
  {
    if b.Text? && c.Text? {
      assert a + (b.t + c.t) == a + b.t + c.t;
    }
  }

  method ExpandReplacement(repl: string, s: string, m: Match) returns (a: Answer)
    requires m.start <= m.end <= |s| && Within(m.caps, m.end)
    ensures a == Expand(repl, 0, s, m)
  {
    hide Within, CaptureText, Append;
    var result := "";
    var i := 0;
    AppendText("", Text(""), Expand(repl, 0, s, m));
    while i < |repl|
      invariant 0 <= i <= |repl| && Append(Text(result), Expand(repl, i, s, m)) == Expand(repl, 0, s, m)
    {
      var piece: Answer, next: nat;
      if repl[i] == '%' {
        if i + 1 >= |repl| {
          ErrorStops(result, Error(BAD_PERCENT), Text(""));
          return Error(BAD_PERCENT);
        }
        if IsDigit(repl[i + 1]) {
          piece, next := CaptureText(s, m, repl[i + 1] as int - '0' as int), i + 2;
        } else if repl[i + 1] == '%' {
          piece, next := Text("%"), i + 2;
        } else {
          ErrorStops(result, Error(BAD_PERCENT), Text(""));
          return Error(BAD_PERCENT);
        }
      } else {
        piece, next := Text([repl[i]]), i + 1;
      }
      if !piece.Text? {
        ErrorStops(result, piece, Expand(repl, next, s, m));
        return piece;
      }
      AppendText(result, piece, Expand(repl, next, s, m));
      ErrorStops(result, piece, Text(""));
      result, i := result + piece.t, next;
    }
    AppendText(result, Text(""), Text(""));
    a := Text(result);
  }

  lemma ErrorStops(a: string, b: Answer, c: Answer)
    ensures !b.Text? ==> Append(Text(a), Append(b, c)) == b && Append(Text(a), b) == b
    ensures b.Text? ==> Append(Text(a), b) == Text(a + b.t)
  {
  }

  /** A text with every '%' doubled. */
  function Quoted(t: string): string {
    if t == "" then "" else (if t[0] == '%' then "%%" else [t[0]]) + Quoted(t[1..])
  }

  lemma {:induction false} ExpandShift(a: string, b: string, i: nat, s: string, m: Match)
    requires m.start <= m.end <= |s| && Within(m.caps, m.end)
    ensures Expand(a + b, |a| + i, s, m) == Expand(b, i, s, m)
    decreases |b| - i
  {
    hide Within, CaptureText, Append;
    if i < |b| {
      assert (a + b)[|a| + i] == b[i];
      ExpandShift(a, b, i + 1, s, m);
      if i + 1 < |b| {
        assert (a + b)[|a| + i + 1] == b[i + 1];
        ExpandShift(a, b, i + 2, s, m);
      }
    }
  }

  /** A quoted text stands for itself. */
  lemma {:induction false} QuotedExpands(t: string, s: string, m: Match)
    requires m.start <= m.end <= |s| && Within(m.caps, m.end)
    ensures Expand(Quoted(t), 0, s, m) == Text(t)
  {
    hide Within, CaptureText;
    if t != "" {
      var first := if t[0] == '%' then "%%" else [t[0]];
      QuotedExpands(t[1..], s, m);
      ExpandShift(first, Quoted(t[1..]), 0, s, m);
      assert [t[0]] + t[1..] == t;
    }
  }

  /** gsub with a replacement string. */
  function StringRepl(repl: string, s: string): Repl {
    (k: nat, m: Match) => if m.start <= m.end <= |s| && Within(m.caps, m.end) then Expand(repl, 0, s, m) else Keep
  }

  /** gsub(s, p, "%0") returns s, whatever p is and however many matches are replaced. */
  lemma GsubWhole(s: string, pattern: string, max: int, r: GsubResult)
    requires GsubIs(s, GsubMatches(s, pattern), max, StringRepl("%0", s), r)
    ensures r.Ok? ==> r.text == s
  {
    if r.Ok? {
      var ms := GsubMatches(s, pattern).ms[..r.count];
      hide GsubMatches;
      forall k | 0 <= k < |ms|
        ensures Replaced(s, ms[k], StringRepl("%0", s)(k, ms[k])) == s[ms[k].start..ms[k].end]
      {
        WholeExpands(s, ms[k]);
      }
      SplicedSame(s, ms, StringRepl("%0", s));
    }
  }

  lemma WholeExpands(s: string, m: Match)
    requires m.start <= m.end <= |s|
    ensures Replaced(s, m, StringRepl("%0", s)(0, m)) == s[m.start..m.end]
    ensures forall k: nat :: StringRepl("%0", s)(k, m) == StringRepl("%0", s)(0, m)
  {
    hide Within;
    if Within(m.caps, m.end) {
      assert Expand("%0", 2, s, m) == Text("");
      assert Expand("%0", 0, s, m) == Append(CaptureText(s, m, 0), Text(""));
      assert s[m.start..m.end] + "" == s[m.start..m.end];
    }
  }
}
