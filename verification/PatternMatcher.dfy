/**
 The matcher as the program runs it: one capture stack updated in place and
 restored when a branch fails, recursion for captures and repetitions, a loop
 for everything that can go on in the same frame.
*/
module PatternMatcher {
  import opened Wrappers
  import opened PatternSyntax
  import opened PatternSpec

  // -- reading items -----------------------------------------------------------------

  method ParseCharSetElems(set_: string) returns (elems: seq<Elem>)
    ensures elems == SetElems(set_, 0)
  {
    hide Escaped;
    elems := [];
    var i := 0;
    while i < |set_|
      invariant 0 <= i <= |set_| && elems + SetElems(set_, i) == SetElems(set_, 0)
    {
      var e: Elem, next: nat;
      if set_[i] == '%' && i + 1 < |set_| {
        e, next := Escaped(set_[i + 1]), i + 2;
      } else if i + 2 < |set_| && set_[i + 1] == '-' {
        e, next := Range(set_[i], set_[i + 2]), i + 3;
      } else {
        e, next := Literal(set_[i]), i + 1;
      }
      MoveOne(elems, e, SetElems(set_, next));
      elems, i := elems + [e], next;
    }
  }

  lemma MoveOne(a: seq<Elem>, e: Elem, b: seq<Elem>)
    ensures a + ([e] + b) == (a + [e]) + b
  {
  }

  method ParseCharSetAt(p: string, pp: nat) returns (r: ParsedElem)
    requires pp < |p|
    ensures r == SetAt(p, pp)
  {
    var neg := false;
    var start := pp + 1;
    if start < |p| && p[start] == '^' {
      neg := true;
      start := start + 1;
    }
    var end := start;
    if end < |p| && p[end] == ']' {
      end := end + 1;
    }
    while end < |p| && p[end] != ']'
      invariant start <= end <= |p| && SetEnd(p, end) == SetClose(p, pp)
    {
      if p[end] == '%' && end + 1 < |p| {
        end := end + 2;
      } else {
        end := end + 1;
      }
    }
    if end >= |p| {
      return BadElem(MISSING_BRACKET);
    }
    var elems := ParseCharSetElems(p[start..end]);
    r := ParsedElem(CharSet(elems, neg), end + 1);
  }

  method GetPatternElem(p: string, pp: nat) returns (r: ParsedElem)
    requires pp < |p|
    ensures r == ElemAt(p, pp)
  {
    if p[pp] == '%' {
      if pp + 1 >= |p| {
        return BadElem(ENDS_WITH_PERCENT);
      }
      return ParsedElem(Escaped(p[pp + 1]), pp + 2);
    }
    if p[pp] == '[' {
      r := ParseCharSetAt(p, pp);
      return;
    }
    if p[pp] == '.' {
      return ParsedElem(AnyChar, pp + 1);
    }
    r := ParsedElem(Literal(p[pp]), pp + 1);
  }

  // -- the match state --------------------------------------------------------------------

  /** What match returns: -1, an end position, or a panic on its way up. */
  datatype Result = NoMatch | EndsAt(e: nat) | Panicked(msg: string)

  class MatchState {
    const s: string
    const p: string
    const cap: array<Slot>
    var level: nat
    var depth: nat

    constructor (s: string, p: string)
      ensures this.s == s && this.p == p && fresh(cap) && Valid() && level == 0 && depth == 0
    {
      this.s, this.p := s, p;
      cap := new Slot[MAX_CAPTURES](_ => Unfinished(0));
      level, depth := 0, 0;
    }

    ghost predicate Valid()
      reads this
    {
      cap.Length == MAX_CAPTURES && level <= MAX_CAPTURES
    }

    /** The captures of the current branch. */
    ghost function Live(): seq<Slot>
      reads this, cap
      requires Valid()
    {
      cap[..level]
    }

    ghost predicate Ready(si: nat)
      reads this, cap
    {
      Valid() && si <= |s| && Within(Live(), si)
    }

    /**
     The result is that of the stateless matcher, the captures of a match are the live ones,
     and after a failure the captures are as they were.
    */
    ghost predicate Refines(r: Result, o: Outcome, before: seq<Slot>)
      reads this, cap
    {
      && Valid()
      && match o
         case End(e, c) => r == EndsAt(e) && Live() == c
         case Fail => r == NoMatch && Live() == before
         case Panic(msg) => r == Panicked(msg)
    }

    /** match: one more level. */
    method Match(si: nat, pp: nat) returns (r: Result)
      requires Ready(si)
      modifies this, cap
      ensures Refines(r, Enter(s, p, pp, si, old(Live()), old(depth)), old(Live())) && depth == old(depth)
      decreases |p| - pp, 1, 0
    {
      hide First, Within;
      depth := depth + 1;
      if depth > MAX_MATCH_CALLS {
        r := Panicked(TOO_COMPLEX);
      } else {
        r := MatchHere(si, pp);
      }
      depth := depth - 1;
    }

    /** The loop of match: items that need no branch point stay in this frame. */
    method MatchHere(si0: nat, pp0: nat) returns (r: Result)
      requires Ready(si0)
      modifies this, cap
      ensures Refines(r, First(s, p, pp0, si0, old(Live()), depth), old(Live())) && depth == old(depth)
      decreases |p| - pp0, 0, 1
    {
      hide Enter, Greedy, LazyRun, Within, Accepts, BalanceEnd, MaxRun, LastOpen;
      var si: nat, pp: nat := si0, pp0;
      ghost var caps := Live();
      while true
        invariant Ready(si) && Live() == caps == old(Live()) && depth == old(depth) && pp0 <= pp
        invariant First(s, p, pp, si, caps, depth) == First(s, p, pp0, si0, caps, depth)
        decreases |p| - pp
      {
        if pp >= |p| {
          return EndsAt(si);
        }
        var ch := p[pp];
        if ch == '(' {
          if pp + 1 < |p| && p[pp + 1] == ')' {
            r := MatchPosCapture(si, pp);
          } else {
            r := MatchOpenCapture(si, pp);
          }
          return;
        }
        if ch == ')' {
          r := MatchCloseCapture(si, pp);
          return;
        }
        if ch == '$' && pp + 1 == |p| {
          r := if si == |s| then EndsAt(si) else NoMatch;
          return;
        }
        if ch == '%' && pp + 1 < |p| && (p[pp + 1] == 'b' || p[pp + 1] == 'f' || IsDigit(p[pp + 1])) {
          var out, next := MatchSpecial(si, pp);
          if !out.EndsAt? {
            return out;
          }
          si, pp := out.e, next;
          continue;
        }
        var goOn: bool, nsi: nat, next: nat;
        r, goOn, nsi, next := MatchElement(si, pp);
        if !goOn {
          return;
        }
        si, pp := nsi, next;
      }
    }

    /** One element and its modifier: either the result, or where to go on in the same frame. */
    method MatchElement(si: nat, pp: nat) returns (r: Result, goOn: bool, nsi: nat, next: nat)
      requires Ready(si) && (ItemAt(p, pp).Repeat? || ItemAt(p, pp).Bad?) && ItemAt(p, pp) == RepeatAt(p, pp)
      modifies this, cap
      ensures depth == old(depth)
      ensures !goOn ==> Refines(r, First(s, p, pp, si, old(Live()), depth), old(Live()))
      ensures goOn ==> pp < next <= |p| && Ready(nsi) && Live() == old(Live())
                       && First(s, p, next, nsi, Live(), depth) == First(s, p, pp, si, Live(), depth)
      decreases |p| - pp, 0, 0
    {
      hide Enter, Greedy, LazyRun, Within, Accepts, MaxRun, ElemAt;
      ghost var caps := Live();
      r, goOn, nsi, next := NoMatch, false, si, pp;
      var elem := GetPatternElem(p, pp);
      if elem.BadElem? {
        r := Panicked(elem.msg);
        return;
      }
      var rep := if elem.next < |p| then RepOf(p[elem.next]) else One;
      next := if rep == One then elem.next else elem.next + 1;
      assert ItemAt(p, pp) == Repeat(elem.e, rep, next);
      hide ItemAt, RepeatAt, RepOf;
      if !(si < |s| && Accepts(elem.e, s[si])) {
        goOn := rep == Star || rep == Lazy || rep == Opt;
        return;
      }
      WithinLater(caps, si, si + 1);
      match rep
      case Star => r := MatchGreedy(si, next, elem.e, 0);
      case Plus => r := MatchGreedy(si, next, elem.e, 1);
      case Lazy => r := MatchLazy(si, next, elem.e);
      case Opt =>
        r := Match(si + 1, next);
        goOn := r.NoMatch?;
      case One =>
        goOn, nsi := true, si + 1;
    }

    /** %b, %f, %0 to %9: on success the match goes on at (r.e, next) in the same frame. */
    method MatchSpecial(si: nat, pp: nat) returns (r: Result, next: nat)
      requires Ready(si) && pp + 1 < |p| && p[pp] == '%' && (p[pp + 1] == 'b' || p[pp + 1] == 'f' || IsDigit(p[pp + 1]))
      ensures var o := First(s, p, pp, si, Live(), depth);
              match r
              case EndsAt(e) => pp < next <= |p| && Ready(e) && o == First(s, p, next, e, Live(), depth)
              case NoMatch => o == Fail
              case Panicked(msg) => o == Panic(msg)
    {
      hide Enter, Greedy, LazyRun, Accepts, BalanceEnd;
      var c := p[pp + 1];
      next := pp + 2;
      if c == 'b' {
        r := MatchBalance(si, pp);
        next := pp + 4;
      } else if c == 'f' {
        r, next := MatchFrontier(si, pp);
      } else if c == '0' {
        r := Panicked(CAPTURE_ZERO);
      } else {
        r := MatchBackRef(si, pp);
      }
    }

    method MatchBalance(si: nat, pp: nat) returns (r: Result)
      requires si <= |s| && pp + 1 < |p|
      ensures r == if pp + 3 >= |p| then Panicked(MISSING_BALANCE)
                   else match BalanceEnd(s, si, p[pp + 2], p[pp + 3]) case Some(e) => EndsAt(e) case None => NoMatch
    {
      if pp + 3 >= |p| {
        return Panicked(MISSING_BALANCE);
      }
      var (open, close) := (p[pp + 2], p[pp + 3]);
      if si >= |s| || s[si] != open {
        return NoMatch;
      }
      if open == close {
        for j := si + 1 to |s|
          invariant NextChar(s, si + 1, open) == NextChar(s, j, open)
        {
          if s[j] == close {
            return EndsAt(j + 1);
          }
        }
        return NoMatch;
      }
      var nest := 1;
      var j := si + 1;
      while j < |s| && nest > 0
        invariant si < j <= |s| && nest >= 0 && BalanceScan(s, j, open, close, nest) == BalanceScan(s, si + 1, open, close, 1)
      {
        if s[j] == open {
          nest := nest + 1;
        } else if s[j] == close {
          nest := nest - 1;
        }
        j := j + 1;
      }
      r := if nest != 0 then NoMatch else EndsAt(j);
    }

    method MatchFrontier(si: nat, pp: nat) returns (r: Result, next: nat)
      requires si <= |s| && pp < |p|
      ensures match FrontierAt(p, pp)
              case Bad(msg) => r == Panicked(msg)
              case it => next == it.next && r == if Accepts(it.e, CharAt(s, si)) && !Accepts(it.e, CharBefore(s, si)) then EndsAt(si) else NoMatch
    {
      hide Accepts;
      next := pp;
      if pp + 2 >= |p| || p[pp + 2] != '[' {
        return Panicked(MISSING_FRONTIER), next;
      }
      var set_ := ParseCharSetAt(p, pp + 2);
      if set_.BadElem? {
        return Panicked(set_.msg), next;
      }
      next := set_.next;
      var prev := if si > 0 then s[si - 1] else '\0';
      var curr := if si < |s| then s[si] else '\0';
      r := if Accepts(set_.e, curr) && !Accepts(set_.e, prev) then EndsAt(si) else NoMatch;
    }

    method MatchBackRef(si: nat, pp: nat) returns (r: Result)
      requires Ready(si) && pp + 1 < |p| && '1' <= p[pp + 1] <= '9'
      ensures var l := p[pp + 1] as int - '1' as int;
              r == if l >= level || cap[l].Unfinished? then Panicked(BAD_BACKREF)
                   else if cap[l].Position? then NoMatch
                   else if si + cap[l].len <= |s| && s[si..si + cap[l].len] == s[cap[l].init..cap[l].init + cap[l].len]
                   then EndsAt(si + cap[l].len) else NoMatch
    {
      var l := p[pp + 1] as int - '1' as int;
      if l >= level || cap[l].Unfinished? {
        return Panicked(BAD_BACKREF);
      }
      if cap[l].Position? {
        return NoMatch;
      }
      assert SlotEnd(Live()[l]) <= si;
      var capStr := s[cap[l].init..cap[l].init + cap[l].len];
      if si + |capStr| > |s| || s[si..si + |capStr|] != capStr {
        return NoMatch;
      }
      r := EndsAt(si + |capStr|);
    }

    method MatchOpenCapture(si: nat, pp: nat) returns (r: Result)
      requires Ready(si) && pp < |p| && ItemAt(p, pp) == OpenCapture(pp + 1)
      modifies this, cap
      ensures Refines(r, First(s, p, pp, si, old(Live()), depth), old(Live())) && depth == old(depth)
      decreases |p| - pp, 0, 0
    {
      hide Enter;
      var level0 := level;
      if level0 >= MAX_CAPTURES {
        return Panicked(TOO_MANY_CAPTURES);
      }
      cap[level0] := Unfinished(si);
      level := level + 1;
      assert Live() == old(Live()) + [Unfinished(si)];
      r := Match(si, pp + 1);
      if r.NoMatch? {
        level := level0;
        assert Live() == (old(Live()) + [Unfinished(si)])[..level0];
      }
    }

    method MatchPosCapture(si: nat, pp: nat) returns (r: Result)
      requires Ready(si) && pp < |p| && ItemAt(p, pp) == PosCapture(pp + 2)
      modifies this, cap
      ensures Refines(r, First(s, p, pp, si, old(Live()), depth), old(Live())) && depth == old(depth)
      decreases |p| - pp, 0, 0
    {
      hide Enter;
      var level0 := level;
      if level0 >= MAX_CAPTURES {
        return Panicked(TOO_MANY_CAPTURES);
      }
      cap[level0] := Position(si);
      level := level + 1;
      assert Live() == old(Live()) + [Position(si)];
      r := Match(si, pp + 2);
      if r.NoMatch? {
        level := level0;
        assert Live() == (old(Live()) + [Position(si)])[..level0];
      }
    }

    method CaptureToClose() returns (l: int)
      requires Valid()
      ensures l == LastOpen(Live())
    {
      l := level - 1;
      while l >= 0
        invariant -1 <= l < level && LastOpen(cap[..l + 1]) == LastOpen(Live())
      {
        if cap[l].Unfinished? {
          return;
        }
        assert cap[..l + 1][..l] == cap[..l];
        l := l - 1;
      }
    }

    method MatchCloseCapture(si: nat, pp: nat) returns (r: Result)
      requires Ready(si) && pp < |p| && ItemAt(p, pp) == CloseCapture(pp + 1)
      modifies this, cap
      ensures Refines(r, First(s, p, pp, si, old(Live()), depth), old(Live())) && depth == old(depth)
      decreases |p| - pp, 0, 0
    {
      hide Enter, LastOpen;
      var l := CaptureToClose();
      if l < 0 {
        return Panicked(BAD_CLOSE);
      }
      ghost var before := Live();
      assert SlotEnd(before[l]) <= si;
      var init := cap[l].init;
      cap[l] := Span(init, si - init);
      assert Live() == before[l := Span(init, si - init)];
      r := Match(si, pp + 1);
      if r.NoMatch? {
        cap[l] := Unfinished(init);
        assert Live() == before[l := Span(init, si - init)][l := Unfinished(init)] == before;
      }
    }

    method MatchGreedy(si: nat, pp: nat, e: Elem, minCount: nat) returns (r: Result)
      requires Ready(si) && pp <= |p| && minCount <= 1 && si < |s| && Accepts(e, s[si])
      modifies this, cap
      ensures Refines(r, Greedy(s, p, pp, si, MaxRun(e, s, si), minCount, old(Live()), depth), old(Live())) && depth == old(depth)
      decreases |p| - pp, 2, 0
    {
      hide Enter, Accepts;
      ghost var caps := Live();
      var count: int := 0;
      while si + count < |s| && Accepts(e, s[si + count])
        invariant si + count <= |s| && MaxRun(e, s, si) == count + MaxRun(e, s, si + count)
      {
        count := count + 1;
      }
      while count >= minCount
        invariant -1 <= count && si + count <= |s| && Ready(si) && Live() == caps && depth == old(depth)
        invariant Greedy(s, p, pp, si, MaxRun(e, s, si), minCount, caps, depth) ==
                  if count < minCount then Fail else Greedy(s, p, pp, si, count, minCount, caps, depth)
        decreases count
      {
        WithinLater(caps, si, si + count);
        r := Match(si + count, pp);
        if !r.NoMatch? {
          return;
        }
        count := count - 1;
      }
      r := NoMatch;
    }

    method MatchLazy(si0: nat, pp: nat, e: Elem) returns (r: Result)
      requires Ready(si0) && pp <= |p|
      modifies this, cap
      ensures Refines(r, LazyRun(s, p, pp, e, si0, old(Live()), depth), old(Live())) && depth == old(depth)
      decreases |p| - pp, 2, 0
    {
      hide Enter, Accepts;
      ghost var caps := Live();
      var si := si0;
      while true
        invariant Ready(si) && Live() == caps && depth == old(depth)
        invariant LazyRun(s, p, pp, e, si0, caps, depth) == LazyRun(s, p, pp, e, si, caps, depth)
        decreases |s| - si
      {
        r := Match(si, pp);
        if !r.NoMatch? {
          return;
        }
        if si >= |s| || !Accepts(e, s[si]) {
          return NoMatch;
        }
        WithinLater(caps, si, si + 1);
        si := si + 1;
      }
    }
  }

  lemma WithinLater(caps: seq<Slot>, si: nat, si': nat)
    requires Within(caps, si) && si <= si'
    ensures Within(caps, si')
  {
  }
}
