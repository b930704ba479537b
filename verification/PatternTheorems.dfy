/**
 The matcher finds the preferred path: sound, complete and first in order. It
 panics only on the limits or on a pattern whose items or captures do not fit
 together.
*/
module PatternTheorems {
  import opened Wrappers
  import opened PatternSyntax
  import opened PatternSpec

  // -- balanced runs ------------------------------------------------------------------

  /** The scan stops at the first point where the nesting is back to zero. */
  lemma {:induction false} ScanFinds(s: string, si: nat, n: nat, x: char, y: char, k: nat)
    requires 0 < n && si + n <= |s| && s[si] == x && x != y
    requires forall j: nat :: 0 < j <= n ==> Nest(s, si, j, x, y) > 0
    ensures BalancedRun(s, si, k, x, y) <==> BalanceScan(s, si + n, x, y, Nest(s, si, n, x, y)) == Some(si + k)
    decreases |s| - n
  {
    if si + n < |s| {
      var open' := Nest(s, si, n + 1, x, y);
      if open' > 0 {
        ScanFinds(s, si, n + 1, x, y, k);
      } else {
        assert k > n + 1 ==> !BalancedRun(s, si, k, x, y);
      }
    }
  }

  lemma {:induction false} SameCharRun(s: string, si: nat, x: char, k: nat)
    requires si < |s| && s[si] == x
    ensures BalancedRun(s, si, k, x, x) <==> NextChar(s, si + 1, x) == Some(si + k)
  {
    var r := NextChar(s, si + 1, x);
    assert r.Some? && r.value < si + k ==> s[r.value - 1] == x && !BalancedRun(s, si, k, x, x);
    assert BalancedRun(s, si, k, x, x) ==> s[si + k - 1] == x && r.Some?;
  }

  /** %bxy takes exactly the balanced run that starts here. */
  lemma BalanceIsRun(s: string, si: nat, x: char, y: char, k: nat)
    requires si <= |s|
    ensures BalancedRun(s, si, k, x, y) <==> BalanceEnd(s, si, x, y) == Some(si + k)
  {
    if si < |s| && s[si] == x {
      if x == y {
        SameCharRun(s, si, x, k);
      } else {
        assert Nest(s, si, 1, x, y) == Nest(s, si, 0, x, y) + 1;
        ScanFinds(s, si, 1, x, y, k);
      }
    }
  }

  // -- soundness, completeness, order ---------------------------------------------------------

  ghost predicate NoPath(s: string, p: string, pp: nat, si: nat, caps: seq<Slot>)
    requires si <= |s| && Within(caps, si)
  {
    forall q :: Follow(s, p, pp, si, caps, q).None?
  }

  /** No path goes on after taking j characters. */
  ghost predicate NoPathAfter(s: string, p: string, next: nat, si: nat, j: nat, caps: seq<Slot>)
    requires si + j <= |s| && Within(caps, si)
  {
    NoPath(s, p, next, si + j, caps)
  }

  /** path leads to (e, c), and is preferred to every other path that leads anywhere. */
  ghost predicate BestPath(s: string, p: string, pp: nat, si: nat, caps: seq<Slot>, path: seq<nat>, e: nat, c: seq<Slot>)
    requires si <= |s| && Within(caps, si)
  {
    && Follow(s, p, pp, si, caps, path) == Some((e, c))
    && forall q :: Follow(s, p, pp, si, caps, q).Some? && q != path ==> Preferred(p, pp, path, q)
  }

  ghost predicate Correct(s: string, p: string, pp: nat, si: nat, caps: seq<Slot>, o: Outcome, path: seq<nat>)
    requires si <= |s| && Within(caps, si)
  {
    match o
    case End(e, c) => BestPath(s, p, pp, si, caps, path, e, c)
    case Fail => NoPath(s, p, pp, si, caps)
    case Panic(_) => true
  }

  /** Of the paths that take between lo and hi characters here and go on at next, (k, path) is the preferred one. */
  ghost predicate CorrectChoice(s: string, p: string, next: nat, si: nat, caps: seq<Slot>, o: Outcome, lo: nat, hi: nat, lazy: bool, k: nat, path: seq<nat>)
    requires si + hi <= |s| && Within(caps, si)
  {
    match o
    case End(e, c) =>
      && lo <= k <= hi && BestPath(s, p, next, si + k, caps, path, e, c)
      && forall j: nat :: lo <= j <= hi && j != k && (if lazy then j < k else j > k) ==> NoPathAfter(s, p, next, si, j, caps)
    case Fail => forall j: nat :: lo <= j <= hi ==> NoPathAfter(s, p, next, si, j, caps)
    case Panic(_) => true
  }

  lemma AfterChoice(s: string, p: string, pp: nat, si: nat, caps: seq<Slot>, lo: nat, hi: nat, q: seq<nat>)
    requires si + hi <= |s| && Within(caps, si)
    requires ItemAt(p, pp).Repeat? && Follow(s, p, pp, si, caps, q).Some?
    requires forall j: nat :: Take(s, ItemAt(p, pp), j, si, caps) == if lo <= j <= hi then Some((si + j, caps)) else None
    ensures q != [] && lo <= q[0] <= hi && q == [q[0]] + q[1..]
    ensures Follow(s, p, ItemAt(p, pp).next, si + q[0], caps, q[1..]).Some? && !NoPathAfter(s, p, ItemAt(p, pp).next, si, q[0], caps)
  {
  }

  /** An item that can take between lo and hi characters and keeps the captures. */
  lemma ChoiceIsCorrect(s: string, p: string, pp: nat, si: nat, caps: seq<Slot>, o: Outcome, lo: nat, hi: nat, k: nat, path: seq<nat>)
    requires si + hi <= |s| && Within(caps, si)
    requires var it := ItemAt(p, pp);
             && it.Repeat? && CorrectChoice(s, p, it.next, si, caps, o, lo, hi, it.rep.Lazy?, k, path)
             && forall j: nat :: Take(s, it, j, si, caps) == if lo <= j <= hi then Some((si + j, caps)) else None
    ensures Correct(s, p, pp, si, caps, o, [k] + path)
  {
    hide Take, Accepts, ItemAt;
    var it := ItemAt(p, pp);
    var best := [k] + path;
    assert best[1..] == path;
    if o.End? {
      assert Take(s, it, k, si, caps) == Some((si + k, caps));
      assert Follow(s, p, pp, si, caps, best) == Follow(s, p, it.next, si + k, caps, path);
    }
    forall q | Follow(s, p, pp, si, caps, q).Some?
      ensures o.End? && q != best ==> Preferred(p, pp, best, q)
      ensures !o.Fail?
    {
      hide Follow;
      AfterChoice(s, p, pp, si, caps, lo, hi, q);
    }
  }

  /** An item that can only take k characters. */
  lemma OnlyChoice(s: string, p: string, pp: nat, si: nat, caps: seq<Slot>, o: Outcome, k: nat, caps1: seq<Slot>, path: seq<nat>)
    requires si + k <= |s| && Within(caps, si) && Within(caps1, si + k)
    requires var it := ItemAt(p, pp);
             && Continues(it) && Correct(s, p, it.next, si + k, caps1, o, path)
             && forall j: nat :: Take(s, it, j, si, caps) == if j == k then Some((si + k, caps1)) else None
    ensures Correct(s, p, pp, si, caps, o, [k] + path)
  {
    var it := ItemAt(p, pp);
    var best := [k] + path;
    assert best[1..] == path;
    forall q | Follow(s, p, pp, si, caps, q).Some?
      ensures o.End? && q != best ==> Preferred(p, pp, best, q)
      ensures !o.Fail?
    {
      assert q[0] == k && Follow(s, p, it.next, si + k, caps1, q[1..]).Some?;
      assert q == [q[0]] + q[1..];
    }
  }

  lemma NoChoice(s: string, p: string, pp: nat, si: nat, caps: seq<Slot>)
    requires si <= |s| && Within(caps, si)
    requires var it := ItemAt(p, pp);
             Continues(it) && forall j: nat :: Take(s, it, j, si, caps).None?
    ensures NoPath(s, p, pp, si, caps)
  {
    var it := ItemAt(p, pp);
    forall q
      ensures Follow(s, p, pp, si, caps, q).None?
    {
      if q != [] { assert Take(s, it, q[0], si, caps).None?; }
    }
  }

  lemma {:induction false} MaxRunIsMax(e: Elem, s: string, si: nat, k: nat)
    requires si <= |s|
    ensures AcceptsAll(e, s, si, k) <==> k <= MaxRun(e, s, si)
    decreases |s| - si
  {
    if k > 0 && si < |s| && Accepts(e, s[si]) {
      hide Accepts;
      MaxRunIsMax(e, s, si + 1, k - 1);
      assert AcceptsAll(e, s, si, k) == AcceptsAll(e, s, si + 1, k - 1);
    }
  }

  lemma {:induction false} EnterIsBest(s: string, p: string, pp: nat, si: nat, caps: seq<Slot>, depth: nat) returns (path: seq<nat>)
    requires si <= |s| && Within(caps, si)
    ensures Correct(s, p, pp, si, caps, Enter(s, p, pp, si, caps, depth), path)
    decreases |p| - pp, 1, 0
  {
    hide BestPath, NoPath, First;
    path := [];
    if depth < MAX_MATCH_CALLS {
      path := FirstIsBest(s, p, pp, si, caps, depth + 1);
    }
  }

  lemma {:induction false} GreedyIsBest(s: string, p: string, next: nat, si: nat, count: nat, min: nat, caps: seq<Slot>, depth: nat)
    returns (k: nat, path: seq<nat>)
    requires si + count <= |s| && Within(caps, si)
    ensures CorrectChoice(s, p, next, si, caps, Greedy(s, p, next, si, count, min, caps, depth), min, count, false, k, path)
    decreases |p| - next, 2, count
  {
    hide BestPath, NoPath, Enter;
    k, path := count, [];
    if count >= min {
      path := EnterIsBest(s, p, next, si + count, caps, depth);
      if Enter(s, p, next, si + count, caps, depth).Fail? && count > 0 {
        k, path := GreedyIsBest(s, p, next, si, count - 1, min, caps, depth);
      }
    }
  }

  lemma {:induction false} LazyIsBest(s: string, p: string, next: nat, e: Elem, si: nat, j: nat, caps: seq<Slot>, depth: nat)
    returns (k: nat, path: seq<nat>)
    requires si <= |s| && Within(caps, si) && j <= MaxRun(e, s, si)
    ensures CorrectChoice(s, p, next, si, caps, LazyRun(s, p, next, e, si + j, caps, depth), j, MaxRun(e, s, si), true, k, path)
    decreases |p| - next, 2, |s| - si - j
  {
    hide BestPath, NoPath, Enter, Accepts;
    MaxRunIsMax(e, s, si, j + 1);
    k := j;
    path := EnterIsBest(s, p, next, si + j, caps, depth);
    if Enter(s, p, next, si + j, caps, depth).Fail? && j < MaxRun(e, s, si) {
      k, path := LazyIsBest(s, p, next, e, si, j + 1, caps, depth);
    }
  }

  /** One element and its modifier. */
  lemma {:induction false} RepeatIsBest(s: string, p: string, pp: nat, si: nat, caps: seq<Slot>, depth: nat) returns (path: seq<nat>)
    requires si <= |s| && Within(caps, si) && ItemAt(p, pp).Repeat?
    ensures Correct(s, p, pp, si, caps, First(s, p, pp, si, caps, depth), path)
    decreases |p| - pp, 0, 1
  {
    hide Follow, BestPath, NoPath, Enter, Greedy, LazyRun, Correct, CorrectChoice, Accepts, AcceptsAll, MaxRun;
    var it := ItemAt(p, pp);
    var o := First(s, p, pp, si, caps, depth);
    var n := MaxRun(it.e, s, si);
    forall j: nat
      ensures AcceptsAll(it.e, s, si, j) <==> j <= n
    {
      MaxRunIsMax(it.e, s, si, j);
    }
    RunStarts(it.e, s, si);
    var k: nat;
    if n == 0 {
      if it.rep.One? || it.rep.Plus? {
        NoChoice(s, p, pp, si, caps);
        path := [];
        FailIsCorrect(s, p, pp, si, caps, path);
      } else {
        path := FirstIsBest(s, p, it.next, si, caps, depth);
        OnlyChoice(s, p, pp, si, caps, o, 0, caps, path);
        path := [0] + path;
      }
    } else if it.rep.One? {
      path := FirstIsBest(s, p, it.next, si + 1, caps, depth);
      OnlyChoice(s, p, pp, si, caps, o, 1, caps, path);
      path := [1] + path;
    } else if it.rep.Opt? {
      k, path := OptIsBest(s, p, pp, si, caps, depth);
      ChoiceIsCorrect(s, p, pp, si, caps, o, 0, 1, k, path);
      path := [k] + path;
    } else if it.rep.Lazy? {
      k, path := LazyIsBest(s, p, it.next, it.e, si, 0, caps, depth);
      ChoiceIsCorrect(s, p, pp, si, caps, o, 0, n, k, path);
      path := [k] + path;
    } else {
      var min := if it.rep.Star? then 0 else 1;
      k, path := GreedyIsBest(s, p, it.next, si, n, min, caps, depth);
      ChoiceIsCorrect(s, p, pp, si, caps, o, min, n, k, path);
      path := [k] + path;
    }
  }

  lemma {:induction false} RunStarts(e: Elem, s: string, si: nat)
    requires si <= |s|
    ensures MaxRun(e, s, si) > 0 <==> si < |s| && Accepts(e, s[si])
    ensures si + MaxRun(e, s, si) <= |s|
  {
  }

  lemma FailIsCorrect(s: string, p: string, pp: nat, si: nat, caps: seq<Slot>, path: seq<nat>)
    requires si <= |s| && Within(caps, si) && NoPath(s, p, pp, si, caps)
    ensures Correct(s, p, pp, si, caps, Fail, path)
  {
  }

  /** One occurrence first, then none. */
  lemma {:induction false} OptIsBest(s: string, p: string, pp: nat, si: nat, caps: seq<Slot>, depth: nat) returns (k: nat, path: seq<nat>)
    requires si < |s| && Within(caps, si) && ItemAt(p, pp).Repeat? && ItemAt(p, pp).rep.Opt? && Accepts(ItemAt(p, pp).e, s[si])
    ensures CorrectChoice(s, p, ItemAt(p, pp).next, si, caps, First(s, p, pp, si, caps, depth), 0, 1, false, k, path)
    decreases |p| - pp, 0, 0
  {
    hide BestPath, NoPath, Enter, Greedy, LazyRun;
    var it := ItemAt(p, pp);
    k := 1;
    path := EnterIsBest(s, p, it.next, si + 1, caps, depth);
    if Enter(s, p, it.next, si + 1, caps, depth).Fail? {
      k := 0;
      path := FirstIsBest(s, p, it.next, si, caps, depth);
    }
  }

  /** The matcher returns the preferred path's end and captures, and fails only when no path leads anywhere. */
  lemma {:induction false} FirstIsBest(s: string, p: string, pp: nat, si: nat, caps: seq<Slot>, depth: nat) returns (path: seq<nat>)
    requires si <= |s| && Within(caps, si)
    ensures Correct(s, p, pp, si, caps, First(s, p, pp, si, caps, depth), path)
    decreases |p| - pp, 0, 2
  {
    hide BestPath, NoPath, Enter, Greedy, LazyRun, Correct, Accepts, BalancedRun, BalanceEnd;
    var it := ItemAt(p, pp);
    var o := First(s, p, pp, si, caps, depth);
    path := [];
    match it
    case Done => LastIsBest(s, p, pp, si, caps, o);
    case AtEnd => LastIsBest(s, p, pp, si, caps, o);
    case Bad(_) => PanicIsCorrect(s, p, pp, si, caps, o, path);
    case Repeat(_, _, _) => path := RepeatIsBest(s, p, pp, si, caps, depth);
    case Balance(x, y, next) =>
      forall k: nat
        ensures BalancedRun(s, si, k, x, y) <==> BalanceEnd(s, si, x, y) == Some(si + k)
      {
        BalanceIsRun(s, si, x, y, k);
      }
      var e := BalanceEnd(s, si, x, y);
      if e.Some? {
        path := FirstIsBest(s, p, next, e.value, caps, depth);
        OnlyChoice(s, p, pp, si, caps, o, e.value - si, caps, path);
        path := [e.value - si] + path;
      } else {
        NoChoice(s, p, pp, si, caps);
        FailIsCorrect(s, p, pp, si, caps, path);
      }
    case Frontier(e, next) =>
      if Accepts(e, CharAt(s, si)) && !Accepts(e, CharBefore(s, si)) {
        path := FirstIsBest(s, p, next, si, caps, depth);
        OnlyChoice(s, p, pp, si, caps, o, 0, caps, path);
        path := [0] + path;
      } else {
        NoChoice(s, p, pp, si, caps);
        FailIsCorrect(s, p, pp, si, caps, path);
      }
    case BackRef(_, _) => path := BackRefIsBest(s, p, pp, si, caps, depth);
    case _ => path := CaptureIsBest(s, p, pp, si, caps, depth);
  }

  lemma PanicIsCorrect(s: string, p: string, pp: nat, si: nat, caps: seq<Slot>, o: Outcome, path: seq<nat>)
    requires si <= |s| && Within(caps, si) && o.Panic?
    ensures Correct(s, p, pp, si, caps, o, path)
  {
  }

  /** The end of the pattern, or a final '$'. */
  lemma LastIsBest(s: string, p: string, pp: nat, si: nat, caps: seq<Slot>, o: Outcome)
    requires si <= |s| && Within(caps, si)
    requires ItemAt(p, pp).Done? || ItemAt(p, pp).AtEnd?
    requires o == if ItemAt(p, pp).Done? || si == |s| then End(si, caps) else Fail
    ensures Correct(s, p, pp, si, caps, o, [])
  {
  }

  lemma {:induction false} BackRefIsBest(s: string, p: string, pp: nat, si: nat, caps: seq<Slot>, depth: nat) returns (path: seq<nat>)
    requires si <= |s| && Within(caps, si) && ItemAt(p, pp).BackRef?
    ensures Correct(s, p, pp, si, caps, First(s, p, pp, si, caps, depth), path)
    decreases |p| - pp, 0, 0
  {
    hide BestPath, NoPath, Correct, Follow;
    var it := ItemAt(p, pp);
    var o := First(s, p, pp, si, caps, depth);
    path := [];
    if o.Panic? {
      PanicIsCorrect(s, p, pp, si, caps, o, path);
    } else if caps[it.l].Span? && si + caps[it.l].len <= |s| && s[si..si + caps[it.l].len] == s[caps[it.l].init..caps[it.l].init + caps[it.l].len] {
      var n := caps[it.l].len;
      path := FirstIsBest(s, p, it.next, si + n, caps, depth);
      OnlyChoice(s, p, pp, si, caps, o, n, caps, path);
      path := [n] + path;
    } else {
      NoChoice(s, p, pp, si, caps);
      FailIsCorrect(s, p, pp, si, caps, path);
    }
  }

  lemma {:induction false} CaptureIsBest(s: string, p: string, pp: nat, si: nat, caps: seq<Slot>, depth: nat) returns (path: seq<nat>)
    requires si <= |s| && Within(caps, si)
    requires var it := ItemAt(p, pp); it.PosCapture? || it.OpenCapture? || it.CloseCapture?
    ensures Correct(s, p, pp, si, caps, First(s, p, pp, si, caps, depth), path)
    decreases |p| - pp, 0, 0
  {
    hide BestPath, NoPath, Correct, Follow, Enter;
    var it := ItemAt(p, pp);
    var o := First(s, p, pp, si, caps, depth);
    path := [];
    var t := Take(s, it, 0, si, caps);
    if t.None? {
      PanicIsCorrect(s, p, pp, si, caps, o, path);
    } else {
      path := EnterIsBest(s, p, it.next, si, t.value.1, depth);
      OnlyChoice(s, p, pp, si, caps, o, 0, t.value.1, path);
      path := [0] + path;
    }
  }

  // -- where captures lie ---------------------------------------------------------------------------

  /** No capture starts before lo. */
  predicate StartsFrom(caps: seq<Slot>, lo: nat) {
    forall i :: 0 <= i < |caps| ==> caps[i].init >= lo
  }

  /** Captures opened from lo on stay there, along every path. */
  lemma {:induction false} FollowInside(s: string, p: string, pp: nat, si: nat, caps: seq<Slot>, path: seq<nat>, lo: nat)
    requires lo <= si <= |s| && Within(caps, si) && StartsFrom(caps, lo)
    ensures var r := Follow(s, p, pp, si, caps, path); r.Some? ==> StartsFrom(r.value.1, lo) && |r.value.1| >= |caps|
    decreases |p| - pp
  {
    hide Accepts, BalancedRun;
    var it := ItemAt(p, pp);
    if Continues(it) && path != [] {
      var t := Take(s, it, path[0], si, caps);
      if t.Some? {
        FollowInside(s, p, it.next, t.value.0, t.value.1, path[1..], lo);
      }
    }
  }

  // -- when the matcher does not panic ------------------------------------------------------------------

  datatype Kind = IsOpen | IsPosition | IsSpan

  function KindOf(c: Slot): Kind {
    match c
    case Unfinished(_) => IsOpen
    case Position(_) => IsPosition
    case Span(_, _) => IsSpan
  }

  function Shape(caps: seq<Slot>): (r: seq<Kind>)
    ensures |r| == |caps| && forall i :: 0 <= i < |r| ==> r[i] == KindOf(caps[i])
  {
    seq(|caps|, i requires 0 <= i < |caps| => KindOf(caps[i]))
  }

  function LastOpenKind(shape: seq<Kind>): (l: int)
    ensures -1 <= l < |shape| && (l >= 0 ==> shape[l] == IsOpen)
    ensures forall i :: l < i < |shape| ==> shape[i] != IsOpen
  {
    if shape == [] then -1
    else if shape[|shape| - 1] == IsOpen then |shape| - 1
    else LastOpenKind(shape[..|shape| - 1])
  }

  /** The rest of a pattern is well formed: its items parse, brackets pair up and back-references are to closed captures. */
  predicate WellFormed(p: string, pp: nat, shape: seq<Kind>)
    decreases |p| - pp
  {
    match ItemAt(p, pp)
    case Done => true
    case AtEnd => true
    case Bad(_) => false
    case PosCapture(next) => |shape| < 32 && WellFormed(p, next, shape + [IsPosition])
    case OpenCapture(next) => |shape| < 32 && WellFormed(p, next, shape + [IsOpen])
    case CloseCapture(next) => LastOpenKind(shape) >= 0 && WellFormed(p, next, shape[LastOpenKind(shape) := IsSpan])
    case BackRef(l, next) => l < |shape| && shape[l] != IsOpen && WellFormed(p, next, shape)
    case Balance(_, _, next) => WellFormed(p, next, shape)
    case Frontier(_, next) => WellFormed(p, next, shape)
    case Repeat(_, _, next) => WellFormed(p, next, shape)
  }

  /** Items that cost a level of recursion: captures and modified elements. */
  function Levels(p: string, pp: nat): nat
    decreases |p| - pp
  {
    var it := ItemAt(p, pp);
    if !Continues(it) then 0
    else Levels(p, it.next) + if it.PosCapture? || it.OpenCapture? || it.CloseCapture? || (it.Repeat? && it.rep != One) then 1 else 0
  }

  lemma {:induction false} EnterNoPanic(s: string, p: string, pp: nat, si: nat, caps: seq<Slot>, depth: nat)
    requires si <= |s| && Within(caps, si) && WellFormed(p, pp, Shape(caps)) && depth + 1 + Levels(p, pp) <= 200
    ensures !Enter(s, p, pp, si, caps, depth).Panic?
    decreases |p| - pp, 1, 0
  {
    hide First, WellFormed, Levels;
    FirstNoPanic(s, p, pp, si, caps, depth + 1);
  }

  lemma {:induction false} GreedyNoPanic(s: string, p: string, pp: nat, si: nat, count: nat, min: nat, caps: seq<Slot>, depth: nat)
    requires si + count <= |s| && Within(caps, si) && WellFormed(p, pp, Shape(caps)) && depth + 1 + Levels(p, pp) <= 200
    ensures !Greedy(s, p, pp, si, count, min, caps, depth).Panic?
    decreases |p| - pp, 2, count
  {
    hide Enter, WellFormed, Levels;
    if count >= min {
      EnterNoPanic(s, p, pp, si + count, caps, depth);
      if count > 0 { GreedyNoPanic(s, p, pp, si, count - 1, min, caps, depth); }
    }
  }

  lemma {:induction false} LazyNoPanic(s: string, p: string, pp: nat, e: Elem, si: nat, caps: seq<Slot>, depth: nat)
    requires si <= |s| && Within(caps, si) && WellFormed(p, pp, Shape(caps)) && depth + 1 + Levels(p, pp) <= 200
    ensures !LazyRun(s, p, pp, e, si, caps, depth).Panic?
    decreases |p| - pp, 2, |s| - si
  {
    hide Enter, WellFormed, Levels, Accepts;
    EnterNoPanic(s, p, pp, si, caps, depth);
    if si < |s| { LazyNoPanic(s, p, pp, e, si + 1, caps, depth); }
  }

  lemma {:induction false} LastOpenIsKind(caps: seq<Slot>)
    ensures LastOpen(caps) == LastOpenKind(Shape(caps))
  {
    if caps != [] && !caps[|caps| - 1].Unfinished? {
      assert Shape(caps)[..|caps| - 1] == Shape(caps[..|caps| - 1]);
      LastOpenIsKind(caps[..|caps| - 1]);
    }
  }

  lemma {:induction false} RepeatNoPanic(s: string, p: string, pp: nat, si: nat, caps: seq<Slot>, depth: nat)
    requires ItemAt(p, pp).Repeat?
    requires si <= |s| && Within(caps, si) && WellFormed(p, pp, Shape(caps)) && depth + Levels(p, pp) <= 200
    ensures !First(s, p, pp, si, caps, depth).Panic?
    decreases |p| - pp, 0, 0
  {
    hide Enter, Greedy, LazyRun, Accepts, MaxRun;
    var it := ItemAt(p, pp);
    var (e, next) := (it.e, it.next);
    assert WellFormed(p, next, Shape(caps));
    assert depth + Levels(p, next) + (if it.rep == One then 0 else 1) <= 200;
    FirstNoPanic(s, p, next, si, caps, depth);
    if it.rep != One {
      hide WellFormed, Levels;
      LazyNoPanic(s, p, next, e, si, caps, depth);
      RunStarts(e, s, si);
      GreedyNoPanic(s, p, next, si, MaxRun(e, s, si), 0, caps, depth);
      if MaxRun(e, s, si) > 0 {
        GreedyNoPanic(s, p, next, si, MaxRun(e, s, si), 1, caps, depth);
        EnterNoPanic(s, p, next, si + 1, caps, depth);
      }
    } else if si < |s| {
      FirstNoPanic(s, p, next, si + 1, caps, depth);
    }
  }

  lemma {:induction false} CloseNoPanic(s: string, p: string, pp: nat, si: nat, caps: seq<Slot>, depth: nat)
    requires ItemAt(p, pp).CloseCapture?
    requires si <= |s| && Within(caps, si) && WellFormed(p, pp, Shape(caps)) && depth + Levels(p, pp) <= 200
    ensures !First(s, p, pp, si, caps, depth).Panic?
    decreases |p| - pp, 0, 0
  {
    hide Enter;
    LastOpenIsKind(caps);
    var l := LastOpen(caps);
    var caps1 := caps[l := Span(caps[l].init, si - caps[l].init)];
    assert Shape(caps1) == Shape(caps)[l := IsSpan];
    EnterNoPanic(s, p, ItemAt(p, pp).next, si, caps1, depth);
  }

  /** A well-formed pattern with at most 200 captures and modifiers never panics, on any subject. */
  lemma {:induction false} FirstNoPanic(s: string, p: string, pp: nat, si: nat, caps: seq<Slot>, depth: nat)
    requires si <= |s| && Within(caps, si) && WellFormed(p, pp, Shape(caps)) && depth + Levels(p, pp) <= 200
    ensures !First(s, p, pp, si, caps, depth).Panic?
    decreases |p| - pp, 0, 1
  {
    hide Enter, Greedy, LazyRun, Accepts, BalanceEnd, MaxRun;
    match ItemAt(p, pp)
    case PosCapture(next) =>
      assert Shape(caps + [Position(si)]) == Shape(caps) + [IsPosition];
      EnterNoPanic(s, p, next, si, caps + [Position(si)], depth);
    case OpenCapture(next) =>
      assert Shape(caps + [Unfinished(si)]) == Shape(caps) + [IsOpen];
      EnterNoPanic(s, p, next, si, caps + [Unfinished(si)], depth);
    case CloseCapture(_) => CloseNoPanic(s, p, pp, si, caps, depth);
    case Balance(x, y, next) =>
      var e := BalanceEnd(s, si, x, y);
      if e.Some? { FirstNoPanic(s, p, next, e.value, caps, depth); }
    case Frontier(_, next) => FirstNoPanic(s, p, next, si, caps, depth);
    case BackRef(l, next) =>
      assert Shape(caps)[l] == KindOf(caps[l]);
      if caps[l].Span? && si + caps[l].len <= |s| { FirstNoPanic(s, p, next, si + caps[l].len, caps, depth); }
    case Repeat(_, _, _) => RepeatNoPanic(s, p, pp, si, caps, depth);
    case _ =>
  }

  /** Where the limits lie: recursion 200 deep and 32 captures are allowed, and no more. */
  lemma {:induction false} LimitsAre(s: string, p: string, pp: nat, si: nat, caps: seq<Slot>, depth: nat)
    requires si <= |s| && Within(caps, si)
    ensures Enter(s, p, pp, si, caps, depth) == if depth >= 200 then Panic("pattern too complex") else First(s, p, pp, si, caps, depth + 1)
    ensures match ItemAt(p, pp)
            case PosCapture(next) =>
              First(s, p, pp, si, caps, depth) == if |caps| >= 32 then Panic("too many captures") else Enter(s, p, next, si, caps + [Position(si)], depth)
            case OpenCapture(next) =>
              First(s, p, pp, si, caps, depth) == if |caps| >= 32 then Panic("too many captures") else Enter(s, p, next, si, caps + [Unfinished(si)], depth)
            case _ => true
  {
    hide Greedy, LazyRun, Accepts, BalanceEnd, MaxRun;
  }
}
