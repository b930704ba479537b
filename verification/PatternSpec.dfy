/**
 What a pattern matches. A match is a path: one number per item, the number of
 characters the item takes. Paths are tried in order of preference, more first
 for the greedy modifiers, fewer first for the lazy one.
*/
module PatternSpec {
  import opened Wrappers
  import opened PatternSyntax


  const MAX_CAPTURES: nat := 32
  const MAX_MATCH_CALLS: nat := 200

  /** A capture: still open, a position, or the len characters from init. */
  datatype Slot = Unfinished(init: nat) | Position(init: nat) | Span(init: nat, len: nat)

  function SlotEnd(c: Slot): nat {
    if c.Span? then c.init + c.len else c.init
  }

  /** Every capture so far lies before si. */
  predicate Within(caps: seq<Slot>, si: nat) {
    forall i :: 0 <= i < |caps| ==> SlotEnd(caps[i]) <= si
  }

  /** The innermost open capture, or -1. */
  function LastOpen(caps: seq<Slot>): (l: int)
    ensures -1 <= l < |caps|
    ensures l >= 0 ==> caps[l].Unfinished?
    ensures forall i :: l < i < |caps| ==> !caps[i].Unfinished?
  {
    if caps == [] then -1
    else if caps[|caps| - 1].Unfinished? then |caps| - 1
    else LastOpen(caps[..|caps| - 1])
  }

  // -- paths -----------------------------------------------------------------------------

  predicate Allowed(rep: Rep, k: nat) {
    match rep
    case One => k == 1
    case Opt => k <= 1
    case Plus => k >= 1
    case _ => true
  }

  /** How many more x's than y's are among the n characters from si on. */
  function Nest(s: string, si: nat, n: nat, x: char, y: char): int
    requires si + n <= |s|
  {
    if n == 0 then 0
    else Nest(s, si, n - 1, x, y) + if s[si + n - 1] == x then 1 else if s[si + n - 1] == y then -1 else 0
  }

  /** The k characters from si on start with x and end at the first point where the x's and y's balance. */
  predicate BalancedRun(s: string, si: nat, k: nat, x: char, y: char) {
    && k >= 2 && si + k <= |s| && s[si] == x
    && if x == y then s[si + k - 1] == x && forall j :: si < j < si + k - 1 ==> s[j] != x
       else Nest(s, si, k, x, y) == 0 && forall j: nat :: 0 < j < k ==> Nest(s, si, j, x, y) > 0
  }

  function CharBefore(s: string, si: nat): char {
    if 0 < si <= |s| then s[si - 1] else '\0'
  }

  function CharAt(s: string, si: nat): char {
    if si < |s| then s[si] else '\0'
  }

  predicate AcceptsAll(e: Elem, s: string, si: nat, k: nat) {
    si + k <= |s| && forall j :: si <= j < si + k ==> Accepts(e, s[j])
  }

  /** The state after the item takes k characters, if it can. */
  function Take(s: string, it: Item, k: nat, si: nat, caps: seq<Slot>): (r: Option<(nat, seq<Slot>)>)
    requires si <= |s| && Within(caps, si)
    ensures r.Some? ==> r.value.0 == si + k <= |s| && Within(r.value.1, si + k)
  {
    match it
    case PosCapture(_) => if k == 0 && |caps| < MAX_CAPTURES then Some((si, caps + [Position(si)])) else None
    case OpenCapture(_) => if k == 0 && |caps| < MAX_CAPTURES then Some((si, caps + [Unfinished(si)])) else None
    case CloseCapture(_) =>
      var l := LastOpen(caps);
      if k == 0 && l >= 0 then Some((si, caps[l := Span(caps[l].init, si - caps[l].init)])) else None
    case Balance(x, y, _) => if BalancedRun(s, si, k, x, y) then Some((si + k, caps)) else None
    case Frontier(e, _) => if k == 0 && Accepts(e, CharAt(s, si)) && !Accepts(e, CharBefore(s, si)) then Some((si, caps)) else None
    case BackRef(l, _) =>
      if l < |caps| && caps[l].Span? && k == caps[l].len && si + k <= |s| && s[si..si + k] == s[caps[l].init..caps[l].init + k]
      then Some((si + k, caps)) else None
    case Repeat(e, rep, _) => if Allowed(rep, k) && AcceptsAll(e, s, si, k) then Some((si + k, caps)) else None
    case _ => None
  }

  /** Where a path leads: the end of the match and its captures. */
  function Follow(s: string, p: string, pp: nat, si: nat, caps: seq<Slot>, path: seq<nat>): (r: Option<(nat, seq<Slot>)>)
    requires si <= |s| && Within(caps, si)
    ensures r.Some? ==> si <= r.value.0 <= |s| && Within(r.value.1, r.value.0)
    decreases |p| - pp
  {
    var it := ItemAt(p, pp);
    if it.Done? || it.AtEnd? then
      if path == [] && (it.Done? || si == |s|) then Some((si, caps)) else None
    else if it.Bad? || path == [] then None
    else
      match Take(s, it, path[0], si, caps)
      case None => None
      case Some((si1, caps1)) => Follow(s, p, it.next, si1, caps1, path[1..])
  }

  /** Path a is tried before path b: at the first item where they differ it takes more, or fewer if lazy. */
  predicate Preferred(p: string, pp: nat, a: seq<nat>, b: seq<nat>)
    decreases |a|
  {
    var it := ItemAt(p, pp);
    && a != [] && b != [] && Continues(it)
    && (if a[0] == b[0] then Preferred(p, it.next, a[1..], b[1..])
        else if it.Repeat? && it.rep.Lazy? then a[0] < b[0] else a[0] > b[0])
  }

  // -- the matcher without state ------------------------------------------------------------------

  datatype Outcome = Fail | End(e: nat, caps: seq<Slot>) | Panic(msg: string)

  const TOO_COMPLEX := "pattern too complex"
  const TOO_MANY_CAPTURES := "too many captures"
  const BAD_CLOSE := "invalid pattern capture"
  const BAD_BACKREF := "invalid capture index %"

  function MaxRun(e: Elem, s: string, si: nat): (n: nat)
    requires si <= |s|
    ensures AcceptsAll(e, s, si, n)
    ensures si + n < |s| ==> !Accepts(e, s[si + n])
    decreases |s| - si
  {
    if si < |s| && Accepts(e, s[si]) then 1 + MaxRun(e, s, si + 1) else 0
  }

  /** The scan of %bxy from i on, `open` runs deep. */
  function BalanceScan(s: string, i: nat, x: char, y: char, open: nat): (r: Option<nat>)
    requires i <= |s|
    ensures r.Some? ==> i <= r.value <= |s|
    decreases |s| - i
  {
    if open == 0 then Some(i)
    else if i == |s| then None
    else BalanceScan(s, i + 1, x, y, if s[i] == x then open + 1 else if s[i] == y then open - 1 else open)
  }

  function NextChar(s: string, i: nat, c: char): (r: Option<nat>)
    requires i <= |s|
    ensures r.Some? ==> i < r.value <= |s| && s[r.value - 1] == c && forall j :: i <= j < r.value - 1 ==> s[j] != c
    ensures r.None? ==> forall j :: i <= j < |s| ==> s[j] != c
    decreases |s| - i
  {
    if i == |s| then None else if s[i] == c then Some(i + 1) else NextChar(s, i + 1, c)
  }

  function BalanceEnd(s: string, si: nat, x: char, y: char): (r: Option<nat>)
    requires si <= |s|
    ensures r.Some? ==> si <= r.value <= |s|
  {
    if si == |s| || s[si] != x then None
    else if x == y then NextChar(s, si + 1, x)
    else BalanceScan(s, si + 1, x, y, 1)
  }

  /** match: one more level of recursion. */
  function Enter(s: string, p: string, pp: nat, si: nat, caps: seq<Slot>, depth: nat): (o: Outcome)
    requires si <= |s| && Within(caps, si)
    ensures o.End? ==> si <= o.e <= |s| && Within(o.caps, o.e)
    decreases |p| - pp, 1, 0
  {
    if depth >= MAX_MATCH_CALLS then Panic(TOO_COMPLEX) else First(s, p, pp, si, caps, depth + 1)
  }

  /** The first match in order of preference. */
  function First(s: string, p: string, pp: nat, si: nat, caps: seq<Slot>, depth: nat): (o: Outcome)
    requires si <= |s| && Within(caps, si)
    ensures o.End? ==> si <= o.e <= |s| && Within(o.caps, o.e)
    decreases |p| - pp, 0, 0
  {
    match ItemAt(p, pp)
    case Done => End(si, caps)
    case Bad(msg) => Panic(msg)
    case AtEnd => if si == |s| then End(si, caps) else Fail
    case PosCapture(next) =>
      if |caps| >= MAX_CAPTURES then Panic(TOO_MANY_CAPTURES) else Enter(s, p, next, si, caps + [Position(si)], depth)
    case OpenCapture(next) =>
      if |caps| >= MAX_CAPTURES then Panic(TOO_MANY_CAPTURES) else Enter(s, p, next, si, caps + [Unfinished(si)], depth)
    case CloseCapture(next) =>
      var l := LastOpen(caps);
      if l < 0 then Panic(BAD_CLOSE)
      else Enter(s, p, next, si, caps[l := Span(caps[l].init, si - caps[l].init)], depth)
    case Balance(x, y, next) =>
      (match BalanceEnd(s, si, x, y)
       case None => Fail
       case Some(e) => First(s, p, next, e, caps, depth))
    case Frontier(e, next) =>
      if Accepts(e, CharAt(s, si)) && !Accepts(e, CharBefore(s, si)) then First(s, p, next, si, caps, depth) else Fail
    case BackRef(l, next) =>
      if l >= |caps| || caps[l].Unfinished? then Panic(BAD_BACKREF)
      else if caps[l].Position? then Fail
      else
        var n := caps[l].len;
        if si + n <= |s| && s[si..si + n] == s[caps[l].init..caps[l].init + n]
        then First(s, p, next, si + n, caps, depth) else Fail
    case Repeat(e, rep, next) =>
      if !(si < |s| && Accepts(e, s[si])) then
        if rep.One? || rep.Plus? then Fail else First(s, p, next, si, caps, depth)
      else
        match rep
        case One => First(s, p, next, si + 1, caps, depth)
        case Opt =>
          (match Enter(s, p, next, si + 1, caps, depth)
           case Fail => First(s, p, next, si, caps, depth)
           case other => other)
        case Star => Greedy(s, p, next, si, MaxRun(e, s, si), 0, caps, depth)
        case Plus => Greedy(s, p, next, si, MaxRun(e, s, si), 1, caps, depth)
        case Lazy => LazyRun(s, p, next, e, si, caps, depth)
  }

  /** Take count characters, then fewer, down to min. */
  function Greedy(s: string, p: string, pp: nat, si: nat, count: nat, min: nat, caps: seq<Slot>, depth: nat): (o: Outcome)
    requires si + count <= |s| && Within(caps, si)
    ensures o.End? ==> si <= o.e <= |s| && Within(o.caps, o.e)
    decreases |p| - pp, 2, count
  {
    if count < min then Fail
    else
      match Enter(s, p, pp, si + count, caps, depth)
      case Fail => if count == 0 then Fail else Greedy(s, p, pp, si, count - 1, min, caps, depth)
      case other => other
  }

  /** Take no more characters, then one more, and so on. */
  function LazyRun(s: string, p: string, pp: nat, e: Elem, si: nat, caps: seq<Slot>, depth: nat): (o: Outcome)
    requires si <= |s| && Within(caps, si)
    ensures o.End? ==> si <= o.e <= |s| && Within(o.caps, o.e)
    decreases |p| - pp, 2, |s| - si
  {
    match Enter(s, p, pp, si, caps, depth)
    case Fail => if si < |s| && Accepts(e, s[si]) then LazyRun(s, p, pp, e, si + 1, caps, depth) else Fail
    case other => other
  }
}
