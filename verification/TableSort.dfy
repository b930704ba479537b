/**
 table.sort: an in-place median-of-three quicksort driven by a comparator that
 may answer anything, or raise. Slot 0 of the array is unused, as list positions
 count from 1.
*/
module TableSort {
  import opened Wrappers

  /** A Lua value, as far as sorting looks at it. */
  datatype Elem = Nil | Other(id: int)

  datatype Answer = Less(b: bool) | Raise(e: int)

  datatype Error = NoError | Raised(e: int) | InvalidOrder

  /** What the comparator answers to its n-th call. */
  type Comparator = (nat, Elem, Elem) -> Answer

  // -- errors ------------------------------------------------------------------------

  /** Is x below y? The last place of a scan is one at which only a comparator that is no order answers yes. */
  datatype Question = Question(x: Elem, y: Elem, last: bool)

  /** What the n-th question leads to. */
  function Verdict(comp: Comparator, n: nat, q: Question): Error {
    match comp(n, q.x, q.y)
    case Less(b) => if b && q.last then InvalidOrder else NoError
    case Raise(e) => Raised(e)
  }

  /**
   How a sort that asked these questions, in this order, ends: an error is that of the
   last one, and none before it led to one. So a raised error and an answer that no
   order gives are both reported, at once, and nothing else is.
  */
  predicate FirstError(comp: Comparator, asked: seq<Question>, err: Error) {
    var n := if err == NoError then |asked| else |asked| - 1;
    && n >= 0 && (forall k :: 0 <= k < n ==> Verdict(comp, k, asked[k]) == NoError)
    && (err != NoError ==> Verdict(comp, n, asked[n]) == err)
  }

  // -- orders ------------------------------------------------------------------------

  ghost predicate StrictWeak(less: (Elem, Elem) -> bool) {
    && (forall x :: !less(x, x))
    && (forall x, y, z :: less(x, y) && less(y, z) ==> less(x, z))
    && (forall x, y, z :: !less(x, y) && !less(y, z) ==> !less(x, z))
  }

  /** Every call answers by the same strict weak order. */
  ghost predicate Answers(comp: Comparator, less: (Elem, Elem) -> bool) {
    StrictWeak(less) && forall n, x, y :: comp(n, x, y) == Less(less(x, y))
  }

  ghost predicate Sorted(s: seq<Elem>, lo: int, up: int, less: (Elem, Elem) -> bool)
    requires 0 <= lo && up < |s|
  {
    forall x, y :: lo <= x < y <= up ==> !less(s[y], s[x])
  }

  // -- rearrangements -------------------------------------------------------------------

  /** t is s with the positions lo to up permuted. */
  ghost predicate Rearranged(s: seq<Elem>, t: seq<Elem>, lo: int, up: int) {
    && 0 <= lo <= up + 1 <= |s| == |t|
    && multiset(t[lo..up + 1]) == multiset(s[lo..up + 1])
    && t[..lo] == s[..lo] && t[up + 1..] == s[up + 1..]
  }

  lemma RearrangedSelf(s: seq<Elem>, lo: int, up: int)
    requires 0 <= lo <= up + 1 <= |s|
    ensures Rearranged(s, s, lo, up)
  {
  }

  lemma RearrangedTwice(s: seq<Elem>, t: seq<Elem>, u: seq<Elem>, lo: int, up: int)
    requires Rearranged(s, t, lo, up) && Rearranged(t, u, lo, up)
    ensures Rearranged(s, u, lo, up)
  {
  }

  lemma RearrangedSwap(s: seq<Elem>, i: int, j: int, lo: int, up: int)
    requires 0 <= lo <= i <= up < |s| && lo <= j <= up
    ensures Rearranged(s, s[i := s[j]][j := s[i]], lo, up)
  {
    var t := s[i := s[j]][j := s[i]];
    var (a, b) := (s[lo..up + 1], t[lo..up + 1]);
    assert b == a[i - lo := a[j - lo]][j - lo := a[i - lo]];
    SwapMultiset(a, i - lo, j - lo);
    assert t[..lo] == s[..lo] && t[up + 1..] == s[up + 1..];
  }

  lemma SwapMultiset(a: seq<Elem>, i: nat, j: nat)
    requires i < |a| && j < |a|
    ensures multiset(a[i := a[j]][j := a[i]]) == multiset(a)
  {
  }

  /** A permutation of a part is a permutation of the whole. */
  lemma RearrangedWider(s: seq<Elem>, t: seq<Elem>, x: int, y: int, lo: int, up: int)
    requires Rearranged(s, t, x, y) && 0 <= lo <= x && y <= up < |s|
    ensures Rearranged(s, t, lo, up)
  {
    assert s[lo..up + 1] == s[lo..x] + s[x..y + 1] + s[y + 1..up + 1];
    assert t[lo..up + 1] == t[lo..x] + t[x..y + 1] + t[y + 1..up + 1];
    assert t[lo..x] == t[..x][lo..] == s[..x][lo..] == s[lo..x];
    assert t[y + 1..up + 1] == t[y + 1..][..up - y] == s[y + 1..][..up - y] == s[y + 1..up + 1];
    assert t[..lo] == t[..x][..lo] == s[..x][..lo] == s[..lo];
    assert t[up + 1..] == t[y + 1..][up - y..] == s[y + 1..][up - y..] == s[up + 1..];
  }

  /** What holds of every element of a part still holds after it is permuted. */
  lemma RearrangedKeeps(s: seq<Elem>, t: seq<Elem>, lo: int, up: int, good: Elem -> bool)
    requires Rearranged(s, t, lo, up) && forall k :: lo <= k <= up ==> good(s[k])
    ensures forall k :: lo <= k <= up ==> good(t[k])
  {
    forall k | lo <= k <= up
      ensures good(t[k])
    {
      var (a, b) := (s[lo..up + 1], t[lo..up + 1]);
      assert b[k - lo] in multiset(b);
      assert t[k] in multiset(a);
      var m :| 0 <= m < |a| && a[m] == t[k];
      assert good(s[lo + m]);
    }
  }

  lemma RearrangedOutside(s: seq<Elem>, t: seq<Elem>, lo: int, up: int, k: int)
    requires Rearranged(s, t, lo, up) && 0 <= k < |s| && (k < lo || k > up)
    ensures t[k] == s[k]
  {
    if k < lo {
      assert t[..lo][k] == s[..lo][k];
    } else {
      assert t[up + 1..][k - up - 1] == s[up + 1..][k - up - 1];
    }
  }

  /** Up to and including i nothing is above the pivot, from j on nothing is below it. */
  ghost predicate Halves(s: seq<Elem>, lo: int, i: int, j: int, up: int, pivot: Elem, less: (Elem, Elem) -> bool)
    requires 0 <= lo && up < |s|
  {
    && (forall k :: lo <= k <= i && k <= up ==> !less(pivot, s[k]))
    && (forall k :: j <= k <= up && k >= lo ==> !less(s[k], pivot))
  }

  /** The scans extend the halves up to the elements they stop at. */
  lemma HalvesScanned(s: seq<Elem>, lo: int, i0: int, i: int, j: int, j0: int, up: int, pivot: Elem, less: (Elem, Elem) -> bool)
    requires 0 <= lo && up < |s| && StrictWeak(less) && lo <= i0 < i <= up && lo <= j < j0 <= up
    requires Halves(s, lo, i0, j0, up, pivot, less)
    requires (forall k :: i0 < k < i ==> less(s[k], pivot)) && (forall k :: j < k < j0 ==> less(pivot, s[k]))
    ensures Halves(s, lo, i - 1, j + 1, up, pivot, less)
  {
  }

  lemma HalvesSwapped(s: seq<Elem>, lo: int, i: int, j: int, up: int, pivot: Elem, less: (Elem, Elem) -> bool)
    requires 0 <= lo < i <= j < up < |s| && Halves(s, lo, i - 1, j + 1, up, pivot, less)
    requires !less(s[i], pivot) && !less(pivot, s[j])
    ensures Halves(s[i := s[j]][j := s[i]], lo, i, j, up, pivot, less)
  {
  }

  /** Everything before i is not above the pivot, everything after not below it. */
  ghost predicate Partitioned(s: seq<Elem>, lo: int, i: int, up: int, pivot: Elem, less: (Elem, Elem) -> bool)
    requires 0 <= lo <= i <= up < |s|
  {
    s[i] == pivot && (forall k :: lo <= k < i ==> !less(pivot, s[k])) && (forall k :: i < k <= up ==> !less(s[k], pivot))
  }

  /** The pivot goes between the halves. */
  lemma HalvesClosed(s: seq<Elem>, lo: int, i: int, j: int, up: int, pivot: Elem, less: (Elem, Elem) -> bool)
    requires 0 <= lo <= j < i < up < |s| && Halves(s, lo, i - 1, j + 1, up, pivot, less) && !less(s[i], pivot) && s[up - 1] == pivot
    ensures Partitioned(s[i := s[up - 1]][up - 1 := s[i]], lo, i, up, pivot, less)
  {
  }

  // -- what is sorted so far ----------------------------------------------------------------

  /** Elements at positions x < y are in order. */
  predicate Ordered(s: seq<Elem>, x: int, y: int, less: (Elem, Elem) -> bool)
    requires 0 <= x < y < |s|
  {
    !less(s[y], s[x])
  }

  /** Every pair between lo0 and up0 is in order, except perhaps pairs inside lo..up. */
  ghost predicate SortedBut(s: seq<Elem>, lo0: int, up0: int, lo: int, up: int, less: (Elem, Elem) -> bool)
    requires 0 <= lo0 && up0 < |s|
  {
    forall x, y :: lo0 <= x < y <= up0 && !(lo <= x && y <= up) ==> Ordered(s, x, y, less)
  }

  /** The same with two disjoint parts excepted, before and after i. */
  ghost predicate SortedButTwo(s: seq<Elem>, lo0: int, up0: int, lo: int, i: int, up: int, less: (Elem, Elem) -> bool)
    requires 0 <= lo0 && up0 < |s|
  {
    forall x, y :: lo0 <= x < y <= up0 && !(lo <= x && y < i) && !(i < x && y <= up) ==> Ordered(s, x, y, less)
  }

  lemma RearrangedLength(s: seq<Elem>, t: seq<Elem>, lo: int, up: int)
    requires Rearranged(s, t, lo, up)
    ensures |s| == |t| && 0 <= lo <= up + 1 <= |s|
  {
  }

  /** Permuting a part keeps every pair with one end outside it in order. */
  lemma CrossKept(s: seq<Elem>, t: seq<Elem>, lo: int, up: int, x: int, y: int, less: (Elem, Elem) -> bool)
    requires Rearranged(s, t, lo, up) && 0 <= x < y < |s| && !(lo <= x && y <= up)
    requires lo <= x <= up ==> forall k :: lo <= k <= up ==> Ordered(s, k, y, less)
    requires lo <= y <= up ==> forall k :: lo <= k <= up ==> Ordered(s, x, k, less)
    requires !(lo <= x <= up) && !(lo <= y <= up) ==> Ordered(s, x, y, less)
    ensures Ordered(t, x, y, less)
  {
    hide Rearranged;
    RearrangedLength(s, t, lo, up);
    if lo <= x <= up {
      RearrangedOutside(s, t, lo, up, y);
      forall k | lo <= k <= up ensures !less(s[y], s[k]) { assert Ordered(s, k, y, less); }
      RearrangedKeeps(s, t, lo, up, v => !less(s[y], v));
    } else if lo <= y <= up {
      RearrangedOutside(s, t, lo, up, x);
      forall k | lo <= k <= up ensures !less(s[k], s[x]) { assert Ordered(s, x, k, less); }
      RearrangedKeeps(s, t, lo, up, v => !less(v, s[x]));
    } else {
      RearrangedOutside(s, t, lo, up, x);
      RearrangedOutside(s, t, lo, up, y);
    }
  }

  lemma SortedButKept(s: seq<Elem>, t: seq<Elem>, lo0: int, up0: int, lo: int, up: int, less: (Elem, Elem) -> bool)
    requires 0 <= lo0 <= lo && up <= up0 < |s| && Rearranged(s, t, lo, up) && SortedBut(s, lo0, up0, lo, up, less)
    ensures SortedBut(t, lo0, up0, lo, up, less)
  {
    hide Rearranged, Ordered;
    RearrangedLength(s, t, lo, up);
    forall x, y | lo0 <= x < y <= up0 && !(lo <= x && y <= up)
      ensures Ordered(t, x, y, less)
    {
      CrossKept(s, t, lo, up, x, y, less);
    }
  }

  /** Once partitioned, only the two sides are left to sort. */
  lemma PartitionSplits(s: seq<Elem>, lo0: int, up0: int, lo: int, i: int, up: int, pivot: Elem, less: (Elem, Elem) -> bool)
    requires 0 <= lo0 <= lo <= i <= up <= up0 < |s| && StrictWeak(less)
    requires SortedBut(s, lo0, up0, lo, up, less) && Partitioned(s, lo, i, up, pivot, less)
    ensures SortedButTwo(s, lo0, up0, lo, i, up, less)
  {
    forall x, y | lo0 <= x < y <= up0 && !(lo <= x && y < i) && !(i < x && y <= up)
      ensures Ordered(s, x, y, less)
    {
      if lo <= x && y <= up {
        assert !less(s[y], pivot) && !less(pivot, s[x]);
      }
    }
  }

  /** The left side is sorted: the right side is left. */
  lemma LeftDone(s: seq<Elem>, t: seq<Elem>, lo0: int, up0: int, lo: int, i: int, up: int, less: (Elem, Elem) -> bool)
    requires 0 <= lo0 <= lo <= i <= up <= up0 < |s| && Rearranged(s, t, lo, i - 1)
    requires SortedButTwo(s, lo0, up0, lo, i, up, less) && Sorted(t, lo, i - 1, less)
    ensures SortedBut(t, lo0, up0, i + 1, up, less)
  {
    hide Rearranged;
    RearrangedLength(s, t, lo, i - 1);
    forall x, y | lo0 <= x < y <= up0 && !(i + 1 <= x && y <= up)
      ensures Ordered(t, x, y, less)
    {
      if !(lo <= x && y < i) {
        hide Ordered;
        CrossKept(s, t, lo, i - 1, x, y, less);
      }
    }
  }

  lemma RightDone(s: seq<Elem>, t: seq<Elem>, lo0: int, up0: int, lo: int, i: int, up: int, less: (Elem, Elem) -> bool)
    requires 0 <= lo0 <= lo <= i <= up <= up0 < |s| && Rearranged(s, t, i + 1, up)
    requires SortedButTwo(s, lo0, up0, lo, i, up, less) && Sorted(t, i + 1, up, less)
    ensures SortedBut(t, lo0, up0, lo, i - 1, less)
  {
    hide Rearranged;
    RearrangedLength(s, t, i + 1, up);
    forall x, y | lo0 <= x < y <= up0 && !(lo <= x && y <= i - 1)
      ensures Ordered(t, x, y, less)
    {
      if !(i < x && y <= up) {
        hide Ordered;
        CrossKept(s, t, i + 1, up, x, y, less);
      }
    }
  }

  // -- the sort ------------------------------------------------------------------------------

  class SortState {
    const a: array<Elem>
    const comp: Comparator
    var calls: nat
    var err: Error
    ghost var asked: seq<Question>

    constructor (a: array<Elem>, comp: Comparator)
      ensures this.a == a && this.comp == comp && err == NoError && asked == [] && Told()
    {
      this.a, this.comp, calls, err, asked := a, comp, 0, NoError, [];
    }

    /** The comparator was asked those questions, and none after one that raised. */
    ghost predicate Told()
      reads this
    {
      calls == |asked| && FirstError(comp, asked, err)
    }

    /** sortGet: after an error nothing is read. */
    method Get(i: int, ghost lo: int, ghost up: int) returns (v: Elem)
      requires 0 <= lo <= i <= up < a.Length
      ensures v == if err == NoError then a[i] else Nil
    {
      v := if err == NoError then a[i] else Nil;
    }

    /** sortSet: after an error nothing is written. */
    method Set(i: int, v: Elem, ghost lo: int, ghost up: int)
      requires 0 <= lo <= i <= up < a.Length
      modifies a
      ensures a[..] == if err == NoError then old(a[..])[i := v] else old(a[..])
    {
      if err == NoError {
        a[i] := v;
      }
    }

    /** Write back two values read at i and j, the other way round. */
    method Exchange(i: int, j: int, vi: Elem, vj: Elem, ghost lo: int, ghost up: int)
      requires 0 <= lo <= i <= up < a.Length && lo <= j <= up
      requires err == NoError ==> vi == a[i] && vj == a[j]
      modifies a
      ensures Rearranged(old(a[..]), a[..], lo, up)
      ensures a[..] == if err == NoError then old(a[..])[i := old(a[j])][j := old(a[i])] else old(a[..])
    {
      RearrangedSelf(a[..], lo, up);
      RearrangedSwap(a[..], i, j, lo, up);
      Set(i, vj, lo, up);
      Set(j, vi, lo, up);
    }

    /** sortSwap. */
    method Swap(i: int, j: int, ghost lo: int, ghost up: int)
      requires 0 <= lo <= i <= up < a.Length && lo <= j <= up
      modifies a
      ensures Rearranged(old(a[..]), a[..], lo, up)
      ensures a[..] == if err == NoError then old(a[..])[i := old(a[j])][j := old(a[i])] else old(a[..])
    {
      RearrangedSelf(a[..], lo, up);
      if err == NoError {
        var vi, vj := a[i], a[j];
        Exchange(i, j, vi, vj, lo, up);
      }
    }

    /** sortComp: after an error the comparator is not called; raising answers false. */
    method Compare(x: Elem, y: Elem, ghost last: bool) returns (b: bool)
      requires Told()
      modifies this
      ensures calls == |asked| && FirstError(comp, asked, if b && last then InvalidOrder else err)
      ensures if old(err) != NoError then (!b && err == old(err) && asked == old(asked))
              else (asked == old(asked) + [Question(x, y, last)] &&
                match comp(old(calls), x, y)
                case Less(r) => b == r && err == NoError
                case Raise(e) => !b && err == Raised(e))
    {
      if err != NoError {
        return false;
      }
      var answer := comp(calls, x, y);
      calls := calls + 1;
      asked := asked + [Question(x, y, last)];
      match answer
      case Less(r) => b := r;
      case Raise(e) =>
        err := Raised(e);
        b := false;
    }

    /** Put the ends in order. */
    method OrderEnds(lo: int, up: int, ghost less: (Elem, Elem) -> bool)
      requires 0 <= lo < up < a.Length
      requires Told()
      modifies this, a
      ensures Rearranged(old(a[..]), a[..], lo, up)
      ensures old(err) != NoError ==> err == old(err) && asked == old(asked) && a[..] == old(a[..])
      ensures Told()
      ensures Answers(comp, less) && old(err) == NoError ==> err == NoError && !less(a[up], a[lo])
    {
      var loVal := Get(lo, lo, up);
      var upVal := Get(up, lo, up);
      var b := Compare(upVal, loVal, false);
      RearrangedSelf(a[..], lo, up);
      if b {
        Exchange(lo, up, loVal, upVal, lo, up);
      }
    }

    /** Put the middle element in order with the ends. */
    method OrderMiddle(lo: int, p: int, up: int, ghost less: (Elem, Elem) -> bool)
      requires 0 <= lo < p < up < a.Length && err == NoError
      requires Told()
      modifies this, a
      ensures Told()
      ensures Rearranged(old(a[..]), a[..], lo, up)
      ensures Answers(comp, less) && !less(old(a[up]), old(a[lo])) ==> err == NoError && !less(a[p], a[lo]) && !less(a[up], a[p])
    {
      hide Rearranged;
      var pVal := Get(p, lo, up);
      var loVal := Get(lo, lo, up);
      var b := Compare(pVal, loVal, false);
      RearrangedSelf(a[..], lo, up);
      if b {
        Exchange(p, lo, pVal, loVal, lo, up);
      } else {
        var upVal := Get(up, lo, up);
        var c := Compare(upVal, pVal, false);
        if c {
          Exchange(up, p, upVal, pVal, lo, up);
        }
      }
    }

    /**
     Asks of every position from i0 + 1 on whether it is below the pivot, up to the first that is not;
     the pivot's own position is the last, and over says that the answer was yes even there.
    */
    method ScanRight(i0: int, lo: int, up: int, pivot: Elem, ghost less: (Elem, Elem) -> bool) returns (i: int, over: bool)
      requires 0 <= lo <= i0 < up - 1 < up < a.Length && err == NoError && a[up - 1] == pivot && Told()
      modifies this
      ensures i0 < i <= up - 1 && Told() && over == (err == InvalidOrder)
      ensures |asked| == |old(asked)| + i - i0 && asked[..|old(asked)|] == old(asked)
      ensures forall k :: i0 < k <= i ==> asked[|old(asked)| + k - i0 - 1] == Question(a[k], pivot, k == up - 1)
      ensures forall k :: i0 < k < i ==> comp(|old(asked)| + k - i0 - 1, a[k], pivot) == Less(true)
      ensures match comp(|old(asked)| + i - i0 - 1, a[i], pivot)
              case Less(b) => over == b && (b ==> i == up - 1) && (!b ==> err == NoError)
              case Raise(e) => err == Raised(e)
      ensures Answers(comp, less) ==> err == NoError && !less(a[i], pivot) && forall k :: i0 < k < i ==> less(a[k], pivot)
    {
      i, over := i0, false;
      while true
        invariant i0 <= i < up - 1 && err == NoError && Told()
        invariant |asked| == |old(asked)| + i - i0 && asked[..|old(asked)|] == old(asked)
        invariant forall k :: i0 < k <= i ==> asked[|old(asked)| + k - i0 - 1] == Question(a[k], pivot, k == up - 1)
        invariant forall k :: i0 < k <= i ==> comp(|old(asked)| + k - i0 - 1, a[k], pivot) == Less(true)
        invariant Answers(comp, less) ==> forall k :: i0 < k <= i ==> less(a[k], pivot)
        decreases up - i
      {
        i := i + 1;
        var iVal := Get(i, lo, up);
        var b := Compare(iVal, pivot, i == up - 1);
        if !b {
          break;
        }
        if i == up - 1 {
          err := InvalidOrder;
          return i, true;
        }
      }
    }

    /**
     Asks of every position from j0 - 1 down whether it is above the pivot, down to the first that is
     not; the position before i is the last, and over says that the answer was yes even there.
    */
    method ScanLeft(j0: int, lo: int, i: int, up: int, pivot: Elem, ghost less: (Elem, Elem) -> bool) returns (j: int, over: bool)
      requires 0 <= lo < i <= up < a.Length && lo < j0 <= up && err != InvalidOrder && Told()
      modifies this
      ensures lo <= j < j0 && Told() && over == (err == InvalidOrder)
      ensures old(err) != NoError ==> err == old(err) && asked == old(asked)
      ensures old(err) == NoError ==> |asked| == |old(asked)| + j0 - j && asked[..|old(asked)|] == old(asked)
      ensures old(err) == NoError ==> forall k :: j <= k < j0 ==> asked[|old(asked)| + j0 - 1 - k] == Question(pivot, a[k], k < i)
      ensures forall k :: j < k < j0 && old(err) == NoError ==> comp(|old(asked)| + j0 - 1 - k, pivot, a[k]) == Less(true)
      ensures old(err) == NoError ==>
                match comp(|old(asked)| + j0 - 1 - j, pivot, a[j])
                case Less(b) => over == b && (b ==> j < i) && (!b ==> err == NoError)
                case Raise(e) => err == Raised(e)
      ensures Answers(comp, less) && old(err) == NoError && (forall k :: lo <= k < i ==> !less(pivot, a[k])) ==>
                err == NoError && !less(pivot, a[j]) && forall k :: j < k < j0 ==> less(pivot, a[k])
    {
      j, over := j0, false;
      while true
        invariant lo < j <= j0 && err == old(err) && Told() && (old(err) != NoError ==> asked == old(asked))
        invariant old(err) == NoError ==> |asked| == |old(asked)| + j0 - j && asked[..|old(asked)|] == old(asked)
        invariant old(err) == NoError ==> forall k :: j <= k < j0 ==> asked[|old(asked)| + j0 - 1 - k] == Question(pivot, a[k], k < i)
        invariant forall k :: j <= k < j0 && old(err) == NoError ==> comp(|old(asked)| + j0 - 1 - k, pivot, a[k]) == Less(true)
        invariant Answers(comp, less) && old(err) == NoError ==> forall k :: j <= k < j0 ==> less(pivot, a[k])
        invariant j < i ==> j == j0
        decreases j
      {
        j := j - 1;
        var jVal := Get(j, lo, up);
        var b := Compare(pivot, jVal, j < i);
        if !b {
          break;
        }
        if j < i {
          err := InvalidOrder;
          return j, true;
        }
      }
    }

    /** Swap the pivot at up - 1 into place. */
    method PlacePivot(i: int, up: int, pivot: Elem, ghost lo: int)
      requires 0 <= lo <= i < up < a.Length && err == NoError && a[up - 1] == pivot
      modifies a
      ensures a[..] == old(a[..])[i := old(a[up - 1])][up - 1 := old(a[i])] && Rearranged(old(a[..]), a[..], lo, up)
    {
      var iVal := Get(i, lo, up);
      Exchange(i, up - 1, iVal, pivot, lo, up);
    }

    /** Scan from both sides; without an error both stop at elements that are to change sides. */
    method Scan(lo: int, i0: int, j0: int, up: int, pivot: Elem, ghost good: bool, ghost less: (Elem, Elem) -> bool) returns (i: int, j: int)
      requires 0 <= lo <= i0 <= up - 2 < up < a.Length && lo < j0 <= up - 1 && err == NoError && a[up - 1] == pivot && Told()
      requires good ==> Answers(comp, less) && Halves(a[..], lo, i0, j0, up, pivot, less)
      modifies this
      ensures i0 < i <= up - 1 && lo <= j < j0 && Told()
      ensures good ==> err == NoError && Halves(a[..], lo, i - 1, j + 1, up, pivot, less) && !less(a[i], pivot) && !less(pivot, a[j])
    {
      hide StrictWeak, Halves, FirstError;
      var over: bool;
      i, over := ScanRight(i0, lo, up, pivot, less);
      j := j0 - 1;
      if over {
        return;
      }
      if good {
        HalvesBelow(a[..], lo, i0, i, j0, up, pivot, less);
      }
      j, over := ScanLeft(j0, lo, i, up, pivot, less);
      if good {
        HalvesScanned(a[..], lo, i0, i, j, j0, up, pivot, less);
      }
    }

    /** Partition around the pivot, which waits at up - 1. */
    method Partition(lo: int, up: int, pivot: Elem, ghost less: (Elem, Elem) -> bool) returns (i: int)
      requires 0 <= lo && lo + 3 <= up < a.Length && err == NoError && a[up - 1] == pivot
      requires Told()
      modifies this, a
      ensures Told()
      ensures Rearranged(old(a[..]), a[..], lo, up) && lo < i < up
      ensures Answers(comp, less) && !less(pivot, old(a[lo])) && !less(old(a[up]), pivot) ==>
                err == NoError && Partitioned(a[..], lo, i, up, pivot, less)
    {
      hide Rearranged, StrictWeak, Halves, Answers, Partitioned, FirstError;
      AnswersOrder(comp, less);
      i := lo;
      var j := up - 1;
      ghost var good := Answers(comp, less) && !less(pivot, a[lo]) && !less(a[up], pivot);
      RearrangedSelf(a[..], lo, up);
      HalvesStart(a[..], lo, up, pivot, less);
      while true
        invariant lo <= i <= up - 2 && lo < j <= up - 1 && err == NoError && a[up - 1] == pivot && Told()
        invariant Rearranged(old(a[..]), a[..], lo, up)
        invariant good ==> Halves(a[..], lo, i, j, up, pivot, less)
        decreases up - i
      {
        ghost var s := a[..];
        i, j := Scan(lo, i, j, up, pivot, good, less);
        if err != NoError {
          return;
        }
        if j < i {
          if good {
            HalvesClosed(s, lo, i, j, up, pivot, less);
          }
          PlacePivot(i, up, pivot, lo);
          RearrangedTwice(old(a[..]), s, a[..], lo, up);
          break;
        }
        if good {
          HalvesSwapped(s, lo, i, j, up, pivot, less);
        }
        Swap(i, j, lo, up);
        RearrangedTwice(old(a[..]), s, a[..], lo, up);
      }
    }

    /** Median of three: order both ends and the middle. done says that nothing is left to do here. */
    method OrderThree(lo: int, p: int, up: int, ghost less: (Elem, Elem) -> bool) returns (done: bool)
      requires 0 <= lo < up < a.Length && p == (lo + up) / 2
      requires Told()
      modifies this, a
      ensures Rearranged(old(a[..]), a[..], lo, up)
      ensures old(err) != NoError ==> done && err == old(err) && asked == old(asked) && a[..] == old(a[..])
      ensures Told()
      ensures !done ==> err == NoError && lo + 3 <= up
      ensures Answers(comp, less) && old(err) == NoError ==>
                err == NoError && if done then Sorted(a[..], lo, up, less) else !less(a[p], a[lo]) && !less(a[up], a[p])
    {
      hide FirstError, Rearranged, Answers, StrictWeak, Sorted;
      AnswersOrder(comp, less);
      done := true;
      OrderEnds(lo, up, less);
      if err != NoError || up - lo == 1 {
        PairSorted(a[..], lo, up, less);
        return;
      }
      ghost var s := a[..];
      OrderMiddle(lo, p, up, less);
      RearrangedTwice(old(a[..]), s, a[..], lo, up);
      if err != NoError || up - lo == 2 {
        TripleSorted(a[..], lo, up, less);
        return;
      }
      done := false;
    }

    /** The median of three becomes the pivot and waits at up - 1. */
    method Prepare(lo: int, up: int, ghost less: (Elem, Elem) -> bool) returns (done: bool, pivot: Elem)
      requires 0 <= lo < up < a.Length
      requires Told()
      modifies this, a
      ensures Rearranged(old(a[..]), a[..], lo, up)
      ensures old(err) != NoError ==> done && err == old(err) && asked == old(asked) && a[..] == old(a[..])
      ensures Told()
      ensures !done ==> err == NoError && lo + 3 <= up && a[up - 1] == pivot
      ensures Answers(comp, less) && old(err) == NoError ==>
                err == NoError && if done then Sorted(a[..], lo, up, less) else !less(pivot, a[lo]) && !less(a[up], pivot)
    {
      hide FirstError, Rearranged, Answers, Sorted;
      var p := (lo + up) / 2;
      pivot := Nil;
      done := OrderThree(lo, p, up, less);
      if done {
        return;
      }
      ghost var t := a[..];
      pivot := Get(p, lo, up);
      var upM1Val := Get(up - 1, lo, up);
      Exchange(p, up - 1, pivot, upM1Val, lo, up);
      RearrangedTwice(old(a[..]), t, a[..], lo, up);
    }

    /** One round: prepare and partition. When done, nothing is left to do between lo and up. */
    method Round(lo: int, up: int, ghost lo0: int, ghost up0: int, ghost good: bool, ghost less: (Elem, Elem) -> bool)
      returns (done: bool, i: int)
      requires 0 <= lo0 <= lo < up <= up0 < a.Length
      requires good ==> Answers(comp, less) && err == NoError && SortedBut(a[..], lo0, up0, lo, up, less)
      requires Told()
      modifies this, a
      ensures Rearranged(old(a[..]), a[..], lo, up) && (!done ==> lo < i < up)
      ensures old(err) != NoError ==> done && err == old(err) && asked == old(asked) && a[..] == old(a[..])
      ensures Told()
      ensures !done ==> err == NoError
      ensures good ==> err == NoError && if done then Sorted(a[..], lo0, up0, less) else SortedButTwo(a[..], lo0, up0, lo, i, up, less)
    {
      hide FirstError, Rearranged, Answers, Sorted, SortedBut, SortedButTwo, Partitioned, StrictWeak;
      AnswersOrder(comp, less);
      i := lo;
      ghost var s := a[..];
      var pivot: Elem;
      done, pivot := Prepare(lo, up, less);
      ghost var t := a[..];
      if good {
        SortedButKept(s, t, lo0, up0, lo, up, less);
      }
      if done {
        if good {
          WholeSorted(t, lo0, up0, lo, up, less);
        }
        return;
      }
      i := Partition(lo, up, pivot, less);
      RearrangedTwice(s, t, a[..], lo, up);
      done := err != NoError;
      if good {
        SortedButKept(t, a[..], lo0, up0, lo, up, less);
        PartitionSplits(a[..], lo0, up0, lo, i, up, pivot, less);
      }
    }

    /** Sort the smaller side with a nested call; the other side is left to the loop. */
    method SortSmaller(lo: int, i: int, up: int, ghost lo0: int, ghost up0: int, ghost depth: nat, ghost good: bool, ghost less: (Elem, Elem) -> bool)
      returns (nlo: int, nup: int)
      requires 0 <= lo0 <= lo < i < up <= up0 < a.Length && up - lo + 1 < Pow2(depth) && err == NoError
      requires good ==> Answers(comp, less) && SortedButTwo(a[..], lo0, up0, lo, i, up, less)
      requires Told()
      modifies this, a
      ensures Told()
      ensures Rearranged(old(a[..]), a[..], lo, up)
      ensures lo <= nlo <= nup + 1 && nup <= up && nup - nlo < up - lo
      ensures good ==> err == NoError && SortedBut(a[..], lo0, up0, nlo, nup, less)
      decreases depth, 0
    {
      hide FirstError, Rearranged, Answers, Sorted, SortedBut, SortedButTwo, Pow2;
      ghost var u := a[..];
      nlo, nup := lo, up;
      if i - lo < up - i {
        HalfSize(depth, up - lo + 1, i - lo);
        AuxSort(lo, i - 1, depth - 1, less);
        RearrangedWider(u, a[..], lo, i - 1, lo, up);
        if good {
          LeftDone(u, a[..], lo0, up0, lo, i, up, less);
        }
        nlo := i + 1;
      } else {
        HalfSize(depth, up - lo + 1, up - i);
        AuxSort(i + 1, up, depth - 1, less);
        RearrangedWider(u, a[..], i + 1, up, lo, up);
        if good {
          RightDone(u, a[..], lo0, up0, lo, i, up, less);
        }
        nup := i - 1;
      }
    }

    /**
     auxSort. Whatever the comparator answers, positions lo0 to up0 are permuted and nothing else
     changes; each nested call gets at most half of the positions.
    */
    method AuxSort(lo0: int, up0: int, ghost depth: nat, ghost less: (Elem, Elem) -> bool)
      requires 0 <= lo0 <= up0 + 1 <= a.Length && up0 - lo0 + 1 < Pow2(depth)
      requires Told()
      modifies this, a
      ensures Rearranged(old(a[..]), a[..], lo0, up0)
      ensures old(err) != NoError ==> err == old(err) && asked == old(asked) && a[..] == old(a[..])
      ensures Told()
      ensures Answers(comp, less) && old(err) == NoError ==> err == NoError && Sorted(a[..], lo0, up0, less)
      decreases depth, 1
    {
      hide FirstError, Rearranged, Answers, Sorted, SortedBut, SortedButTwo, Pow2, StrictWeak;
      var lo, up := lo0, up0;
      ghost var good := Answers(comp, less) && err == NoError;
      RearrangedSelf(a[..], lo, up);
      AllInside(a[..], lo, up, less);
      while lo < up
        invariant lo0 <= lo <= up + 1 && up <= up0
        invariant Rearranged(old(a[..]), a[..], lo0, up0)
        invariant Told() && (old(err) != NoError ==> err == old(err) && asked == old(asked) && a[..] == old(a[..]))
        invariant good ==> err == NoError && SortedBut(a[..], lo0, up0, lo, up, less)
        decreases up - lo
      {
        ghost var s := a[..];
        var done, i := Round(lo, up, lo0, up0, good, less);
        RearrangedWider(s, a[..], lo, up, lo0, up0);
        RearrangedTwice(old(a[..]), s, a[..], lo0, up0);
        if done {
          return;
        }
        ghost var (u, lo1, up1) := (a[..], lo, up);
        lo, up := SortSmaller(lo, i, up, lo0, up0, depth, good, less);
        RearrangedWider(u, a[..], lo1, up1, lo0, up0);
        RearrangedTwice(old(a[..]), u, a[..], lo0, up0);
      }
      if good {
        OneLeft(a[..], lo0, up0, lo, up, less);
      }
    }
  }

  // -- small facts -----------------------------------------------------------------------------

  lemma AnswersOrder(comp: Comparator, less: (Elem, Elem) -> bool)
    ensures Answers(comp, less) ==> StrictWeak(less)
  {
  }

  lemma HalvesStart(s: seq<Elem>, lo: int, up: int, pivot: Elem, less: (Elem, Elem) -> bool)
    requires 0 <= lo && lo + 3 <= up < |s| && s[up - 1] == pivot
    ensures StrictWeak(less) && !less(pivot, s[lo]) && !less(s[up], pivot) ==> Halves(s, lo, lo, up - 1, up, pivot, less)
  {
  }

  lemma HalvesBelow(s: seq<Elem>, lo: int, i0: int, i: int, j0: int, up: int, pivot: Elem, less: (Elem, Elem) -> bool)
    requires 0 <= lo && up < |s| && StrictWeak(less) && lo <= i0 < i <= up && Halves(s, lo, i0, j0, up, pivot, less)
    requires forall k :: i0 < k < i ==> less(s[k], pivot)
    ensures forall k :: lo <= k < i ==> !less(pivot, s[k])
  {
  }

  lemma PairSorted(s: seq<Elem>, lo: int, up: int, less: (Elem, Elem) -> bool)
    requires 0 <= lo < up < |s|
    ensures up == lo + 1 && !less(s[up], s[lo]) ==> Sorted(s, lo, up, less)
  {
  }

  lemma TripleSorted(s: seq<Elem>, lo: int, up: int, less: (Elem, Elem) -> bool)
    requires 0 <= lo && lo + 2 <= up < |s|
    ensures up == lo + 2 && !less(s[lo + 1], s[lo]) && !less(s[up], s[lo + 1]) && StrictWeak(less) ==> Sorted(s, lo, up, less)
  {
  }

  lemma AllInside(s: seq<Elem>, lo: int, up: int, less: (Elem, Elem) -> bool)
    requires 0 <= lo && up < |s|
    ensures SortedBut(s, lo, up, lo, up, less)
  {
  }

  lemma WholeSorted(s: seq<Elem>, lo0: int, up0: int, lo: int, up: int, less: (Elem, Elem) -> bool)
    requires 0 <= lo0 <= lo && up <= up0 < |s| && SortedBut(s, lo0, up0, lo, up, less) && Sorted(s, lo, up, less)
    ensures Sorted(s, lo0, up0, less)
  {
    forall x, y | lo0 <= x < y <= up0
      ensures !less(s[y], s[x])
    {
      assert (lo <= x && y <= up) || Ordered(s, x, y, less);
    }
  }

  lemma OneLeft(s: seq<Elem>, lo0: int, up0: int, lo: int, up: int, less: (Elem, Elem) -> bool)
    requires 0 <= lo0 <= lo && up <= up0 < |s| && SortedBut(s, lo0, up0, lo, up, less) && lo >= up
    ensures Sorted(s, lo0, up0, less)
  {
    WholeSorted(s, lo0, up0, lo, up, less);
  }

  lemma HalfSize(depth: nat, n: int, m: int)
    requires 0 < n < Pow2(depth) && 2 * m + 1 <= n
    ensures depth > 0 && m < Pow2(depth - 1)
  {
  }

  /** The number of bits of n: how deep the nested calls go at most. */
  function Bits(n: nat): (d: nat)
    ensures n < Pow2(d) && (n > 0 ==> Pow2(d - 1) <= n && d > 0)
  {
    if n == 0 then 0 else Bits(n / 2) + 1
  }

  /**
   table.sort on a list held in positions 1 to a.Length - 1; asked is what the
   comparator was asked, in order.
  */
  method Sort(a: array<Elem>, comp: Comparator, ghost less: (Elem, Elem) -> bool) returns (err: Error, ghost asked: seq<Question>)
    requires a.Length >= 1
    modifies a
    ensures multiset(a[1..]) == multiset(old(a[1..])) && a[0] == old(a[0])
    ensures Answers(comp, less) ==> err == NoError && Sorted(a[..], 1, a.Length - 1, less)
    ensures FirstError(comp, asked, err)
  {
    hide StrictWeak, Answers, Sorted;
    err, asked := NoError, [];
    var n := a.Length - 1;
    if n <= 1 {
      ShortSorted(a[..], n, less);
      return;
    }
    var st := new SortState(a, comp);
    st.AuxSort(1, n, Bits(n), less);
    assert a[1..n + 1] == a[1..] && old(a[..])[1..n + 1] == old(a[1..]);
    assert a[..][..1][0] == old(a[..])[..1][0];
    err, asked := st.err, st.asked;
  }

  lemma ShortSorted(s: seq<Elem>, n: int, less: (Elem, Elem) -> bool)
    requires n <= 1 && |s| == n + 1
    ensures Sorted(s, 1, n, less)
  {
  }
}
