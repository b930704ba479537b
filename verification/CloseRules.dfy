/**
 Jumps that leave the scope of captured or to-be-closed variables: the records
 the compiler keeps of its gotos and breaks, and what makes each of them right.
*/
module CloseRules {

  /** Back: the instruction that ends a round of a for loop and goes back so many places. */
  datatype Ins = Other(op: int) | Jmp(offset: int) | Back(places: int) | Close(level: nat)

  /** reg is -1 for a constant that was inlined and owns no register. */
  datatype Local = Local(name: string, reg: int, close: bool, captured: bool, inlined: bool)

  datatype Label = Label(name: string, pc: nat, n: nat)

  datatype Scope = Scope(n: nat, baseReg: nat, isLoop: bool, firstLabel: nat, firstGoto: nat, header: nat, breaks: seq<nat>)

  /**
   A break or goto. n: locals at the jump, lowered as blocks are left. dst: locals
   at the destination, -1 while the label is unknown. pair: a slot is reserved
   beside the jump, holding a dead OP_CLOSE or, once active, the live one in front.
  */
  datatype Jump = Jump(name: string, pc: nat, target: int, n: nat, dst: int, level: nat, pair: bool, active: bool, need: bool)

  predicate Needs(l: Local) {
    l.close || l.captured
  }

  predicate NeedsFrom(locals: seq<Local>, from: nat) {
    exists k :: from <= k < |locals| && Needs(locals[k])
  }

  /** One past the highest register of the first n locals. */
  function RegBase(locals: seq<Local>, n: nat): (r: nat)
    requires n <= |locals|
  {
    if n == 0 then 0
    else
      var r := RegBase(locals, n - 1);
      if locals[n - 1].reg + 1 > r then locals[n - 1].reg + 1 else r
  }

  /** The innermost local of a name. */
  function Innermost(locals: seq<Local>, name: string): (k: int)
    ensures -1 <= k < |locals| && (k >= 0 ==> locals[k].name == name)
    ensures forall m :: k < m < |locals| ==> locals[m].name != name
  {
    if locals == [] then -1
    else if locals[|locals| - 1].name == name then |locals| - 1
    else Innermost(locals[..|locals| - 1], name)
  }

  function Base(j: Jump): int {
    if j.active then j.pc - 1 else j.pc
  }

  function Width(j: Jump): int {
    if j.pair then 2 else 1
  }

  // -- the code ---------------------------------------------------------------------------

  /** The jump is where its record says, goes where it says, and its close runs right before it. */
  predicate CodeOk(code: seq<Ins>, j: Jump) {
    && 0 <= Base(j) && Base(j) + Width(j) <= |code| && (j.active ==> j.pair)
    && code[j.pc].Jmp?
    && (j.target >= 0 ==> code[j.pc] == Jmp(j.target - (j.pc + 1)))
    && (j.active ==> code[j.pc - 1] == Close(j.level))
    && (j.pair && !j.active ==> code[j.pc + 1].Close?)
  }

  predicate AllCode(code: seq<Ins>, jumps: seq<Jump>) {
    forall q :: 0 <= q < |jumps| ==> CodeOk(code, jumps[q])
  }

  /** Slots follow one another in the order of the jumps. */
  predicate Apart(jumps: seq<Jump>, n: int) {
    && (forall p, q :: 0 <= p < q < |jumps| ==> Base(jumps[p]) + Width(jumps[p]) <= Base(jumps[q]))
    && (forall p :: 0 <= p < |jumps| ==> Base(jumps[p]) + Width(jumps[p]) <= n)
  }

  /** No jump lands between a close and its jump. */
  predicate Landing(jumps: seq<Jump>, t: int, n: int) {
    -1 <= t <= n && forall p :: 0 <= p < |jumps| && jumps[p].pair ==> t != Base(jumps[p]) + 1
  }

  predicate Landings(jumps: seq<Jump>, labels: seq<Label>, n: int) {
    && (forall q :: 0 <= q < |jumps| ==> Landing(jumps, jumps[q].target, n))
    && (forall l :: 0 <= l < |labels| ==> Landing(jumps, labels[l].pc, n))
  }

  // -- the variables -------------------------------------------------------------------------

  /** Registers grow in declaration order; an inlined constant has none and needs no close. */
  predicate LocalOk(l: Local) {
    if l.inlined then l.reg == -1 && !Needs(l) else l.reg >= 0
  }

  /** locals are the live ones of all that were ever declared. */
  predicate LocalsOk(hist: seq<Local>, ids: seq<nat>, locals: seq<Local>) {
    && |ids| == |locals|
    && (forall x :: 0 <= x < |hist| ==> LocalOk(hist[x]))
    && (forall k :: 0 <= k < |ids| ==> ids[k] < |hist| && hist[ids[k]] == locals[k])
    && (forall a, b :: 0 <= a < b < |ids| ==> ids[a] < ids[b])
    && LiveOk(hist, ids)
  }

  predicate LiveOk(hist: seq<Local>, live: seq<nat>) {
    && (forall k :: 0 <= k < |live| ==> live[k] < |hist|)
    && (forall a, b :: 0 <= a < b < |live| && !hist[live[a]].inlined && !hist[live[b]].inlined ==> hist[live[a]].reg < hist[live[b]].reg)
  }

  /** A close down to level closes what is lost on the way to the destination and nothing that is still in scope there. */
  predicate LevelOk(hist: seq<Local>, live: seq<nat>, j: Jump)
    requires LiveOk(hist, live)
  {
    j.dst >= 0 ==>
      && j.dst <= |live|
      && (forall k :: 0 <= k < j.dst ==> hist[live[k]].reg < j.level)
      && (forall k :: j.dst <= k < |live| && !hist[live[k]].inlined ==> hist[live[k]].reg >= j.level)
  }

  /** The first n locals at the jump are still there, the others are gone. */
  predicate Since(ids: seq<nat>, live: seq<nat>, n: nat) {
    n <= |ids| && n <= |live| && live[..n] == ids[..n] && forall k :: n <= k < |live| ==> live[k] !in ids
  }

  /** A jump with a known destination whose need for a close is open. */
  predicate HeldOk(hist: seq<Local>, ids: seq<nat>, live: seq<nat>, j: Jump)
    requires LiveOk(hist, live)
  {
    && 0 <= j.dst < j.n && Since(ids, live, j.n) && j.pair
    && (!j.active ==> forall k :: j.n <= k < |live| ==> !Needs(hist[live[k]]))
  }

  /** A forward goto. */
  predicate OpenOk(hist: seq<Local>, ids: seq<nat>, live: seq<nat>, j: Jump)
    requires LiveOk(hist, live)
  {
    && j.dst == -1 && j.target == -1 && !j.active && Since(ids, live, j.n) && (j.pair <==> |live| > 0)
    && (!j.need ==> forall k :: j.n <= k < |live| ==> !Needs(hist[live[k]]))
  }

  /**
   A jump nothing more happens to: without a close, no local it leaves behind
   needs one, nor will, ids[frozen..] being past their last statement.
  */
  predicate SettledOk(hist: seq<Local>, ids: seq<nat>, frozen: nat, live: seq<nat>, j: Jump)
    requires LiveOk(hist, live) && frozen <= |ids|
  {
    && 0 <= j.dst <= |live|
    && (!j.active ==> forall k :: j.dst <= k < |live| ==> !Needs(hist[live[k]]) && live[k] !in ids[..frozen])
  }

  /** What the whole property comes to for one jump of a finished function. */
  predicate Sound(code: seq<Ins>, hist: seq<Local>, live: seq<nat>, j: Jump) {
    && 0 < j.pc + 1 <= |code| && j.target >= 0 && code[j.pc] == Jmp(j.target - (j.pc + 1))
    && 0 <= j.dst <= |live| && (forall k :: 0 <= k < |live| ==> live[k] < |hist|)
    && ((exists k :: j.dst <= k < |live| && Needs(hist[live[k]])) ==> j.active)
    && (j.active ==>
          && j.pc > 0 && code[j.pc - 1] == Close(j.level)
          && (forall k :: 0 <= k < j.dst ==> hist[live[k]].reg < j.level)
          && (forall k :: j.dst <= k < |live| && Needs(hist[live[k]]) ==> j.level <= hist[live[k]].reg))
  }

  // -- steps on the code ------------------------------------------------------------------------

  lemma CodeAppend(code: seq<Ins>, more: seq<Ins>, jumps: seq<Jump>)
    requires AllCode(code, jumps)
    ensures AllCode(code + more, jumps)
  {
    forall q | 0 <= q < |jumps| ensures CodeOk(code + more, jumps[q]) {
      assert CodeOk(code, jumps[q]);
    }
  }

  /** Code that differs only in the slots of jump q leaves the other jumps alone. */
  lemma CodeUpdate(code: seq<Ins>, code': seq<Ins>, jumps: seq<Jump>, q: nat, j: Jump)
    requires AllCode(code, jumps) && Apart(jumps, |code|) && q < |jumps| && |code'| == |code|
    requires Base(j) == Base(jumps[q]) && j.pair == jumps[q].pair && CodeOk(code', j)
    requires forall i :: 0 <= i < |code| && !(Base(j) <= i < Base(j) + Width(j)) ==> code'[i] == code[i]
    ensures AllCode(code', jumps[q := j]) && Apart(jumps[q := j], |code|)
  {
    var now := jumps[q := j];
    forall p | 0 <= p < |jumps| ensures CodeOk(code', now[p]) {
      if p != q {
        assert CodeOk(code, jumps[p]);
        assert p < q ==> Base(jumps[p]) + Width(jumps[p]) <= Base(jumps[q]);
        assert p > q ==> Base(jumps[q]) + Width(jumps[q]) <= Base(jumps[p]);
      }
    }
  }

  // -- steps on the variables -----------------------------------------------------------------------

  /** What can happen to the variables: more of them, and more of those in scope captured. */
  predicate Grew(h: seq<Local>, h': seq<Local>, ids: seq<nat>) {
    && |h| <= |h'|
    && (forall x :: 0 <= x < |h| ==> h'[x].reg == h[x].reg && h'[x].inlined == h[x].inlined && (x !in ids ==> h'[x] == h[x]))
  }

  lemma LiveGrew(h: seq<Local>, h': seq<Local>, ids: seq<nat>, live: seq<nat>, j: Jump)
    requires Grew(h, h', ids) && LiveOk(h, live) && LevelOk(h, live, j)
    ensures LiveOk(h', live) && LevelOk(h', live, j)
  {
  }

  lemma HeldGrew(h: seq<Local>, h': seq<Local>, ids: seq<nat>, ids': seq<nat>, live: seq<nat>, j: Jump)
    requires Grew(h, h', ids) && LiveOk(h, live) && LiveOk(h', live) && More(ids, ids', |h|)
    ensures HeldOk(h, ids, live, j) ==> HeldOk(h', ids', live, j)
    ensures OpenOk(h, ids, live, j) ==> OpenOk(h', ids', live, j)
    ensures SettledOk(h, ids, |ids|, live, j) ==> SettledOk(h', ids', |ids'|, live, j)
  {
    if Since(ids, live, j.n) { SinceMore(ids, ids', live, j.n, |h|); }
    assert ids[..|ids|] == ids && ids'[..|ids'|] == ids';
    forall k | 0 <= k < |live| && live[k] !in ids
      ensures h'[live[k]] == h[live[k]] && live[k] !in ids'
    {
      assert live[k] < |h|;
    }
  }

  /** ids with new identities at the end. */
  predicate More(ids: seq<nat>, ids': seq<nat>, bound: nat) {
    && |ids| <= |ids'| && ids'[..|ids|] == ids
    && forall x :: x in ids' && x < bound ==> x in ids
  }

  lemma SinceMore(ids: seq<nat>, ids': seq<nat>, live: seq<nat>, n: nat, bound: nat)
    requires Since(ids, live, n) && More(ids, ids', bound) && forall k :: 0 <= k < |live| ==> live[k] < bound
    ensures Since(ids', live, n)
  {
    assert ids'[..n] == ids'[..|ids|][..n];
  }

  /** Leaving a block: the locals from n0 on go out of scope. */
  lemma SinceLess(ids: seq<nat>, live: seq<nat>, n: nat, n0: nat)
    requires Since(ids, live, n) && n0 <= |ids| && forall a, b :: 0 <= a < b < |ids| ==> ids[a] < ids[b]
    ensures Since(ids[..n0], live, if n <= n0 then n else n0)
  {
    var m, kept := if n <= n0 then n else n0, ids[..n0];
    assert live[..m] == live[..n][..m] && kept[..m] == ids[..n][..m];
    forall k | m <= k < |live| ensures live[k] !in kept {
      if k < n { assert live[k] == live[..n][k] == ids[k]; }
    }
  }

  /** A jump that stays on the list, or leaves it, when its block closes; up: the block has something to close. */
  lemma HeldLeave(hist: seq<Local>, ids: seq<nat>, locals: seq<Local>, live: seq<nat>, j: Jump, n0: nat, j': Jump)
    requires LocalsOk(hist, ids, locals) && LiveOk(hist, live) && HeldOk(hist, ids, live, j) && n0 <= |ids|
    requires j'.dst == j.dst && j'.pair
    requires j.n > n0 ==> j'.active == (j.active || NeedsFrom(locals, n0)) && (j.dst < n0 ==> j'.n == n0)
    requires j.n <= n0 ==> j' == j
    ensures j.n <= n0 || j.dst < n0 ==> HeldOk(hist, ids[..n0], live, j')
    ensures j.n > n0 && j.dst >= n0 ==> SettledOk(hist, ids[..n0], n0, live, j')
  {
    SinceLess(ids, live, j.n, n0);
    assert ids[..n0][..n0] == ids[..n0];
    if j.n > n0 && !j'.active {
      forall k | n0 <= k < |live| ensures !Needs(hist[live[k]]) {
        if k < j.n { assert live[k] == live[..j.n][k] == ids[k]; }
      }
    }
  }

  lemma OpenLeave(hist: seq<Local>, ids: seq<nat>, locals: seq<Local>, live: seq<nat>, j: Jump, n0: nat, j': Jump)
    requires LocalsOk(hist, ids, locals) && LiveOk(hist, live) && OpenOk(hist, ids, live, j) && n0 <= |ids|
    requires j' == if j.n > n0 then j.(n := n0, need := j.need || NeedsFrom(locals, n0)) else j
    ensures OpenOk(hist, ids[..n0], live, j')
  {
    SinceLess(ids, live, j.n, n0);
    if j.n > n0 && !j'.need {
      forall k | n0 <= k < |live| ensures !Needs(hist[live[k]]) {
        if k < j.n { assert live[k] == live[..j.n][k] == ids[k]; }
      }
    }
  }

  lemma SettledLeave(hist: seq<Local>, ids: seq<nat>, frozen: nat, live: seq<nat>, j: Jump, n0: nat)
    requires LiveOk(hist, live) && frozen <= |ids| && n0 <= frozen && SettledOk(hist, ids, frozen, live, j)
    ensures SettledOk(hist, ids[..n0], n0, live, j) && SettledOk(hist, ids, n0, live, j)
  {
    assert ids[..n0][..n0] == ids[..n0] == ids[..frozen][..n0];
  }

  /** The level of the first n locals separates them from the rest. */
  lemma {:induction false} RegBaseBounds(locals: seq<Local>, n: nat)
    requires n <= |locals|
    ensures forall k :: 0 <= k < n ==> locals[k].reg < RegBase(locals, n)
    ensures RegBase(locals, n) > 0 ==> exists k :: 0 <= k < n && locals[k].reg + 1 == RegBase(locals, n)
  {
    if n > 0 { RegBaseBounds(locals, n - 1); }
  }

  lemma {:induction false} RegBasePrefix(a: seq<Local>, b: seq<Local>, n: nat)
    requires n <= |a| && n <= |b| && forall k :: 0 <= k < n ==> a[k].reg == b[k].reg
    ensures RegBase(a, n) == RegBase(b, n)
  {
    if n > 0 { RegBasePrefix(a, b, n - 1); }
  }

  /** A destination that keeps the first dst locals of the jump, all still in scope. */
  lemma {:induction false} LevelOfBase(hist: seq<Local>, ids: seq<nat>, locals: seq<Local>, live: seq<nat>, n: nat, j: Jump)
    requires LocalsOk(hist, ids, locals) && LiveOk(hist, live) && Since(ids, live, n)
    requires 0 <= j.dst <= n && j.level == RegBase(locals, j.dst)
    ensures LevelOk(hist, live, j)
  {
    RegBaseBounds(locals, j.dst);
    forall k | 0 <= k < j.dst ensures live[k] == ids[k] && hist[live[k]] == locals[k] {
      assert live[..n][k] == ids[..n][k];
    }
    forall k | j.dst <= k < |live| && !hist[live[k]].inlined ensures hist[live[k]].reg >= j.level {
      if j.level > 0 {
        var m :| 0 <= m < j.dst && locals[m].reg + 1 == RegBase(locals, j.dst);
        assert !hist[live[m]].inlined;
      }
    }
  }

  lemma SettledIsSound(code: seq<Ins>, hist: seq<Local>, ids: seq<nat>, frozen: nat, live: seq<nat>, j: Jump)
    requires CodeOk(code, j) && LiveOk(hist, live) && LevelOk(hist, live, j) && frozen <= |ids| && SettledOk(hist, ids, frozen, live, j)
    requires j.target >= 0 && forall x :: 0 <= x < |hist| ==> LocalOk(hist[x])
    ensures Sound(code, hist, live, j)
  {
  }
}
