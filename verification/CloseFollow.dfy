/**
 How the compiler's records of its jumps answer to what the scoping rules ask for,
 at every moment of a compilation.
*/
module CloseFollow {
  import opened Wrappers
  import opened CloseRules
  import opened CloseCompiler
  import opened CloseWalk

  /** The part of the compiler's state that says where jumps go. */
  datatype Snap = Snap(jumps: seq<Jump>, lives: seq<seq<nat>>, scopes: seq<Scope>, ids: seq<nat>, open: seq<nat>)

  ghost function Now(fs: FuncState): Snap
    reads fs
  {
    Snap(fs.jumps, fs.lives, fs.scopes, fs.ids, fs.pendGotos)
  }

  /** The labels the compiler knows are those in sight. */
  predicate LabelsAre(labels: seq<Label>, places: seq<Place>, ids: seq<nat>) {
    && |labels| == |places|
    && forall l :: 0 <= l < |labels| ==> LabelIs(labels[l], places[l], ids)
  }

  predicate LabelIs(l: Label, p: Place, ids: seq<nat>) {
    l == Label(p.name, p.pc, |p.kept|) && |p.kept| <= |ids| && p.kept == ids[..|p.kept|]
  }

  /** Variables, labels and the length of the code are as the statements say. */
  ghost predicate Same(fs: FuncState, w: World)
    reads fs
  {
    && fs.hist == w.decls && fs.ids == w.scope && |fs.code| == w.pc && |fs.jumps| == |w.wants|
    && LabelsAre(fs.labels, w.places, fs.ids) && EndsOk(fs.code, fs.hist, fs.ids, fs.jumps, w.ends)
  }

  /** The code of an end is complete, in no slot of a jump, and right. */
  predicate EndOk(code: seq<Ins>, hist: seq<Local>, jumps: seq<Jump>, e: End) {
    && (forall k :: 0 <= k < |e.live| ==> e.live[k] < |hist|)
    && e.pc + EndSize(e, LeavesNeedy(hist, e.live, e.n)) <= |code|
    && (forall i :: e.pc <= i < e.pc + EndSize(e, LeavesNeedy(hist, e.live, e.n)) ==> Free(jumps, i))
    && Ended(code, hist, e)
  }

  /** The variables left there are out of scope. */
  predicate Gone(ids: seq<nat>, e: End) {
    forall k :: e.n <= k < |e.live| ==> e.live[k] !in ids
  }

  predicate EndsOk(code: seq<Ins>, hist: seq<Local>, ids: seq<nat>, jumps: seq<Jump>, ends: seq<End>) {
    forall q :: 0 <= q < |ends| ==> EndOk(code, hist, jumps, ends[q]) && Gone(ids, ends[q])
  }

  function LoopN(scopes: seq<Scope>): Option<nat> {
    if Loop(scopes) < 0 then None else Some(scopes[Loop(scopes)].n)
  }

  /** The jump goes to pc, where the locals kept are in scope. */
  predicate Reaches(j: Jump, live: seq<nat>, pc: nat, kept: seq<nat>) {
    j.target == pc && j.dst == |kept| <= |live| && live[..|kept|] == kept
  }

  /** Jump q is where it should be, and goes or will go where it should; seen: the labels of its block so far. */
  predicate Goes(now: Snap, q: nat, v: Want, seen: seq<Place>)
    requires q < |now.jumps| == |now.lives|
  {
    var j, live := now.jumps[q], now.lives[q];
    && live == v.live && Base(j) == v.pc
    && match v.dest
       case At(pc, kept) => Reaches(j, live, pc, kept)
       case OutOfLoop => Breaking(now, q)
       case ToLabel(x) => j.name == x && if Find(seen, x).Some? then Reaches(j, live, Find(seen, x).value.pc, Find(seen, x).value.kept) else q in now.open
  }

  /** A break of the innermost loop, which will keep the locals outside that loop. */
  predicate Breaking(now: Snap, q: nat)
    requires q < |now.jumps| == |now.lives|
  {
    var k := Loop(now.scopes);
    && k >= 0 && q in now.scopes[k].breaks && now.jumps[q].target == -1 && now.jumps[q].dst == now.scopes[k].n
    && now.scopes[k].n <= |now.ids| && now.scopes[k].n <= |now.lives[q]| && now.lives[q][..now.scopes[k].n] == now.ids[..now.scopes[k].n]
  }

  /** Only breaks from number k on have been added to the loops. */
  predicate Grown(was: seq<Scope>, now: seq<Scope>, k: nat) {
    && SameScopes(was, now)
    && forall s, i :: 0 <= s < |was| && |was[s].breaks| <= i < |now[s].breaks| ==> now[s].breaks[i] >= k
  }

  /** What happened before has not changed its course, and new gotos wait after the old ones. */
  predicate Still(was: Snap, now: Snap) {
    && |was.jumps| <= |now.jumps|
    && (forall q :: 0 <= q < |was.jumps| ==> now.jumps[q].target == was.jumps[q].target && now.jumps[q].dst == was.jumps[q].dst)
    && |was.open| <= |now.open| && now.open[..|was.open|] == was.open
    && (forall i :: |was.open| <= i < |now.open| ==> now.open[i] >= |was.jumps|)
    && |was.ids| <= |now.ids| && now.ids[..|was.ids|] == was.ids
  }

  /** From was to now: new jumps answer to their wants, the others are as they were. */
  predicate Went(was: Snap, now: Snap, wants: seq<Want>, seen: seq<Place>) {
    && Kept(was.jumps, now.jumps, was.lives, now.lives)
    && Grown(was.scopes, now.scopes, |was.jumps|) && Still(was, now) && |now.jumps| == |wants| == |now.lives|
    && forall q :: |was.jumps| <= q < |now.jumps| ==> Goes(now, q, wants[q], seen)
  }

  // -- what becomes of the ends -----------------------------------------------------------------

  /** The same positions hold the same instructions. */
  lemma EndMoved(code: seq<Ins>, code': seq<Ins>, hist: seq<Local>, jumps: seq<Jump>, jumps': seq<Jump>, e: End)
    requires EndOk(code, hist, jumps, e) && |code| <= |code'|
    requires forall i :: 0 <= i < |code| && Free(jumps, i) ==> code'[i] == code[i] && Free(jumps', i)
    ensures EndOk(code', hist, jumps', e)
  {
    hide Free, Needs;
    var closes := LeavesNeedy(hist, e.live, e.n);
    assert forall i :: e.pc <= i < e.pc + EndSize(e, closes) ==> Free(jumps, i) && code'[i] == code[i];
  }

  lemma EndsMoved(code: seq<Ins>, code': seq<Ins>, hist: seq<Local>, ids: seq<nat>, jumps: seq<Jump>, jumps': seq<Jump>, ends: seq<End>)
    requires EndsOk(code, hist, ids, jumps, ends) && |code| <= |code'|
    requires forall i :: 0 <= i < |code| && Free(jumps, i) ==> code'[i] == code[i] && Free(jumps', i)
    ensures EndsOk(code', hist, ids, jumps', ends)
  {
    hide EndOk, Gone, Free;
    forall q | 0 <= q < |ends| ensures EndOk(code', hist, jumps', ends[q]) && Gone(ids, ends[q]) {
      EndMoved(code, code', hist, jumps, jumps', ends[q]);
    }
  }

  /** New variables, and captures among those in scope. */
  lemma EndGrew(code: seq<Ins>, h: seq<Local>, h': seq<Local>, ids: seq<nat>, ids': seq<nat>, jumps: seq<Jump>, e: End)
    requires EndOk(code, h, jumps, e) && Gone(ids, e) && Grew(h, h', ids) && More(ids, ids', |h|)
    ensures EndOk(code, h', jumps, e) && Gone(ids', e)
  {
    hide Free;
    forall k | e.n <= k < |e.live| ensures h'[e.live[k]] == h[e.live[k]] && e.live[k] !in ids' {
      assert e.live[k] < |h|;
    }
    assert LeavesNeedy(h', e.live, e.n) == LeavesNeedy(h, e.live, e.n);
    forall pc: nat | ClosesAt(code, pc, h, e.live, e.n) ensures ClosesAt(code, pc, h', e.live, e.n) {
    }
  }

  lemma EndsGrew(code: seq<Ins>, h: seq<Local>, h': seq<Local>, ids: seq<nat>, ids': seq<nat>, jumps: seq<Jump>, ends: seq<End>)
    requires EndsOk(code, h, ids, jumps, ends) && Grew(h, h', ids) && More(ids, ids', |h|)
    ensures EndsOk(code, h', ids', jumps, ends)
  {
    hide EndOk, Gone, Grew, More;
    forall q | 0 <= q < |ends| ensures EndOk(code, h', jumps, ends[q]) && Gone(ids', ends[q]) {
      EndGrew(code, h, h', ids, ids', jumps, ends[q]);
    }
  }

  /** Fewer variables in scope. */
  lemma EndsLess(code: seq<Ins>, hist: seq<Local>, ids: seq<nat>, n: nat, jumps: seq<Jump>, ends: seq<End>)
    requires EndsOk(code, hist, ids, jumps, ends) && n <= |ids|
    ensures EndsOk(code, hist, ids[..n], jumps, ends)
  {
    hide EndOk;
    forall q | 0 <= q < |ends| ensures EndOk(code, hist, jumps, ends[q]) && Gone(ids[..n], ends[q]) {
      assert Gone(ids, ends[q]);
    }
  }

  /** Slots keep their places. */
  lemma FreeKept(was: seq<Jump>, now: seq<Jump>, la: seq<seq<nat>>, lb: seq<seq<nat>>, i: int)
    requires Kept(was, now, la, lb) && |was| == |now| && Free(was, i)
    ensures Free(now, i)
  {
  }

  /** A new slot is behind the code so far. */
  lemma FreePlus(was: seq<Jump>, now: seq<Jump>, n: int, i: int)
    requires |now| == |was| + 1 && now[..|was|] == was && Base(now[|was|]) >= n > i && Free(was, i)
    ensures Free(now, i)
  {
    forall p | 0 <= p < |now| ensures !(Base(now[p]) <= i < Base(now[p]) + Width(now[p])) {
      if p < |was| { assert now[p] == now[..|was|][p]; }
    }
  }

  lemma EndsAppended(code: seq<Ins>, code': seq<Ins>, hist: seq<Local>, ids: seq<nat>, jumps: seq<Jump>, ends: seq<End>)
    requires EndsOk(code, hist, ids, jumps, ends) && |code| <= |code'| && code'[..|code|] == code
    ensures EndsOk(code', hist, ids, jumps, ends)
  {
    hide Free, EndsOk;
    assert forall i :: 0 <= i < |code| ==> code'[i] == code'[..|code|][i];
    EndsMoved(code, code', hist, ids, jumps, jumps, ends);
  }

  lemma EndsJump(code: seq<Ins>, code': seq<Ins>, hist: seq<Local>, ids: seq<nat>, jumps: seq<Jump>, jumps': seq<Jump>, ends: seq<End>)
    requires EndsOk(code, hist, ids, jumps, ends) && |code| <= |code'| && code'[..|code|] == code
    requires |jumps'| == |jumps| + 1 && jumps'[..|jumps|] == jumps && Base(jumps'[|jumps|]) >= |code|
    ensures EndsOk(code', hist, ids, jumps', ends)
  {
    hide Free, EndsOk;
    assert forall i :: 0 <= i < |code| ==> code'[i] == code'[..|code|][i];
    forall i | 0 <= i < |code| && Free(jumps, i) ensures Free(jumps', i) {
      FreePlus(jumps, jumps', |code|, i);
    }
    EndsMoved(code, code', hist, ids, jumps, jumps', ends);
  }

  /** A label is set or a scope left: slots have changed, and nothing else. */
  lemma EndsTouched(code: seq<Ins>, code': seq<Ins>, hist: seq<Local>, ids: seq<nat>, jumps: seq<Jump>, jumps': seq<Jump>, la: seq<seq<nat>>, lb: seq<seq<nat>>, ends: seq<End>)
    requires EndsOk(code, hist, ids, jumps, ends) && Untouched(code, code', jumps) && Kept(jumps, jumps', la, lb) && |jumps| == |jumps'|
    ensures EndsOk(code', hist, ids, jumps', ends)
  {
    hide Free, EndsOk, Kept;
    forall i | 0 <= i < |code| && Free(jumps, i) ensures Free(jumps', i) {
      FreeKept(jumps, jumps', la, lb, i);
    }
    EndsMoved(code, code', hist, ids, jumps, jumps', ends);
  }

  lemma EndTouched(code: seq<Ins>, code': seq<Ins>, hist: seq<Local>, jumps: seq<Jump>, jumps': seq<Jump>, la: seq<seq<nat>>, lb: seq<seq<nat>>, e: End)
    requires EndOk(code, hist, jumps, e) && Untouched(code, code', jumps) && Kept(jumps, jumps', la, lb) && |jumps| == |jumps'|
    ensures EndOk(code', hist, jumps', e)
  {
    hide Free, EndOk, Kept;
    forall i | 0 <= i < |code| && Free(jumps, i) ensures Free(jumps', i) {
      FreeKept(jumps, jumps', la, lb, i);
    }
    EndMoved(code, code', hist, jumps, jumps', e);
  }

  // -- the code of an end -----------------------------------------------------------------------------

  /** Whether something from number n on must be closed is the same seen from the locals in scope. */
  lemma NeedyIs(hist: seq<Local>, ids: seq<nat>, locals: seq<Local>, n: nat)
    requires LocalsOk(hist, ids, locals)
    ensures LeavesNeedy(hist, ids, n) == NeedsFrom(locals, n)
  {
    assert forall k :: 0 <= k < |ids| ==> ids[k] < |hist| && hist[ids[k]] == locals[k];
    if LeavesNeedy(hist, ids, n) {
      var k :| n <= k < |ids| && ids[k] < |hist| && Needs(hist[ids[k]]);
      assert Needs(locals[k]);
    }
    if NeedsFrom(locals, n) {
      var k :| n <= k < |locals| && Needs(locals[k]);
      assert Needs(hist[ids[k]]);
    }
  }

  /** A close at the base of the first n locals in scope is the right one. */
  lemma {:induction false} BaseCloses(code: seq<Ins>, pc: nat, hist: seq<Local>, ids: seq<nat>, locals: seq<Local>, n: nat)
    requires LocalsOk(hist, ids, locals) && n <= |locals| && pc < |code| && code[pc] == Close(RegBase(locals, n))
    ensures ClosesAt(code, pc, hist, ids, n)
  {
    var j := Jump("", 0, -1, |ids|, n, RegBase(locals, n), false, false, false);
    assert ids[..|ids|] == ids;
    LevelOfBase(hist, ids, locals, ids, |ids|, j);
    hide RegBase;
  }

  /** The code at the end of a round. */
  function RoundCode(round: Round, closes: bool, level: nat, pc: nat, back: nat): seq<Ins> {
    var first := if closes then [Close(level)] else [];
    match round
    case Again => first + [Jmp(back - (pc + |first| + 1))]
    case Count => first + [Back(pc + |first| - back)]
    case Call => first + [Other(0), Back(pc + |first| + 1 - back)]
    case Until => if closes then [Jmp(1), Jmp(2), Close(level), Jmp(back - (pc + 4)), Close(level)] else [Jmp(back - (pc + 1))]
    case Once => first
  }

  lemma RoundShape(before: seq<Ins>, code: seq<Ins>, round: Round, closes: bool, level: nat, back: nat)
    requires code == before + RoundCode(round, closes, level, |before|, back)
    ensures |code| == |before| + RoundSize(round, closes)
    ensures var (pc, at) := (|before|, if closes then |before| + 1 else |before|);
            && (closes && !round.Until? ==> code[pc] == Close(level))
            && (round.Again? ==> JumpsAt(code, at, back)) && (round.Count? ==> LoopsAt(code, at, back))
            && (round.Call? ==> code[at].Other? && LoopsAt(code, at + 1, back))
            && (round.Until? && !closes ==> JumpsAt(code, pc, back))
            && (round.Until? && closes ==> JumpsAt(code, pc, pc + 2) && JumpsAt(code, pc + 1, pc + 4) && code[pc + 2] == Close(level) && JumpsAt(code, pc + 3, back) && code[pc + 4] == Close(level))
  {
    var tail := RoundCode(round, closes, level, |before|, back);
    assert forall i :: 0 <= i < |tail| ==> code[|before| + i] == tail[i];
  }

  lemma {:induction false} RoundEnded(before: seq<Ins>, code: seq<Ins>, hist: seq<Local>, ids: seq<nat>, locals: seq<Local>, jumps: seq<Jump>, n: nat, round: Round, back: nat)
    requires LocalsOk(hist, ids, locals) && n <= |locals| && Apart(jumps, |before|)
    requires code == before + RoundCode(round, NeedsFrom(locals, n), RegBase(locals, n), |before|, back)
    ensures EndOk(code, hist, jumps, End(|before|, ids, n, OfRound(round, back)))
    ensures |code| == |before| + RoundSize(round, NeedsFrom(locals, n))
  {
    var (pc, closes) := (|before|, NeedsFrom(locals, n));
    NeedyIs(hist, ids, locals, n);
    FreeAfter(jumps, pc);
    RoundShape(before, code, round, closes, RegBase(locals, n), back);
    if closes && round.Until? {
      BaseCloses(code, pc + 2, hist, ids, locals, n);
      BaseCloses(code, pc + 4, hist, ids, locals, n);
    } else if closes {
      BaseCloses(code, pc, hist, ids, locals, n);
    }
    hide RegBase, NeedsFrom, LeavesNeedy, ClosesAt, JumpsAt, LoopsAt, Free, LiveOk, RoundCode, Apart;
    assert forall k :: 0 <= k < |ids| ==> ids[k] < |hist|;
  }

  lemma {:induction false} BlockEnded(before: seq<Ins>, code: seq<Ins>, hist: seq<Local>, ids: seq<nat>, locals: seq<Local>, jumps: seq<Jump>, n: nat)
    requires LocalsOk(hist, ids, locals) && n <= |locals| && Apart(jumps, |before|)
    requires |code| == |before| + (if NeedsFrom(locals, n) then 1 else 0) && (NeedsFrom(locals, n) ==> code[|before|] == Close(RegBase(locals, n)))
    ensures EndOk(code, hist, jumps, End(|before|, ids, n, OfBlock))
  {
    NeedyIs(hist, ids, locals, n);
    FreeAfter(jumps, |before|);
    if NeedsFrom(locals, n) { BaseCloses(code, |before|, hist, ids, locals, n); }
    hide RegBase, NeedsFrom, LeavesNeedy, ClosesAt, Free, LiveOk;
    assert forall k :: 0 <= k < |ids| ==> ids[k] < |hist|;
  }

  /** Once the block is left what was declared in it is gone. */
  lemma GoneOut(hist: seq<Local>, ids: seq<nat>, locals: seq<Local>, m: nat, e: End)
    requires LocalsOk(hist, ids, locals) && e.live == ids && m <= e.n && m <= |ids|
    ensures Gone(ids[..m], e)
  {
    hide LiveOk;
  }

  // -- one step after another --------------------------------------------------------------------

  lemma KeptOn(a: seq<Jump>, b: seq<Jump>, c: seq<Jump>, la: seq<seq<nat>>, lb: seq<seq<nat>>, lc: seq<seq<nat>>)
    requires Kept(a, b, la, lb) && Kept(b, c, lb, lc)
    ensures Kept(a, c, la, lc)
  {
    assert lc[..|a|] == lc[..|b|][..|a|];
  }

  lemma GrownOn(a: seq<Scope>, b: seq<Scope>, c: seq<Scope>, m: nat, n: nat)
    requires Grown(a, b, m) && Grown(b, c, n) && m <= n
    ensures Grown(a, c, m)
  {
    forall s | 0 <= s < |a| ensures c[s].breaks[..|a[s].breaks|] == a[s].breaks {
      assert c[s].breaks[..|a[s].breaks|] == c[s].breaks[..|b[s].breaks|][..|a[s].breaks|];
    }
    forall s, i | 0 <= s < |a| && |a[s].breaks| <= i < |c[s].breaks| ensures c[s].breaks[i] >= m {
      if i < |b[s].breaks| { assert c[s].breaks[i] == c[s].breaks[..|b[s].breaks|][i]; }
    }
  }

  lemma StillOn(a: Snap, b: Snap, c: Snap)
    requires Still(a, b) && Still(b, c)
    ensures Still(a, c)
  {
    assert c.open[..|a.open|] == c.open[..|b.open|][..|a.open|];
    assert c.ids[..|a.ids|] == c.ids[..|b.ids|][..|a.ids|];
    forall i | |a.open| <= i < |c.open| ensures c.open[i] >= |a.jumps| {
      if i < |b.open| { assert c.open[i] == c.open[..|b.open|][i]; }
    }
  }

  lemma {:induction false} LoopSame(a: seq<Scope>, b: seq<Scope>)
    requires |a| == |b| && forall s :: 0 <= s < |a| ==> a[s].isLoop == b[s].isLoop
    ensures Loop(a) == Loop(b)
  {
    if a != [] && !a[|a| - 1].isLoop { LoopSame(a[..|a| - 1], b[..|b| - 1]); }
  }

  /** A jump that already answers to its want goes on doing so. */
  lemma GoesOn(b: Snap, c: Snap, q: nat, v: Want, seen: seq<Place>)
    requires q < |b.jumps| == |b.lives| && |c.jumps| == |c.lives| && Goes(b, q, v, seen)
    requires Kept(b.jumps, c.jumps, b.lives, c.lives) && SameScopes(b.scopes, c.scopes) && Still(b, c)
    ensures Goes(c, q, v, seen)
  {
    assert c.lives[q] == c.lives[..|b.lives|][q];
    LoopSame(b.scopes, c.scopes);
    if v.dest.OutOfLoop? {
      var k := Loop(b.scopes);
      var n := b.scopes[k].n;
      assert c.scopes[k].breaks[..|b.scopes[k].breaks|] == b.scopes[k].breaks;
      assert c.ids[..n] == c.ids[..|b.ids|][..n];
    }
    if v.dest.ToLabel? && q in b.open {
      var i :| 0 <= i < |b.open| && b.open[i] == q;
      assert c.open[i] == c.open[..|b.open|][i];
    }
  }

  lemma {:induction false} FindSuffix(places: seq<Place>, k: nat, name: string)
    requires k <= |places| && Find(places, name) == None
    ensures Find(places[k..], name) == None
    decreases k
  {
    if k > 0 {
      assert places[k..] == places[1..][k - 1..];
      FindSuffix(places[1..], k - 1, name);
    }
  }

  /** A block goes on with a statement that sets no label: k0 labels were in sight when the block began. */
  lemma WentOn(a: Snap, b: Snap, c: Snap, w: World, v: World, k0: nat)
    requires k0 <= |w.places| == |v.places| && v.places == w.places && |w.wants| <= |v.wants| && v.wants[..|w.wants|] == w.wants && Unseen(w, v)
    requires Went(a, b, w.wants, w.places[k0..]) && Went(b, c, v.wants, [])
    ensures Went(a, c, v.wants, v.places[k0..])
  {
    KeptOn(a.jumps, b.jumps, c.jumps, a.lives, b.lives, c.lives);
    GrownOn(a.scopes, b.scopes, c.scopes, |a.jumps|, |b.jumps|);
    StillOn(a, b, c);
    hide Kept, SameScopes, Still, Breaking;
    forall q | |a.jumps| <= q < |c.jumps| ensures Goes(c, q, v.wants[q], v.places[k0..]) {
      if q < |b.jumps| {
        assert v.wants[q] == v.wants[..|w.wants|][q];
        GoesOn(b, c, q, w.wants[q], w.places[k0..]);
      } else if v.wants[q].dest.ToLabel? {
        FindSuffix(w.places, k0, v.wants[q].dest.name);
      }
    }
  }

  // -- a label --------------------------------------------------------------------------------------

  lemma {:induction false} FindAppend(places: seq<Place>, p: Place, name: string)
    ensures Find(places + [p], name) == if Find(places, name).Some? then Find(places, name) else if p.name == name then Some(p) else None
  {
    if places != [] {
      assert (places + [p])[1..] == places[1..] + [p];
      FindAppend(places[1..], p, name);
    }
  }

  lemma {:induction false} WaitersKeep(was: seq<Jump>, gotos: seq<nat>, first: nat, upto: nat, name: string, q: nat)
    requires upto <= |gotos| && q in gotos[..upto] && q < |was| && was[q].name != name
    ensures q in Waiters(was, gotos, first, upto, name)
  {
    if gotos[upto - 1] != q {
      assert q in gotos[..upto - 1];
      WaitersKeep(was, gotos, first, upto - 1, name, q);
    }
  }

  lemma {:induction false} WaitersFrom(was: seq<Jump>, gotos: seq<nat>, first: nat, upto: nat, name: string, k: nat)
    requires first <= upto <= |gotos| && forall i :: first <= i < upto ==> gotos[i] >= k
    ensures var r := Waiters(was, gotos, first, upto, name);
            first <= |r| && r[..first] == gotos[..first] && forall i :: first <= i < |r| ==> r[i] >= k
  {
    if first < upto { WaitersFrom(was, gotos, first, upto - 1, name, k); }
  }

  /** The gotos on the list have neither target nor destination yet. */
  predicate AllOpen(s: Snap) {
    forall i :: 0 <= i < |s.open| ==> s.open[i] < |s.jumps| && s.jumps[s.open[i]].target == -1 && s.jumps[s.open[i]].dst == -1
  }

  /** What setting a label does, without an error. */
  predicate LabelSet(b: Snap, c: Snap, first: nat, x: string, p: Place) {
    && Solved(b.jumps, c.jumps, b.open, first, |b.open|, x, p.pc, |p.kept|)
    && c.open == Waiters(b.jumps, b.open, first, |b.open|, x)
    && StillThere(b.jumps, b.open, first, |b.open|, x, b.lives, b.ids, |p.kept|)
    && c.lives == b.lives && c.scopes == b.scopes && c.ids == b.ids && Kept(b.jumps, c.jumps, b.lives, c.lives)
    && p.name == x && |p.kept| <= |b.ids| && p.kept == b.ids[..|p.kept|]
  }

  /** A jump that is not one of the gotos resolved keeps its course; one that is goes to the label. */
  lemma {:induction false} GoesAfterLabel(b: Snap, c: Snap, first: nat, x: string, p: Place, q: nat, v: Want, seen: seq<Place>)
    requires LabelSet(b, c, first, x, p) && AllOpen(b) && Find(seen, x) == None && |b.lives| == |b.jumps|
    requires q < |b.jumps| && Goes(b, q, v, seen) && forall i :: 0 <= i < |b.open| && b.open[i] == q ==> i >= first
    ensures |c.lives| == |c.jumps| == |b.jumps| && Goes(c, q, v, seen + [p])
  {
    hide Waiters;
    SolvedNames(b.jumps, c.jumps, b.open, first, |b.open|, x, p.pc, |p.kept|);
    match v.dest
    case At(_, _) => assert !Hit(b.jumps, b.open, first, |b.open|, x, q);
    case OutOfLoop => assert !Hit(b.jumps, b.open, first, |b.open|, x, q);
    case ToLabel(y) =>
      FindAppend(seen, p, y);
      if Find(seen, y).Some? {
        assert !Hit(b.jumps, b.open, first, |b.open|, x, q);
      } else {
        var i :| 0 <= i < |b.open| && b.open[i] == q;
        assert b.open[..|b.open|] == b.open;
        if y == x {
          assert Hit(b.jumps, b.open, first, |b.open|, x, q);
        } else {
          WaitersKeep(b.jumps, b.open, first, |b.open|, x, q);
        }
      }
  }

  lemma StillAfterLabel(a: Snap, b: Snap, c: Snap, x: string, p: Place)
    requires Still(a, b) && LabelSet(b, c, |a.open|, x, p)
    ensures Still(a, c)
  {
    WaitersFrom(b.jumps, b.open, |a.open|, |b.open|, x, |a.jumps|);
    forall q: nat | q < |a.jumps| ensures c.jumps[q].target == a.jumps[q].target && c.jumps[q].dst == a.jumps[q].dst {
      assert !Hit(b.jumps, b.open, |a.open|, |b.open|, x, q);
    }
  }

  /** The gotos that waited before come first on the list. */
  lemma OlderOpen(a: Snap, b: Snap)
    requires Still(a, b) && AllOpen(a)
    ensures forall i :: 0 <= i < |a.open| ==> b.open[i] == a.open[i] < |a.jumps|
  {
    assert forall i :: 0 <= i < |a.open| ==> b.open[i] == b.open[..|a.open|][i];
  }

  lemma {:induction false} WentLabel(a: Snap, b: Snap, c: Snap, w: World, k0: nat, x: string, p: Place)
    requires k0 <= |w.places| && Went(a, b, w.wants, w.places[k0..]) && LabelSet(b, c, |a.open|, x, p) && AllOpen(a) && AllOpen(b)
    requires Find(w.places, x) == None
    ensures Went(a, c, w.wants, (w.places + [p])[k0..])
  {
    assert (w.places + [p])[k0..] == w.places[k0..] + [p];
    FindSuffix(w.places, k0, x);
    StillAfterLabel(a, b, c, x, p);
    KeptOn(a.jumps, b.jumps, c.jumps, a.lives, b.lives, c.lives);
    hide LabelSet, Kept, Goes, Find;
    forall q | |a.jumps| <= q < |c.jumps| ensures Goes(c, q, w.wants[q], (w.places + [p])[k0..]) {
      OlderOpen(a, b);
      GoesAfterLabel(b, c, |a.open|, x, p, q, w.wants[q], w.places[k0..]);
    }
  }

  /** Whether the label is one that no goto waiting for it may miss a local for. */
  lemma {:induction false} MeetsLabel(a: Snap, b: Snap, w: World, k0: nat, x: string, n: nat)
    requires k0 <= |w.places| && Went(a, b, w.wants, w.places[k0..]) && AllOpen(a) && AllOpen(b) && Find(w.places, x) == None && n <= |b.ids|
    ensures StillThere(b.jumps, b.open, |a.open|, |b.open|, x, b.lives, b.ids, n) <==> !Skips(w.wants, |a.jumps|, x, b.ids[..n])
  {
    FindSuffix(w.places, k0, x);
    OlderOpen(a, b);
    hide Find, Kept, Grown;
    forall q: nat | |a.jumps| <= q < |b.jumps|
      ensures Hit(b.jumps, b.open, |a.open|, |b.open|, x, q) <==> w.wants[q].dest == ToLabel(x)
      ensures Keeps(w.wants[q].live, b.ids[..n]) == Agree(b.lives[q], b.ids, n)
    {
      assert Goes(b, q, w.wants[q], w.places[k0..]);
      OpenIsWaiting(a, b, w.wants[q], w.places[k0..], x, q);
    }
    forall q: nat | q < |a.jumps| ensures !Hit(b.jumps, b.open, |a.open|, |b.open|, x, q) {
      assert forall i :: |a.open| <= i < |b.open| ==> b.open[i] >= |a.jumps|;
    }
  }

  lemma {:induction false} OpenIsWaiting(a: Snap, b: Snap, v: Want, seen: seq<Place>, x: string, q: nat)
    requires Still(a, b) && AllOpen(a) && AllOpen(b) && |a.jumps| <= q < |b.jumps| == |b.lives| && Goes(b, q, v, seen) && Find(seen, x) == None
    ensures Hit(b.jumps, b.open, |a.open|, |b.open|, x, q) <==> v.dest == ToLabel(x)
  {
    OlderOpen(a, b);
    if v.dest == ToLabel(x) {
      var i :| 0 <= i < |b.open| && b.open[i] == q;
      assert i >= |a.open|;
    }
  }

  // -- leaving a block ---------------------------------------------------------------------------------

  /** What leaving the innermost scope does: b before, c after; end: where breaks out of it go. */
  predicate ScopeLeft(b: Snap, c: Snap, end: nat) {
    && |b.scopes| > 0
    && var s := b.scopes[|b.scopes| - 1];
       && Landed(b.jumps, c.jumps, s.breaks, end) && Kept(b.jumps, c.jumps, b.lives, c.lives) && c.lives == b.lives
       && c.scopes == b.scopes[..|b.scopes| - 1] && c.open == b.open && s.n <= |b.ids| && c.ids == b.ids[..s.n]
  }

  /** From before a block (a) to just inside it (d): a scope of its own, and perhaps some variables. */
  predicate ScopeEntered(a: Snap, d: Snap) {
    && d.jumps == a.jumps && d.lives == a.lives && d.open == a.open
    && |d.scopes| == |a.scopes| + 1 && d.scopes[..|a.scopes|] == a.scopes
    && d.scopes[|a.scopes|].breaks == [] && d.scopes[|a.scopes|].n == |a.ids|
    && |a.ids| <= |d.ids| && d.ids[..|a.ids|] == a.ids
  }

  predicate Nested(scopes: seq<Scope>) {
    forall s, t :: 0 <= s < t < |scopes| ==> scopes[s].n <= scopes[t].n
  }

  /** In the innermost scope, a waiting break belongs to that scope and no other. */
  lemma OwnBreaks(b: Snap, home: seq<int>, q: nat)
    requires BreaksOk(b.scopes, b.jumps, home, b.open) && |b.scopes| > 0 && q < |b.jumps|
    ensures q in b.scopes[|b.scopes| - 1].breaks ==> b.jumps[q].target == -1 && b.jumps[q].dst >= 0 && home[q] == |b.scopes| - 1
    ensures forall k :: 0 <= k < |b.scopes| && q in b.scopes[k].breaks ==> home[q] == k
  {
    forall k | 0 <= k < |b.scopes| && q in b.scopes[k].breaks ensures b.jumps[q].target == -1 && b.jumps[q].dst >= 0 && home[q] == k {
      var i :| 0 <= i < |b.scopes[k].breaks| && b.scopes[k].breaks[i] == q;
      assert Waiting(b.scopes[k], k, b.jumps, home, b.scopes[k].breaks[i]);
    }
  }

  /** What becomes of the want of a jump when its block is left. */
  lemma GoesOut(b: Snap, c: Snap, home: seq<int>, q: nat, v: Want, places: seq<Place>, end: nat, isLoop: bool)
    requires ScopeLeft(b, c, end) && BreaksOk(b.scopes, b.jumps, home, b.open) && AllOpen(b) && Nested(b.scopes)
    requires q < |b.jumps| == |b.lives| && Goes(b, q, v, places) && b.scopes[|b.scopes| - 1].isLoop == isLoop
    ensures |c.jumps| == |c.lives| == |b.jumps|
    ensures Goes(c, q, v.(dest := SettledDest(v.dest, if isLoop then Some(At(end, c.ids)) else None, places)), [])
  {
    OwnBreaks(b, home, q);
    var last := |b.scopes| - 1;
    match v.dest
    case At(_, _) =>
    case ToLabel(x) =>
    case OutOfLoop =>
      var n := b.scopes[Loop(b.scopes)].n;
      if isLoop {
        assert c.ids == b.ids[..n];
      } else {
        assert c.ids[..n] == b.ids[..n];
      }
  }

  lemma StillOut(a: Snap, d: Snap, b: Snap, c: Snap, end: nat)
    requires ScopeEntered(a, d) && Still(d, b) && Grown(d.scopes, b.scopes, |d.jumps|)
    requires ScopeLeft(b, c, end)
    ensures Still(a, c) && Grown(a.scopes, c.scopes, |a.jumps|)
  {
    var last := |a.scopes|;
    var n := |a.ids|;
    assert b.scopes[last].n == n;
    assert c.ids[..n] == b.ids[..n] == b.ids[..|d.ids|][..n];
    assert forall i :: 0 <= i < |b.scopes[last].breaks| ==> b.scopes[last].breaks[i] >= |a.jumps|;
    forall s | 0 <= s < |a.scopes| ensures d.scopes[s] == a.scopes[s] && c.scopes[s] == b.scopes[s] {
      assert d.scopes[s] == d.scopes[..|a.scopes|][s];
    }
  }

  lemma WentOut(a: Snap, d: Snap, b: Snap, c: Snap, home: seq<int>, w: World, v: World, end: nat, isLoop: bool, ends: seq<End>)
    requires ScopeEntered(a, d) && |w.places| <= |v.places| && Went(d, b, v.wants, v.places[|w.places|..]) && ScopeLeft(b, c, end)
    requires BreaksOk(b.scopes, b.jumps, home, b.open) && AllOpen(b) && Nested(b.scopes) && b.scopes[|b.scopes| - 1].isLoop == isLoop
    requires |w.wants| == |a.jumps| && Left(w, v, isLoop, ends).pc == end && Take(v.scope, |w.scope|) == c.ids
    ensures Went(a, c, Left(w, v, isLoop, ends).wants, [])
  {
    var u := Left(w, v, isLoop, ends);
    var places, loop := v.places[|w.places|..], if isLoop then Some(At(end, c.ids)) else None;
    StillOut(a, d, b, c, end);
    KeptOn(a.jumps, b.jumps, c.jumps, a.lives, b.lives, c.lives);
    hide Kept, Grown, Still, ScopeLeft, Goes, BreaksOk, AllOpen, Nested, SettledDest, ScopeEntered;
    forall q | |a.jumps| <= q < |c.jumps| ensures Goes(c, q, u.wants[q], []) {
      GoesOut(b, c, home, q, v.wants[q], places, end, isLoop);
    }
  }

  // -- single statements --------------------------------------------------------------------------------

  /** Variables and plain code. */
  lemma WentNowhere(a: Snap, c: Snap, wants: seq<Want>)
    requires c == a.(ids := c.ids) && |a.ids| <= |c.ids| && c.ids[..|a.ids|] == a.ids && |wants| == |a.jumps| == |a.lives|
    ensures Went(a, c, wants, [])
  {
    assert c.lives[..|a.jumps|] == a.lives && c.open[..|a.open|] == a.open;
    assert forall s :: 0 <= s < |a.scopes| ==> a.scopes[s].breaks[..|a.scopes[s].breaks|] == a.scopes[s].breaks;
  }

  lemma WentBreak(a: Snap, c: Snap, wants: seq<Want>, pc: nat, end: nat)
    requires |wants| == |a.jumps| == |a.lives| && Kept(a.jumps, c.jumps, a.lives, c.lives) && c.lives == a.lives + [a.ids]
    requires Loop(a.scopes) >= 0 && BrokenTo(a.scopes, c.scopes, Loop(a.scopes), a.jumps, c.jumps, pc, end, |a.ids|) && a.scopes[Loop(a.scopes)].n <= |a.ids|
    requires c.open == a.open && c.ids == a.ids
    ensures Went(a, c, wants + [Want(pc, a.ids, OutOfLoop)], [])
  {
    var k, q := Loop(a.scopes), |a.jumps|;
    LoopSame(a.scopes, c.scopes);
    assert c.scopes[k].breaks[|a.scopes[k].breaks|] == q;
    assert c.open[..|a.open|] == a.open && c.ids[..|a.ids|] == a.ids;
    assert forall p :: 0 <= p < q ==> c.jumps[p] == c.jumps[..q][p];
    assert forall s :: 0 <= s < |a.scopes| ==> c.scopes[s].breaks[..|a.scopes[s].breaks|] == a.scopes[s].breaks;
  }

  /** A goto back to a place in sight, or on to a label still to come. */
  lemma WentGoto(a: Snap, c: Snap, wants: seq<Want>, pc: nat, dest: Dest)
    requires |wants| == |a.jumps| == |a.lives| && Kept(a.jumps, c.jumps, a.lives, c.lives) && c.lives == a.lives + [a.ids]
    requires |c.jumps| == |a.jumps| + 1 && c.jumps[..|a.jumps|] == a.jumps && c.scopes == a.scopes && c.ids == a.ids && Base(c.jumps[|a.jumps|]) == pc
    requires var j := c.jumps[|a.jumps|];
             match dest
             case At(t, kept) => c.open == a.open && Reaches(j, a.ids, t, kept)
             case ToLabel(x) => c.open == a.open + [|a.jumps|] && j.name == x
             case OutOfLoop => false
    ensures Went(a, c, wants + [Want(pc, a.ids, dest)], [])
  {
    var q := |a.jumps|;
    if dest.ToLabel? { assert c.open[|a.open|] == q; }
    assert c.open[..|a.open|] == a.open && c.ids[..|a.ids|] == a.ids;
    assert forall p :: 0 <= p < q ==> c.jumps[p] == c.jumps[..q][p];
    assert forall s :: 0 <= s < |a.scopes| ==> a.scopes[s].breaks[..|a.scopes[s].breaks|] == a.scopes[s].breaks;
  }

  // -- labels and variables --------------------------------------------------------------------------------

  lemma {:induction false} FirstIsFind(labels: seq<Label>, places: seq<Place>, ids: seq<nat>, name: string)
    requires LabelsAre(labels, places, ids)
    ensures var l := First(labels, name);
            if l < |labels| then Find(places, name) == Some(places[l]) else Find(places, name) == None
    ensures (exists l :: 0 <= l < |labels| && labels[l].name == name) <==> Find(places, name).Some?
  {
    if labels != [] && labels[0].name != name {
      assert LabelIs(labels[0], places[0], ids);
      forall l | 0 <= l < |labels| - 1 ensures LabelIs(labels[1..][l], places[1..][l], ids) {
        assert LabelIs(labels[l + 1], places[l + 1], ids);
      }
      FirstIsFind(labels[1..], places[1..], ids, name);
    } else if labels != [] {
      assert LabelIs(labels[0], places[0], ids);
    }
  }

  /** More variables, or fewer: the labels that stay saw only variables that stay. */
  lemma LabelsOn(labels: seq<Label>, places: seq<Place>, ids: seq<nat>, ids': seq<nat>, n: nat)
    requires LabelsAre(labels, places, ids) && n <= |ids| && n <= |ids'| && ids[..n] == ids'[..n]
    requires forall l :: 0 <= l < |labels| ==> labels[l].n <= n
    ensures LabelsAre(labels, places, ids')
  {
    forall l | 0 <= l < |labels| ensures LabelIs(labels[l], places[l], ids') {
      assert LabelIs(labels[l], places[l], ids);
      var m := |places[l].kept|;
      assert ids[..m] == ids[..n][..m] && ids'[..m] == ids'[..n][..m];
    }
  }

  lemma LabelsFewer(labels: seq<Label>, places: seq<Place>, ids: seq<nat>, k: nat)
    requires LabelsAre(labels, places, ids) && k <= |labels|
    ensures LabelsAre(labels[..k], places[..k], ids)
  {
    forall l | 0 <= l < k ensures LabelIs(labels[..k][l], places[..k][l], ids) {
      assert LabelIs(labels[l], places[l], ids);
    }
  }

  lemma ScopeIsLocals(w: World, hist: seq<Local>, ids: seq<nat>, locals: seq<Local>)
    requires LocalsOk(hist, ids, locals) && hist == w.decls && ids == w.scope
    ensures InScope(w) == locals
  {
  }
}
