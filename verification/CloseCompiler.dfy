/**
 The part of a function's compiler state that places OP_CLOSE: scopes, locals,
 labels, and the gotos and breaks whose close is still undecided.
*/
module CloseCompiler {
  import opened CloseRules

  // -- the whole state, as values ------------------------------------------------------------

  /** Every jump is as its list says: undecided, waiting for a label, or settled. */
  predicate Status(hist: seq<Local>, ids: seq<nat>, frozen: nat, live: seq<nat>, j: Jump, held: bool, open: bool)
    requires LiveOk(hist, live) && frozen <= |ids|
  {
    if held then HeldOk(hist, ids, live, j) else if open then OpenOk(hist, ids, live, j) else SettledOk(hist, ids, frozen, live, j)
  }

  predicate Known(hist: seq<Local>, live: seq<nat>, j: Jump) {
    LiveOk(hist, live) && LevelOk(hist, live, j)
  }

  predicate AllKnown(hist: seq<Local>, lives: seq<seq<nat>>, jumps: seq<Jump>) {
    |lives| == |jumps| && forall q :: 0 <= q < |jumps| ==> Known(hist, lives[q], jumps[q])
  }

  predicate Tracked(hist: seq<Local>, ids: seq<nat>, frozen: nat, lives: seq<seq<nat>>, jumps: seq<Jump>, held: seq<nat>, open: seq<nat>) {
    && AllKnown(hist, lives, jumps) && frozen <= |ids|
    && forall q :: 0 <= q < |jumps| ==> Known(hist, lives[q], jumps[q]) && Status(hist, ids, frozen, lives[q], jumps[q], q in held, q in open)
  }

  predicate Increasing(s: seq<nat>, n: nat) {
    && (forall a, b :: 0 <= a < b < |s| ==> s[a] < s[b])
    && (forall a :: 0 <= a < |s| ==> s[a] < n)
  }

  /** The two lists of jumps that something may still happen to. */
  predicate Lists(held: seq<nat>, open: seq<nat>, n: nat) {
    Increasing(held, n) && Increasing(open, n) && forall x :: x in held ==> x !in open
  }

  predicate ScopesOk(scopes: seq<Scope>, locals: seq<Local>, labels: seq<Label>, gotos: nat) {
    && (forall s :: 0 <= s < |scopes| ==>
          && scopes[s].n + scopes[s].header <= |locals| && scopes[s].baseReg == RegBase(locals, scopes[s].n)
          && scopes[s].firstLabel <= |labels| && scopes[s].firstGoto <= gotos)
    && (forall s, t :: 0 <= s < t < |scopes| ==>
          scopes[s].n + scopes[s].header <= scopes[t].n && scopes[s].firstLabel <= scopes[t].firstLabel && scopes[s].firstGoto <= scopes[t].firstGoto)
    && (forall l :: 0 <= l < |labels| ==> labels[l].n <= |locals|)
    && (forall s, l :: 0 <= s < |scopes| && 0 <= l < scopes[s].firstLabel ==> labels[l].n <= scopes[s].n)
  }

  predicate Waiting(s: Scope, place: int, jumps: seq<Jump>, home: seq<int>, b: nat) {
    b < |jumps| == |home| && jumps[b].dst == s.n && jumps[b].target == -1 && home[b] == place
  }

  /** Every one of the breaks is a jump with a known destination. */
  predicate Breaks(jumps: seq<Jump>, breaks: seq<nat>) {
    forall i :: 0 <= i < |breaks| ==> breaks[i] < |jumps| && jumps[breaks[i]].dst >= 0
  }

  predicate LandAt(jumps: seq<Jump>, breaks: seq<nat>, t: int) {
    forall i :: 0 <= i < |breaks| ==> breaks[i] < |jumps| && jumps[breaks[i]].target == t
  }

  /** Breaks waiting for the end of their loop; home gives the loop's place on the stack. */
  predicate BreaksOk(scopes: seq<Scope>, jumps: seq<Jump>, home: seq<int>, open: seq<nat>) {
    && |home| == |jumps|
    && (forall s, i :: 0 <= s < |scopes| && 0 <= i < |scopes[s].breaks| ==> Waiting(scopes[s], s, jumps, home, scopes[s].breaks[i]))
    && (forall q :: 0 <= q < |jumps| && jumps[q].target == -1 && q !in open ==> 0 <= home[q] < |scopes| && q in scopes[home[q]].breaks)
  }

  /** The slots and the locals at a jump never change, nor its target and destination once known. */
  predicate Kept(was: seq<Jump>, now: seq<Jump>, livesWere: seq<seq<nat>>, lives: seq<seq<nat>>) {
    && |was| == |livesWere| && |was| <= |now| == |lives| && lives[..|was|] == livesWere
    && forall q :: 0 <= q < |was| ==>
         Base(now[q]) == Base(was[q]) && now[q].pair == was[q].pair && now[q].name == was[q].name &&
         (was[q].target >= 0 ==> now[q].target == was[q].target) && (was[q].dst >= 0 ==> now[q].dst == was[q].dst) && (was[q].active ==> now[q].active)
  }

  class FuncState {
    var code: seq<Ins>
    var locals: seq<Local>
    var scopes: seq<Scope>
    var labels: seq<Label>
    var jumps: seq<Jump>
    var pendCloses: seq<nat>
    var pendGotos: seq<nat>
    var err: bool

    ghost var hist: seq<Local>
    ghost var ids: seq<nat>
    ghost var lives: seq<seq<nat>>
    ghost var home: seq<int>
    ghost var ended: bool

    /** Locals from here on are past the last statement that could capture them. */
    ghost function Frozen(): nat
      reads this
    {
      if ended && |scopes| > 0 then scopes[|scopes| - 1].n else |ids|
    }

    ghost predicate Valid()
      reads this
    {
      && LocalsOk(hist, ids, locals)
      && AllCode(code, jumps) && Apart(jumps, |code|) && Landings(jumps, labels, |code|)
      && Tracked(hist, ids, Frozen(), lives, jumps, pendCloses, pendGotos)
      && |lives| == |jumps| && Lists(pendCloses, pendGotos, |jumps|)
      && ScopesOk(scopes, locals, labels, |pendGotos|) && BreaksOk(scopes, jumps, home, pendGotos)
      && (ended ==> |scopes| > 0)
    }

    constructor ()
      ensures Valid() && code == [] && scopes == [] && locals == [] && jumps == [] && !err && !ended
      ensures hist == [] && ids == [] && lives == [] && labels == [] && pendGotos == []
    {
      code, locals, scopes, labels, jumps, pendCloses, pendGotos, err := [], [], [], [], [], [], [], false;
      hist, ids, lives, home, ended := [], [], [], [], false;
      hide LocalsOk, AllCode, Apart, Landings, Tracked, Lists, ScopesOk, BreaksOk;
      NothingYet();
    }

    // -- code and variables ----------------------------------------------------------------

    method Emit(i: Ins) returns (pc: nat)
      requires Valid()
      modifies this`code
      ensures Valid() && pc == |old(code)| && code == old(code) + [i]
    {
      hide Tracked, ScopesOk, LocalsOk, CodeOk, BreaksOk;
      CodeAppend(code, [i], jumps);
      pc := |code|;
      code := code + [i];
    }

    method NeedsClose(from: nat) returns (b: bool)
      ensures b == NeedsFrom(locals, from)
    {
      var i := from;
      while i < |locals|
        invariant forall k :: from <= k < i && k < |locals| ==> !Needs(locals[k])
      {
        if Needs(locals[i]) { return true; }
        i := i + 1;
      }
      b := false;
    }

    method RegBaseForLocals(n: nat) returns (top: nat)
      requires n <= |locals|
      ensures top == RegBase(locals, n)
    {
      top := 0;
      var i := 0;
      while i < n
        invariant i <= n && top == RegBase(locals, i)
      {
        if locals[i].reg + 1 > top { top := locals[i].reg + 1; }
        i := i + 1;
      }
    }

    method DeclareLocal(l: Local)
      requires Valid() && !ended && !l.captured
      requires if l.inlined then l.reg == -1 && !l.close else l.reg >= RegBase(locals, |locals|)
      modifies this
      ensures Valid() && locals == old(locals) + [l] && Kept(old(jumps), jumps, old(lives), lives)
      ensures code == old(code) && scopes == old(scopes) && labels == old(labels) && jumps == old(jumps) && err == old(err) && !ended
      ensures hist == old(hist) + [l] && ids == old(ids) + [|old(hist)|] && pendGotos == old(pendGotos)
    {
      hide CodeOk, BreaksOk, ScopesOk, Tracked, LocalsOk;
      LocalsDeclared(hist, ids, locals, l);
      TrackedGrew(hist, hist + [l], ids, ids + [|hist|], lives, jumps, pendCloses, pendGotos, locals, locals + [l]);
      ScopesGrew(scopes, locals, locals + [l], labels, |pendGotos|);
      ids := ids + [|hist|];
      hist := hist + [l];
      locals := locals + [l];
    }

    /** lookupLocal and markCaptured: the innermost local of that name, unless it was inlined. */
    method CaptureLocal(name: string)
      requires Valid() && !ended
      modifies this
      ensures Valid() && Kept(old(jumps), jumps, old(lives), lives) && |locals| == |old(locals)|
      ensures var k := Innermost(old(locals), name);
              if k < 0 || old(locals)[k].inlined then hist == old(hist) && locals == old(locals)
              else |ids| == |locals| && ids[k] < |old(hist)| && old(hist)[ids[k]] == old(locals)[k]
                   && hist == old(hist)[ids[k] := old(locals)[k].(captured := true)] && locals == old(locals)[k := old(locals)[k].(captured := true)]
      ensures code == old(code) && scopes == old(scopes) && labels == old(labels) && jumps == old(jumps) && err == old(err) && !ended
      ensures ids == old(ids) && pendGotos == old(pendGotos)
    {
      hide CodeOk, BreaksOk, ScopesOk, Tracked;
      var k := |locals|;
      assert locals[..k] == locals;
      while k > 0 && locals[k - 1].name != name
        invariant 0 <= k <= |locals| && Innermost(locals, name) == Innermost(locals[..k], name)
      {
        assert locals[..k][..k - 1] == locals[..k - 1];
        k := k - 1;
      }
      k := k - 1;
      assert k == Innermost(locals, name);
      if k >= 0 && !locals[k].inlined {
        assert ids[k] < |hist| && hist[ids[k]] == locals[k];
        Mark(k);
      }
    }

    method Mark(k: nat)
      requires Valid() && !ended && k < |locals| == |ids| && ids[k] < |hist| && !locals[k].inlined
      modifies this
      ensures Valid() && Kept(old(jumps), jumps, old(lives), lives) && |locals| == |old(locals)|
      ensures hist == old(hist[ids[k] := locals[k].(captured := true)]) && locals == old(locals[k := locals[k].(captured := true)])
      ensures code == old(code) && scopes == old(scopes) && labels == old(labels) && jumps == old(jumps) && err == old(err) && !ended
      ensures ids == old(ids) && pendGotos == old(pendGotos)
    {
      hide CodeOk, BreaksOk, ScopesOk, Tracked, LocalsOk;
      ghost var x, l := ids[k], locals[k].(captured := true);
      LocalsCaptured(hist, ids, locals, k);
      TrackedGrew(hist, hist[x := l], ids, ids, lives, jumps, pendCloses, pendGotos, locals, locals[k := l]);
      ScopesGrew(scopes, locals, locals[k := l], labels, |pendGotos|);
      hist := hist[x := l];
      locals := locals[k := locals[k].(captured := true)];
    }

    // -- scopes -----------------------------------------------------------------------------

    method EnterScope(isLoop: bool)
      requires Valid() && !ended
      modifies this`scopes
      ensures Valid() && |scopes| == |old(scopes)| + 1 && scopes[..|old(scopes)|] == old(scopes)
      ensures var s := scopes[|old(scopes)|];
              s == Scope(|locals|, s.baseReg, isLoop, |labels|, |pendGotos|, 0, []) && s.baseReg == RegBase(locals, |locals|)
    {
      hide CodeOk, Tracked, LocalsOk, ScopesOk, BreaksOk;
      BreaksPushed(scopes, Scope(|locals|, RegBase(locals, |locals|), isLoop, |labels|, |pendGotos|, 0, []), jumps, home, pendGotos);
      ScopesPushed(scopes, locals, labels, |pendGotos|, Scope(|locals|, RegBase(locals, |locals|), isLoop, |labels|, |pendGotos|, 0, []));
      var top := RegBaseForLocals(|locals|);
      scopes := scopes + [Scope(|locals|, top, isLoop, |labels|, |pendGotos|, 0, [])];
    }

    /** The control variables of a for loop, which a label at the end of the body does not leave. */
    method SetHeader(h: nat)
      requires Valid() && |scopes| > 0 && !ended && scopes[|scopes| - 1].n + h <= |locals|
      modifies this`scopes
      ensures Valid() && scopes == old(scopes[|scopes| - 1 := scopes[|scopes| - 1].(header := h)])
    {
      hide CodeOk, Tracked, LocalsOk, ScopesOk, BreaksOk;
      HeaderChosen(scopes, locals, labels, |pendGotos|, h);
      SameBreaks(scopes, scopes[|scopes| - 1 := scopes[|scopes| - 1].(header := h)], jumps, home, pendGotos);
      scopes := scopes[|scopes| - 1 := scopes[|scopes| - 1].(header := h)];
    }

    // -- jumps ---------------------------------------------------------------------------------

    /** patchJumpTo. */
    method PatchJumpTo(pc: nat, target: nat)
      requires pc < |code|
      modifies this`code
      ensures code == old(code[pc := Jmp(target - (pc + 1))])
    {
      code := code[pc := Jmp(target - (pc + 1))];
    }

    /** swapInClose: the jump moves into the reserved slot and a close takes its place. */
    method SwapInClose(pc: nat, level: nat) returns (moved: nat)
      requires pc + 1 < |code|
      modifies this`code
      ensures code == old(code[pc + 1 := code[pc]][pc := Close(level)]) && moved == pc + 1
    {
      code := code[pc + 1 := code[pc]];
      code := code[pc := Close(level)];
      moved := pc + 1;
    }

    /** activateClose, for a jump whose target may already be known. */
    method ActivateClose(q: nat, ghost keep: set<nat>)
      requires AllCode(code, jumps) && Apart(jumps, |code|) && Landings(jumps, labels, |code|) && q < |jumps| && jumps[q].pair
      requires Off(jumps, keep, |code|)
      modifies this`code, this`jumps
      ensures AllCode(code, jumps) && Apart(jumps, |code|) && Landings(jumps, labels, |code|) && |code| == |old(code)|
      ensures jumps == old(jumps[q := Activated(jumps[q])])
      ensures Off(jumps, keep, |code|) && SameAt(old(code), code, keep)
    {
      hide CodeOk, Apart, Landings;
      var j := jumps[q];
      assert CodeOk(code, j);
      assert jumps[q := j] == jumps;
      CodeBounds(code, j);
      if j.active { return; }
      var pc := SwapInClose(j.pc, j.level);
      if j.target >= 0 { PatchJumpTo(pc, j.target); }
      ActivatedCode(old(code), code, j);
      CodeUpdate(old(code), code, jumps, q, Activated(j));
      LandingsSame(jumps, jumps[q := Activated(j)], labels, |code|);
      KeptAt(old(code), code, jumps, q, Activated(j), keep);
      jumps := jumps[q := j.(pc := pc, active := true)];
    }

    /** A state complete but for the list of breaks. */
    ghost predicate Complete()
      reads this
    {
      && LocalsOk(hist, ids, locals)
      && AllCode(code, jumps) && Apart(jumps, |code|) && Landings(jumps, labels, |code|)
      && Tracked(hist, ids, Frozen(), lives, jumps, pendCloses, pendGotos)
      && |lives| == |jumps| && Lists(pendCloses, pendGotos, |jumps|)
      && ScopesOk(scopes, locals, labels, |pendGotos|)
      && (ended ==> |scopes| > 0)
    }

    /**
     recordJumpClose, for the jump just emitted. Unless it has its close already or
     leaves no variable's scope, a slot is reserved and the question left open.
    */
    method RecordJumpClose(pc: nat, target: int, dst: nat, level: nat, closed: bool) returns (q: nat)
      requires Complete() && !ended && dst <= |locals| && level == RegBase(locals, dst)
      requires |code| == pc + 1 && code[pc].Jmp? && (target >= 0 ==> code[pc] == Jmp(target - (pc + 1)))
      requires closed ==> pc > 0 && code[pc - 1] == Close(level)
      requires Apart(jumps, if closed then pc - 1 else pc) && -1 <= target && Landings(jumps, labels, if closed then pc - 1 else pc)
      requires Landing(jumps, target, if closed then pc - 1 else pc)
      modifies this
      ensures Complete() && q == |old(jumps)| && lives == old(lives) + [ids]
      ensures jumps == old(jumps) + [Jump("", pc, target, |locals|, dst, level, closed || |locals| > dst, closed, false)]
      ensures locals == old(locals) && scopes == old(scopes) && labels == old(labels) && pendGotos == old(pendGotos) && err == old(err)
      ensures hist == old(hist) && ids == old(ids) && home == old(home) && !ended
      ensures |code| == |old(code)| + (if !closed && |locals| > dst then 1 else 0) && code[..|old(code)|] == old(code)
    {
      hide CodeOk, LocalsOk, ScopesOk, Tracked, Apart, Landings, Landing, LevelOk, LiveOk, AllKnown, RegBase;
      q := |jumps|;
      var hold := !closed && |locals| > dst;
      var j := Jump("", pc, target, |locals|, dst, level, closed || |locals| > dst, closed, false);
      Recorded(hist, ids, locals, lives, jumps, pendCloses, pendGotos, j);
      assert code + [] == code;
      NewSlot(code, j, if hold then [Close(RegBase(locals, |locals|))] else []);
      SlotsPush(code, jumps, labels, j, if hold then [Close(RegBase(locals, |locals|))] else []);
      if hold {
        var top := RegBaseForLocals(|locals|);
        code := code + [Close(top)];
        pendCloses := pendCloses + [q];
      }
      jumps := jumps + [j];
      lives := lives + [ids];
    }

    // -- leaving a scope ------------------------------------------------------------------------

    /** One jump of the list: whether it stays there. */
    method ResolveClose(q: nat, n0: nat, up: bool, ghost was: seq<nat>, ghost whole: seq<Local>, ghost kept: seq<nat>, ghost rest: seq<nat>, ghost keep: set<nat>) returns (stay: bool)
      requires LocalsOk(hist, was, whole) && n0 <= |was| && up == NeedsFrom(whole, n0) && rest != [] && q == rest[0]
      requires AllCode(code, jumps) && Apart(jumps, |code|) && Landings(jumps, labels, |code|)
      requires Lists(kept + rest, pendGotos, |jumps|) && Midway(hist, was, n0, lives, jumps, kept, rest, pendGotos, pendGotos)
      requires Off(jumps, keep, |code|)
      modifies this`code, this`jumps
      ensures AllCode(code, jumps) && Apart(jumps, |code|) && Landings(jumps, labels, |code|) && |code| == |old(code)|
      ensures var kept' := if stay then kept + [q] else kept;
              Lists(kept' + rest[1..], pendGotos, |jumps|) && Midway(hist, was, n0, lives, jumps, kept', rest[1..], pendGotos, pendGotos)
      ensures Alike(old(jumps), jumps)
      ensures Off(jumps, keep, |code|) && SameAt(old(code), code, keep)
    {
      hide AllCode, Apart, Landings, LocalsOk, Midway, NeedsFrom, Lists, CodeOk, Known;
      ListsStep(kept, rest, pendGotos, |jumps|);
      ghost var before, j := jumps, jumps[q];
      FirstHeld(hist, was, n0, lives, jumps, kept, rest, pendGotos);
      stay := true;
      if jumps[q].n > n0 {
        var reached := jumps[q].dst >= n0;
        if up && (!reached || jumps[q].dst < jumps[q].n) { ActivateClose(q, keep); }
        stay := !reached;
        if stay {
          SlotsSame(code, jumps, jumps[q := jumps[q].(n := n0)], labels);
          OffSame(jumps, jumps[q := jumps[q].(n := n0)], keep, |code|);
          jumps := jumps[q := jumps[q].(n := n0)];
        }
      }
      MidwayStep(hist, was, whole, n0, lives, before, kept, rest, pendGotos, jumps[q], stay);
      assert before[q := jumps[q]] == jumps;
    }

    /** resolveBlockCloses for a block that began with n0 locals; up: it has something to close. */
    method ResolveBlockCloses(n0: nat, up: bool, ghost was: seq<nat>, ghost whole: seq<Local>, ghost keep: set<nat>)
      requires LocalsOk(hist, was, whole) && n0 <= |was| && up == NeedsFrom(whole, n0)
      requires AllCode(code, jumps) && Apart(jumps, |code|) && Landings(jumps, labels, |code|)
      requires Lists(pendCloses, pendGotos, |jumps|) && Midway(hist, was, n0, lives, jumps, [], pendCloses, pendGotos, pendGotos)
      requires Off(jumps, keep, |code|)
      modifies this`code, this`jumps, this`pendCloses
      ensures AllCode(code, jumps) && Apart(jumps, |code|) && Landings(jumps, labels, |code|) && |code| == |old(code)|
      ensures Lists(pendCloses, pendGotos, |jumps|) && Midway(hist, was, n0, lives, jumps, pendCloses, [], pendGotos, pendGotos)
      ensures Alike(old(jumps), jumps)
      ensures Off(jumps, keep, |code|) && SameAt(old(code), code, keep)
    {
      hide AllCode, Apart, Landings, LocalsOk, Midway, NeedsFrom, Lists, Alike;
      AlikeSame(jumps);
      var kept, i := [], 0;
      assert pendCloses[0..] == pendCloses && [] + pendCloses == pendCloses;
      while i < |pendCloses|
        invariant i <= |pendCloses| && pendCloses == old(pendCloses) && |code| == |old(code)|
        invariant AllCode(code, jumps) && Apart(jumps, |code|) && Landings(jumps, labels, |code|)
        invariant Alike(old(jumps), jumps) && Off(jumps, keep, |code|) && SameAt(old(code), code, keep)
        invariant Lists(kept + pendCloses[i..], pendGotos, |jumps|)
        invariant Midway(hist, was, n0, lives, jumps, kept, pendCloses[i..], pendGotos, pendGotos)
      {
        var q := pendCloses[i];
        ghost var rest, before := pendCloses[i..], jumps;
        assert rest[0] == q && rest[1..] == pendCloses[i + 1..];
        var stay := ResolveClose(q, n0, up, was, whole, kept, rest, keep);
        if stay { kept := kept + [q]; }
        AlikeTwice(old(jumps), before, jumps);
        i := i + 1;
      }
      assert pendCloses[i..] == [] && kept + pendCloses[i..] == kept;
      pendCloses := kept;
    }

    /** The gotos still waiting for a label, once the block that began with n0 locals is gone. */
    method LowerGotos(n0: nat, up: bool, ghost was: seq<nat>, ghost whole: seq<Local>, ghost keep: set<nat>)
      requires LocalsOk(hist, was, whole) && n0 <= |was| && up == NeedsFrom(whole, n0)
      requires AllCode(code, jumps) && Apart(jumps, |code|) && Landings(jumps, labels, |code|)
      requires Lists(pendCloses, pendGotos, |jumps|) && Midway(hist, was, n0, lives, jumps, pendCloses, [], pendGotos, pendGotos)
      requires Off(jumps, keep, |code|)
      modifies this`jumps
      ensures AllCode(code, jumps) && Apart(jumps, |code|) && Landings(jumps, labels, |code|)
      ensures Lists(pendCloses, pendGotos, |jumps|) && Tracked(hist, was[..n0], n0, lives, jumps, pendCloses, pendGotos)
      ensures Alike(old(jumps), jumps)
      ensures Off(jumps, keep, |code|)
    {
      hide AllCode, Apart, Landings, LocalsOk, Midway, NeedsFrom, Tracked, Lists;
      var i := 0;
      assert pendGotos[0..] == pendGotos;
      while i < |pendGotos|
        invariant i <= |pendGotos|
        invariant AllCode(code, jumps) && Apart(jumps, |code|) && Landings(jumps, labels, |code|)
        invariant Alike(old(jumps), jumps) && Off(jumps, keep, |code|)
        invariant Midway(hist, was, n0, lives, jumps, pendCloses, [], pendGotos, pendGotos[i..])
      {
        var q := pendGotos[i];
        GotoListed(pendCloses, pendGotos, |jumps|, i);
        ghost var before, rest := jumps, pendGotos[i..];
        assert rest[0] == q && rest[1..] == pendGotos[i + 1..];
        var j := jumps[q];
        var lowered := if j.n > n0 then j.(n := n0, need := j.need || up) else j;
        LowerStep(hist, was, whole, n0, lives, before, pendCloses, pendGotos, rest, lowered);
        SlotsSame(code, jumps, jumps[q := lowered], labels);
        OffSame(jumps, jumps[q := lowered], keep, |code|);
        jumps := jumps[q := lowered];
        i := i + 1;
      }
      assert pendGotos[i..] == [];
      MidwayEnd(hist, was, n0, lives, jumps, pendCloses, pendGotos);
    }

    /** The breaks of a loop go to the end of the code. */
    method PatchBreaks(breaks: seq<nat>, ghost keep: set<nat>)
      requires AllCode(code, jumps) && Apart(jumps, |code|) && Landings(jumps, labels, |code|)
      requires Breaks(jumps, breaks)
      requires Off(jumps, keep, |code|)
      modifies this`code, this`jumps
      ensures AllCode(code, jumps) && Apart(jumps, |code|) && Landings(jumps, labels, |code|) && |code| == |old(code)|
      ensures Retargeted(old(jumps), jumps, breaks, |code|)
      ensures Off(jumps, keep, |code|) && SameAt(old(code), code, keep)
    {
      hide CodeOk, Apart, Landings;
      var i := 0;
      while i < |breaks|
        invariant i <= |breaks| && |code| == |old(code)| && Off(jumps, keep, |code|) && SameAt(old(code), code, keep)
        invariant AllCode(code, jumps) && Apart(jumps, |code|) && Landings(jumps, labels, |code|)
        invariant Retargeted(old(jumps), jumps, breaks[..i], |code|)
      {
        var q := breaks[i];
        assert q in breaks;
        var j := jumps[q].(target := |code|);
        ghost var before, was := code, jumps;
        assert CodeOk(code, jumps[q]);
        CodeBounds(code, jumps[q]);
        PatchJumpTo(jumps[q].pc, |code|);
        PatchedCode(before, jumps[q], |code|);
        CodeUpdate(before, code, jumps, q, j);
        KeptAt(before, code, jumps, q, j, keep);
        LandingsPatched(jumps, labels, |code|, q, j);
        jumps := jumps[q := j];
        i := i + 1;
        assert breaks[..i] == breaks[..i - 1] + [q];
      }
      assert breaks[..i] == breaks;
    }

    /** Every jump that left the block is told whether it had anything to close; the breaks of a loop get their target. */
    method SettleScope(scope: Scope, up: bool, ghost was: seq<nat>, ghost whole: seq<Local>, ghost keep: set<nat>)
      requires LocalsOk(hist, was, whole) && scope.n <= |was| && up == NeedsFrom(whole, scope.n)
      requires AllCode(code, jumps) && Apart(jumps, |code|) && Landings(jumps, labels, |code|)
      requires Lists(pendCloses, pendGotos, |jumps|) && Midway(hist, was, scope.n, lives, jumps, [], pendCloses, pendGotos, pendGotos)
      requires |lives| == |jumps| && |scopes| > 0 && scope == scopes[|scopes| - 1] && BreaksOk(scopes, jumps, home, pendGotos)
      requires Off(jumps, keep, |code|)
      modifies this`code, this`jumps, this`pendCloses
      ensures AllCode(code, jumps) && Apart(jumps, |code|) && Landings(jumps, labels, |code|) && |code| == |old(code)|
      ensures Lists(pendCloses, pendGotos, |jumps|) && Tracked(hist, was[..scope.n], scope.n, lives, jumps, pendCloses, pendGotos)
      ensures BreaksOk(scopes[..|scopes| - 1], jumps, home, pendGotos) && LandAt(jumps, scope.breaks, |code|)
      ensures Kept(old(jumps), jumps, lives, lives) && |jumps| == |lives| && Landed(old(jumps), jumps, scope.breaks, |code|)
      ensures Off(jumps, keep, |code|) && SameAt(old(code), code, keep)
    {
      hide CodeOk, Apart, Landings, LocalsOk, Tracked, Midway, NeedsFrom, Lists, BreaksOk, AllCode, Alike, Retargeted, Kept, Breaks, LandAt, Landed;
      LastBreaks(scopes, jumps, home, pendGotos);
      ResolveBlockCloses(scope.n, up, was, whole, keep);
      ghost var told := jumps;
      LowerGotos(scope.n, up, was, whole, keep);
      ghost var settled := jumps;
      AlikeTwice(old(jumps), told, settled);
      BreaksAlike(scopes, old(jumps), settled, home, pendGotos);
      AlikeBreaks(old(jumps), settled, scope.breaks);
      PatchBreaks(scope.breaks, keep);
      SameCount(settled, jumps, scope.breaks, |code|);
      TrackedRetargeted(hist, was[..scope.n], scope.n, lives, settled, jumps, pendCloses, pendGotos, scope.breaks, |code|);
      BreaksPopped(scopes, settled, jumps, home, pendGotos, |code|);
      KeptAlong(scopes, old(jumps), settled, jumps, lives, home, pendGotos, |code|);
      LandedAlong(old(jumps), settled, jumps, scope.breaks, |code|);
    }

    /** The close of a block for its own variables, if any needs it. */
    method CloseBlock(scope: Scope) returns (up: bool)
      requires Valid()
      modifies this`code
      ensures Valid() && up == NeedsFrom(locals, scope.n)
      ensures code == old(code) + if up then [Close(scope.baseReg)] else []
    {
      up := false;
      if |locals| > scope.n { up := NeedsClose(scope.n); } else { NothingFrom(locals, scope.n); }
      if up { var _ := Emit(Close(scope.baseReg)); }
    }

    /**
     leaveScope. The block closes its own variables on the way out, if any needs it;
     the breaks of a loop go past that close.
    */
    method LeaveScope()
      requires Valid() && |scopes| > 0
      modifies this
      ensures Valid() && !ended && Kept(old(jumps), jumps, old(lives), lives) && |jumps| == |old(jumps)|
      ensures var s := old(scopes[|scopes| - 1]);
              && scopes == old(scopes[..|scopes| - 1]) && s.n <= |old(locals)| && locals == old(locals)[..s.n]
              && s.firstLabel <= |old(labels)| && labels == old(labels)[..s.firstLabel]
              && |code| == |old(code)| + (if NeedsFrom(old(locals), s.n) then 1 else 0)
              && LandAt(jumps, s.breaks, |code|) && Landed(old(jumps), jumps, s.breaks, |code|)
              && (|code| > |old(code)| ==> code[|old(code)|] == Close(s.baseReg))
              && |old(ids)| == |old(locals)| && ids == old(ids)[..s.n]
      ensures err == old(err) && pendGotos == old(pendGotos) && hist == old(hist) && lives == old(lives) && Untouched(old(code), code, old(jumps))
    {
      hide Off, SameAt, Untouched, Free, Spots, Apart, Landings, LocalsOk, Tracked, Midway, NeedsFrom, Lists, ScopesOk, BreaksOk, AllCode, Kept, LandAt, Landed;
      var scope := scopes[|scopes| - 1];
      ghost var was, whole, frozen, before := ids, locals, Frozen(), code;
      FreeAfter(jumps, |code|);
      LastScope(scopes, locals, labels, |pendGotos|);
      SameLength(hist, ids, locals);
      var up := CloseBlock(scope);
      LandingsFewer(jumps, labels, scope.firstLabel, |code|);
      ScopesPopped(scopes, locals, labels, |pendGotos|);
      LocalsLess(hist, ids, locals, scope.n);
      MidwayStart(hist, was, frozen, scope.n, lives, jumps, pendCloses, pendGotos);
      locals := locals[..scope.n];
      labels := labels[..scope.firstLabel];
      ghost var closed := code;
      SettleScope(scope, up, was, whole, Spots(jumps, |code|));
      SpotsUntouched(before, closed, code, old(jumps));
      scopes := scopes[..|scopes| - 1];
      ids := ids[..scope.n];
      ended := false;
    }

    // -- breaks, gotos and labels --------------------------------------------------------------------

    /** findLoopScope. */
    method FindLoopScope() returns (k: int)
      ensures k == Loop(scopes)
    {
      k := |scopes|;
      assert scopes[..k] == scopes;
      while k > 0 && !scopes[k - 1].isLoop
        invariant 0 <= k <= |scopes| && Loop(scopes) == Loop(scopes[..k])
      {
        assert scopes[..k][..k - 1] == scopes[..k - 1];
        k := k - 1;
      }
      k := k - 1;
    }

    /** compileBreakStmt: out of the innermost loop, if there is one. */
    method CompileBreak()
      requires Valid() && !ended
      modifies this
      ensures Valid() && !ended && Kept(old(jumps), jumps, old(lives), lives) && locals == old(locals) && labels == old(labels) && SameScopes(old(scopes), scopes)
      ensures hist == old(hist) && ids == old(ids) && pendGotos == old(pendGotos) && (old(err) ==> err) && |old(code)| <= |code| && code[..|old(code)|] == old(code)
      ensures var k := Loop(old(scopes));
              if k < 0 then err && jumps == old(jumps) && code == old(code) && scopes == old(scopes) && lives == old(lives)
              else err == old(err) && BrokenTo(old(scopes), scopes, k, old(jumps), jumps, |old(code)|, |code|, |locals|) && lives == old(lives) + [ids]
    {
      hide Valid;
      var k := FindLoopScope();
      if k < 0 { BreakNowhere(); } else { BreakTo(k); }
    }

    method BreakNowhere()
      requires Valid()
      modifies this`err
      ensures Valid() && err && Kept(jumps, jumps, lives, lives) && SameScopes(scopes, scopes)
    {
      hide LocalsOk, AllCode, Apart, Landings, Tracked, Lists, ScopesOk, BreaksOk;
      KeptSame(jumps, lives);
      err := true;
    }

    method BreakTo(k: nat)
      requires Valid() && !ended && k < |scopes|
      modifies this
      ensures Valid() && !ended && Kept(old(jumps), jumps, old(lives), lives) && locals == old(locals) && labels == old(labels) && SameScopes(old(scopes), scopes)
      ensures hist == old(hist) && ids == old(ids) && pendGotos == old(pendGotos) && err == old(err) && |old(code)| <= |code| && code[..|old(code)|] == old(code)
      ensures BrokenTo(old(scopes), scopes, k, old(jumps), jumps, |old(code)|, |code|, |locals|) && lives == old(lives) + [ids]
    {
      hide Apart, Landings, LocalsOk, Tracked, NeedsFrom, Lists, ScopesOk, BreaksOk, AllCode, LandAt, RegBase;
      var s := scopes[k];
      ScopeAt(scopes, locals, labels, |pendGotos|, k);
      LandingNowhere(jumps, |code|);
      var closed := NeedsClose(s.n);
      SomeFrom(locals, s.n);
      if closed { var _ := Emit(Close(s.baseReg)); }
      var jpc := Emit(Jmp(0));
      var q := RecordJumpClose(jpc, -1, s.n, s.baseReg, closed);
      BreakAdded(scopes, old(jumps), home, pendGotos, k, jumps[q]);
      SameScopesOk(scopes, scopes[k := s.(breaks := s.breaks + [q])], locals, labels, |pendGotos|);
      home := home + [k];
      scopes := scopes[k := s.(breaks := s.breaks + [q])];
    }

    /** compileGotoStmt: back to a label in sight, or on to one still to come. */
    method CompileGoto(name: string)
      requires Valid() && !ended
      modifies this
      ensures Valid() && !ended && Kept(old(jumps), jumps, old(lives), lives) && locals == old(locals) && labels == old(labels) && scopes == old(scopes)
      ensures err == old(err) && |jumps| == |old(jumps)| + 1 && lives == old(lives) + [ids]
      ensures hist == old(hist) && ids == old(ids) && jumps[..|old(jumps)|] == old(jumps) && |old(code)| <= |code| && code[..|old(code)|] == old(code)
      ensures var l := First(labels, name); var q := |old(jumps)|;
              if l < |labels|
              then pendGotos == old(pendGotos) && jumps[q].target == labels[l].pc && jumps[q].dst == labels[l].n && NewSlotAt(jumps[q], |old(code)|, |code|, |locals| > labels[l].n)
              else pendGotos == old(pendGotos) + [q] && jumps[q].name == name && NewSlotAt(jumps[q], |old(code)|, |code|, |locals| > 0)
    {
      hide Apart, Landings, LocalsOk, Tracked, NeedsFrom, Lists, ScopesOk, BreaksOk, AllCode, LandAt, RegBase;
      var i := 0;
      while i < |labels|
        invariant i <= |labels| && First(labels, name) >= i
      {
        if labels[i].name == name { BackwardGoto(i); return; }
        i := i + 1;
      }
      ForwardGoto(name);
    }

    method BackwardGoto(i: nat)
      requires Valid() && !ended && i < |labels|
      modifies this
      ensures Valid() && !ended && Kept(old(jumps), jumps, old(lives), lives) && locals == old(locals) && labels == old(labels) && scopes == old(scopes)
      ensures err == old(err) && |jumps| == |old(jumps)| + 1 && lives == old(lives) + [ids]
      ensures hist == old(hist) && ids == old(ids) && pendGotos == old(pendGotos) && jumps[..|old(jumps)|] == old(jumps) && |old(code)| <= |code| && code[..|old(code)|] == old(code)
      ensures var q := |old(jumps)|;
              jumps[q].target == labels[i].pc && jumps[q].dst == labels[i].n && NewSlotAt(jumps[q], |old(code)|, |code|, |locals| > labels[i].n)
    {
      hide Apart, Landings, Landing, LocalsOk, Tracked, NeedsFrom, Lists, ScopesOk, BreaksOk, AllCode, RegBase;
      var l := labels[i];
      LabelAt(scopes, locals, labels, |pendGotos|, jumps, |code|, i);
      var level := RegBaseForLocals(l.n);
      var closed := NeedsClose(l.n);
      SomeFrom(locals, l.n);
      if closed { var _ := Emit(Close(level)); }
      var jpc := Emit(Jmp(l.pc - (|code| + 1)));
      var q := RecordJumpClose(jpc, l.pc, l.n, level, closed);
      TargetedAdded(scopes, old(jumps), home, pendGotos, jumps[q]);
      home := home + [-1];
    }

    method ForwardGoto(name: string)
      requires Valid() && !ended
      modifies this
      ensures Valid() && !ended && Kept(old(jumps), jumps, old(lives), lives) && locals == old(locals) && labels == old(labels) && scopes == old(scopes)
      ensures err == old(err) && |jumps| == |old(jumps)| + 1 && lives == old(lives) + [ids]
      ensures hist == old(hist) && ids == old(ids) && jumps[..|old(jumps)|] == old(jumps) && |old(code)| <= |code| && code[..|old(code)|] == old(code)
      ensures var q := |old(jumps)|; pendGotos == old(pendGotos) + [q] && jumps[q].name == name && NewSlotAt(jumps[q], |old(code)|, |code|, |locals| > 0)
    {
      hide Apart, Landings, LocalsOk, Tracked, NeedsFrom, Lists, ScopesOk, BreaksOk, AllCode, RegBase;
      var q := |jumps|;
      ghost var before := code;
      LandingNowhere(jumps, |code|);
      var jpc := Emit(Jmp(0));
      var pair := |locals| > 0;
      if pair {
        var top := RegBaseForLocals(|locals|);
        var _ := Emit(Close(top));
      }
      var j := Jump(name, jpc, -1, |locals|, -1, 0, pair, false, false);
      GotoAdded(hist, ids, locals, lives, jumps, pendCloses, pendGotos, j);
      SlotAppended(before, code, jumps, labels, j);
      MoreGotos(scopes, locals, labels, |pendGotos|);
      OpenAdded(scopes, jumps, home, pendGotos, j);
      pendGotos := pendGotos + [q];
      jumps := jumps + [j];
      lives := lives + [ids];
      home := home + [-1];
    }

    /** A pending goto reaches the label at the end of the code, where the first n locals are in scope. */
    method ResolveGoto(q: nat, n: nat, level: nat, act: bool, ghost keep: set<nat>)
      requires AllCode(code, jumps) && Apart(jumps, |code|) && Landings(jumps, labels, |code|)
      requires q < |jumps| && !jumps[q].active && (act ==> jumps[q].pair) && Off(jumps, keep, |code|)
      modifies this`code, this`jumps
      ensures AllCode(code, jumps) && Apart(jumps, |code|) && Landings(jumps, labels, |code|) && |code| == |old(code)|
      ensures jumps == old(jumps[q := Reached(jumps[q], |code|, n, level, act)])
      ensures Off(jumps, keep, |code|) && SameAt(old(code), code, keep)
    {
      hide CodeOk, Apart, Landings;
      var j := jumps[q];
      assert CodeOk(code, j);
      CodeBounds(code, j);
      ghost var before := code;
      var pc := j.pc;
      if act { pc := SwapInClose(j.pc, level); }
      PatchJumpTo(pc, |code|);
      var r := Reached(j, |code|, n, level, act);
      ReachedCode(before, code, j, n, level, act);
      CodeUpdate(before, code, jumps, q, r);
      KeptAt(before, code, jumps, q, r, keep);
      LandingsPatched(jumps, labels, |code|, q, r);
      jumps := jumps[q := r];
    }

    /**
     compileLabelStmt: the gotos of this block that wait for the name are resolved.
     After a label at the end of its block nothing but labels may follow.
    */
    method CompileLabel(name: string, atEnd: bool)
      requires Valid() && |scopes| > 0 && (ended ==> atEnd)
      modifies this
      ensures Valid() && Kept(old(jumps), jumps, old(lives), lives) && locals == old(locals) && scopes == old(scopes) && |code| == |old(code)|
      ensures (old(err) ==> err) && |jumps| == |old(jumps)|
      ensures if exists l :: 0 <= l < |old(labels)| && old(labels)[l].name == name then err && labels == old(labels) && ended == old(ended)
              else ended == atEnd && var s := scopes[|scopes| - 1];
                   var n := if atEnd then s.n + s.header else |locals|;
                   labels == old(labels) + [Label(name, |code|, n)]
                   && (!err ==> Solved(old(jumps), jumps, old(pendGotos), s.firstGoto, |old(pendGotos)|, name, |code|, n)
                                && pendGotos == Waiters(old(jumps), old(pendGotos), s.firstGoto, |old(pendGotos)|, name)
                                && n <= |ids|)
                   && (err <==> old(err) || !StillThere(old(jumps), old(pendGotos), s.firstGoto, |old(pendGotos)|, name, lives, ids, n))
      ensures hist == old(hist) && ids == old(ids) && lives == old(lives) && Untouched(old(code), code, old(jumps))
    {
      hide Off, SameAt, Free, Spots, Untouched, Apart, Landings, LocalsOk, Tracked, NeedsFrom, Lists, ScopesOk, BreaksOk, AllCode, RegBase, Kept;
      var i := 0;
      while i < |labels|
        invariant i <= |labels| && forall l :: 0 <= l < i ==> labels[l].name != name
      {
        if labels[i].name == name { KeptSame(jumps, lives); UntouchedSelf(code, jumps); err := true; return; }
        i := i + 1;
      }
      var scope := scopes[|scopes| - 1];
      LastScope(scopes, locals, labels, |pendGotos|);
      SameLength(hist, ids, locals);
      var n := if atEnd then scope.n + scope.header else |locals|;
      ghost var frozen := if atEnd then scope.n else |ids|;
      TrackedFrozen(hist, ids, Frozen(), frozen, lives, jumps, pendCloses, pendGotos);
      LabelAdded(jumps, scopes, locals, labels, |pendGotos|, Label(name, |code|, n));
      labels := labels + [Label(name, |code|, n)];
      KeptSame(jumps, lives);
      SolveGotos(name, n, scope, atEnd, Spots(jumps, |code|));
      assert old(code)[..|old(code)|] == old(code);
      SpotsUntouched(old(code), old(code), code, old(jumps));
      KeptCounts(old(jumps), jumps, lives);
      ended := atEnd;
    }

    /** The goto that is next on the list reaches the label. */
    method SolveGoto(q: nat, n: nat, level: nat, scopeN: nat, below: bool, ghost frozen: nat, ghost remaining: seq<nat>, ghost rest: seq<nat>, ghost keep: set<nat>)
      requires LocalsOk(hist, ids, locals) && AllCode(code, jumps) && Apart(jumps, |code|) && Landings(jumps, labels, |code|)
      requires rest != [] && q == rest[0] && Lists(pendCloses, remaining + rest, |jumps|)
      requires Tracked(hist, ids, frozen, lives, jumps, pendCloses, remaining + rest) && BreaksOk(scopes, jumps, home, remaining + rest)
      requires n <= |locals| && level == RegBase(locals, n) && below == NeedsFrom(locals, scopeN)
      requires q < |jumps| && n <= jumps[q].n && (n < jumps[q].n ==> scopeN == frozen <= n) && Off(jumps, keep, |code|)
      modifies this`code, this`jumps
      ensures AllCode(code, jumps) && Apart(jumps, |code|) && Landings(jumps, labels, |code|) && |code| == |old(code)|
      ensures Lists(pendCloses, remaining + rest[1..], |jumps|)
      ensures Tracked(hist, ids, frozen, lives, jumps, pendCloses, remaining + rest[1..]) && BreaksOk(scopes, jumps, home, remaining + rest[1..])
      ensures |jumps| == |old(jumps)| && jumps == old(jumps)[q := jumps[q]] && jumps[q].name == old(jumps)[q].name && Base(jumps[q]) == Base(old(jumps)[q]) && jumps[q].pair == old(jumps)[q].pair
      ensures jumps[q].target == |code| && jumps[q].dst == n && Off(jumps, keep, |code|) && SameAt(old(code), code, keep)
    {
      hide Off, SameAt, Apart, Landings, LocalsOk, Tracked, NeedsFrom, Lists, BreaksOk, AllCode, RegBase, OpenOk, Known, CodeOk;
      GotoWaiting(hist, ids, frozen, lives, jumps, pendCloses, remaining, rest);
      var pg := jumps[q];
      ghost var before := jumps;
      var act := pg.pair && (pg.need || (n < pg.n && below));
      ResolveGoto(q, n, level, act, keep);
      GotoSolved(hist, ids, locals, frozen, scopeN, lives, before, pendCloses, remaining, rest, n, level, |code|, act);
      assert jumps[q].target >= 0;
      BreaksSolved(scopes, before, home, remaining, rest, jumps[q]);
    }

    /** What the loop of compileLabelStmt keeps, open being the gotos still waiting. */
    ghost predicate Solving(frozen: nat, open: seq<nat>, was: seq<Jump>)
      reads this
    {
      && LocalsOk(hist, ids, locals) && AllCode(code, jumps) && Apart(jumps, |code|) && Landings(jumps, labels, |code|)
      && Lists(pendCloses, open, |jumps|) && |lives| == |jumps| && Kept(was, jumps, lives, lives)
      && Tracked(hist, ids, frozen, lives, jumps, pendCloses, open) && BreaksOk(scopes, jumps, home, open)
    }

    /** One waiting goto: whether it goes on waiting. */
    method TryGoto(i: nat, name: string, n: nat, level: nat, scope: Scope, below: bool, ghost frozen: nat, ghost remaining: seq<nat>, ghost was: seq<Jump>, ghost keep: set<nat>) returns (waits: bool)
      requires i < |pendGotos| && Solving(frozen, remaining + pendGotos[i..], was) && n <= |locals| && level == RegBase(locals, n) && below == NeedsFrom(locals, scope.n)
      requires (if n < |locals| then scope.n == frozen <= n else true) && Off(jumps, keep, |code|)
      requires !err ==> Solved(was, jumps, pendGotos, scope.firstGoto, i, name, |code|, n) && StillThere(was, pendGotos, scope.firstGoto, i, name, lives, ids, n)
      modifies this`code, this`jumps, this`err
      ensures Solving(frozen, (if waits then remaining + [pendGotos[i]] else remaining) + pendGotos[i + 1..], was) && |code| == |old(code)|
      ensures Off(jumps, keep, |code|) && SameAt(old(code), code, keep)
      ensures (old(err) ==> err) && (i < scope.firstGoto ==> waits)
      ensures !err ==> Solved(was, jumps, pendGotos, scope.firstGoto, i + 1, name, |code|, n) && StillThere(was, pendGotos, scope.firstGoto, i + 1, name, lives, ids, n)
      ensures !err ==> pendGotos[i] < |was| && (waits <==> i < scope.firstGoto || was[pendGotos[i]].name != name)
      ensures err && !old(err) ==> Hit(was, pendGotos, scope.firstGoto, |pendGotos|, name, pendGotos[i]) && pendGotos[i] < |lives| && !Agree(lives[pendGotos[i]], ids, n)
    {
      hide Off, SameAt, Apart, Landings, LocalsOk, Tracked, NeedsFrom, Lists, BreaksOk, AllCode, RegBase, Kept, Solved, StillThere, Agree, Known, CodeOk, LiveOk, LevelOk;
      var q := pendGotos[i];
      ghost var before, rest := jumps, pendGotos[i..];
      assert rest[0] == q && rest[1..] == pendGotos[i + 1..] && remaining + rest == (remaining + [q]) + rest[1..];
      GotoWaiting(hist, ids, frozen, lives, jumps, pendCloses, remaining, rest);
      SameLength(hist, ids, locals);
      var pg := jumps[q];
      if !err { SolvedNames(was, jumps, pendGotos, scope.firstGoto, i, name, |code|, n); }
      if n <= pg.n { AgreeSooner(ids, lives[q], pg.n, n); }
      waits := !(i >= scope.firstGoto && pg.name == name && pg.n >= n);
      SameAtSelf(code, keep);
      if waits {
        if i >= scope.firstGoto && pg.name == name {
          AgreeNot(ids, lives[q], pg.n, n);
          err := true;
        }
        if !err {
          SolvedSkip(was, jumps, pendGotos, scope.firstGoto, i, name, |code|, n);
          OneMoreThere(was, pendGotos, scope.firstGoto, i, name, lives, ids, n);
        }
      } else {
        SolveGoto(q, n, level, scope.n, below, frozen, remaining, rest, keep);
        KeptSolved(was, before, lives, q, jumps[q]);
        if !err {
          SolvedMore(was, before, pendGotos, scope.firstGoto, i, name, |code|, n, jumps[q]);
          OneMoreThere(was, pendGotos, scope.firstGoto, i, name, lives, ids, n);
        }
      }
    }

    /** The loop of compileLabelStmt over the pending gotos: those that go on waiting. */
    method SolveEach(name: string, n: nat, level: nat, scope: Scope, below: bool, ghost frozen: nat, ghost keep: set<nat>) returns (remaining: seq<nat>)
      requires Solving(frozen, pendGotos, jumps) && n <= |locals| && level == RegBase(locals, n) && below == NeedsFrom(locals, scope.n)
      requires (if n < |locals| then scope.n == frozen <= n else true) && scope.firstGoto <= |pendGotos| && Off(jumps, keep, |code|)
      modifies this`code, this`jumps, this`err
      ensures Solving(frozen, remaining, old(jumps)) && scope.firstGoto <= |remaining| <= |pendGotos|
      ensures SameAt(old(code), code, keep)
      ensures |code| == |old(code)| && (old(err) ==> err)
      ensures !err ==> Solved(old(jumps), jumps, pendGotos, scope.firstGoto, |pendGotos|, name, |code|, n) && remaining == Waiters(old(jumps), pendGotos, scope.firstGoto, |pendGotos|, name)
      ensures !err ==> StillThere(old(jumps), pendGotos, scope.firstGoto, |pendGotos|, name, lives, ids, n)
      ensures err && !old(err) ==> !StillThere(old(jumps), pendGotos, scope.firstGoto, |pendGotos|, name, lives, ids, n)
    {
      hide Off, SameAt, Apart, Landings, LocalsOk, Tracked, NeedsFrom, Lists, ScopesOk, BreaksOk, AllCode, RegBase, Kept, Solved, Hit, Agree, StillThere;
      SolvedNone(jumps, pendGotos, scope.firstGoto, name, |code|, n);
      NoneThere(jumps, pendGotos, scope.firstGoto, name, lives, ids, n);
      remaining := [];
      var i := 0;
      SameAtSelf(code, keep);
      assert pendGotos[0..] == pendGotos && [] + pendGotos == pendGotos;
      while i < |pendGotos|
        invariant i <= |pendGotos| && |code| == |old(code)| && Off(jumps, keep, |code|) && SameAt(old(code), code, keep)
        invariant Solving(frozen, remaining + pendGotos[i..], old(jumps)) && (old(err) ==> err)
        invariant |remaining| <= i && if i <= scope.firstGoto then |remaining| == i else |remaining| >= scope.firstGoto
        invariant !err ==> StillThere(old(jumps), pendGotos, scope.firstGoto, i, name, lives, ids, n)
        invariant err && !old(err) ==> !StillThere(old(jumps), pendGotos, scope.firstGoto, |pendGotos|, name, lives, ids, n)
        invariant !err ==> Solved(old(jumps), jumps, pendGotos, scope.firstGoto, i, name, |code|, n) && remaining == Waiters(old(jumps), pendGotos, scope.firstGoto, i, name)
      {
        ghost var before, mid := err, code;
        var waits := TryGoto(i, name, n, level, scope, below, frozen, remaining, old(jumps), keep);
        SameAtOn(old(code), mid, code, keep);
        if err && !before { NotThere(old(jumps), pendGotos, scope.firstGoto, name, lives, ids, n, i); }
        if waits { remaining := remaining + [pendGotos[i]]; }
        i := i + 1;
      }
      assert pendGotos[i..] == [] && remaining + pendGotos[i..] == remaining;
    }

    /** The waiting gotos when a label is set. */
    method SolveGotos(name: string, n: nat, scope: Scope, atEnd: bool, ghost keep: set<nat>)
      requires |scopes| > 0 && scope == scopes[|scopes| - 1] && n == (if atEnd then scope.n + scope.header else |locals|) && n <= |locals|
      requires Solving(if atEnd then scope.n else |ids|, pendGotos, jumps) && ScopesOk(scopes, locals, labels, |pendGotos|) && Off(jumps, keep, |code|)
      modifies this`code, this`jumps, this`pendGotos, this`err
      ensures Solving(if atEnd then scope.n else |ids|, pendGotos, old(jumps)) && ScopesOk(scopes, locals, labels, |pendGotos|)
      ensures |code| == |old(code)| && (old(err) ==> err) && SameAt(old(code), code, keep)
      ensures !err ==> Solved(old(jumps), jumps, old(pendGotos), scope.firstGoto, |old(pendGotos)|, name, |code|, n)
      ensures !err ==> pendGotos == Waiters(old(jumps), old(pendGotos), scope.firstGoto, |old(pendGotos)|, name)
      ensures !err ==> StillThere(old(jumps), old(pendGotos), scope.firstGoto, |old(pendGotos)|, name, lives, ids, n)
      ensures err && !old(err) ==> !StillThere(old(jumps), old(pendGotos), scope.firstGoto, |old(pendGotos)|, name, lives, ids, n)
    {
      hide Apart, Landings, LocalsOk, Tracked, NeedsFrom, Lists, ScopesOk, BreaksOk, AllCode, RegBase, Kept, Solved, Hit, Agree, StillThere, Waiters, Off, SameAt;
      ghost var frozen := if atEnd then scope.n else |ids|;
      LastScope(scopes, locals, labels, |pendGotos|);
      var level := RegBaseForLocals(n);
      var below := NeedsClose(scope.n);
      var remaining := SolveEach(name, n, level, scope, below, frozen, keep);
      FewerGotos(scopes, locals, labels, |pendGotos|, |remaining|);
      pendGotos := remaining;
    }
  }

  function Reached(j: Jump, t: nat, n: nat, level: nat, act: bool): Jump {
    j.(pc := if act then j.pc + 1 else j.pc, active := act, target := t, dst := n, level := level)
  }

  predicate Arrives(jumps: seq<Jump>, q: nat, t: int, n: int) {
    q < |jumps| && jumps[q].target == t && jumps[q].dst == n
  }

  lemma ReachedCode(code: seq<Ins>, code': seq<Ins>, j: Jump, n: nat, level: nat, act: bool)
    requires CodeOk(code, j) && !j.active && (act ==> j.pair)
    requires var swapped := if act then code[j.pc + 1 := code[j.pc]][j.pc := Close(level)] else code;
             var pc := if act then j.pc + 1 else j.pc;
             code' == swapped[pc := Jmp(|code| - (pc + 1))]
    ensures var r := Reached(j, |code|, n, level, act);
            CodeOk(code', r) && Base(r) == Base(j) && forall i :: 0 <= i < |code| && !(Base(r) <= i < Base(r) + Width(r)) ==> code'[i] == code[i]
  {
  }

  lemma KeptCounts(was: seq<Jump>, now: seq<Jump>, lives: seq<seq<nat>>)
    requires Kept(was, now, lives, lives)
    ensures |now| == |was|
  {
  }

  lemma KeptSame(jumps: seq<Jump>, lives: seq<seq<nat>>)
    requires |lives| == |jumps|
    ensures Kept(jumps, jumps, lives, lives)
  {
    assert lives[..|jumps|] == lives;
  }

  lemma TrackedFrozen(hist: seq<Local>, ids: seq<nat>, frozen: nat, fewer: nat, lives: seq<seq<nat>>, jumps: seq<Jump>, held: seq<nat>, open: seq<nat>)
    requires Tracked(hist, ids, frozen, lives, jumps, held, open) && fewer <= frozen
    ensures Tracked(hist, ids, fewer, lives, jumps, held, open)
  {
    hide HeldOk, OpenOk, SettledOk, LiveOk, LevelOk;
    forall q | 0 <= q < |jumps|
      ensures Known(hist, lives[q], jumps[q]) && Status(hist, ids, fewer, lives[q], jumps[q], q in held, q in open)
    {
      assert Known(hist, lives[q], jumps[q]);
      if q !in held && q !in open { SettledLeave(hist, ids, frozen, lives[q], jumps[q], fewer); }
    }
  }

  lemma LabelAdded(jumps: seq<Jump>, scopes: seq<Scope>, locals: seq<Local>, labels: seq<Label>, gotos: nat, l: Label)
    requires Apart(jumps, l.pc) && Landings(jumps, labels, l.pc) && ScopesOk(scopes, locals, labels, gotos) && l.n <= |locals|
    ensures Landings(jumps, labels + [l], l.pc) && ScopesOk(scopes, locals, labels + [l], gotos)
  {
    hide RegBase;
    var labels' := labels + [l];
    assert Landing(jumps, l.pc, l.pc);
    forall k | 0 <= k < |labels'| ensures Landing(jumps, labels'[k].pc, l.pc) && labels'[k].n <= |locals| {
      if k < |labels| { assert Landing(jumps, labels[k].pc, l.pc); }
    }
  }

  lemma GotoWaiting(hist: seq<Local>, ids: seq<nat>, frozen: nat, lives: seq<seq<nat>>, jumps: seq<Jump>, held: seq<nat>, remaining: seq<nat>, rest: seq<nat>)
    requires rest != [] && Tracked(hist, ids, frozen, lives, jumps, held, remaining + rest) && Lists(held, remaining + rest, |jumps|)
    ensures var q := rest[0];
            q < |jumps| == |lives| && Known(hist, lives[q], jumps[q]) && OpenOk(hist, ids, lives[q], jumps[q])
            && !jumps[q].active && jumps[q].dst == -1 && jumps[q].target == -1 && jumps[q].n <= |ids|
            && q !in held && q !in remaining + rest[1..] && Lists(held, remaining + rest[1..], |jumps|)
            && (forall p :: p in remaining + rest <==> p in remaining + rest[1..] || p == q)
  {
    var open := remaining + rest;
    OpenStep(held, remaining, rest, |jumps|);
    assert open[|remaining|] == rest[0] && rest[0] in open;
    hide Lists, LiveOk, LevelOk, SettledOk, HeldOk;
    assert Known(hist, lives[rest[0]], jumps[rest[0]]);
  }

  lemma OpenStep(held: seq<nat>, remaining: seq<nat>, rest: seq<nat>, n: nat)
    requires rest != [] && Lists(held, remaining + rest, n)
    ensures Lists(held, remaining + rest[1..], n) && rest[0] !in held && rest[0] !in remaining + rest[1..] && rest[0] < n
    ensures forall p :: p in remaining + rest <==> p in remaining + rest[1..] || p == rest[0]
  {
    var q, rest' := rest[0], rest[1..];
    assert rest == [q] + rest' && remaining + rest == remaining + [q] + rest';
    WithoutOne(remaining, q, rest', n);
    hide Increasing;
    assert q in remaining + rest;
    assert forall x :: x in held ==> x !in remaining + rest;
  }

  lemma {:induction false} SolvedStatus(hist: seq<Local>, ids: seq<nat>, locals: seq<Local>, frozen: nat, scopeN: nat, live: seq<nat>, j: Jump, n: nat, t: nat, act: bool)
    requires LocalsOk(hist, ids, locals) && LiveOk(hist, live) && OpenOk(hist, ids, live, j) && n <= j.n && frozen <= |ids|
    requires n < j.n ==> scopeN == frozen <= n
    requires act == (j.pair && (j.need || (n < j.n && NeedsFrom(locals, scopeN))))
    ensures var r := Reached(j, t, n, RegBase(locals, n), act); Known(hist, live, r) && SettledOk(hist, ids, frozen, live, r)
  {
    var r := Reached(j, t, n, RegBase(locals, n), act);
    LevelOfBase(hist, ids, locals, live, j.n, r);
    hide RegBase;
    if !act {
      forall k | n <= k < |live| ensures !Needs(hist[live[k]]) && live[k] !in ids[..frozen] {
        if k < j.n {
          assert live[k] == live[..j.n][k] == ids[k];
          assert !Needs(locals[k]);
        }
      }
    }
  }

  lemma {:induction false} GotoSolved(hist: seq<Local>, ids: seq<nat>, locals: seq<Local>, frozen: nat, scopeN: nat, lives: seq<seq<nat>>, jumps: seq<Jump>, held: seq<nat>, remaining: seq<nat>, rest: seq<nat>, n: nat, level: nat, t: nat, act: bool)
    requires rest != [] && Tracked(hist, ids, frozen, lives, jumps, held, remaining + rest) && Lists(held, remaining + rest, |jumps|)
    requires LocalsOk(hist, ids, locals) && n <= |locals| && level == RegBase(locals, n) && rest[0] < |jumps|
    requires var j := jumps[rest[0]];
             && n <= j.n && (n < j.n ==> scopeN == frozen <= n)
             && act == (j.pair && (j.need || (n < j.n && NeedsFrom(locals, scopeN))))
    ensures var js := jumps[rest[0] := Reached(jumps[rest[0]], t, n, level, act)];
            Tracked(hist, ids, frozen, lives, js, held, remaining + rest[1..])
  {
    hide HeldOk, OpenOk, SettledOk, LiveOk, LevelOk, LocalsOk, RegBase, NeedsFrom, Lists;
    GotoWaiting(hist, ids, frozen, lives, jumps, held, remaining, rest);
    var q := rest[0];
    SolvedStatus(hist, ids, locals, frozen, scopeN, lives[q], jumps[q], n, t, act);
    var js := jumps[q := Reached(jumps[q], t, n, level, act)];
    forall p | 0 <= p < |js|
      ensures Known(hist, lives[p], js[p]) && Status(hist, ids, frozen, lives[p], js[p], p in held, p in remaining + rest[1..])
    {
      if p != q {
        assert Known(hist, lives[p], jumps[p]);
        assert p in remaining + rest <==> p in remaining + rest[1..];
      }
    }
  }

  lemma BreaksSolved(scopes: seq<Scope>, jumps: seq<Jump>, home: seq<int>, remaining: seq<nat>, rest: seq<nat>, r: Jump)
    requires rest != [] && BreaksOk(scopes, jumps, home, remaining + rest) && rest[0] < |jumps| && jumps[rest[0]].dst == -1 && r.target >= 0
    requires forall p :: p in remaining + rest <==> p in remaining + rest[1..] || p == rest[0]
    ensures BreaksOk(scopes, jumps[rest[0] := r], home, remaining + rest[1..])
  {
    var js := jumps[rest[0] := r];
    forall s, i | 0 <= s < |scopes| && 0 <= i < |scopes[s].breaks| ensures Waiting(scopes[s], s, js, home, scopes[s].breaks[i]) {
      assert Waiting(scopes[s], s, jumps, home, scopes[s].breaks[i]);
    }
  }

  lemma KeptSolved(was: seq<Jump>, jumps: seq<Jump>, lives: seq<seq<nat>>, q: nat, r: Jump)
    requires Kept(was, jumps, lives, lives) && q < |jumps| && jumps[q].target == -1 && jumps[q].dst == -1 && !jumps[q].active
    requires Base(r) == Base(jumps[q]) && r.pair == jumps[q].pair && r.name == jumps[q].name
    ensures Kept(was, jumps[q := r], lives, lives)
  {
  }

  /** Goto q is one of first..upto, and waits for that name. */
  predicate Hit(was: seq<Jump>, gotos: seq<nat>, first: nat, upto: nat, name: string, q: nat) {
    q < |was| && was[q].name == name && exists k :: first <= k < upto && k < |gotos| && gotos[k] == q
  }

  /** Of the gotos first..upto those of that name have arrived at t, and no other jump has changed its course. */
  predicate Solved(was: seq<Jump>, now: seq<Jump>, gotos: seq<nat>, first: nat, upto: nat, name: string, t: int, n: int) {
    && |was| == |now|
    && (forall q :: 0 <= q < |was| ==> now[q].name == was[q].name)
    && (forall q :: 0 <= q < |was| ==>
          if Hit(was, gotos, first, upto, name, q) then Arrives(now, q, t, n) else now[q].target == was[q].target && now[q].dst == was[q].dst)
  }

  /** The first n locals in scope at those gotos are the first n in scope now. */
  predicate StillThere(was: seq<Jump>, gotos: seq<nat>, first: nat, upto: nat, name: string, lives: seq<seq<nat>>, ids: seq<nat>, n: nat) {
    forall q: nat :: q < |was| && Hit(was, gotos, first, upto, name, q) ==> q < |lives| && Agree(lives[q], ids, n)
  }

  predicate Agree(live: seq<nat>, ids: seq<nat>, n: nat) {
    n <= |live| && n <= |ids| && live[..n] == ids[..n]
  }

  lemma AgreeSooner(ids: seq<nat>, live: seq<nat>, m: nat, n: nat)
    requires Since(ids, live, m) && n <= m
    ensures Agree(live, ids, n)
  {
    assert live[..n] == live[..m][..n] && ids[..n] == ids[..m][..n];
  }

  /** The locals of the jump that are gone are not among those in scope. */
  lemma AgreeNot(ids: seq<nat>, live: seq<nat>, m: nat, n: nat)
    requires Since(ids, live, m) && m < n
    ensures !Agree(live, ids, n)
  {
    assert n <= |live| && n <= |ids| ==> live[..n][m] == live[m] && ids[..n][m] in ids;
  }

  lemma NotThere(was: seq<Jump>, gotos: seq<nat>, first: nat, name: string, lives: seq<seq<nat>>, ids: seq<nat>, n: nat, i: nat)
    requires i < |gotos| && Hit(was, gotos, first, |gotos|, name, gotos[i]) && gotos[i] < |lives| && !Agree(lives[gotos[i]], ids, n)
    ensures !StillThere(was, gotos, first, |gotos|, name, lives, ids, n)
  {
  }

  lemma NoneThere(was: seq<Jump>, gotos: seq<nat>, first: nat, name: string, lives: seq<seq<nat>>, ids: seq<nat>, n: nat)
    ensures StillThere(was, gotos, first, 0, name, lives, ids, n)
  {
  }

  lemma OneMoreThere(was: seq<Jump>, gotos: seq<nat>, first: nat, i: nat, name: string, lives: seq<seq<nat>>, ids: seq<nat>, n: nat)
    requires i < |gotos| && StillThere(was, gotos, first, i, name, lives, ids, n)
    requires gotos[i] < |was| && first <= i && was[gotos[i]].name == name ==> gotos[i] < |lives| && Agree(lives[gotos[i]], ids, n)
    ensures StillThere(was, gotos, first, i + 1, name, lives, ids, n)
  {
    hide Agree, Hit;
    var m := i + 1;
    forall q: nat | q < |was| && Hit(was, gotos, first, m, name, q)
      ensures q < |lives| && Agree(lives[q], ids, n)
    {
      HitMore(was, gotos, first, i, name, q);
    }
  }

  /** The gotos that go on waiting. */
  function Waiters(was: seq<Jump>, gotos: seq<nat>, first: nat, upto: nat, name: string): (r: seq<nat>)
    requires upto <= |gotos|
    ensures |r| <= upto && (upto <= first ==> r == gotos[..upto])
  {
    if upto == 0 then []
    else
      var r := Waiters(was, gotos, first, upto - 1, name);
      var q := gotos[upto - 1];
      if upto - 1 >= first && q < |was| && was[q].name == name then r else r + [q]
  }

  lemma SolvedNone(jumps: seq<Jump>, gotos: seq<nat>, first: nat, name: string, t: int, n: int)
    ensures Solved(jumps, jumps, gotos, first, 0, name, t, n)
  {
  }

  lemma SolvedMore(was: seq<Jump>, now: seq<Jump>, gotos: seq<nat>, first: nat, i: nat, name: string, t: int, n: int, r: Jump)
    requires Solved(was, now, gotos, first, i, name, t, n) && first <= i < |gotos| && gotos[i] < |now|
    requires r.target == t && r.dst == n && r.name == now[gotos[i]].name == name
    ensures Solved(was, now[gotos[i] := r], gotos, first, i + 1, name, t, n)
  {
    var later := now[gotos[i] := r];
    forall q | 0 <= q < |was|
      ensures if Hit(was, gotos, first, i + 1, name, q) then Arrives(later, q, t, n) else later[q].target == was[q].target && later[q].dst == was[q].dst
    {
      HitMore(was, gotos, first, i, name, q);
    }
  }

  lemma SolvedNames(was: seq<Jump>, now: seq<Jump>, gotos: seq<nat>, first: nat, upto: nat, name: string, t: int, n: int)
    requires Solved(was, now, gotos, first, upto, name, t, n)
    ensures |was| == |now| && forall q :: 0 <= q < |was| ==> now[q].name == was[q].name
  {
  }

  lemma HitMore(was: seq<Jump>, gotos: seq<nat>, first: nat, i: nat, name: string, q: nat)
    requires i < |gotos| && q < |was|
    ensures Hit(was, gotos, first, i + 1, name, q) <==> Hit(was, gotos, first, i, name, q) || (first <= i && gotos[i] == q && was[q].name == name)
  {
  }

  lemma SolvedSkip(was: seq<Jump>, now: seq<Jump>, gotos: seq<nat>, first: nat, i: nat, name: string, t: int, n: int)
    requires Solved(was, now, gotos, first, i, name, t, n) && i < |gotos| && gotos[i] < |now|
    requires i < first || now[gotos[i]].name != name
    ensures Solved(was, now, gotos, first, i + 1, name, t, n)
  {
    forall q | 0 <= q < |was|
      ensures if Hit(was, gotos, first, i + 1, name, q) then Arrives(now, q, t, n) else now[q].target == was[q].target && now[q].dst == was[q].dst
    {
      HitMore(was, gotos, first, i, name, q);
    }
  }

  lemma FewerGotos(scopes: seq<Scope>, locals: seq<Local>, labels: seq<Label>, gotos: nat, k: nat)
    requires ScopesOk(scopes, locals, labels, gotos) && |scopes| > 0 && scopes[|scopes| - 1].firstGoto <= k
    ensures ScopesOk(scopes, locals, labels, k)
  {
    hide RegBase;
    var last := |scopes| - 1;
    forall s | 0 <= s < |scopes| ensures scopes[s].firstGoto <= k {
      if s < last { assert scopes[s].firstGoto <= scopes[last].firstGoto; }
    }
  }

  /** The place of the innermost loop on the stack. */
  function Loop(scopes: seq<Scope>): (k: int)
    ensures -1 <= k < |scopes| && (k >= 0 ==> scopes[k].isLoop)
  {
    if scopes == [] then -1 else if scopes[|scopes| - 1].isLoop then |scopes| - 1 else Loop(scopes[..|scopes| - 1])
  }

  /** A break out of loop k has been recorded. */
  predicate BrokenTo(was: seq<Scope>, now: seq<Scope>, k: nat, jumpsWere: seq<Jump>, jumps: seq<Jump>, from: nat, end: nat, locals: nat) {
    var q := |jumpsWere|;
    && k < |was| && |jumps| == q + 1 && jumps[..q] == jumpsWere
    && now == was[k := was[k].(breaks := was[k].breaks + [q])]
    && jumps[q].dst == was[k].n && jumps[q].target == -1 && NewSlotAt(jumps[q], from, end, locals > was[k].n)
  }

  lemma SomeFrom(locals: seq<Local>, n: nat)
    ensures NeedsFrom(locals, n) ==> |locals| > n
  {
  }

  /** The first label of a name. */
  function First(labels: seq<Label>, name: string): (l: nat)
    ensures l <= |labels| && (l < |labels| ==> labels[l].name == name) && forall k :: 0 <= k < l ==> labels[k].name != name
  {
    if labels == [] || labels[0].name == name then 0 else 1 + First(labels[1..], name)
  }

  /** The slots of a new jump are all that was added to the code. */
  predicate NewSlotAt(j: Jump, from: nat, end: nat, wide: bool) {
    Base(j) == from && end == from + if wide then 2 else 1
  }

  /** Only the lists of breaks have grown. */
  predicate SameScopes(was: seq<Scope>, now: seq<Scope>) {
    && |was| == |now|
    && forall s :: 0 <= s < |was| ==>
         && now[s].(breaks := was[s].breaks) == was[s]
         && |was[s].breaks| <= |now[s].breaks| && now[s].breaks[..|was[s].breaks|] == was[s].breaks
  }

  lemma SameScopesOk(scopes: seq<Scope>, scopes': seq<Scope>, locals: seq<Local>, labels: seq<Label>, gotos: nat)
    requires ScopesOk(scopes, locals, labels, gotos) && |scopes| == |scopes'|
    requires forall s :: 0 <= s < |scopes| ==> scopes'[s].(breaks := scopes[s].breaks) == scopes[s]
    ensures ScopesOk(scopes', locals, labels, gotos)
  {
    hide RegBase;
  }

  lemma {:induction false} ScopeAt(scopes: seq<Scope>, locals: seq<Local>, labels: seq<Label>, gotos: nat, k: nat)
    requires ScopesOk(scopes, locals, labels, gotos) && k < |scopes|
    ensures scopes[k].n <= |locals| && scopes[k].baseReg == RegBase(locals, scopes[k].n)
  {
    hide RegBase;
  }

  lemma LabelAt(scopes: seq<Scope>, locals: seq<Local>, labels: seq<Label>, gotos: nat, jumps: seq<Jump>, n: int, i: nat)
    requires ScopesOk(scopes, locals, labels, gotos) && Landings(jumps, labels, n) && i < |labels|
    ensures labels[i].n <= |locals| && Landing(jumps, labels[i].pc, n)
  {
    hide RegBase, Landing;
  }

  lemma LandingNowhere(jumps: seq<Jump>, n: nat)
    requires Apart(jumps, n)
    ensures Landing(jumps, -1, n)
  {
  }

  lemma BreakAdded(scopes: seq<Scope>, jumps: seq<Jump>, home: seq<int>, open: seq<nat>, k: nat, j: Jump)
    requires BreaksOk(scopes, jumps, home, open) && k < |scopes| && j.dst == scopes[k].n && j.target == -1
    ensures BreaksOk(scopes[k := scopes[k].(breaks := scopes[k].breaks + [|jumps|])], jumps + [j], home + [k], open)
  {
    var scopes', jumps', home' := scopes[k := scopes[k].(breaks := scopes[k].breaks + [|jumps|])], jumps + [j], home + [k as int];
    forall s, i | 0 <= s < |scopes'| && 0 <= i < |scopes'[s].breaks| ensures Waiting(scopes'[s], s, jumps', home', scopes'[s].breaks[i]) {
      if i < |scopes[s].breaks| { assert Waiting(scopes[s], s, jumps, home, scopes[s].breaks[i]); }
    }
    forall q | 0 <= q < |jumps'| && jumps'[q].target == -1 && q !in open ensures 0 <= home'[q] < |scopes'| && q in scopes'[home'[q]].breaks {
      if q < |jumps| { assert q in scopes[home[q]].breaks; }
    }
    assert BreaksOk(scopes', jumps', home', open);
  }

  lemma TargetedAdded(scopes: seq<Scope>, jumps: seq<Jump>, home: seq<int>, open: seq<nat>, j: Jump)
    requires BreaksOk(scopes, jumps, home, open) && j.target >= 0
    ensures BreaksOk(scopes, jumps + [j], home + [-1], open)
  {
    var jumps', home' := jumps + [j], home + [-1];
    forall s, i | 0 <= s < |scopes| && 0 <= i < |scopes[s].breaks| ensures Waiting(scopes[s], s, jumps', home', scopes[s].breaks[i]) {
      assert Waiting(scopes[s], s, jumps, home, scopes[s].breaks[i]);
    }
  }

  lemma OpenAdded(scopes: seq<Scope>, jumps: seq<Jump>, home: seq<int>, open: seq<nat>, j: Jump)
    requires BreaksOk(scopes, jumps, home, open)
    ensures BreaksOk(scopes, jumps + [j], home + [-1], open + [|jumps|])
  {
    var jumps', home', open' := jumps + [j], home + [-1], open + [|jumps|];
    forall s, i | 0 <= s < |scopes| && 0 <= i < |scopes[s].breaks| ensures Waiting(scopes[s], s, jumps', home', scopes[s].breaks[i]) {
      assert Waiting(scopes[s], s, jumps, home, scopes[s].breaks[i]);
    }
    forall q | 0 <= q < |jumps'| && jumps'[q].target == -1 && q !in open' ensures 0 <= home'[q] < |scopes| && q in scopes[home'[q]].breaks {
      assert open'[|open|] == |jumps|;
      assert forall x :: x in open ==> x in open';
    }
  }

  lemma MoreGotos(scopes: seq<Scope>, locals: seq<Local>, labels: seq<Label>, gotos: nat)
    requires ScopesOk(scopes, locals, labels, gotos)
    ensures ScopesOk(scopes, locals, labels, gotos + 1)
  {
    hide RegBase;
  }

  lemma GotoAdded(hist: seq<Local>, ids: seq<nat>, locals: seq<Local>, lives: seq<seq<nat>>, jumps: seq<Jump>, held: seq<nat>, open: seq<nat>, j: Jump)
    requires LocalsOk(hist, ids, locals) && Tracked(hist, ids, |ids|, lives, jumps, held, open) && Lists(held, open, |jumps|)
    requires j == Jump(j.name, j.pc, -1, |locals|, -1, 0, |locals| > 0, false, false)
    ensures Tracked(hist, ids, |ids|, lives + [ids], jumps + [j], held, open + [|jumps|]) && Lists(held, open + [|jumps|], |jumps| + 1)
  {
    assert ids[..j.n] == ids;
    assert Known(hist, ids, j) && Status(hist, ids, |ids|, ids, j, false, true);
    ListsPush(held, open, |jumps|);
    hide Lists, LocalsOk, RegBase, Tracked, Known, Status;
    TrackedPush(hist, ids, |ids|, lives, jumps, held, open, ids, j, false, true);
  }

  lemma SlotAppended(before: seq<Ins>, code: seq<Ins>, jumps: seq<Jump>, labels: seq<Label>, j: Jump)
    requires AllCode(before, jumps) && Apart(jumps, |before|) && Landings(jumps, labels, |before|)
    requires !j.active && j.pc == |before| && j.target == -1 && Landing(jumps, -1, |before|)
    requires |code| > |before| && code == before + [Jmp(0)] + if j.pair then code[|before| + 1..] else []
    requires j.pair ==> |code| == |before| + 2 && code[|before| + 1].Close?
    ensures AllCode(code, jumps + [j]) && Apart(jumps + [j], |code|) && Landings(jumps + [j], labels, |code|)
  {
    var more := [Jmp(0)] + if j.pair then code[|before| + 1..] else [];
    assert code == before + more;
    SlotsPush(before, jumps, labels, j, more);
  }

  /** jumps with new targets for those listed. */
  predicate Retargeted(was: seq<Jump>, now: seq<Jump>, breaks: seq<nat>, target: nat) {
    |was| == |now| && forall q :: 0 <= q < |was| ==> now[q] == if q in breaks then was[q].(target := target) else was[q]
  }

  lemma GotoListed(held: seq<nat>, open: seq<nat>, n: nat, i: nat)
    requires Lists(held, open, n) && i < |open|
    ensures open[i] < n && open[i] !in held && open[i] !in open[i + 1..] && open[i] in open[i..] && open[i..] != []
  {
  }

  lemma LowerStep(hist: seq<Local>, was: seq<nat>, whole: seq<Local>, n0: nat, lives: seq<seq<nat>>, jumps: seq<Jump>, held: seq<nat>, open: seq<nat>, rest: seq<nat>, j': Jump)
    requires Midway(hist, was, n0, lives, jumps, held, [], open, rest) && LocalsOk(hist, was, whole) && rest != []
    requires rest[0] < |jumps| && rest[0] in open && rest[0] !in held && rest[0] !in rest[1..]
    requires var j := jumps[rest[0]]; j' == if j.n > n0 then j.(n := n0, need := j.need || NeedsFrom(whole, n0)) else j
    ensures Midway(hist, was, n0, lives, jumps[rest[0] := j'], held, [], open, rest[1..])
  {
    var q, js := rest[0], jumps[rest[0] := j'];
    hide HeldOk, OpenOk, SettledOk, LiveOk, LevelOk, LocalsOk, NeedsFrom;
    assert Known(hist, lives[q], jumps[q]);
    OpenLeave(hist, was, whole, lives[q], jumps[q], n0, j');
    SameLevel(hist, lives[q], jumps[q], j');
    forall p | 0 <= p < |js|
      ensures Known(hist, lives[p], js[p]) && Between(hist, was, n0, lives[p], js[p], p in held, p in [], p in open, p in rest[1..])
    {
      if p != q {
        assert Known(hist, lives[p], jumps[p]);
        assert p in rest <==> p in rest[1..];
      }
    }
  }

  lemma MidwayEnd(hist: seq<Local>, was: seq<nat>, n0: nat, lives: seq<seq<nat>>, jumps: seq<Jump>, held: seq<nat>, open: seq<nat>)
    requires Midway(hist, was, n0, lives, jumps, held, [], open, [])
    ensures Tracked(hist, was[..n0], n0, lives, jumps, held, open)
  {
    hide HeldOk, OpenOk, SettledOk, LiveOk, LevelOk;
    forall q | 0 <= q < |jumps|
      ensures Known(hist, lives[q], jumps[q]) && Status(hist, was[..n0], n0, lives[q], jumps[q], q in held, q in open)
    {
      assert Known(hist, lives[q], jumps[q]);
    }
  }

  lemma MidwayStart(hist: seq<Local>, was: seq<nat>, frozen: nat, n0: nat, lives: seq<seq<nat>>, jumps: seq<Jump>, held: seq<nat>, open: seq<nat>)
    requires Tracked(hist, was, frozen, lives, jumps, held, open) && n0 <= frozen
    ensures Midway(hist, was, n0, lives, jumps, [], held, open, open)
  {
    hide HeldOk, OpenOk, SettledOk, LiveOk, LevelOk;
    forall q | 0 <= q < |jumps|
      ensures Known(hist, lives[q], jumps[q]) && Between(hist, was, n0, lives[q], jumps[q], q in [], q in held, q in open, q in open)
    {
      assert Known(hist, lives[q], jumps[q]);
      if q !in held && q !in open { SettledLeave(hist, was, frozen, lives[q], jumps[q], n0); }
    }
  }

  lemma PatchedCode(code: seq<Ins>, j: Jump, target: nat)
    requires CodeOk(code, j)
    ensures CodeOk(code[j.pc := Jmp(target - (j.pc + 1))], j.(target := target))
  {
  }

  lemma LandingsPatched(jumps: seq<Jump>, labels: seq<Label>, n: nat, q: nat, j: Jump)
    requires Landings(jumps, labels, n) && Apart(jumps, n) && q < |jumps|
    requires Base(j) == Base(jumps[q]) && j.pair == jumps[q].pair && j.target == n
    ensures Landings(jumps[q := j], labels, n)
  {
    var now := jumps[q := j];
    assert forall p :: 0 <= p < |jumps| ==> Base(now[p]) == Base(jumps[p]) && now[p].pair == jumps[p].pair;
    forall t | Landing(jumps, t, n) ensures Landing(now, t, n) {
    }
    assert Landing(now, n, n);
    forall p | 0 <= p < |now| ensures Landing(now, now[p].target, n) {
      if p != q { assert Landing(jumps, jumps[p].target, n); }
    }
  }

  lemma LandingsFewer(jumps: seq<Jump>, labels: seq<Label>, k: nat, n: nat)
    requires Landings(jumps, labels, n) && k <= |labels|
    ensures Landings(jumps, labels[..k], n)
  {
    hide Landing;
  }

  lemma NothingFrom(locals: seq<Local>, n: nat)
    requires |locals| <= n
    ensures !NeedsFrom(locals, n)
  {
  }

  lemma LastScope(scopes: seq<Scope>, locals: seq<Local>, labels: seq<Label>, gotos: nat)
    requires ScopesOk(scopes, locals, labels, gotos) && |scopes| > 0
    ensures var s := scopes[|scopes| - 1]; s.n + s.header <= |locals| && s.firstLabel <= |labels| && s.firstGoto <= gotos
  {
    hide RegBase;
    var last := |scopes| - 1;
    assert scopes[last].n + scopes[last].header <= |locals|;
  }

  lemma SameCount(was: seq<Jump>, now: seq<Jump>, breaks: seq<nat>, t: nat)
    requires Retargeted(was, now, breaks, t)
    ensures |was| == |now|
  {
  }

  lemma LastBreaks(scopes: seq<Scope>, jumps: seq<Jump>, home: seq<int>, open: seq<nat>)
    requires BreaksOk(scopes, jumps, home, open) && |scopes| > 0
    ensures Breaks(jumps, scopes[|scopes| - 1].breaks)
  {
    var last := |scopes| - 1;
    forall i | 0 <= i < |scopes[last].breaks| ensures Waiting(scopes[last], last, jumps, home, scopes[last].breaks[i]) {
    }
  }

  lemma AlikeSame(a: seq<Jump>)
    ensures Alike(a, a)
  {
  }

  lemma AlikeTwice(a: seq<Jump>, b: seq<Jump>, c: seq<Jump>)
    requires Alike(a, b) && Alike(b, c)
    ensures Alike(a, c)
  {
  }

  lemma AlikeBreaks(was: seq<Jump>, now: seq<Jump>, breaks: seq<nat>)
    requires Alike(was, now) && Breaks(was, breaks)
    ensures |was| == |now| && Breaks(now, breaks)
  {
  }

  /** Activating closes and patching breaks that had no target keeps what is known. */
  lemma KeptAlong(scopes: seq<Scope>, was: seq<Jump>, mid: seq<Jump>, now: seq<Jump>, lives: seq<seq<nat>>, home: seq<int>, open: seq<nat>, t: nat)
    requires |scopes| > 0 && |lives| == |was| && BreaksOk(scopes, was, home, open)
    requires Alike(was, mid) && Retargeted(mid, now, scopes[|scopes| - 1].breaks, t)
    ensures Kept(was, now, lives, lives) && |now| == |was|
    ensures LandAt(now, scopes[|scopes| - 1].breaks, t)
  {
    assert lives[..|was|] == lives;
    var last := |scopes| - 1;
    var breaks := scopes[last].breaks;
    assert forall i :: 0 <= i < |breaks| ==> Waiting(scopes[last], last, was, home, breaks[i]);
    assert forall i :: 0 <= i < |breaks| ==> breaks[i] in breaks;
  }

  lemma SameLength(hist: seq<Local>, ids: seq<nat>, locals: seq<Local>)
    requires LocalsOk(hist, ids, locals)
    ensures |ids| == |locals|
  {
  }

  lemma BreaksAlike(scopes: seq<Scope>, jumps: seq<Jump>, jumps': seq<Jump>, home: seq<int>, open: seq<nat>)
    requires BreaksOk(scopes, jumps, home, open) && Alike(jumps, jumps')
    ensures BreaksOk(scopes, jumps', home, open)
  {
  }

  lemma LocalsLess(hist: seq<Local>, ids: seq<nat>, locals: seq<Local>, n: nat)
    requires LocalsOk(hist, ids, locals) && n <= |locals|
    ensures LocalsOk(hist, ids[..n], locals[..n])
  {
  }

  lemma TrackedRetargeted(hist: seq<Local>, ids: seq<nat>, frozen: nat, lives: seq<seq<nat>>, jumps: seq<Jump>, jumps': seq<Jump>, held: seq<nat>, open: seq<nat>, breaks: seq<nat>, t: nat)
    requires Tracked(hist, ids, frozen, lives, jumps, held, open) && Retargeted(jumps, jumps', breaks, t)
    requires Breaks(jumps, breaks)
    ensures Tracked(hist, ids, frozen, lives, jumps', held, open)
  {
    hide LiveOk, LevelOk;
    forall q | 0 <= q < |jumps'|
      ensures Known(hist, lives[q], jumps'[q]) && Status(hist, ids, frozen, lives[q], jumps'[q], q in held, q in open)
    {
      assert Known(hist, lives[q], jumps[q]) && Status(hist, ids, frozen, lives[q], jumps[q], q in held, q in open);
      SameLevel(hist, lives[q], jumps[q], jumps'[q]);
    }
  }

  lemma ScopesPopped(scopes: seq<Scope>, locals: seq<Local>, labels: seq<Label>, gotos: nat)
    requires ScopesOk(scopes, locals, labels, gotos) && |scopes| > 0
    ensures var s := scopes[|scopes| - 1];
            s.n <= |locals| && s.firstLabel <= |labels| && ScopesOk(scopes[..|scopes| - 1], locals[..s.n], labels[..s.firstLabel], gotos)
  {
    var s, rest := scopes[|scopes| - 1], scopes[..|scopes| - 1];
    assert s.n <= |locals| && s.firstLabel <= |labels|;
    forall t | 0 <= t < |rest| ensures RegBase(locals[..s.n], rest[t].n) == RegBase(locals, rest[t].n) {
      RegBasePrefix(locals, locals[..s.n], rest[t].n);
    }
    hide RegBase;
  }

  lemma BreaksPopped(scopes: seq<Scope>, jumps: seq<Jump>, jumps': seq<Jump>, home: seq<int>, open: seq<nat>, t: nat)
    requires BreaksOk(scopes, jumps, home, open) && |scopes| > 0 && Retargeted(jumps, jumps', scopes[|scopes| - 1].breaks, t)
    ensures BreaksOk(scopes[..|scopes| - 1], jumps', home, open)
  {
    var last := |scopes| - 1;
    var rest := scopes[..last];
    forall s, i | 0 <= s < |rest| && 0 <= i < |rest[s].breaks| ensures Waiting(rest[s], s, jumps', home, rest[s].breaks[i]) {
      var b := rest[s].breaks[i];
      assert Waiting(scopes[s], s, jumps, home, scopes[s].breaks[i]);
    }
    forall q | 0 <= q < |jumps'| && jumps'[q].target == -1 && q !in open
      ensures 0 <= home[q] < |rest| && q in rest[home[q]].breaks
    {
      assert q !in scopes[last].breaks;
      assert jumps[q].target == -1;
    }
    assert BreaksOk(rest, jumps', home, open);
  }

  /** Nothing that concerns where a jump comes from or goes to has changed. */
  predicate Alike(was: seq<Jump>, now: seq<Jump>) {
    && |was| == |now|
    && forall q :: 0 <= q < |was| ==>
         Base(now[q]) == Base(was[q]) && now[q].pair == was[q].pair && now[q].dst == was[q].dst && now[q].target == was[q].target && now[q].name == was[q].name && (was[q].active ==> now[q].active)
  }

  /**
   While a block is being left: rest and openRest are still to be looked at and are
   as they were with the locals before, the others as they will be.
  */
  predicate Midway(hist: seq<Local>, was: seq<nat>, n0: nat, lives: seq<seq<nat>>, jumps: seq<Jump>, kept: seq<nat>, rest: seq<nat>, open: seq<nat>, openRest: seq<nat>) {
    && n0 <= |was| && AllKnown(hist, lives, jumps)
    && forall q :: 0 <= q < |jumps| ==> Known(hist, lives[q], jumps[q]) && Between(hist, was, n0, lives[q], jumps[q], q in kept, q in rest, q in open, q in openRest)
  }

  lemma FirstHeld(hist: seq<Local>, was: seq<nat>, n0: nat, lives: seq<seq<nat>>, jumps: seq<Jump>, kept: seq<nat>, rest: seq<nat>, open: seq<nat>)
    requires Midway(hist, was, n0, lives, jumps, kept, rest, open, open) && rest != [] && rest[0] < |jumps|
    ensures Known(hist, lives[rest[0]], jumps[rest[0]]) && HeldOk(hist, was, lives[rest[0]], jumps[rest[0]])
  {
    hide HeldOk, OpenOk, SettledOk, LiveOk, LevelOk;
  }

  lemma ListsStep(kept: seq<nat>, rest: seq<nat>, open: seq<nat>, n: nat)
    requires Lists(kept + rest, open, n) && rest != []
    ensures Lists(kept + rest[1..], open, n) && Lists(kept + [rest[0]] + rest[1..], open, n)
    ensures rest[0] < n && rest[0] !in kept && rest[0] !in rest[1..] && rest[0] !in open
  {
    var q, rest' := rest[0], rest[1..];
    var s, t := kept + rest, kept + rest';
    assert s == kept + [q] + rest';
    WithoutOne(kept, q, rest', n);
    hide Increasing;
    assert q in s && forall x :: x in t ==> x in s;
  }

  lemma WithoutOne(a: seq<nat>, q: nat, b: seq<nat>, n: nat)
    requires Increasing(a + [q] + b, n)
    ensures Increasing(a + b, n) && q !in a && q !in b && q < n
  {
    var s, t := a + [q] + b, a + b;
    assert s[|a|] == q;
    assert forall i :: 0 <= i < |a| ==> a[i] == s[i];
    assert forall i :: 0 <= i < |b| ==> b[i] == s[|a| + 1 + i];
    forall i, j | 0 <= i < j < |t| ensures t[i] < t[j] {
      assert t[i] == s[if i < |a| then i else i + 1] && t[j] == s[if j < |a| then j else j + 1];
    }
    forall i | 0 <= i < |t| ensures t[i] < n {
      assert t[i] == s[if i < |a| then i else i + 1];
    }
  }

  /** One more jump of the list is dealt with. */
  lemma MidwayStep(hist: seq<Local>, was: seq<nat>, whole: seq<Local>, n0: nat, lives: seq<seq<nat>>, jumps: seq<Jump>, kept: seq<nat>, rest: seq<nat>, open: seq<nat>, j': Jump, stay: bool)
    requires Midway(hist, was, n0, lives, jumps, kept, rest, open, open) && Lists(kept + rest, open, |jumps|) && LocalsOk(hist, was, whole)
    requires rest != [] && rest[0] < |jumps| && j'.pair
    requires var j := jumps[rest[0]];
             && j'.dst == j.dst && j'.level == j.level && stay == (j.n <= n0 || j.dst < n0)
             && (if j.n <= n0 then j' == j else j'.active == (j.active || NeedsFrom(whole, n0)) && (j.dst < n0 ==> j'.n == n0))
    ensures Midway(hist, was, n0, lives, jumps[rest[0] := j'], if stay then kept + [rest[0]] else kept, rest[1..], open, open)
    ensures Lists((if stay then kept + [rest[0]] else kept) + rest[1..], open, |jumps|)
  {
    var q, js, kept' := rest[0], jumps[rest[0] := j'], if stay then kept + [rest[0]] else kept;
    ListsStep(kept, rest, open, |jumps|);
    hide HeldOk, OpenOk, SettledOk, LiveOk, LevelOk, LocalsOk, Lists, NeedsFrom;
    FirstHeld(hist, was, n0, lives, jumps, kept, rest, open);
    HeldLeave(hist, was, whole, lives[q], jumps[q], n0, j');
    SameLevel(hist, lives[q], jumps[q], j');
    forall p | 0 <= p < |js|
      ensures Known(hist, lives[p], js[p]) && Between(hist, was, n0, lives[p], js[p], p in kept', p in rest[1..], p in open, p in open)
    {
      if p != q {
        assert Known(hist, lives[p], jumps[p]) && Between(hist, was, n0, lives[p], jumps[p], p in kept, p in rest, p in open, p in open);
        assert p in rest <==> p in rest[1..];
      }
    }
  }

  lemma SameLevel(hist: seq<Local>, live: seq<nat>, j: Jump, j': Jump)
    requires Known(hist, live, j) && j'.dst == j.dst && j'.level == j.level
    ensures Known(hist, live, j')
  {
  }

  predicate SameSlot(a: Jump, b: Jump) {
    a.pc == b.pc && a.target == b.target && a.pair == b.pair && a.active == b.active && a.level == b.level
  }

  lemma SlotsSame(code: seq<Ins>, jumps: seq<Jump>, jumps': seq<Jump>, labels: seq<Label>)
    requires AllCode(code, jumps) && Apart(jumps, |code|) && Landings(jumps, labels, |code|) && |jumps'| == |jumps|
    requires forall q :: 0 <= q < |jumps| ==> SameSlot(jumps[q], jumps'[q])
    ensures AllCode(code, jumps') && Apart(jumps', |code|) && Landings(jumps', labels, |code|)
  {
    LandingsSame(jumps, jumps', labels, |code|);
    forall q | 0 <= q < |jumps| ensures CodeOk(code, jumps'[q]) {
      assert CodeOk(code, jumps[q]);
    }
  }

  predicate Between(hist: seq<Local>, was: seq<nat>, n0: nat, live: seq<nat>, j: Jump, kept: bool, rest: bool, open: bool, openRest: bool)
    requires n0 <= |was| && LiveOk(hist, live)
  {
    if rest then HeldOk(hist, was, live, j)
    else if kept then HeldOk(hist, was[..n0], live, j)
    else if openRest then OpenOk(hist, was, live, j)
    else if open then OpenOk(hist, was[..n0], live, j)
    else SettledOk(hist, was[..n0], n0, live, j)
  }

  function Activated(j: Jump): Jump {
    if j.active then j else j.(pc := j.pc + 1, active := true)
  }

  lemma CodeBounds(code: seq<Ins>, j: Jump)
    requires CodeOk(code, j)
    ensures 0 <= Base(j) && j.pc < |code| && (j.pair && !j.active ==> j.pc + 1 < |code|) && (j.active ==> j.pair)
  {
  }

  lemma ActivatedCode(code: seq<Ins>, code': seq<Ins>, j: Jump)
    requires CodeOk(code, j) && j.pair && !j.active && |code'| == |code|
    requires var swapped := code[j.pc + 1 := code[j.pc]][j.pc := Close(j.level)];
             code' == if j.target >= 0 then swapped[j.pc + 1 := Jmp(j.target - (j.pc + 2))] else swapped
    ensures CodeOk(code', Activated(j)) && Base(Activated(j)) == Base(j)
    ensures forall i :: 0 <= i < |code| && !(Base(j) <= i < Base(j) + Width(j)) ==> code'[i] == code[i]
  {
  }

  lemma NewSlot(code: seq<Ins>, j: Jump, more: seq<Ins>)
    requires |code| == j.pc + 1 && code[j.pc].Jmp? && (j.target >= 0 ==> code[j.pc] == Jmp(j.target - (j.pc + 1)))
    requires if j.active then j.pair && j.pc > 0 && code[j.pc - 1] == Close(j.level) && more == []
             else if j.pair then |more| == 1 && more[0].Close? else more == []
    ensures CodeOk(code + more, j) && Base(j) + Width(j) == |code + more|
  {
  }

  /** A place in no slot. */
  predicate Free(jumps: seq<Jump>, i: int) {
    forall p :: 0 <= p < |jumps| ==> !(Base(jumps[p]) <= i < Base(jumps[p]) + Width(jumps[p]))
  }

  predicate Off(jumps: seq<Jump>, keep: set<nat>, n: nat) {
    forall i :: i in keep ==> i < n && Free(jumps, i)
  }

  predicate SameAt(was: seq<Ins>, now: seq<Ins>, keep: set<nat>) {
    |was| == |now| && forall i :: i in keep && i < |was| ==> now[i] == was[i]
  }

  function Spots(jumps: seq<Jump>, n: nat): (keep: set<nat>)
    ensures Off(jumps, keep, n)
  {
    set i: nat | i < n && Free(jumps, i)
  }

  /** The code has changed in the slots of the jumps at most. */
  predicate Untouched(was: seq<Ins>, now: seq<Ins>, jumps: seq<Jump>) {
    |was| <= |now| && forall i :: 0 <= i < |was| && Free(jumps, i) ==> now[i] == was[i]
  }

  lemma OffSame(jumps: seq<Jump>, jumps': seq<Jump>, keep: set<nat>, n: nat)
    requires Off(jumps, keep, n) && |jumps'| == |jumps| && forall q :: 0 <= q < |jumps| ==> SamePlace(jumps[q], jumps'[q])
    ensures Off(jumps', keep, n)
  {
    forall i | i in keep ensures Free(jumps', i) {
      assert Free(jumps, i);
    }
  }

  /** Only the slot of one jump has changed. */
  lemma KeptAt(code: seq<Ins>, code': seq<Ins>, jumps: seq<Jump>, q: nat, j: Jump, keep: set<nat>)
    requires Off(jumps, keep, |code|) && |code| == |code'| && q < |jumps| && Base(j) == Base(jumps[q]) && j.pair == jumps[q].pair
    requires forall i :: 0 <= i < |code| && !(Base(j) <= i < Base(j) + Width(j)) ==> code'[i] == code[i]
    ensures Off(jumps[q := j], keep, |code|) && SameAt(code, code', keep)
  {
    forall i | i in keep ensures Free(jumps[q := j], i) && code'[i] == code[i] {
      assert Free(jumps, i);
    }
  }

  lemma SpotsUntouched(was: seq<Ins>, mid: seq<Ins>, now: seq<Ins>, jumps: seq<Jump>)
    requires |was| <= |mid| && mid[..|was|] == was && SameAt(mid, now, Spots(jumps, |mid|))
    ensures Untouched(was, now, jumps)
    ensures forall i :: 0 <= i < |mid| && Free(jumps, i) ==> now[i] == mid[i]
  {
    forall i: nat | i < |mid| && Free(jumps, i) ensures now[i] == mid[i] {
      assert i in Spots(jumps, |mid|);
    }
    assert forall i :: 0 <= i < |was| ==> mid[i] == mid[..|was|][i];
  }

  lemma SameAtSelf(code: seq<Ins>, keep: set<nat>)
    ensures SameAt(code, code, keep)
  {
  }

  lemma SameAtOn(a: seq<Ins>, b: seq<Ins>, c: seq<Ins>, keep: set<nat>)
    requires SameAt(a, b, keep) && SameAt(b, c, keep)
    ensures SameAt(a, c, keep)
  {
  }

  lemma UntouchedSelf(code: seq<Ins>, jumps: seq<Jump>)
    ensures Untouched(code, code, jumps)
  {
  }

  lemma FreeAfter(jumps: seq<Jump>, n: int)
    requires Apart(jumps, n)
    ensures forall i :: i >= n ==> Free(jumps, i)
  {
  }

  /** The breaks listed have got their target; no other jump has changed its course. */
  predicate Landed(was: seq<Jump>, now: seq<Jump>, breaks: seq<nat>, t: nat) {
    && |was| == |now|
    && forall q :: 0 <= q < |was| ==> now[q].dst == was[q].dst && now[q].target == if q in breaks then t else was[q].target
  }

  lemma LandedAlong(was: seq<Jump>, mid: seq<Jump>, now: seq<Jump>, breaks: seq<nat>, t: nat)
    requires Alike(was, mid) && Retargeted(mid, now, breaks, t)
    ensures Landed(was, now, breaks, t)
  {
  }

  predicate SamePlace(a: Jump, b: Jump) {
    Base(a) == Base(b) && a.pair == b.pair && a.target == b.target
  }

  lemma LandingsSame(jumps: seq<Jump>, jumps': seq<Jump>, labels: seq<Label>, n: int)
    requires |jumps| == |jumps'| && Landings(jumps, labels, n)
    requires forall q :: 0 <= q < |jumps| ==> SamePlace(jumps[q], jumps'[q])
    ensures Landings(jumps', labels, n)
  {
    forall t | Landing(jumps, t, n) ensures Landing(jumps', t, n) {
    }
    forall q | 0 <= q < |jumps| ensures Landing(jumps', jumps'[q].target, n) {
      assert SamePlace(jumps[q], jumps'[q]);
    }
  }

  /** A jump recorded with the locals of now. */
  lemma {:induction false} Recorded(hist: seq<Local>, ids: seq<nat>, locals: seq<Local>, lives: seq<seq<nat>>, jumps: seq<Jump>, held: seq<nat>, open: seq<nat>, j: Jump)
    requires LocalsOk(hist, ids, locals) && Tracked(hist, ids, |ids|, lives, jumps, held, open) && Lists(held, open, |jumps|)
    requires 0 <= j.dst <= |locals| == j.n && j.level == RegBase(locals, j.dst) && j.pair == (j.active || |locals| > j.dst)
    ensures var hold := !j.active && |locals| > j.dst;
            var held' := if hold then held + [|jumps|] else held;
            Tracked(hist, ids, |ids|, lives + [ids], jumps + [j], held', open) && Lists(held', open, |jumps| + 1)
  {
    var hold := !j.active && |locals| > j.dst;
    NewStatus(hist, ids, locals, j);
    ListsPush(held, open, |jumps|);
    hide Lists, LocalsOk, RegBase, Tracked, Known, Status;
    TrackedPush(hist, ids, |ids|, lives, jumps, held, open, ids, j, hold, false);
  }

  lemma {:induction false} NewStatus(hist: seq<Local>, ids: seq<nat>, locals: seq<Local>, j: Jump)
    requires LocalsOk(hist, ids, locals)
    requires 0 <= j.dst <= |locals| == j.n && j.level == RegBase(locals, j.dst) && j.pair == (j.active || |locals| > j.dst)
    ensures Known(hist, ids, j) && Status(hist, ids, |ids|, ids, j, !j.active && |locals| > j.dst, false)
  {
    assert ids[..j.n] == ids;
    LevelOfBase(hist, ids, locals, ids, j.n, j);
  }

  lemma TrackedPush(hist: seq<Local>, ids: seq<nat>, frozen: nat, lives: seq<seq<nat>>, jumps: seq<Jump>, held: seq<nat>, open: seq<nat>, live: seq<nat>, j: Jump, toHeld: bool, toOpen: bool)
    requires Tracked(hist, ids, frozen, lives, jumps, held, open) && |jumps| !in held && |jumps| !in open
    requires frozen <= |ids| && Known(hist, live, j) && Status(hist, ids, frozen, live, j, toHeld, toOpen)
    ensures Tracked(hist, ids, frozen, lives + [live], jumps + [j], if toHeld then held + [|jumps|] else held, if toOpen then open + [|jumps|] else open)
  {
    var held', open' := if toHeld then held + [|jumps|] else held, if toOpen then open + [|jumps|] else open;
    var lives', jumps' := lives + [live], jumps + [j];
    hide HeldOk, OpenOk, SettledOk, LiveOk, LevelOk;
    forall q | 0 <= q < |jumps'|
      ensures Known(hist, lives'[q], jumps'[q]) && Status(hist, ids, frozen, lives'[q], jumps'[q], q in held', q in open')
    {
      if q < |jumps| { assert Known(hist, lives[q], jumps[q]); }
    }
  }

  lemma ListsPush(held: seq<nat>, open: seq<nat>, n: nat)
    requires Lists(held, open, n)
    ensures Lists(held + [n], open, n + 1) && Lists(held, open + [n], n + 1) && n !in held && n !in open
  {
  }

  /** A new jump at the end of the code, and what follows it. */
  lemma SlotsPush(code: seq<Ins>, jumps: seq<Jump>, labels: seq<Label>, j: Jump, more: seq<Ins>)
    requires AllCode(code, jumps) && Base(j) >= 0 && Apart(jumps, Base(j)) && Landings(jumps, labels, Base(j)) && Landing(jumps, j.target, Base(j))
    requires CodeOk(code + more, j) && Base(j) + Width(j) == |code + more|
    ensures AllCode(code + more, jumps + [j]) && Apart(jumps + [j], |code + more|) && Landings(jumps + [j], labels, |code + more|)
  {
    CodeAppend(code, more, jumps);
    var now := jumps + [j];
    forall t | Landing(jumps, t, Base(j)) ensures Landing(now, t, |code + more|) {
    }
    forall q | 0 <= q < |now| ensures CodeOk(code + more, now[q]) && Landing(now, now[q].target, |code + more|) {
    }
    forall l | 0 <= l < |labels| ensures Landing(now, labels[l].pc, |code + more|) {
    }
  }

  lemma TrackedGrew(h: seq<Local>, h': seq<Local>, ids: seq<nat>, ids': seq<nat>, lives: seq<seq<nat>>, jumps: seq<Jump>, held: seq<nat>, open: seq<nat>, locals: seq<Local>, locals': seq<Local>)
    requires LocalsOk(h, ids, locals) && LocalsOk(h', ids', locals') && Grew(h, h', ids) && More(ids, ids', |h|)
    requires Tracked(h, ids, |ids|, lives, jumps, held, open)
    ensures Tracked(h', ids', |ids'|, lives, jumps, held, open)
  {
    hide HeldOk, OpenOk, SettledOk, LiveOk, LevelOk, Grew, More, LocalsOk;
    forall q | 0 <= q < |jumps|
      ensures Known(h', lives[q], jumps[q]) && Status(h', ids', |ids'|, lives[q], jumps[q], q in held, q in open)
    {
      LiveGrew(h, h', ids, lives[q], jumps[q]);
      HeldGrew(h, h', ids, ids', lives[q], jumps[q]);
    }
  }

  lemma {:induction false} LocalsDeclared(hist: seq<Local>, ids: seq<nat>, locals: seq<Local>, l: Local)
    requires LocalsOk(hist, ids, locals) && LocalOk(l) && (!l.inlined ==> l.reg >= RegBase(locals, |locals|))
    ensures LocalsOk(hist + [l], ids + [|hist|], locals + [l])
    ensures Grew(hist, hist + [l], ids) && More(ids, ids + [|hist|], |hist|)
  {
    var h, xs := hist + [l], ids + [|hist|];
    assert xs[..|ids|] == ids;
    LiveDeclared(hist, ids, locals, l);
    hide LiveOk;
    assert forall k :: 0 <= k < |ids| ==> xs[k] == ids[k] && h[ids[k]] == hist[ids[k]];
  }

  lemma LocalsCaptured(hist: seq<Local>, ids: seq<nat>, locals: seq<Local>, k: nat)
    requires LocalsOk(hist, ids, locals) && k < |locals| && !locals[k].inlined
    ensures var x, l := ids[k], locals[k].(captured := true);
            x < |hist| && LocalsOk(hist[x := l], ids, locals[k := l]) && Grew(hist, hist[x := l], ids) && More(ids, ids, |hist|)
  {
    var x, l := ids[k], locals[k].(captured := true);
    assert ids[..|ids|] == ids;
    assert forall y :: 0 <= y < |hist| ==> hist[x := l][y] == if y == x then l else hist[y];
    assert hist[x] == locals[k];
  }

  lemma {:induction false} LiveDeclared(hist: seq<Local>, ids: seq<nat>, locals: seq<Local>, l: Local)
    requires LocalsOk(hist, ids, locals) && LocalOk(l) && (!l.inlined ==> l.reg >= RegBase(locals, |locals|))
    ensures LiveOk(hist + [l], ids + [|hist|])
  {
    RegBaseBounds(locals, |locals|);
    hide RegBase, LocalOk;
    var h, xs := hist + [l], ids + [|hist|];
    assert forall k :: 0 <= k < |ids| ==> xs[k] == ids[k] && h[ids[k]] == locals[k];
  }

  lemma {:induction false} ScopesPushed(scopes: seq<Scope>, locals: seq<Local>, labels: seq<Label>, gotos: nat, s: Scope)
    requires ScopesOk(scopes, locals, labels, gotos)
    requires s.n == |locals| && s.header == 0 && s.baseReg == RegBase(locals, s.n) && s.firstLabel == |labels| && s.firstGoto == gotos
    ensures ScopesOk(scopes + [s], locals, labels, gotos)
  {
    hide RegBase;
  }

  lemma NothingYet()
    ensures LocalsOk([], [], []) && AllCode([], []) && Apart([], 0) && Landings([], [], 0)
    ensures Tracked([], [], 0, [], [], [], []) && Lists([], [], 0) && ScopesOk([], [], [], 0) && BreaksOk([], [], [], [])
  {
  }

  lemma BreaksPushed(scopes: seq<Scope>, s: Scope, jumps: seq<Jump>, home: seq<int>, open: seq<nat>)
    requires BreaksOk(scopes, jumps, home, open) && s.breaks == []
    ensures BreaksOk(scopes + [s], jumps, home, open)
  {
  }

  lemma HeaderChosen(scopes: seq<Scope>, locals: seq<Local>, labels: seq<Label>, gotos: nat, h: nat)
    requires ScopesOk(scopes, locals, labels, gotos) && |scopes| > 0 && scopes[|scopes| - 1].n + h <= |locals|
    ensures ScopesOk(scopes[|scopes| - 1 := scopes[|scopes| - 1].(header := h)], locals, labels, gotos)
  {
    hide RegBase;
  }

  lemma SameBreaks(scopes: seq<Scope>, scopes': seq<Scope>, jumps: seq<Jump>, home: seq<int>, open: seq<nat>)
    requires BreaksOk(scopes, jumps, home, open) && |scopes| == |scopes'|
    requires forall s :: 0 <= s < |scopes| ==> scopes'[s].n == scopes[s].n && scopes'[s].breaks == scopes[s].breaks
    ensures BreaksOk(scopes', jumps, home, open)
  {
  }

  lemma ScopesGrew(scopes: seq<Scope>, locals: seq<Local>, locals': seq<Local>, labels: seq<Label>, gotos: nat)
    requires ScopesOk(scopes, locals, labels, gotos) && |locals| <= |locals'|
    requires forall k :: 0 <= k < |locals| ==> locals'[k].reg == locals[k].reg
    ensures ScopesOk(scopes, locals', labels, gotos)
  {
    forall s | 0 <= s < |scopes| ensures RegBase(locals', scopes[s].n) == RegBase(locals, scopes[s].n) {
      RegBasePrefix(locals, locals', scopes[s].n);
    }
  }
}
