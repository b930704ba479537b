/**
 What each operation comes to, from every state a run reaches in which Lua runs:
 after the operation itself every step is the only one possible, until Lua runs
 again, and the whole state is then given.
*/
module CoroutineEffects {
  import opened CoroutineProtocol
  import opened CoroutineSafety
  import opened CoroutineTheorems

  /** Nothing but a is possible. */
  ghost predicate Only(s: State, a: Action) {
    forall b :: !Apply(s, b).Disabled? ==> b == a
  }

  /** The actions are taken one after another, and lead to s'; at each of them nothing else is possible. */
  ghost predicate Compelled(s: State, acts: seq<Action>, s': State)
    decreases |acts|
  {
    if acts == [] then s == s'
    else Only(s, acts[0]) && Apply(s, acts[0]).Next? && Compelled(Apply(s, acts[0]).s, acts[1..], s')
  }

  /** An operation and what follows from it. */
  ghost predicate LeadsTo(s: State, a: Action, acts: seq<Action>, s': State) {
    Apply(s, a).Next? && Compelled(Apply(s, a).s, acts, s')
  }

  /** A step that no goroutine running Lua makes is the only one possible. */
  lemma Forces(s: State, ch: seq<nat>, a: Action)
    requires Inv(s, ch) && !Apply(s, a).Disabled? && a.t < |s| && s[a.t].pc != Lua
    ensures Only(s, a)
  {
    hide Apply, Inv, Mover, Forced;
    OnlyMoverActs(s, ch, a);
    HandedOn(s, ch);
  }

  lemma OneStep(s: State, op: Action, s1: State, a: Action, s2: State)
    requires Apply(s, op) == Next(s1) && Only(s1, a) && Apply(s1, a) == Next(s2)
    ensures LeadsTo(s, op, [a], s2)
  {
    hide Apply, Only;
    assert [a][1..] == [] && Compelled(s2, [], s2);
  }

  lemma TwoSteps(s: State, op: Action, s1: State, a: Action, s2: State, b: Action, s3: State)
    requires Apply(s, op) == Next(s1) && Only(s1, a) && Apply(s1, a) == Next(s2) && Only(s2, b) && Apply(s2, b) == Next(s3)
    ensures LeadsTo(s, op, [a, b], s3)
  {
    hide Apply, Only;
    OneStep(s1, a, s2, b, s3);
    assert [a, b][1..] == [b];
  }

  lemma ThreeSteps(s: State, op: Action, s1: State, a: Action, s2: State, b: Action, s3: State, c: Action, s4: State)
    requires Apply(s, op) == Next(s1) && Only(s1, a) && Apply(s1, a) == Next(s2) && Only(s2, b) && Apply(s2, b) == Next(s3) && Only(s3, c) && Apply(s3, c) == Next(s4)
    ensures LeadsTo(s, op, [a, b, c], s4)
  {
    hide Apply, Only;
    TwoSteps(s1, a, s2, b, s3, c, s4);
    assert [a, b, c][1..] == [b, c];
  }

  lemma KeptSame(s: State, ch: seq<nat>, a: Action, s1: State)
    requires Inv(s, ch) && Apply(s, a) == Next(s1)
    requires !a.ResumeSend? && !a.ResumeYielded? && !a.ResumeDone? && !a.CloseDone?
    requires a.CloseSignal? ==> a.t < |s| && s[a.t].pc.Closing? && s[a.t].pc.c < |s| && !s[s[a.t].pc.c].started
    ensures Inv(s1, ch)
  {
    hide Inv, Apply;
    StepKeeps(s, ch, a);
  }

  lemma KeptLonger(s: State, ch: seq<nat>, t: nat, c: nat, a: Action, s1: State)
    requires Inv(s, ch) && Apply(s, a) == Next(s1) && t < |s| && c < |s|
    requires if a == ResumeSend(t) then s[t].pc == Resuming(c) && !s[c].closeFlag else a == CloseSignal(t) && s[t].pc == Closing(c) && s[c].started
    ensures Inv(s1, ch + [c])
  {
    hide Inv, Apply;
    StepKeeps(s, ch, a);
  }

  lemma KeptShorter(s: State, ch: seq<nat>, r: nat, s1: State)
    requires |ch| > 1 && Inv(s, ch) && Apply(s, CloseDone(r)) == Next(s1)
    ensures Inv(s1, ch[..|ch| - 1])
  {
    hide Inv, Apply;
    StepKeeps(s, ch, CloseDone(r));
  }

  /** A state a run reaches with Lua in t: t is the end of the chain. */
  lemma {:induction false} InLua(acts: seq<Action>, t: nat)
    requires Run(acts).Next? && At(Run(acts).s, t, Lua)
    ensures Inv(Run(acts).s, ChainOf(acts)) && Last(ChainOf(acts)) == t
  {
    RunKeeps(acts);
    hide Run, ChainOf;
    var s, ch := Run(acts).s, ChainOf(acts);
    LuaIsReady(s, t);
    OnlyMover(s, ch, t);
    MoverIsTop(s, ch);
  }

  /** The goroutine before the end waits for it. */
  lemma Waiter(s: State, ch: seq<nat>)
    requires Inv(s, ch) && Last(ch) > 0
    ensures |ch| > 1
    ensures var (r, t) := (ch[|ch| - 2], Last(ch));
            r < |s| && r != t && s[r].pc == (if s[t].closeFlag then AwaitClosed(t) else AwaitResumed(t)) && (r > 0 ==> s[r].known && (s[t].closeFlag ==> s[r].status == Running)) && (r == 0 ==> !s[r].known)
  {
    assert |ch| > 1;
    assert LinkOk(s[ch[|ch| - 2]], ch[|ch| - 2], ch[|ch| - 1], s[ch[|ch| - 1]].closeFlag);
  }

  /** The goroutine that runs Lua. */
  lemma TopInLua(s: State, ch: seq<nat>)
    requires Inv(s, ch) && s[Last(ch)].pc == Lua
    ensures var co := s[Last(ch)];
            && (Last(ch) == 0 ==> !co.known)
            && (Last(ch) > 0 ==> co.known && co.started && co.status == Running && co.closeFlag == co.resumeClosed && !co.done && co.resumeQ == 0 && co.yieldQ == 0)
  {
  }

  /** A suspended coroutine waits to be resumed, or has no goroutine yet, and its channels are empty. */
  lemma SuspendedRests(s: State, ch: seq<nat>, c: nat)
    requires Inv(s, ch) && s[Last(ch)].pc == Lua && 0 < c < |s| && s[c].status == Suspended
    ensures c != Last(ch) && s[c].known && !s[c].closeFlag && !s[c].resumeClosed && !s[c].done && s[c].resumeQ == 0 && s[c].yieldQ == 0
    ensures s[c].pc == if s[c].started then Receive else NotStarted
  {
    StatusInLua(s, ch, c);
    assert OffOk(s[c], c, Lua);
    assert Last(ch) in ch;
  }

  lemma DeadRests(s: State, ch: seq<nat>, c: nat)
    requires Inv(s, ch) && s[Last(ch)].pc == Lua && 0 < c < |s| && s[c].status == Dead
    ensures c != Last(ch) && (s[c].started ==> s[c].done)
  {
    StatusInLua(s, ch, c);
    assert OffOk(s[c], c, Lua);
    assert Last(ch) in ch;
  }

  // -- yield ----------------------------------------------------------------------------------

  /** t yields: it is suspended, waits, and Lua runs in the goroutine r before it. */
  function Yielded(s: State, t: nat, r: nat): State
    requires t < |s| && r < |s|
  {
    var s1 := s[t := s[t].(status := Suspended, pc := Receive)];
    s1[r := if r == 0 then s1[r].(pc := Lua) else s1[r].(status := Running, pc := Lua)]
  }

  lemma YieldLeads(s: State, ch: seq<nat>, t: nat)
    requires Inv(s, ch) && t == Last(ch) && t > 0 && s[t].pc == Lua && !s[t].closeFlag
    ensures |ch| > 1 && ch[|ch| - 2] < |s| && LeadsTo(s, YieldBegin(t), [YieldSend(t), ResumeYielded(ch[|ch| - 2])], Yielded(s, t, ch[|ch| - 2]))
  {
    Waiter(s, ch);
    TopInLua(s, ch);
    hide Inv, Mover;
    var r := ch[|ch| - 2];
    var s1 := s[t := s[t].(status := Suspended, pc := Yielding)];
    var s2 := s[t := s[t].(status := Suspended, yieldQ := 1, pc := Receive)];
    var s3 := Yielded(s, t, r);
    assert Apply(s, YieldBegin(t)) == Next(s1);
    assert Apply(s1, YieldSend(t)) == Next(s2);
    assert s3 == s2[t := s2[t].(yieldQ := 0)][r := if r == 0 then s2[r].(pc := Lua) else s2[r].(status := Running, pc := Lua)];
    assert Apply(s2, ResumeYielded(r)) == Next(s3);
    hide Apply, Only, LeadsTo;
    KeptSame(s, ch, YieldBegin(t), s1);
    KeptSame(s1, ch, YieldSend(t), s2);
    Forces(s2, ch, ResumeYielded(r));
    Forces(s1, ch, YieldSend(t));
    TwoSteps(s, YieldBegin(t), s1, YieldSend(t), s2, ResumeYielded(r), s3);
  }

  // -- resume ---------------------------------------------------------------------------------

  /** Lua runs in c, and t waits for it. */
  function Resumed(s: State, t: nat, c: nat): State
    requires t < |s| && c < |s|
  {
    var s1 := s[c := s[c].(status := Running, started := true, pc := Lua)];
    s1[t := if t == 0 then s1[t].(pc := AwaitResumed(c)) else s1[t].(status := Normal, pc := AwaitResumed(c))]
  }

  /** What a resume and a close find: Lua in t, and c not started or waiting. */
  predicate Waits(s: State, t: nat, c: nat) {
    && t < |s| && 0 < c < |s| && t != c && s[t].pc == Lua && (t == 0 <==> !s[t].known) && s[c].known && s[c].status == Suspended
    && !s[c].closeFlag && !s[c].resumeClosed && s[c].resumeQ == 0 && s[c].pc == if s[c].started then Receive else NotStarted
  }

  lemma FirstSteps(s: State, t: nat, c: nat) returns (s1: State, s2: State, s3: State)
    requires Waits(s, t, c) && !s[c].started
    ensures Apply(s, ResumeBegin(t, c)) == Next(s1) && t < |s1| && c < |s1| && s1[t].pc == Resuming(c) && !s1[c].closeFlag
    ensures Apply(s1, ResumeSend(t)) == Next(s2) && c < |s2| && s2[c].pc == Start
    ensures Apply(s2, Launch(c)) == Next(s3) && c < |s3| && s3[c].pc == FirstReceive
    ensures Apply(s3, TakeArgs(c)) == Next(Resumed(s, t, c))
  {
    var s4 := Resumed(s, t, c);
    s1 := s[t := (if t == 0 then s[t] else s[t].(status := Normal)).(pc := Resuming(c))];
    s2 := s4[c := s4[c].(resumeQ := 1, pc := Start)];
    s3 := s4[c := s4[c].(resumeQ := 1, pc := FirstReceive)];
    assert Apply(s1, ResumeSend(t)) == Next(s2);
    assert Apply(s2, Launch(c)) == Next(s3);
    assert Apply(s3, TakeArgs(c)) == Next(s4);
  }

  lemma AgainSteps(s: State, t: nat, c: nat) returns (s1: State, s2: State, s3: State)
    requires Waits(s, t, c) && s[c].started
    ensures Apply(s, ResumeBegin(t, c)) == Next(s1) && t < |s1| && c < |s1| && s1[t].pc == Resuming(c) && !s1[c].closeFlag
    ensures Apply(s1, ResumeSend(t)) == Next(s2) && c < |s2| && s2[c].pc == Receive
    ensures Apply(s2, TakeArgs(c)) == Next(s3) && c < |s3| && s3[c].pc == Woken
    ensures Apply(s3, Wake(c)) == Next(Resumed(s, t, c))
  {
    var s4 := Resumed(s, t, c);
    s1 := s[t := (if t == 0 then s[t] else s[t].(status := Normal)).(pc := Resuming(c))];
    s2 := s4[c := s4[c].(resumeQ := 1, pc := Receive)];
    s3 := s4[c := s4[c].(pc := Woken)];
    assert Apply(s1, ResumeSend(t)) == Next(s2);
    assert Apply(s2, TakeArgs(c)) == Next(s3);
    assert Apply(s3, Wake(c)) == Next(s4);
  }

  /** The first resume gives the coroutine its goroutine. */
  lemma ResumeFirst(s: State, ch: seq<nat>, t: nat, c: nat)
    requires Inv(s, ch) && t == Last(ch) && s[t].pc == Lua && 0 < c < |s| && s[c].status == Suspended && !s[c].started
    ensures LeadsTo(s, ResumeBegin(t, c), [ResumeSend(t), Launch(c), TakeArgs(c)], Resumed(s, t, c))
  {
    TopInLua(s, ch);
    SuspendedRests(s, ch, c);
    hide Inv, Mover, Apply, Resumed, Only, LeadsTo;
    var s1, s2, s3 := FirstSteps(s, t, c);
    var s4 := Resumed(s, t, c);
    KeptSame(s, ch, ResumeBegin(t, c), s1);
    KeptLonger(s1, ch, t, c, ResumeSend(t), s2);
    KeptSame(s2, ch + [c], Launch(c), s3);
    Forces(s3, ch + [c], TakeArgs(c));
    Forces(s2, ch + [c], Launch(c));
    Forces(s1, ch, ResumeSend(t));
    ThreeSteps(s, ResumeBegin(t, c), s1, ResumeSend(t), s2, Launch(c), s3, TakeArgs(c), s4);
  }

  /** A later one wakes it where it yielded. */
  lemma ResumeAgain(s: State, ch: seq<nat>, t: nat, c: nat)
    requires Inv(s, ch) && t == Last(ch) && s[t].pc == Lua && 0 < c < |s| && s[c].status == Suspended && s[c].started
    ensures LeadsTo(s, ResumeBegin(t, c), [ResumeSend(t), TakeArgs(c), Wake(c)], Resumed(s, t, c))
  {
    TopInLua(s, ch);
    SuspendedRests(s, ch, c);
    hide Inv, Mover, Apply, Resumed, Only, LeadsTo;
    var s1, s2, s3 := AgainSteps(s, t, c);
    var s4 := Resumed(s, t, c);
    KeptSame(s, ch, ResumeBegin(t, c), s1);
    KeptLonger(s1, ch, t, c, ResumeSend(t), s2);
    KeptSame(s2, ch + [c], TakeArgs(c), s3);
    Forces(s3, ch + [c], Wake(c));
    Forces(s2, ch + [c], TakeArgs(c));
    Forces(s1, ch, ResumeSend(t));
    ThreeSteps(s, ResumeBegin(t, c), s1, ResumeSend(t), s2, TakeArgs(c), s3, Wake(c), s4);
  }

  // -- the end of a coroutine -----------------------------------------------------------------

  /** t is dead and its goroutine over, and Lua runs in the goroutine r before it; one that closed t also forgets it. */
  function Finished(s: State, t: nat, r: nat): State
    requires t < |s| && r < |s|
  {
    var s1 := s[t := s[t].(status := Dead, done := true, pc := Over, known := s[t].known && !s[t].closeFlag)];
    s1[r := if r == 0 then s1[r].(pc := Lua) else s1[r].(status := Running, pc := Lua)]
  }

  lemma FinishLeads(s: State, ch: seq<nat>, t: nat)
    requires Inv(s, ch) && t == Last(ch) && t > 0 && s[t].pc == Lua && !s[t].closeFlag
    ensures |ch| > 1 && ch[|ch| - 2] < |s| && LeadsTo(s, Finish(t), [EndGoroutine(t), ResumeDone(ch[|ch| - 2])], Finished(s, t, ch[|ch| - 2]))
  {
    Waiter(s, ch);
    TopInLua(s, ch);
    hide Inv, Mover;
    var r := ch[|ch| - 2];
    var s1 := s[t := s[t].(status := Dead, pc := Ending)];
    var s2 := s[t := s[t].(status := Dead, done := true, pc := Over)];
    var s3 := Finished(s, t, r);
    assert Apply(s, Finish(t)) == Next(s1);
    assert Apply(s1, EndGoroutine(t)) == Next(s2);
    assert Apply(s2, ResumeDone(r)) == Next(s3);
    hide Apply, Only, LeadsTo;
    KeptSame(s, ch, Finish(t), s1);
    KeptSame(s1, ch, EndGoroutine(t), s2);
    Forces(s2, ch, ResumeDone(r));
    Forces(s1, ch, EndGoroutine(t));
    TwoSteps(s, Finish(t), s1, EndGoroutine(t), s2, ResumeDone(r), s3);
  }

  /** The steps by which a closed coroutine ends and its closer hears of it. */
  lemma EndSteps(s: State, t: nat, r: nat, a: Action) returns (s1: State, s2: State, s3: State)
    requires 0 < t < |s| && r < |s| && r != t && s[t].pc == Lua && s[t].closeFlag && s[t].known && s[t].status == Running && !s[t].done
    requires s[r].pc == AwaitClosed(t) && (r > 0 ==> s[r].status == Running)
    requires a == Finish(t) || a == Exit(t)
    ensures Apply(s, a) == Next(s1) && t < |s1| && s1[t].pc == Ending
    ensures Apply(s1, EndGoroutine(t)) == Next(s2) && r < |s2| && s2[r].pc == AwaitClosed(t)
    ensures Apply(s2, CloseDone(r)) == Next(s3) && r < |s3| && s3[r].pc == Closed(t)
    ensures Apply(s3, CloseFinish(r)) == Next(Finished(s, t, r))
  {
    var status := if a == Finish(t) then Dead else Running;
    s1 := s[t := s[t].(status := status, pc := Ending)];
    s2 := s[t := s[t].(status := status, done := true, pc := Over)];
    s3 := s2[r := s2[r].(pc := Closed(t))];
    assert Apply(s1, EndGoroutine(t)) == Next(s2);
    assert Apply(s2, CloseDone(r)) == Next(s3);
    assert Apply(s3, CloseFinish(r)) == Next(Finished(s, t, r));
  }

  /** A coroutine that is being closed ends by returning or by unwinding; either way its closer goes on and it is dead. */
  lemma ClosedEnds(s: State, ch: seq<nat>, t: nat, a: Action)
    requires Inv(s, ch) && t == Last(ch) && t > 0 && s[t].pc == Lua && s[t].closeFlag
    requires a == Finish(t) || a == Exit(t)
    ensures |ch| > 1 && ch[|ch| - 2] < |s| && LeadsTo(s, a, [EndGoroutine(t), CloseDone(ch[|ch| - 2]), CloseFinish(ch[|ch| - 2])], Finished(s, t, ch[|ch| - 2]))
  {
    Waiter(s, ch);
    TopInLua(s, ch);
    hide Inv, Mover, Apply, Finished, Only, LeadsTo;
    var r := ch[|ch| - 2];
    var s1, s2, s3 := EndSteps(s, t, r, a);
    var s4 := Finished(s, t, r);
    KeptSame(s, ch, a, s1);
    KeptSame(s1, ch, EndGoroutine(t), s2);
    KeptShorter(s2, ch, r, s3);
    Forces(s3, ch[..|ch| - 1], CloseFinish(r));
    Forces(s2, ch, CloseDone(r));
    Forces(s1, ch, EndGoroutine(t));
    ThreeSteps(s, a, s1, EndGoroutine(t), s2, CloseDone(r), s3, CloseFinish(r), s4);
  }

  // -- close ----------------------------------------------------------------------------------

  /** A coroutine that never ran is dead at once, and forgotten. */
  function ClosedNew(s: State, c: nat): State
    requires c < |s|
  {
    s[c := s[c].(status := Dead, closeFlag := true, known := false)]
  }

  /** One that did goes on in Lua, to unwind, while t waits for its end. */
  function Unwinding(s: State, t: nat, c: nat): State
    requires t < |s| && c < |s|
  {
    var s1 := s[c := s[c].(status := Running, closeFlag := true, resumeClosed := true, pc := Lua)];
    s1[t := s1[t].(pc := AwaitClosed(c))]
  }

  lemma NewSteps(s: State, t: nat, c: nat) returns (s1: State, s2: State)
    requires Waits(s, t, c) && !s[c].started
    ensures Apply(s, CloseBegin(t, c)) == Next(s1) && t < |s1| && c < |s1| && s1[t].pc == Closing(c) && !s1[c].started
    ensures Apply(s1, CloseSignal(t)) == Next(s2) && t < |s2| && s2[t].pc == Closed(c)
    ensures Apply(s2, CloseFinish(t)) == Next(ClosedNew(s, c))
  {
    var told := s[c].(status := Running, closeFlag := true);
    s1 := s[c := told][t := s[t].(pc := Closing(c))];
    s2 := s[c := told][t := s[t].(pc := Closed(c))];
    assert Apply(s1, CloseSignal(t)) == Next(s2);
    assert Apply(s2, CloseFinish(t)) == Next(ClosedNew(s, c));
  }

  lemma StartedSteps(s: State, t: nat, c: nat) returns (s1: State, s2: State)
    requires Waits(s, t, c) && s[c].started
    ensures Apply(s, CloseBegin(t, c)) == Next(s1) && t < |s1| && c < |s1| && s1[t].pc == Closing(c) && s1[c].started
    ensures Apply(s1, CloseSignal(t)) == Next(s2) && c < |s2| && s2[c].pc == Receive
    ensures Apply(s2, TakeArgs(c)) == Next(Unwinding(s, t, c))
  {
    var told := s[c].(status := Running, closeFlag := true);
    s1 := s[c := told][t := s[t].(pc := Closing(c))];
    s2 := s[c := told.(resumeClosed := true)][t := s[t].(pc := AwaitClosed(c))];
    assert Apply(s1, CloseSignal(t)) == Next(s2);
    assert Apply(s2, TakeArgs(c)) == Next(Unwinding(s, t, c));
  }

  lemma CloseNew(s: State, ch: seq<nat>, t: nat, c: nat)
    requires Inv(s, ch) && t == Last(ch) && s[t].pc == Lua && 0 < c < |s| && s[c].status == Suspended && !s[c].started
    ensures LeadsTo(s, CloseBegin(t, c), [CloseSignal(t), CloseFinish(t)], ClosedNew(s, c))
  {
    TopInLua(s, ch);
    SuspendedRests(s, ch, c);
    hide Inv, Mover, Apply, ClosedNew, Only, LeadsTo;
    var s1, s2 := NewSteps(s, t, c);
    var s3 := ClosedNew(s, c);
    KeptSame(s, ch, CloseBegin(t, c), s1);
    KeptSame(s1, ch, CloseSignal(t), s2);
    Forces(s2, ch, CloseFinish(t));
    Forces(s1, ch, CloseSignal(t));
    TwoSteps(s, CloseBegin(t, c), s1, CloseSignal(t), s2, CloseFinish(t), s3);
  }

  lemma CloseStarted(s: State, ch: seq<nat>, t: nat, c: nat)
    requires Inv(s, ch) && t == Last(ch) && s[t].pc == Lua && 0 < c < |s| && s[c].status == Suspended && s[c].started
    ensures LeadsTo(s, CloseBegin(t, c), [CloseSignal(t), TakeArgs(c)], Unwinding(s, t, c))
  {
    TopInLua(s, ch);
    SuspendedRests(s, ch, c);
    hide Inv, Mover, Apply, Unwinding, Only, LeadsTo;
    var s1, s2 := StartedSteps(s, t, c);
    var s3 := Unwinding(s, t, c);
    KeptSame(s, ch, CloseBegin(t, c), s1);
    KeptLonger(s1, ch, t, c, CloseSignal(t), s2);
    Forces(s2, ch + [c], TakeArgs(c));
    Forces(s1, ch, CloseSignal(t));
    TwoSteps(s, CloseBegin(t, c), s1, CloseSignal(t), s2, TakeArgs(c), s3);
  }

  /** Closing a dead coroutine only makes it forgotten. */
  lemma CloseOfDead(s: State, ch: seq<nat>, t: nat, c: nat)
    requires Inv(s, ch) && t == Last(ch) && s[t].pc == Lua && 0 < c < |s| && s[c].status == Dead && s[c].known
    ensures LeadsTo(s, CloseBegin(t, c), [CloseDead(t)], s[c := s[c].(known := false)])
  {
    TopInLua(s, ch);
    DeadRests(s, ch, c);
    hide Inv, Mover;
    var s2 := s[c := s[c].(known := false)];
    var s1 := s2[t := s[t].(pc := AwaitDead(c))];
    assert Apply(s, CloseBegin(t, c)) == Next(s1);
    assert Apply(s1, CloseDead(t)) == Next(s2);
    hide Apply, Only, LeadsTo;
    KeptSame(s, ch, CloseBegin(t, c), s1);
    Forces(s1, ch, CloseDead(t));
    OneStep(s, CloseBegin(t, c), s1, CloseDead(t), s2);
  }

  // -- refusals -------------------------------------------------------------------------------

  /** Only a suspended coroutine can be resumed, the main goroutine and one being closed cannot yield, and only a suspended or dead coroutine that is still registered can be closed; anything else is an error that changes nothing. */
  lemma Refusals(s: State, ch: seq<nat>, t: nat, c: nat)
    requires Inv(s, ch) && t == Last(ch) && s[t].pc == Lua
    ensures (c == 0 || c >= |s| || c in ch || Ended(s[c])) ==> Apply(s, ResumeBegin(t, c)) == Next(s)
    ensures (t == 0 || s[t].closeFlag) ==> Apply(s, YieldBegin(t)) == Next(s)
    ensures (c == 0 || c >= |s| || c in ch || !s[c].known) ==> Apply(s, CloseBegin(t, c)) == Next(s)
  {
    if 0 < c < |s| {
      StatusInLua(s, ch, c);
      if c in ch {
        var i :| 0 <= i < |ch| && ch[i] == c;
        if i < |ch| - 1 { assert LinkOk(s[ch[i]], ch[i], ch[i + 1], s[ch[i + 1]].closeFlag); }
      }
    }
  }

  // -- after any run --------------------------------------------------------------------------

  /** Yielding and ending, after every run that leaves Lua in a coroutine t: the goroutine before t in the chain goes on. */
  lemma {:induction false} LeavingLeads(acts: seq<Action>, t: nat)
    requires Run(acts).Next? && At(Run(acts).s, t, Lua) && t > 0
    ensures var s, ch := Run(acts).s, ChainOf(acts);
            && |ch| > 1 && ch[|ch| - 1] == t && ch[|ch| - 2] < |s|
            && var r := ch[|ch| - 2];
               if s[t].closeFlag then
                 && LeadsTo(s, Finish(t), [EndGoroutine(t), CloseDone(r), CloseFinish(r)], Finished(s, t, r))
                 && LeadsTo(s, Exit(t), [EndGoroutine(t), CloseDone(r), CloseFinish(r)], Finished(s, t, r))
               else
                 && LeadsTo(s, YieldBegin(t), [YieldSend(t), ResumeYielded(r)], Yielded(s, t, r))
                 && LeadsTo(s, Finish(t), [EndGoroutine(t), ResumeDone(r)], Finished(s, t, r))
  {
    InLua(acts, t);
    hide Run, ChainOf, Inv, LeadsTo, Yielded, Finished;
    var s, ch := Run(acts).s, ChainOf(acts);
    if s[t].closeFlag {
      ClosedEnds(s, ch, t, Finish(t));
      ClosedEnds(s, ch, t, Exit(t));
    } else {
      YieldLeads(s, ch, t);
      FinishLeads(s, ch, t);
    }
  }

  /** Resuming and closing a suspended coroutine c, after every run that leaves Lua in t. */
  lemma {:induction false} ReachingLeads(acts: seq<Action>, t: nat, c: nat)
    requires Run(acts).Next? && At(Run(acts).s, t, Lua) && 0 < c < |Run(acts).s| && Run(acts).s[c].status == Suspended
    ensures var s := Run(acts).s;
            if s[c].started then
              && LeadsTo(s, ResumeBegin(t, c), [ResumeSend(t), TakeArgs(c), Wake(c)], Resumed(s, t, c))
              && LeadsTo(s, CloseBegin(t, c), [CloseSignal(t), TakeArgs(c)], Unwinding(s, t, c))
            else
              && LeadsTo(s, ResumeBegin(t, c), [ResumeSend(t), Launch(c), TakeArgs(c)], Resumed(s, t, c))
              && LeadsTo(s, CloseBegin(t, c), [CloseSignal(t), CloseFinish(t)], ClosedNew(s, c))
  {
    InLua(acts, t);
    hide Run, ChainOf, Inv, LeadsTo, Resumed, Unwinding, ClosedNew;
    var s, ch := Run(acts).s, ChainOf(acts);
    if s[c].started {
      ResumeAgain(s, ch, t, c);
      CloseStarted(s, ch, t, c);
    } else {
      ResumeFirst(s, ch, t, c);
      CloseNew(s, ch, t, c);
    }
  }

  /** Any other resume or close, and a yield that is not allowed, after every run that leaves Lua in t. */
  lemma {:induction false} OthersLead(acts: seq<Action>, t: nat, c: nat)
    requires Run(acts).Next? && At(Run(acts).s, t, Lua)
    ensures var s := Run(acts).s;
            && (c == 0 || c >= |s| || s[c].status != Suspended ==> Apply(s, ResumeBegin(t, c)) == Next(s))
            && (t == 0 || s[t].closeFlag ==> Apply(s, YieldBegin(t)) == Next(s))
            && (if 0 < c < |s| && s[c].known && s[c].status == Dead then LeadsTo(s, CloseBegin(t, c), [CloseDead(t)], s[c := s[c].(known := false)])
                else if c == 0 || c >= |s| || !s[c].known || s[c].status != Suspended then Apply(s, CloseBegin(t, c)) == Next(s)
                else true)
  {
    InLua(acts, t);
    var s, ch := Run(acts).s, ChainOf(acts);
    Refusals(s, ch, t, c);
    hide Run, ChainOf, Inv, LeadsTo, Apply;
    if 0 < c < |s| {
      StatusInLua(s, ch, c);
      if s[c].known && s[c].status == Dead { CloseOfDead(s, ch, t, c); }
    }
  }
}
