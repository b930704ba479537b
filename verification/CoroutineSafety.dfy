/**
 What every interleaving keeps: one chain of goroutines from the main one, each
 waiting for the next, of which only the last can move or be moved on from.
*/
module CoroutineSafety {
  import opened CoroutineProtocol

  // -- the invariant ---------------------------------------------------------------------------

  function Last(ch: seq<nat>): nat
    requires |ch| > 0
  {
    ch[|ch| - 1]
  }

  predicate Chain(n: nat, ch: seq<nat>) {
    && |ch| > 0 && ch[0] == 0
    && (forall i :: 0 <= i < |ch| ==> ch[i] < n)
    && (forall i, j :: 0 <= i < j < |ch| ==> ch[i] != ch[j])
  }

  /** A coroutine that was resumed and is not over: registered, with no message of its own under way. */
  predicate Live(co: Co) {
    co.known && co.started && co.closeFlag == co.resumeClosed && !co.done && co.resumeQ == 0 && co.yieldQ == 0
  }

  /** Goroutine a waits for the next one, b, which it resumed or, if closing, closed. */
  predicate LinkOk(co: Co, a: nat, b: nat, closing: bool) {
    && co.pc == (if closing then AwaitClosed(b) else AwaitResumed(b))
    && (a > 0 ==> Live(co) && co.status == if closing then Running else Normal)
  }

  /** The end of the chain. */
  predicate TopOk(co: Co, t: nat) {
    match co.pc
    case Lua => t > 0 ==> Live(co) && co.status == Running
    case Resuming(_) => t > 0 ==> Live(co) && co.status == Normal
    case Closing(_) => t > 0 ==> Live(co) && co.status == Running
    case Closed(_) => t > 0 ==> Live(co) && co.status == Running
    case AwaitDead(_) => t > 0 ==> Live(co) && co.status == Running
    case Start => t > 0 && Handed(co) && co.status == Running
    case FirstReceive => t > 0 && Handed(co) && co.status == Running
    case Yielding => t > 0 && Live(co) && !co.closeFlag && co.status == Suspended
    case Receive => t > 0 && (HasYielded(co) || (Handed(co) && co.status == Running) || (Live(co) && co.closeFlag && co.status == Running))
    case Woken => t > 0 && Live(co) && !co.closeFlag && co.status == Running
    case Ending => t > 0 && Live(co) && Final(co)
    case Over => t > 0 && co.done && Live(co.(done := false)) && Final(co)
    case _ => false
  }

  /** The arguments of a resume are on their way to it. */
  predicate Handed(co: Co) {
    co.resumeQ == 1 && !co.closeFlag && Live(co.(resumeQ := 0))
  }

  predicate HasYielded(co: Co) {
    co.yieldQ == 1 && !co.closeFlag && Live(co.(yieldQ := 0)) && co.status == Suspended
  }

  /** Dead, unless it is being closed and its closer still has to say so. */
  predicate Final(co: Co) {
    co.status == Dead || (co.closeFlag && co.status == Running)
  }

  /** A coroutine outside the chain, where p is what the end of the chain is doing. */
  predicate OffOk(co: Co, c: nat, p: Pc) {
    && co.resumeQ == 0 && co.yieldQ == 0
    && (if p == Closed(c) then
          co.known && co.closeFlag && Final(co) && (if co.started then co.done && co.pc == Over else !co.done && co.pc == NotStarted)
        else if p == Closing(c) then
          co.known && co.closeFlag && !co.resumeClosed && !co.done && co.status == Running && co.pc == if co.started then Receive else NotStarted
        else if co.pc == Over then co.started && co.done && co.status == Dead
        else if co.status == Dead then co.pc == NotStarted && !co.started && !co.done && co.closeFlag
        else co.status == Suspended && co.known && !co.closeFlag && !co.resumeClosed && !co.done && co.pc == if co.started then Receive else NotStarted)
  }

  /** The coroutine that the end of the chain is dealing with. */
  predicate TargetOk(s: State, ch: seq<nat>, p: Pc) {
    match p
    case Resuming(c) => 0 < c < |s| && c !in ch && s[c].status == Suspended
    case Closing(c) => 0 < c < |s| && c !in ch
    case Closed(c) => 0 < c < |s| && c !in ch
    case AwaitDead(c) => 0 < c < |s| && c !in ch && s[c].status == Dead
    case _ => true
  }

  predicate LinksOk(s: State, ch: seq<nat>)
    requires Chain(|s|, ch)
  {
    forall i, j :: 0 <= i < |ch| && j == i + 1 && j < |ch| ==> LinkOk(s[ch[i]], ch[i], ch[j], s[ch[j]].closeFlag)
  }

  predicate RestOk(s: State, ch: seq<nat>, p: Pc) {
    forall c: nat :: 0 < c < |s| && c !in ch ==> OffOk(s[c], c, p)
  }

  predicate Inv(s: State, ch: seq<nat>) {
    && Chain(|s|, ch) && !s[0].known
    && LinksOk(s, ch)
    && TopOk(s[Last(ch)], Last(ch))
    && RestOk(s, ch, s[Last(ch)].pc) && TargetOk(s, ch, s[Last(ch)].pc)
  }

  /** How the chain changes: a resume or close of a started coroutine lengthens it, hearing back shortens it. */
  function NextChain(s: State, ch: seq<nat>, a: Action): seq<nat>
    requires |ch| > 0
  {
    match a
    case ResumeSend(t) => if t < |s| && s[t].pc.Resuming? && s[t].pc.c < |s| && !s[s[t].pc.c].closeFlag then ch + [s[t].pc.c] else ch
    case CloseSignal(t) => if t < |s| && s[t].pc.Closing? && s[t].pc.c < |s| && s[s[t].pc.c].started then ch + [s[t].pc.c] else ch
    case ResumeYielded(_) => if |ch| > 1 then ch[..|ch| - 1] else ch
    case ResumeDone(_) => if |ch| > 1 then ch[..|ch| - 1] else ch
    case CloseDone(_) => if |ch| > 1 then ch[..|ch| - 1] else ch
    case _ => ch
  }

  // -- who can move -------------------------------------------------------------------------------

  /** Goroutine t has something to do next that no other goroutine has to do first. */
  predicate Ready(s: State, t: nat) {
    t < |s| &&
    match s[t].pc
    case NotStarted => false
    case Over => false
    case Receive => s[t].resumeQ > 0 || s[t].resumeClosed
    case FirstReceive => s[t].resumeQ > 0 || s[t].resumeClosed
    case AwaitResumed(c) => c < |s| && (s[c].yieldQ > 0 || s[c].done)
    case AwaitClosed(c) => c < |s| && s[c].done
    case AwaitDead(c) => c < |s| && (s[c].started ==> s[c].done)
    case _ => true
  }

  /** The one goroutine that is ready: the end of the chain, or the one before it when the end has just yielded or ended. */
  function Mover(s: State, ch: seq<nat>): nat
    requires Inv(s, ch)
  {
    var top := s[Last(ch)];
    if |ch| > 1 && (top.yieldQ > 0 || top.done) then ch[|ch| - 2] else Last(ch)
  }

  lemma OnlyMover(s: State, ch: seq<nat>, t: nat)
    requires Inv(s, ch) && t < |s|
    ensures Ready(s, t) <==> t == Mover(s, ch)
  {
    if t in ch {
      var i :| 0 <= i < |ch| && ch[i] == t;
      if i < |ch| - 1 {
        assert LinkOk(s[ch[i]], ch[i], ch[i + 1], s[ch[i + 1]].closeFlag);
        if i + 1 < |ch| - 1 { assert LinkOk(s[ch[i + 1]], ch[i + 1], ch[i + 2], s[ch[i + 2]].closeFlag); }
      }
    } else {
      assert OffOk(s[t], t, s[Last(ch)].pc);
    }
  }

  // -- ways to change the state ---------------------------------------------------------------------

  /** What the end of the chain is doing matters only to the coroutine it is closing. */
  predicate Quiet(p: Pc, c: nat) {
    p != Closing(c) && p != Closed(c)
  }

  lemma OffQuiet(co: Co, d: nat, p: Pc, p': Pc)
    requires OffOk(co, d, p) && Quiet(p, d) && Quiet(p', d)
    ensures OffOk(co, d, p')
  {
  }

  /** The end t of the chain and one coroutine c outside it change. */
  lemma TopAndOther(s: State, ch: seq<nat>, t: nat, top: Co, c: nat, other: Co)
    requires Inv(s, ch) && t == Last(ch) && TopOk(top, t) && top.closeFlag == s[t].closeFlag && (t == 0 ==> !top.known)
    requires 0 < c < |s| && c !in ch && OffOk(other, c, top.pc)
    requires forall d: nat :: d != c ==> Quiet(s[t].pc, d) && Quiet(top.pc, d)
    requires TargetOk(s[c := other], ch, top.pc)
    ensures Inv(s[c := other][t := top], ch)
  {
    hide OffOk, TopOk, LinkOk, Quiet;
    var s' := s[c := other][t := top];
    forall i, j | 0 <= i < |ch| && j == i + 1 && j < |ch| ensures LinkOk(s'[ch[i]], ch[i], ch[j], s'[ch[j]].closeFlag) {
      assert LinkOk(s[ch[i]], ch[i], ch[j], s[ch[j]].closeFlag);
    }
    forall d: nat | 0 < d < |s'| && d !in ch ensures OffOk(s'[d], d, top.pc) {
      if d != c { OffQuiet(s[d], d, s[t].pc, top.pc); }
    }
  }

  /** Only the end t of the chain changes. */
  lemma TopOnly(s: State, ch: seq<nat>, t: nat, top: Co)
    requires Inv(s, ch) && t == Last(ch) && TopOk(top, t) && top.closeFlag == s[t].closeFlag && (t == 0 ==> !top.known)
    requires forall d: nat :: Quiet(s[t].pc, d) && Quiet(top.pc, d)
    requires TargetOk(s, ch, top.pc)
    ensures Inv(s[t := top], ch)
  {
    hide OffOk, TopOk, LinkOk, Quiet;
    var s' := s[t := top];
    forall i, j | 0 <= i < |ch| && j == i + 1 && j < |ch| ensures LinkOk(s'[ch[i]], ch[i], ch[j], s'[ch[j]].closeFlag) {
      assert LinkOk(s[ch[i]], ch[i], ch[j], s[ch[j]].closeFlag);
    }
    forall d: nat | 0 < d < |s'| && d !in ch ensures OffOk(s'[d], d, top.pc) {
      OffQuiet(s[d], d, s[t].pc, top.pc);
    }
  }

  /** The end t of the chain starts to wait for c, which becomes the end. */
  lemma Push(s: State, ch: seq<nat>, t: nat, was: Co, c: nat, top: Co)
    requires Inv(s, ch) && t == Last(ch) && 0 < c < |s| && c !in ch
    requires LinkOk(was, t, c, top.closeFlag) && was.closeFlag == s[t].closeFlag && (t == 0 ==> !was.known)
    requires TopOk(top, c) && (forall d: nat :: d != c ==> Quiet(s[t].pc, d)) && (forall d: nat :: Quiet(top.pc, d))
    requires TargetOk(s, ch + [c], top.pc)
    ensures Inv(s[c := top][t := was], ch + [c])
  {
    hide OffOk, TopOk, LinkOk, Quiet;
    var s', ch' := s[c := top][t := was], ch + [c];
    assert forall x :: x in ch' <==> x in ch || x == c;
    assert forall i :: 0 <= i < |ch| ==> ch'[i] == ch[i];
    forall i, j | 0 <= i < |ch'| && j == i + 1 && j < |ch'| ensures LinkOk(s'[ch'[i]], ch'[i], ch'[j], s'[ch'[j]].closeFlag) {
      if j < |ch| { assert LinkOk(s[ch[i]], ch[i], ch[j], s[ch[j]].closeFlag); }
    }
    forall d: nat | 0 < d < |s'| && d !in ch' ensures OffOk(s'[d], d, top.pc) {
      OffQuiet(s[d], d, s[t].pc, top.pc);
    }
  }

  /** The one before the end, t, goes on; c drops out of the chain. */
  lemma Pop(s: State, ch: seq<nat>, t: nat, top: Co, c: nat, other: Co)
    requires Inv(s, ch) && |ch| > 1 && c == Last(ch) && t == ch[|ch| - 2]
    requires TopOk(top, t) && top.closeFlag == s[t].closeFlag && (t == 0 ==> !top.known) && OffOk(other, c, top.pc)
    requires (forall d: nat :: Quiet(s[c].pc, d)) && (forall d: nat :: d != c ==> Quiet(top.pc, d))
    requires TargetOk(s[c := other], ch[..|ch| - 1], top.pc)
    ensures Inv(s[c := other][t := top], ch[..|ch| - 1])
  {
    hide OffOk, TopOk, LinkOk, Quiet;
    var s', ch' := s[c := other][t := top], ch[..|ch| - 1];
    assert forall i :: 0 <= i < |ch'| ==> ch'[i] == ch[i];
    forall x | x in ch && x != c ensures x in ch' {
      var i :| 0 <= i < |ch| && ch[i] == x;
      assert ch'[i] == x;
    }
    forall i, j | 0 <= i < |ch'| && j == i + 1 && j < |ch'| ensures LinkOk(s'[ch'[i]], ch'[i], ch'[j], s'[ch'[j]].closeFlag) {
      assert LinkOk(s[ch[i]], ch[i], ch[j], s[ch[j]].closeFlag);
    }
    forall d: nat | 0 < d < |s'| && d !in ch' ensures OffOk(s'[d], d, top.pc) {
      if d != c { OffQuiet(s[d], d, s[c].pc, top.pc); }
    }
  }

  lemma Spawn(s: State, ch: seq<nat>)
    requires Inv(s, ch) && s[Last(ch)].pc == Lua
    ensures Inv(s + [FreshCo], ch)
  {
    var s' := s + [FreshCo];
    forall i, j | 0 <= i < |ch| && j == i + 1 && j < |ch| ensures LinkOk(s'[ch[i]], ch[i], ch[j], s'[ch[j]].closeFlag) {
      assert LinkOk(s[ch[i]], ch[i], ch[j], s[ch[j]].closeFlag);
    }
    forall d: nat | 0 < d < |s'| && d !in ch ensures OffOk(s'[d], d, Lua) {
      if d < |s| { assert OffOk(s[d], d, Lua); }
    }
  }

  // -- every step ------------------------------------------------------------------------------------

  /** The goroutine an action belongs to. */
  function Actor(a: Action): nat {
    a.t
  }

  /** Only the ready goroutine has an action that is enabled. */
  lemma OnlyMoverActs(s: State, ch: seq<nat>, a: Action)
    requires Inv(s, ch) && !Apply(s, a).Disabled?
    ensures Actor(a) == Mover(s, ch)
  {
    hide Inv, Mover, TopOk, OffOk;
    var t := a.t;
    assert t < |s| && Ready(s, t);
    OnlyMover(s, ch, t);
  }

  /** No step of a goroutine crashes or blocks, and every step keeps the chain. */
  lemma StepKeeps(s: State, ch: seq<nat>, a: Action)
    requires Inv(s, ch)
    ensures match Apply(s, a)
            case Next(s') => Inv(s', NextChain(s, ch, a))
            case Disabled => true
            case _ => false
  {
    if !Apply(s, a).Disabled? {
      OnlyMoverActs(s, ch, a);
      var t := a.t;
      match a
      case Create(_) => Spawn(s, ch);
      case ResumeBegin(_, c) => KeepsResumeBegin(s, ch, t, c);
      case ResumeSend(_) => KeepsResumeSend(s, ch, t);
      case ResumeYielded(_) => KeepsResumeYielded(s, ch, t);
      case ResumeDone(_) => KeepsResumeDone(s, ch, t);
      case YieldBegin(_) => KeepsOwn(s, ch, a);
      case YieldSend(_) => KeepsOwn(s, ch, a);
      case TakeArgs(_) => KeepsOwn(s, ch, a);
      case Wake(_) => KeepsOwn(s, ch, a);
      case Launch(_) => KeepsOwn(s, ch, a);
      case Finish(_) => KeepsOwn(s, ch, a);
      case Exit(_) => KeepsOwn(s, ch, a);
      case EndGoroutine(_) => KeepsOwn(s, ch, a);
      case CloseBegin(_, c) => KeepsCloseBegin(s, ch, t, c);
      case CloseSignal(_) => KeepsCloseSignal(s, ch, t);
      case CloseDone(_) => KeepsCloseDone(s, ch, t);
      case CloseFinish(_) => KeepsCloseFinish(s, ch, t);
      case CloseDead(_) => KeepsCloseDead(s, ch, t);
    }
  }

  /** Steps that change nothing but the goroutine's own coroutine. */
  lemma KeepsOwn(s: State, ch: seq<nat>, a: Action)
    requires Inv(s, ch) && !Apply(s, a).Disabled? && a.t == Mover(s, ch)
    requires a.YieldBegin? || a.YieldSend? || a.TakeArgs? || a.Wake? || a.Launch? || a.Finish? || a.Exit? || a.EndGoroutine?
    ensures Apply(s, a).Next? && Inv(Apply(s, a).s, ch)
  {
    var t := a.t;
    MoverIsTop(s, ch);
    var r := Apply(s, a);
    OwnStep(s, t, a);
    hide Inv, TopOk, OffOk, LinkOk, Apply;
    TopOnly(s, ch, t, r.s[t]);
  }

  predicate Free(p: Pc) {
    !(p.Resuming? || p.Closing? || p.Closed? || p.AwaitDead?)
  }

  lemma OwnStep(s: State, t: nat, a: Action)
    requires t == a.t < |s| && TopOk(s[t], t) && (t == 0 ==> !s[t].known) && !Apply(s, a).Disabled?
    requires a.YieldBegin? || a.YieldSend? || a.TakeArgs? || a.Wake? || a.Launch? || a.Finish? || a.Exit? || a.EndGoroutine?
    ensures var r := Apply(s, a);
            r.Next? && |r.s| == |s| && r.s == s[t := r.s[t]] && TopOk(r.s[t], t) && r.s[t].closeFlag == s[t].closeFlag && (t == 0 ==> !r.s[t].known)
            && Free(s[t].pc) && Free(r.s[t].pc)
  {
  }

  /** A goroutine that is ready and does not wait to hear from another is the end of the chain. */
  lemma MoverIsTop(s: State, ch: seq<nat>)
    requires Inv(s, ch) && !s[Mover(s, ch)].pc.AwaitResumed? && !s[Mover(s, ch)].pc.AwaitClosed?
    ensures Mover(s, ch) == Last(ch)
  {
    if |ch| > 1 { assert LinkOk(s[ch[|ch| - 2]], ch[|ch| - 2], ch[|ch| - 1], s[ch[|ch| - 1]].closeFlag); }
  }

  /** A goroutine that hears from another is the one before the end of the chain. */
  lemma MoverIsBefore(s: State, ch: seq<nat>)
    requires Inv(s, ch) && (s[Mover(s, ch)].pc.AwaitResumed? || s[Mover(s, ch)].pc.AwaitClosed?)
    ensures |ch| > 1 && Mover(s, ch) == ch[|ch| - 2] && s[ch[|ch| - 2]].pc.c == Last(ch)
    ensures LinkOk(s[ch[|ch| - 2]], ch[|ch| - 2], Last(ch), s[Last(ch)].closeFlag)
  {
    if |ch| > 1 { assert LinkOk(s[ch[|ch| - 2]], ch[|ch| - 2], ch[|ch| - 1], s[ch[|ch| - 1]].closeFlag); }
  }

  lemma KeepsResumeBegin(s: State, ch: seq<nat>, t: nat, c: nat)
    requires Inv(s, ch) && At(s, t, Lua) && t == Mover(s, ch)
    ensures Inv(DoResumeBegin(s, t, c), ch)
  {
    MoverIsTop(s, ch);
    if 0 < c < |s| && s[c].status == Suspended {
      NotWaiting(s, ch, c);
      TopOnly(s, ch, t, Mark(s[t], Normal).(pc := Resuming(c)));
    }
  }

  /** While the end of the chain runs Lua, none of the chain is suspended, nor dead. */
  lemma NotWaiting(s: State, ch: seq<nat>, c: nat)
    requires Inv(s, ch) && s[Last(ch)].pc == Lua && 0 < c < |s| && (s[c].status == Suspended || s[c].status == Dead)
    ensures c !in ch
  {
    forall i | 0 <= i < |ch| ensures ch[i] != c {
      if i < |ch| - 1 { assert LinkOk(s[ch[i]], ch[i], ch[i + 1], s[ch[i + 1]].closeFlag); }
    }
  }

  lemma KeepsResumeSend(s: State, ch: seq<nat>, t: nat)
    requires Inv(s, ch) && t == Mover(s, ch) && s[t].pc.Resuming?
    ensures var r := DoResumeSend(s, t, s[t].pc.c); r.Next? && Inv(r.s, NextChain(s, ch, ResumeSend(t)))
  {
    MoverIsTop(s, ch);
    var c := s[t].pc.c;
    assert OffOk(s[c], c, s[t].pc);
    var co := s[c].(status := Running, resumeQ := 1, started := true, pc := if s[c].started then s[c].pc else Start);
    Push(s, ch, t, s[t].(pc := AwaitResumed(c)), c, co);
  }

  /** The resumer of a coroutine that yielded or ended runs again. */
  lemma HeardBack(waiter: Co, t: nat, heard: Co, c: nat)
    requires c > 0 && LinkOk(waiter, t, c, heard.closeFlag) && TopOk(heard, c) && waiter.pc.AwaitResumed? && (heard.yieldQ > 0 || heard.done)
    requires t == 0 ==> !waiter.known
    ensures var top := Mark(waiter, Running).(pc := Lua);
            TopOk(top, t) && top.closeFlag == waiter.closeFlag && (t == 0 ==> !top.known)
    ensures OffOk(heard.(yieldQ := 0), c, Lua) && (heard.done ==> heard.yieldQ == 0) && heard.yieldQ <= 1 && forall d: nat :: Quiet(heard.pc, d)
  {
  }

  /** The closer of a coroutine that is over goes on to mark it dead. */
  lemma HeardClosed(waiter: Co, t: nat, heard: Co, c: nat)
    requires c > 0 && LinkOk(waiter, t, c, heard.closeFlag) && TopOk(heard, c) && waiter.pc.AwaitClosed? && heard.done
    ensures TopOk(waiter.(pc := Closed(c)), t) && OffOk(heard, c, Closed(c)) && forall d: nat :: Quiet(heard.pc, d)
  {
  }

  lemma Ends(s: State, ch: seq<nat>)
    requires Inv(s, ch)
    ensures TopOk(s[Last(ch)], Last(ch)) && !s[0].known && Chain(|s|, ch)
  {
  }

  lemma KeepsResumeYielded(s: State, ch: seq<nat>, t: nat)
    requires Inv(s, ch) && t == Mover(s, ch) && s[t].pc.AwaitResumed? && s[t].pc.c < |s| && s[s[t].pc.c].yieldQ > 0
    ensures Inv(DoResumeYielded(s, t, s[t].pc.c), NextChain(s, ch, ResumeYielded(t)))
  {
    hide Inv, TopOk, OffOk, LinkOk, Quiet;
    MoverIsBefore(s, ch);
    Ends(s, ch);
    Outside(ch, |s|);
    var c := s[t].pc.c;
    HeardBack(s[t], t, s[c], c);
    LuaIsQuiet();
    Pop(s, ch, t, Mark(s[t], Running).(pc := Lua), c, s[c].(yieldQ := 0));
  }

  lemma LuaIsQuiet()
    ensures forall d: nat :: Quiet(Lua, d)
  {
  }

  lemma KeepsResumeDone(s: State, ch: seq<nat>, t: nat)
    requires Inv(s, ch) && t == Mover(s, ch) && s[t].pc.AwaitResumed? && s[t].pc.c < |s| && s[s[t].pc.c].done
    ensures Inv(s[t := Mark(s[t], Running).(pc := Lua)], NextChain(s, ch, ResumeDone(t)))
  {
    hide Inv, TopOk, OffOk, LinkOk, Quiet;
    MoverIsBefore(s, ch);
    Ends(s, ch);
    Outside(ch, |s|);
    var c := s[t].pc.c;
    HeardBack(s[t], t, s[c], c);
    LuaIsQuiet();
    assert s[c].(yieldQ := 0) == s[c] && s[c := s[c]] == s;
    Pop(s, ch, t, Mark(s[t], Running).(pc := Lua), c, s[c]);
  }

  lemma KeepsCloseBegin(s: State, ch: seq<nat>, t: nat, c: nat)
    requires Inv(s, ch) && At(s, t, Lua) && t == Mover(s, ch)
    ensures Inv(DoCloseBegin(s, t, c), ch)
  {
    MoverIsTop(s, ch);
    if 0 < c < |s| && c != t && s[c].known && (s[c].status == Suspended || s[c].status == Dead) {
      NotWaiting(s, ch, c);
      assert OffOk(s[c], c, Lua);
      var dead := s[c].status == Dead;
      var top := s[t].(pc := if dead then AwaitDead(c) else Closing(c));
      var other := if dead then s[c].(known := false) else s[c].(status := Running, closeFlag := true);
      assert TopOk(top, t) && OffOk(other, c, top.pc);
      hide OffOk, TopOk, LinkOk;
      TopAndOther(s, ch, t, top, c, other);
    }
  }

  lemma KeepsCloseSignal(s: State, ch: seq<nat>, t: nat)
    requires Inv(s, ch) && t == Mover(s, ch) && s[t].pc.Closing? && s[t].pc.c < |s|
    ensures var r := DoCloseSignal(s, t, s[t].pc.c); r.Next? && Inv(r.s, NextChain(s, ch, CloseSignal(t)))
  {
    MoverIsTop(s, ch);
    var c := s[t].pc.c;
    assert OffOk(s[c], c, s[t].pc);
    if s[c].started {
      var was, top := s[t].(pc := AwaitClosed(c)), s[c].(resumeClosed := true);
      assert LinkOk(was, t, c, top.closeFlag) && TopOk(top, c);
      hide OffOk, TopOk, LinkOk;
      Push(s, ch, t, was, c, top);
    } else {
      assert s[c := s[c]] == s;
      TopAndOther(s, ch, t, s[t].(pc := Closed(c)), c, s[c]);
    }
  }

  lemma KeepsCloseDone(s: State, ch: seq<nat>, t: nat)
    requires Inv(s, ch) && t == Mover(s, ch) && s[t].pc.AwaitClosed? && s[t].pc.c < |s| && s[s[t].pc.c].done
    ensures Inv(Move(s, t, Closed(s[t].pc.c)), NextChain(s, ch, CloseDone(t)))
  {
    hide Inv, TopOk, OffOk, LinkOk;
    MoverIsBefore(s, ch);
    Ends(s, ch);
    Outside(ch, |s|);
    var c := s[t].pc.c;
    HeardClosed(s[t], t, s[c], c);
    assert s[c := s[c]] == s;
    Pop(s, ch, t, s[t].(pc := Closed(c)), c, s[c]);
  }

  lemma Outside(ch: seq<nat>, n: nat)
    requires Chain(n, ch) && |ch| > 1
    ensures Last(ch) !in ch[..|ch| - 1] && 0 < Last(ch) < n
  {
    assert forall i :: 0 <= i < |ch| - 1 ==> ch[..|ch| - 1][i] == ch[i] != ch[|ch| - 1];
  }

  lemma KeepsCloseFinish(s: State, ch: seq<nat>, t: nat)
    requires Inv(s, ch) && t == Mover(s, ch) && s[t].pc.Closed? && s[t].pc.c < |s|
    ensures Apply(s, CloseFinish(t)).Next? && Inv(Apply(s, CloseFinish(t)).s, ch)
  {
    MoverIsTop(s, ch);
    var c := s[t].pc.c;
    assert OffOk(s[c], c, s[t].pc);
    TopAndOther(s, ch, t, s[t].(pc := Lua), c, s[c].(status := Dead, known := false));
  }

  lemma KeepsCloseDead(s: State, ch: seq<nat>, t: nat)
    requires Inv(s, ch) && t == Mover(s, ch) && s[t].pc.AwaitDead?
    ensures Inv(Move(s, t, Lua), ch)
  {
    MoverIsTop(s, ch);
    TopOnly(s, ch, t, s[t].(pc := Lua));
  }
}
