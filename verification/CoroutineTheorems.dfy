/**
 What holds of every run: exactly one goroutine can move, no send blocks, no
 channel is closed twice or sent on once closed, statuses say who waits for whom,
 the dead stay dead, and control is always handed on.
*/
module CoroutineTheorems {
  import opened CoroutineProtocol
  import opened CoroutineSafety

  /** The chain of waiting goroutines after a run. */
  function ChainOf(acts: seq<Action>): (ch: seq<nat>)
    ensures |ch| > 0
  {
    if acts == [] then [0]
    else
      var last := |acts| - 1;
      var ch := ChainOf(acts[..last]);
      match Run(acts[..last])
      case Next(s) => if Apply(s, acts[last]).Disabled? then ch else NextOrSame(s, ch, acts[last])
      case _ => ch
  }

  function NextOrSame(s: State, ch: seq<nat>, a: Action): (r: seq<nat>)
    requires |ch| > 0
    ensures |r| > 0
  {
    if |NextChain(s, ch, a)| > 0 then NextChain(s, ch, a) else ch
  }

  lemma {:induction false} RunKeeps(acts: seq<Action>)
    ensures Run(acts).Next? && Inv(Run(acts).s, ChainOf(acts))
  {
    hide Apply, Inv, NextChain;
    if acts == [] {
      InitOk();
    } else {
      var last := |acts| - 1;
      RunKeeps(acts[..last]);
      var s, ch := Run(acts[..last]).s, ChainOf(acts[..last]);
      StepKeeps(s, ch, acts[last]);
      if Apply(s, acts[last]).Next? { Ends(Apply(s, acts[last]).s, NextChain(s, ch, acts[last])); }
    }
  }

  lemma InitOk()
    ensures Inv(Init(), [0])
  {
  }

  // -- one at a time --------------------------------------------------------------------------------

  /** After any run exactly one goroutine can move, and no other runs Lua. */
  lemma {:induction false} ExactlyOneMoves(acts: seq<Action>)
    ensures Run(acts).Next?
    ensures var s := Run(acts).s; exists m :: 0 <= m < |s| && Ready(s, m) && forall t :: 0 <= t < |s| && t != m ==> !Ready(s, t) && s[t].pc != Lua
  {
    RunKeeps(acts);
    hide Run, Inv, ChainOf, Ready, Mover;
    var s, ch := Run(acts).s, ChainOf(acts);
    var m := Mover(s, ch);
    MoverInside(s, ch);
    forall t: nat | t < |s| ensures Ready(s, t) <==> t == m {
      OnlyMover(s, ch, t);
    }
    forall t: nat | t < |s| && t != m ensures s[t].pc != Lua {
      if s[t].pc == Lua { LuaIsReady(s, t); }
    }
    assert Ready(s, m);
  }

  lemma LuaIsReady(s: State, t: nat)
    requires t < |s| && s[t].pc == Lua
    ensures Ready(s, t)
  {
  }

  lemma MoverInside(s: State, ch: seq<nat>)
    requires Inv(s, ch)
    ensures Mover(s, ch) < |s|
  {
  }

  /** What statuses mean while Lua runs in t: it is running, those who resumed their way to it are normal, and whoever is out of the chain and can be resumed is suspended. */
  lemma {:induction false} StatusesMatch(acts: seq<Action>, t: nat)
    requires Run(acts).Next? && At(Run(acts).s, t, Lua)
    ensures var s, ch := Run(acts).s, ChainOf(acts);
            && ch[|ch| - 1] == t && ch[0] == 0 && (forall i, j :: 0 <= i < j < |ch| ==> ch[i] != ch[j])
            && (forall i, j :: 0 <= i && j == i + 1 && j < |ch| ==> 0 <= ch[i] < |s| && (s[ch[i]].pc == AwaitResumed(ch[j]) || s[ch[i]].pc == AwaitClosed(ch[j])))
            && (t > 0 ==> s[t].status == Running)
            && (forall c: nat :: 0 < c < |s| ==>
                  && (s[c].status == Suspended <==> c !in ch && !Ended(s[c]))
                  && (s[c].status == Dead <==> c !in ch && Ended(s[c]))
                  && (s[c].status == Normal <==> s[c].pc.AwaitResumed?))
  {
    RunKeeps(acts);
    hide Run, ChainOf;
    var s, ch := Run(acts).s, ChainOf(acts);
    LuaIsReady(s, t);
    OnlyMover(s, ch, t);
    MoverIsTop(s, ch);
    forall i, j | 0 <= i && j == i + 1 && j < |ch| ensures 0 <= ch[i] < |s| && (s[ch[i]].pc == AwaitResumed(ch[j]) || s[ch[i]].pc == AwaitClosed(ch[j])) {
      assert LinkOk(s[ch[i]], ch[i], ch[j], s[ch[j]].closeFlag);
    }
    forall c: nat | 0 < c < |s|
      ensures (s[c].status == Suspended <==> c !in ch && !Ended(s[c])) && (s[c].status == Dead <==> c !in ch && Ended(s[c])) && (s[c].status == Normal <==> s[c].pc.AwaitResumed?)
    {
      StatusInLua(s, ch, c);
    }
  }

  /** Its goroutine is over, or it was closed before it had one. */
  predicate Ended(co: Co) {
    co.pc == Over || (co.pc == NotStarted && co.closeFlag)
  }

  lemma StatusInLua(s: State, ch: seq<nat>, c: nat)
    requires Inv(s, ch) && s[Last(ch)].pc == Lua && 0 < c < |s|
    ensures s[c].status == Suspended <==> c !in ch && !Ended(s[c])
    ensures s[c].status == Dead <==> c !in ch && Ended(s[c])
    ensures s[c].status == Normal <==> s[c].pc.AwaitResumed?
  {
    if c in ch {
      var i :| 0 <= i < |ch| && ch[i] == c;
      if i < |ch| - 1 { assert LinkOk(s[ch[i]], ch[i], ch[i + 1], s[ch[i + 1]].closeFlag); }
    } else {
      assert OffOk(s[c], c, Lua);
    }
  }

  // -- the dead stay dead ------------------------------------------------------------------------------

  /** No step changes a dead coroutine's status, nor reopens its done channel. */
  lemma DeadStep(s: State, ch: seq<nat>, a: Action, c: nat)
    requires Inv(s, ch) && 0 < c < |s| && Apply(s, a).Next?
    ensures var s' := Apply(s, a).s;
            c < |s'| && (s[c].status == Dead ==> s'[c].status == Dead && s'[c].pc != Lua) && (s[c].done ==> s'[c].done)
  {
    if s[c].status == Dead { DeadAway(s, ch, c); }
    OnlyMoverActs(s, ch, a);
    OnlyMover(s, ch, a.t);
    hide Inv, Mover;
    if c == a.t { OwnEffect(s, a); } else { hide Ready; OtherEffect(s, a, c); }
  }

  /** What a step can do to a coroutine other than the goroutine's own. */
  lemma OtherEffect(s: State, a: Action, c: nat)
    requires 0 < c < |s| && c != a.t && Apply(s, a).Next?
    ensures var s' := Apply(s, a).s;
            && c < |s'| && s'[c].done == s[c].done
            && (s'[c].pc != s[c].pc ==> s'[c].pc == Start && At(s, a.t, Resuming(c)))
            && (s[c].status == Dead ==> s'[c].status == Dead || At(s, a.t, Resuming(c)))
  {
  }

  lemma OwnEffect(s: State, a: Action)
    requires 0 < a.t < |s| && Apply(s, a).Next?
    ensures var s' := Apply(s, a).s;
            && a.t < |s'| && (s[a.t].done ==> s'[a.t].done) && (s[a.t].pc == Ending ==> s'[a.t].status == s[a.t].status && s'[a.t].pc == Over)
  {
  }

  /** A dead coroutine's goroutine runs no Lua and waits for nobody. */
  lemma DeadAway(s: State, ch: seq<nat>, c: nat)
    requires Inv(s, ch) && 0 < c < |s| && s[c].status == Dead
    ensures s[c].pc == Ending || s[c].pc == Over || s[c].pc == NotStarted
    ensures forall t: nat :: !At(s, t, Resuming(c))
  {
    if c !in ch { assert OffOk(s[c], c, s[Last(ch)].pc); }
    forall t: nat | t < |s| ensures s[t].pc != Resuming(c) {
      OnlyMover(s, ch, t);
      if t !in ch { assert OffOk(s[t], t, s[Last(ch)].pc); }
    }
    forall i | 0 <= i < |ch| - 1 ensures ch[i] != c {
      assert LinkOk(s[ch[i]], ch[i], ch[i + 1], s[ch[i + 1]].closeFlag);
    }
  }

  /** Once dead, dead after every longer run. */
  lemma {:induction false} DeadForever(acts: seq<Action>, more: seq<Action>, c: nat)
    requires Run(acts).Next? && 0 < c < |Run(acts).s| && Run(acts).s[c].status == Dead
    ensures Run(acts + more).Next? && c < |Run(acts + more).s| && Run(acts + more).s[c].status == Dead
    decreases |more|
  {
    if more == [] {
      assert acts + more == acts;
    } else {
      var k := |more| - 1;
      hide Apply, Inv, Run;
      DeadForever(acts, more[..k], c);
      var so := acts + more[..k];
      assert (acts + more)[..|acts| + k] == so && (acts + more)[|acts| + k] == more[k];
      RunKeeps(so);
      RunStep(acts + more, so, more[k]);
      var s := Run(so).s;
      if !Apply(s, more[k]).Disabled? {
        StepKeeps(s, ChainOf(so), more[k]);
        DeadStep(s, ChainOf(so), more[k], c);
      }
    }
  }

  lemma {:induction false} RunStep(acts: seq<Action>, so: seq<Action>, a: Action)
    requires |acts| > 0 && acts[..|acts| - 1] == so && acts[|acts| - 1] == a && Run(so).Next?
    ensures Run(acts) == if Apply(Run(so).s, a).Disabled? then Run(so) else Apply(Run(so).s, a)
  {
  }

  // -- control is handed on ---------------------------------------------------------------------------

  /** The only thing goroutine t can do when it is ready and not running Lua. */
  function Forced(s: State, t: nat): Action
    requires t < |s|
  {
    match s[t].pc
    case Start => Launch(t)
    case FirstReceive => TakeArgs(t)
    case Receive => TakeArgs(t)
    case Resuming(_) => ResumeSend(t)
    case AwaitResumed(c) => if c < |s| && s[c].yieldQ > 0 then ResumeYielded(t) else ResumeDone(t)
    case Yielding => YieldSend(t)
    case Woken => Wake(t)
    case Closing(_) => CloseSignal(t)
    case AwaitClosed(_) => CloseDone(t)
    case Closed(_) => CloseFinish(t)
    case AwaitDead(_) => CloseDead(t)
    case _ => EndGoroutine(t)
  }

  /** Steps left, at most, until some goroutine runs Lua. */
  function Distance(s: State, ch: seq<nat>): (n: nat)
    requires |ch| > 0 && Last(ch) < |s|
    ensures n <= 5
  {
    var co := s[Last(ch)];
    match co.pc
    case Lua => 0
    case Resuming(_) => 4
    case Start => 2
    case FirstReceive => 1
    case Receive => if co.resumeQ > 0 then 2 else 1
    case Woken => 1
    case Yielding => 2
    case Ending => 4
    case Over => 3
    case Closing(_) => 5
    case _ => 1
  }

  /** When the goroutine that can move is not running Lua its next step is forced, and brings the next Lua step closer. */
  lemma HandedOn(s: State, ch: seq<nat>)
    requires Inv(s, ch) && s[Mover(s, ch)].pc != Lua
    ensures var a := Forced(s, Mover(s, ch));
            && Apply(s, a).Next? && Inv(Apply(s, a).s, NextChain(s, ch, a))
            && (forall b :: !Apply(s, b).Disabled? ==> b == a)
            && Last(NextChain(s, ch, a)) < |Apply(s, a).s| && Distance(Apply(s, a).s, NextChain(s, ch, a)) < Distance(s, ch)
  {
    var m := Mover(s, ch);
    OnlyMover(s, ch, m);
    NotBoth(s, ch);
    var a := Forced(s, m);
    ForcedEnabled(s, m);
    StepKeeps(s, ch, a);
    Ends(Apply(s, a).s, NextChain(s, ch, a));
    Closer(s, ch);
    hide Inv, Mover, Apply, Distance, Forced;
    forall b | !Apply(s, b).Disabled? ensures b == a {
      OnlyMoverActs(s, ch, b);
      ForcedOnly(s, b);
    }
  }

  /** A coroutine that has sent what it yields is not over. */
  lemma NotBoth(s: State, ch: seq<nat>)
    requires Inv(s, ch)
    ensures var m := Mover(s, ch); s[m].pc.AwaitResumed? && s[m].pc.c < |s| ==> !(s[s[m].pc.c].yieldQ > 0 && s[s[m].pc.c].done)
  {
    if s[Mover(s, ch)].pc.AwaitResumed? { MoverIsBefore(s, ch); }
  }

  lemma ForcedEnabled(s: State, t: nat)
    requires Ready(s, t) && s[t].pc != Lua
    requires s[t].pc.Resuming? || s[t].pc.Closing? || s[t].pc.Closed? ==> s[t].pc.c < |s|
    ensures !Apply(s, Forced(s, t)).Disabled?
  {
  }

  lemma ForcedOnly(s: State, b: Action)
    requires !Apply(s, b).Disabled? && s[b.t].pc != Lua
    requires s[b.t].pc.AwaitResumed? && s[b.t].pc.c < |s| ==> !(s[s[b.t].pc.c].yieldQ > 0 && s[s[b.t].pc.c].done)
    ensures b == Forced(s, b.t)
  {
  }

  lemma Closer(s: State, ch: seq<nat>)
    requires Inv(s, ch) && s[Mover(s, ch)].pc != Lua
    ensures var a := Forced(s, Mover(s, ch));
            |NextChain(s, ch, a)| > 0 && Apply(s, a).Next? && Last(NextChain(s, ch, a)) < |Apply(s, a).s| ==> Distance(Apply(s, a).s, NextChain(s, ch, a)) < Distance(s, ch)
  {
    var m := Mover(s, ch);
    OnlyMover(s, ch, m);
    Ends(s, ch);
    if s[m].pc.AwaitResumed? || s[m].pc.AwaitClosed? {
      MoverIsBefore(s, ch);
      Outside(ch, |s|);
      HeardSoon(s, ch, m);
    } else {
      MoverIsTop(s, ch);
      if s[m].pc.Resuming? || s[m].pc.Closing? { assert OffOk(s[s[m].pc.c], s[m].pc.c, s[m].pc); }
      hide Inv, Mover;
      TopSoon(s, ch, m);
    }
  }

  lemma HeardSoon(s: State, ch: seq<nat>, t: nat)
    requires |ch| > 1 && t < |s| && t == ch[|ch| - 2] && 0 < Last(ch) < |s| && t != Last(ch) && TopOk(s[Last(ch)], Last(ch)) && Ready(s, t)
    requires LinkOk(s[t], t, Last(ch), s[Last(ch)].closeFlag)
    ensures var a := Forced(s, t);
            Apply(s, a).Next? && |NextChain(s, ch, a)| > 0 && Last(NextChain(s, ch, a)) < |Apply(s, a).s| && Distance(Apply(s, a).s, NextChain(s, ch, a)) < Distance(s, ch)
  {
  }

  lemma TopSoon(s: State, ch: seq<nat>, t: nat)
    requires |ch| > 0 && t == Last(ch) && t < |s| && TopOk(s[t], t) && Ready(s, t) && s[t].pc != Lua
    requires s[t].pc.Resuming? || s[t].pc.Closing? ==> 0 < s[t].pc.c < |s| && s[t].pc.c != t && OffOk(s[s[t].pc.c], s[t].pc.c, s[t].pc)
    requires s[t].pc.Resuming? ==> s[s[t].pc.c].status == Suspended
    ensures var a := Forced(s, t);
            |NextChain(s, ch, a)| > 0 && Apply(s, a).Next? && Last(NextChain(s, ch, a)) < |Apply(s, a).s| ==> Distance(Apply(s, a).s, NextChain(s, ch, a)) < Distance(s, ch)
  {
  }

  /** From any state a run reaches, some goroutine runs Lua after at most five more steps. */
  lemma LuaSoon(acts: seq<Action>) returns (more: seq<Action>)
    ensures |more| <= 5 && Run(acts + more).Next?
    ensures exists t :: 0 <= t < |Run(acts + more).s| && Run(acts + more).s[t].pc == Lua
  {
    RunKeeps(acts);
    Ends(Run(acts).s, ChainOf(acts));
    more := LuaWithin(acts, 5);
  }

  lemma {:induction false} LuaWithin(acts: seq<Action>, d: nat) returns (more: seq<Action>)
    requires Run(acts).Next? && Inv(Run(acts).s, ChainOf(acts))
    requires Last(ChainOf(acts)) < |Run(acts).s| && Distance(Run(acts).s, ChainOf(acts)) <= d
    ensures |more| <= d && Run(acts + more).Next?
    ensures exists t :: 0 <= t < |Run(acts + more).s| && Run(acts + more).s[t].pc == Lua
    decreases d
  {
    hide Apply, Run, Inv, Mover, Distance, NextChain, Forced;
    var s, ch := Run(acts).s, ChainOf(acts);
    var m := Mover(s, ch);
    MoverInside(s, ch);
    if s[m].pc == Lua {
      more := [];
      assert acts + more == acts;
    } else {
      HandedOn(s, ch);
      var a := Forced(s, m);
      var on := acts + [a];
      assert on[..|acts|] == acts && on[|acts|] == a;
      RunStep(on, acts, a);
      Ends(Apply(s, a).s, NextChain(s, ch, a));
      ChainStep(on, acts, a);
      Ends(Run(on).s, NextChain(s, ch, a));
      var rest := LuaWithin(on, d - 1);
      more := [a] + rest;
      assert acts + more == on + rest;
    }
  }

  lemma {:induction false} ChainStep(acts: seq<Action>, so: seq<Action>, a: Action)
    requires |acts| > 0 && acts[..|acts| - 1] == so && acts[|acts| - 1] == a && Run(so).Next? && !Apply(Run(so).s, a).Disabled?
    requires |NextChain(Run(so).s, ChainOf(so), a)| > 0
    ensures ChainOf(acts) == NextChain(Run(so).s, ChainOf(so), a)
  {
    hide Apply, Run, NextChain;
  }
}
