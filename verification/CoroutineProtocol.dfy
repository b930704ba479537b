/**
 Coroutines as goroutines that hand control to one another through channels: the
 atomic steps of create, resume, yield, close and of a coroutine's own goroutine,
 in any interleaving.
*/
module CoroutineProtocol {

  datatype Status = Suspended | Running | Normal | Dead

  /** Where a goroutine stands; c is the coroutine it is dealing with. */
  datatype Pc =
    | NotStarted
    | Start                  // just spawned
    | FirstReceive           // at the first receive from its resume channel
    | Lua                    // running Lua
    | Resuming(c: nat)       // checked that c is suspended and marked itself normal
    | AwaitResumed(c: nat)   // in the select on c's yield and done channels
    | Yielding               // marked itself suspended, not yet sent
    | Receive                // at the receive from its resume channel
    | Woken                  // received, not yet marked running
    | Closing(c: nat)        // marked c running and its resume channel as closed
    | AwaitClosed(c: nat)    // at the receive from c's done channel
    | Closed(c: nat)         // c is over and still to be marked dead
    | AwaitDead(c: nat)      // c was dead already; its goroutine may not be over yet
    | Ending                 // about to close its done channel
    | Over

  /** resumeQ and yieldQ count what the channels hold; their capacity is one. */
  datatype Co = Co(
    status: Status, started: bool, closeFlag: bool, known: bool,
    resumeQ: nat, resumeClosed: bool, yieldQ: nat, done: bool, pc: Pc)

  /** Goroutine 0 is the main one; it is no coroutine and is never registered. */
  type State = seq<Co>

  const MainCo := Co(Running, true, false, false, 0, false, 0, false, Lua)
  const FreshCo := Co(Suspended, false, false, true, 0, false, 0, false, NotStarted)

  datatype Action =
    | Create(t: nat)
    | ResumeBegin(t: nat, c: nat)
    | ResumeSend(t: nat)
    | ResumeYielded(t: nat)
    | ResumeDone(t: nat)
    | YieldBegin(t: nat)
    | YieldSend(t: nat)
    | TakeArgs(t: nat)
    | Wake(t: nat)
    | Launch(t: nat)
    | Finish(t: nat)
    | Exit(t: nat)
    | EndGoroutine(t: nat)
    | CloseBegin(t: nat, c: nat)
    | CloseSignal(t: nat)
    | CloseDone(t: nat)
    | CloseFinish(t: nat)
    | CloseDead(t: nat)

  /** Disabled: the goroutine waits or is elsewhere. Blocked: a send finds the channel full. Crash: a send on, or a second close of, a closed channel. */
  datatype Outcome = Next(s: State) | Disabled | Blocked | Crash

  function Init(): State {
    [MainCo]
  }

  /** A registered coroutine's status changes; the main goroutine has none. */
  function Mark(co: Co, status: Status): Co {
    if co.known then co.(status := status) else co
  }

  predicate At(s: State, t: nat, pc: Pc) {
    t < |s| && s[t].pc == pc
  }

  function Move(s: State, t: nat, pc: Pc): State
    requires t < |s|
  {
    s[t := s[t].(pc := pc)]
  }

  function Apply(s: State, a: Action): Outcome {
    match a
    case Create(t) => if At(s, t, Lua) then Next(s + [FreshCo]) else Disabled
    case ResumeBegin(t, c) => if At(s, t, Lua) then Next(DoResumeBegin(s, t, c)) else Disabled
    case ResumeSend(t) => if t < |s| && s[t].pc.Resuming? then DoResumeSend(s, t, s[t].pc.c) else Disabled
    case ResumeYielded(t) =>
      if t < |s| && s[t].pc.AwaitResumed? && s[t].pc.c < |s| && s[s[t].pc.c].yieldQ > 0 then Next(DoResumeYielded(s, t, s[t].pc.c)) else Disabled
    case ResumeDone(t) =>
      if t < |s| && s[t].pc.AwaitResumed? && s[t].pc.c < |s| && s[s[t].pc.c].done then Next(s[t := Mark(s[t], Running).(pc := Lua)]) else Disabled
    case YieldBegin(t) => if At(s, t, Lua) then Next(DoYieldBegin(s, t)) else Disabled
    case YieldSend(t) =>
      if !At(s, t, Yielding) then Disabled
      else if s[t].yieldQ > 0 then Blocked
      else Next(s[t := s[t].(yieldQ := 1, pc := Receive)])
    case TakeArgs(t) => DoTakeArgs(s, t)
    case Wake(t) => if At(s, t, Woken) then Next(s[t := Mark(s[t], Running).(pc := Lua)]) else Disabled
    case Launch(t) => if At(s, t, Start) then Next(s[t := s[t].(status := Running, pc := FirstReceive)]) else Disabled
    case Finish(t) => if At(s, t, Lua) && t > 0 then Next(s[t := s[t].(status := Dead, pc := Ending)]) else Disabled
    case Exit(t) => if At(s, t, Lua) && t > 0 && s[t].closeFlag then Next(Move(s, t, Ending)) else Disabled
    case EndGoroutine(t) => if !At(s, t, Ending) then Disabled else if s[t].done then Crash else Next(s[t := s[t].(done := true, pc := Over)])
    case CloseBegin(t, c) => if At(s, t, Lua) then Next(DoCloseBegin(s, t, c)) else Disabled
    case CloseSignal(t) => if t < |s| && s[t].pc.Closing? && s[t].pc.c < |s| then DoCloseSignal(s, t, s[t].pc.c) else Disabled
    case CloseDone(t) => if t < |s| && s[t].pc.AwaitClosed? && s[t].pc.c < |s| && s[s[t].pc.c].done then Next(Move(s, t, Closed(s[t].pc.c))) else Disabled
    case CloseFinish(t) =>
      if t < |s| && s[t].pc.Closed? && s[t].pc.c < |s| then
        var s1 := s[s[t].pc.c := s[s[t].pc.c].(status := Dead, known := false)];
        Next(s1[t := s1[t].(pc := Lua)])
      else Disabled
    case CloseDead(t) =>
      if t < |s| && s[t].pc.AwaitDead? && s[t].pc.c < |s| && (s[s[t].pc.c].started ==> s[s[t].pc.c].done) then Next(Move(s, t, Lua)) else Disabled
  }

  /** An error result leaves everything as it is. */
  function DoResumeBegin(s: State, t: nat, c: nat): State
    requires t < |s|
  {
    if 0 < c < |s| && s[c].status == Suspended then s[t := Mark(s[t], Normal).(pc := Resuming(c))] else s
  }

  function DoResumeSend(s: State, t: nat, c: nat): Outcome
    requires t < |s|
  {
    if c >= |s| then Disabled
    else if s[c].closeFlag then Next(s[t := Mark(s[t], Running).(pc := Lua)])
    else if s[c].resumeClosed then Crash
    else if s[c].resumeQ > 0 then Blocked
    else
      var co := s[c].(status := Running, resumeQ := 1, started := true, pc := if s[c].started then s[c].pc else Start);
      var s1 := s[c := co];
      Next(s1[t := s1[t].(pc := AwaitResumed(c))])
  }

  function DoResumeYielded(s: State, t: nat, c: nat): State
    requires t < |s| && c < |s| && s[c].yieldQ > 0
  {
    var s1 := s[c := s[c].(yieldQ := s[c].yieldQ - 1)];
    s1[t := Mark(s1[t], Running).(pc := Lua)]
  }

  /** The main goroutine cannot yield. A coroutine being closed does not. */
  function DoYieldBegin(s: State, t: nat): State
    requires t < |s|
  {
    if t > 0 && !s[t].closeFlag then s[t := Mark(s[t], Suspended).(pc := Yielding)] else s
  }

  /** A receive from the resume channel: what it holds, or word that it was closed. */
  function DoTakeArgs(s: State, t: nat): Outcome {
    if t >= |s| || (s[t].pc != FirstReceive && s[t].pc != Receive) then Disabled
    else if s[t].resumeQ > 0 then Next(s[t := s[t].(resumeQ := s[t].resumeQ - 1, pc := if s[t].pc == Receive then Woken else Lua)])
    else if !s[t].resumeClosed then Disabled
    else if s[t].pc == Receive then Next(Move(s, t, Lua))
    else Next(s[t := s[t].(status := Dead, pc := Ending)])
  }

  /** Closing itself ends a coroutine as returning does, by Finish; the main goroutine cannot be closed. */
  function DoCloseBegin(s: State, t: nat, c: nat): State
    requires t < |s|
  {
    if c == 0 || c >= |s| || c == t || !s[c].known then s
    else match s[c].status
      case Running => s
      case Normal => s
      case Dead =>
        var s1 := s[c := s[c].(known := false)];
        s1[t := s1[t].(pc := AwaitDead(c))]
      case Suspended =>
        var s1 := s[c := s[c].(status := Running, closeFlag := true)];
        s1[t := s1[t].(pc := Closing(c))]
  }

  function DoCloseSignal(s: State, t: nat, c: nat): Outcome
    requires t < |s| && c < |s|
  {
    if !s[c].started then Next(Move(s, t, Closed(c)))
    else if s[c].resumeClosed then Crash
    else
      var s1 := s[c := s[c].(resumeClosed := true)];
      Next(s1[t := s1[t].(pc := AwaitClosed(c))])
  }

  // -- runs --------------------------------------------------------------------------------------

  /** The actions in order, those that are not enabled being left out; any crash or blocked send stays. */
  function Run(acts: seq<Action>): Outcome {
    if acts == [] then Next(Init())
    else
      match Run(acts[..|acts| - 1])
      case Next(s) => (match Apply(s, acts[|acts| - 1]) case Disabled => Next(s) case r => r)
      case r => r
  }
}
