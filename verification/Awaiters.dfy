/**
 Models createResponseAwaiter and createLegacyHandshakeAwaiter of src/services/osc/client.ts, first as
 values, then as the classes whose fields the closures of the source update.

 `listening` says that the awaiter's listener is in the gateway's set; `armed` holds the timers it has set
 that have neither fired nor been cleared, while `timer` is the handle it remembers. Messages are numbers.
 A promise keeps its first settlement; `settlements` counts the calls of resolve and reject.
 */
module Awaiters {
  import opened Options

  type Message = nat

  datatype Outcome = Pending | Resolved(message: Message) | TimedOut

  function Settle(before: Outcome, outcome: Outcome): Outcome {
    if before.Pending? then outcome else before
  }

  // ---------- The response awaiter ----------

  datatype Awaiter = Awaiter(
    listening: bool,
    armed: map<nat, int>,      // deadlines, by handle
    timer: Option<nat>,
    timerStarted: bool,
    completed: bool,
    outcome: Outcome,
    settlements: nat,
    nextHandle: nat)

  datatype AwaiterEvent =
    | Incoming(matched: Option<Message>)   // a gateway message, and what the matcher makes of it
    | TimerFires(handle: nat)
    | StartTimer(deadline: int)
    | Cancel

  function Cleanup(a: Awaiter): Awaiter {
    if a.completed then a
    else a.(completed := true, armed := if a.timer.Some? then a.armed - {a.timer.value} else a.armed, timer := None,
            listening := false)
  }

  function Started(a: Awaiter, deadline: int): Awaiter {
    if a.timerStarted || a.completed then a
    else a.(timerStarted := true, timer := Some(a.nextHandle), armed := a.armed[a.nextHandle := deadline],
            nextHandle := a.nextHandle + 1)
  }

  function Delivered(a: Awaiter, matched: Option<Message>): Awaiter {
    if !a.listening || matched.None? then a
    else
      var done := Cleanup(a);
      done.(outcome := Settle(done.outcome, Resolved(matched.value)), settlements := done.settlements + 1)
  }

  function Expired(a: Awaiter, handle: nat): Awaiter {
    if handle !in a.armed then a
    else
      var done := Cleanup(a.(armed := a.armed - {handle}));
      done.(outcome := Settle(done.outcome, TimedOut), settlements := done.settlements + 1)
  }

  function Next(a: Awaiter, event: AwaiterEvent): Awaiter {
    match event
    case Incoming(matched) => Delivered(a, matched)
    case TimerFires(handle) => Expired(a, handle)
    case StartTimer(deadline) => Started(a, deadline)
    case Cancel => Cleanup(a)
  }

  function Run(a: Awaiter, events: seq<AwaiterEvent>): Awaiter {
    if events == [] then a else Next(Run(a, events[..|events| - 1]), events[|events| - 1])
  }

  const IDLE: Awaiter := Awaiter(true, map[], None, false, false, Pending, 0, 0)

  /** A new awaiter; its timer is running unless autoStartTimer is false. */
  function Created(deadline: Option<int>): Awaiter {
    if deadline.Some? then Started(IDLE, deadline.value) else IDLE
  }

  /** The listener and the timer live exactly as long as the awaiter is not completed. */
  ghost predicate Tidy(a: Awaiter) {
    && (a.listening <==> !a.completed)
    && a.armed.Keys == (if a.timer.Some? then {a.timer.value} else {})
    && (a.timer.Some? <==> a.timerStarted && !a.completed)
    && a.settlements == (if a.outcome.Pending? then 0 else 1)
    && (!a.outcome.Pending? ==> a.completed)
    && (!a.timerStarted ==> a.nextHandle == 0 && !a.outcome.TimedOut?)
  }

  lemma StepKeepsTidy(a: Awaiter, event: AwaiterEvent)
    requires Tidy(a)
    ensures Tidy(Next(a, event))
    ensures a.completed ==> Next(a, event) == a
  {
  }

  /** In every order of replies, expiry and cancels, the awaiter settles at most once and is then inert. */
  lemma {:induction false} AwaiterSettlesOnce(deadline: Option<int>, events: seq<AwaiterEvent>,
      later: seq<AwaiterEvent>)
    ensures Tidy(Run(Created(deadline), events)) && Run(Created(deadline), events).settlements <= 1
    ensures Run(Created(deadline), events).completed ==>
              Run(Created(deadline), events + later) == Run(Created(deadline), events)
    decreases |events| + |later|
  {
    var a := Created(deadline);
    if later != [] {
      var all := events + later;
      assert all[..|all| - 1] == events + later[..|later| - 1];
      AwaiterSettlesOnce(deadline, events, later[..|later| - 1]);
      AwaiterSettlesOnce(deadline, all[..|all| - 1], []);
      StepKeepsTidy(Run(a, all[..|all| - 1]), all[|all| - 1]);
    } else if events != [] {
      AwaiterSettlesOnce(deadline, events[..|events| - 1], []);
      StepKeepsTidy(Run(a, events[..|events| - 1]), events[|events| - 1]);
      assert events + later == events;
    } else {
      assert events + later == [];
    }
  }

  /** What the first decisive event says, read off the history alone. */
  function Decision(started: bool, events: seq<AwaiterEvent>): Outcome
    decreases |events|
  {
    if events == [] then Pending
    else match events[0]
      case Incoming(matched) => if matched.Some? then Resolved(matched.value) else Decision(started, events[1..])
      case TimerFires(handle) => if started && handle == 0 then TimedOut else Decision(started, events[1..])
      case StartTimer(_) => Decision(true, events[1..])
      case Cancel => Pending
  }

  /** The promise carries the first reply or expiry; a cancel that comes first leaves it pending for good. */
  lemma FirstEventDecides(deadline: Option<int>, events: seq<AwaiterEvent>)
    ensures Run(Created(deadline), events).outcome == Decision(deadline.Some?, events)
  {
    RunFrom(Created(deadline), events);
    DecidesFrom(Created(deadline), events);
  }

  /** The same run, first event first. */
  function RunForward(a: Awaiter, events: seq<AwaiterEvent>): Awaiter
    decreases |events|
  {
    if events == [] then a else RunForward(Next(a, events[0]), events[1..])
  }

  lemma {:induction false} RunFrom(a: Awaiter, events: seq<AwaiterEvent>)
    ensures Run(a, events) == RunForward(a, events)
    decreases |events|
  {
    if |events| > 1 {
      var last := |events| - 1;
      RunFrom(a, events[..last]);
      RunFrom(Next(a, events[0]), events[1..]);
      RunFrom(Next(a, events[0]), events[1..last]);
      assert events[1..][..last - 1] == events[1..last] == events[..last][1..];
    } else if |events| == 1 {
      assert events[..0] == [] && events[1..] == [];
    }
  }

  lemma {:induction false} DecidesFrom(a: Awaiter, events: seq<AwaiterEvent>)
    requires Tidy(a) && (a.timer.Some? ==> a.timer.value == 0) && (a.timerStarted ==> a.nextHandle == 1)
    ensures RunForward(a, events).outcome == if a.completed then a.outcome else Decision(a.timerStarted, events)
    decreases |events|
  {
    if events != [] {
      StepKeepsTidy(a, events[0]);
      DecidesFrom(Next(a, events[0]), events[1..]);
    }
  }

  // ---------- The legacy handshake awaiter ----------

  /**
   Every legacy message sets another timer of zero delay and overwrites the remembered handle, so timers
   can stay armed after the awaiter is disposed; `disposed` makes them inert.
   */
  datatype Legacy = Legacy(
    listening: bool,
    armed: map<nat, Message>,   // the message each armed timer will resolve with, by handle
    timer: Option<nat>,
    disposed: bool,
    outcome: Outcome,
    settlements: nat,
    nextHandle: nat)

  datatype LegacyEvent =
    | LegacyIncoming(legacy: Option<Message>)
    | LegacyFires(handle: nat)
    | LegacyCancel

  function LegacyDelivered(l: Legacy, legacy: Option<Message>): Legacy {
    if !l.listening || legacy.None? then l
    else l.(timer := Some(l.nextHandle), armed := l.armed[l.nextHandle := legacy.value], nextHandle := l.nextHandle + 1)
  }

  function LegacyFired(l: Legacy, handle: nat): Legacy {
    if handle !in l.armed then l
    else
      var fired := l.(armed := l.armed - {handle}, timer := None);
      if fired.disposed then fired
      else fired.(disposed := true, listening := false, outcome := Settle(fired.outcome, Resolved(l.armed[handle])),
                  settlements := fired.settlements + 1)
  }

  function LegacyCancelled(l: Legacy): Legacy {
    if l.disposed then l
    else l.(disposed := true, armed := if l.timer.Some? then l.armed - {l.timer.value} else l.armed, timer := None,
            listening := false)
  }

  function NextLegacy(l: Legacy, event: LegacyEvent): Legacy {
    match event
    case LegacyIncoming(legacy) => LegacyDelivered(l, legacy)
    case LegacyFires(handle) => LegacyFired(l, handle)
    case LegacyCancel => LegacyCancelled(l)
  }

  function RunLegacy(l: Legacy, events: seq<LegacyEvent>): Legacy {
    if events == [] then l else NextLegacy(RunLegacy(l, events[..|events| - 1]), events[|events| - 1])
  }

  const LEGACY_IDLE: Legacy := Legacy(true, map[], None, false, Pending, 0, 0)

  ghost predicate LegacyTidy(l: Legacy) {
    && (l.listening <==> !l.disposed)
    && (forall h | h in l.armed :: h < l.nextHandle)
    && (!l.disposed ==> l.timer == (if l.nextHandle == 0 then None else Some(l.nextHandle - 1)))
    && (!l.disposed ==> forall h: nat | h < l.nextHandle :: h in l.armed)
    && (l.disposed ==> l.timer.None?)
    && l.settlements == (if l.outcome.Pending? then 0 else 1)
    && (!l.outcome.Pending? ==> l.disposed)
  }

  /** The disposed awaiter differs from before only in timers that have fired. */
  ghost predicate OnlyTimersGone(before: Legacy, after: Legacy) {
    after == before.(armed := after.armed) && after.armed.Keys <= before.armed.Keys
  }

  lemma LegacyStepKeepsTidy(l: Legacy, event: LegacyEvent)
    requires LegacyTidy(l)
    ensures LegacyTidy(NextLegacy(l, event))
    ensures l.disposed ==> OnlyTimersGone(l, NextLegacy(l, event))
  {
  }

  /** In every order of events it settles at most once; once disposed, it only runs out of inert timers. */
  lemma {:induction false} LegacySettlesOnce(events: seq<LegacyEvent>, later: seq<LegacyEvent>)
    ensures LegacyTidy(RunLegacy(LEGACY_IDLE, events)) && RunLegacy(LEGACY_IDLE, events).settlements <= 1
    ensures RunLegacy(LEGACY_IDLE, events).disposed ==>
              OnlyTimersGone(RunLegacy(LEGACY_IDLE, events), RunLegacy(LEGACY_IDLE, events + later))
    decreases |events| + |later|
  {
    var l := LEGACY_IDLE;
    if later != [] {
      var all := events + later;
      assert all[..|all| - 1] == events + later[..|later| - 1];
      LegacySettlesOnce(events, later[..|later| - 1]);
      LegacySettlesOnce(all[..|all| - 1], []);
      LegacyStepKeepsTidy(RunLegacy(l, all[..|all| - 1]), all[|all| - 1]);
    } else if events != [] {
      LegacySettlesOnce(events[..|events| - 1], []);
      LegacyStepKeepsTidy(RunLegacy(l, events[..|events| - 1]), events[|events| - 1]);
      assert events + later == events;
    } else {
      assert events + later == [];
    }
  }

  /** What the history says, given the messages that have arrived so far: each one's timer is known by its rank. */
  function LegacyDecision(arrived: seq<Message>, events: seq<LegacyEvent>): Outcome
    decreases |events|
  {
    if events == [] then Pending
    else match events[0]
      case LegacyIncoming(legacy) =>
        LegacyDecision(if legacy.Some? then arrived + [legacy.value] else arrived, events[1..])
      case LegacyFires(handle) =>
        if handle < |arrived| then Resolved(arrived[handle]) else LegacyDecision(arrived, events[1..])
      case LegacyCancel => Pending
  }

  /** The promise carries the message whose timer fires first; a cancel that comes before leaves it pending for good. */
  lemma FirstLegacyTimerDecides(events: seq<LegacyEvent>)
    ensures RunLegacy(LEGACY_IDLE, events).outcome == LegacyDecision([], events)
  {
    LegacyRunFrom(LEGACY_IDLE, events);
    LegacyDecidesFrom(LEGACY_IDLE, [], events);
  }

  /** The same run, first event first. */
  function LegacyForward(l: Legacy, events: seq<LegacyEvent>): Legacy
    decreases |events|
  {
    if events == [] then l else LegacyForward(NextLegacy(l, events[0]), events[1..])
  }

  lemma {:induction false} LegacyRunFrom(l: Legacy, events: seq<LegacyEvent>)
    ensures RunLegacy(l, events) == LegacyForward(l, events)
    decreases |events|
  {
    if |events| > 1 {
      var last := |events| - 1;
      LegacyRunFrom(l, events[..last]);
      LegacyRunFrom(NextLegacy(l, events[0]), events[1..]);
      LegacyRunFrom(NextLegacy(l, events[0]), events[1..last]);
      assert events[1..][..last - 1] == events[1..last] == events[..last][1..];
    } else if |events| == 1 {
      assert events[..0] == [] && events[1..] == [];
    }
  }

  lemma {:induction false} LegacyDecidesFrom(l: Legacy, arrived: seq<Message>, events: seq<LegacyEvent>)
    requires LegacyTidy(l) && (!l.disposed ==> l.nextHandle == |arrived| && l.outcome.Pending?)
    requires !l.disposed ==> forall h: nat | h < |arrived| :: l.armed[h] == arrived[h]
    ensures LegacyForward(l, events).outcome == if l.disposed then l.outcome else LegacyDecision(arrived, events)
    decreases |events|
  {
    if events != [] {
      LegacyStepKeepsTidy(l, events[0]);
      var arrived' := if events[0].LegacyIncoming? && events[0].legacy.Some? then arrived + [events[0].legacy.value]
                      else arrived;
      LegacyDecidesFrom(NextLegacy(l, events[0]), arrived', events[1..]);
    }
  }

  /** Cancelling clears the timer of the last legacy message only: nothing stays armed iff at most one arrived. */
  lemma CancelClearsLastTimer(l: Legacy)
    requires LegacyTidy(l) && !l.disposed
    ensures LegacyCancelled(l).armed == map[] <==> l.nextHandle <= 1
    ensures forall h: nat :: h in LegacyCancelled(l).armed <==> h + 1 < l.nextHandle
  {
    var after := LegacyCancelled(l);
    if l.nextHandle > 1 {
      assert 0 in after.armed;
    } else {
      assert forall h | h in after.armed :: h < 0;
    }
  }
}
