/**
 Models one handshake attempt of performHandshake in src/services/osc/client.ts as a state machine: the
 first send, the resends on a timer, the two awaiters, and the race between their promises.

 A callback, a promise reaction or the settlement of a send is one event, and events come in any order the
 guards in Enabled allow; in particular nothing is assumed about the order of promise reactions.
 */
module Handshake {
  import opened Awaiters
  import opened Options

  datatype Result = Canonical(message: Message) | ByLegacy(message: Message) | Failed

  datatype Phase = FirstSend | Racing | Finished(result: Result)

  datatype Reaction = NotRun | Succeeded | Rejected

  datatype Config = Config(start: int, timeout: int)

  datatype Attempt = Attempt(
    canonical: Awaiter,
    legacy: Legacy,
    phase: Phase,
    closed: bool,
    sendErrorReject: bool,     // whether sendErrorReject is set
    sendError: bool,           // whether sendErrorPromise has been rejected
    resendTimer: Option<nat>,
    armed: map<nat, int>,      // the resend timers neither fired nor cleared, with their deadlines
    nextHandle: nat,
    inFlight: nat,             // resends sent and not settled
    fulfilled: nat,            // resends fulfilled whose reaction has not run
    canonicalReaction: Reaction,
    legacyReaction: bool,      // whether the reaction to the legacy promise has run
    now: int,
    resends: nat)

  datatype Winner = CanonicalWins | LegacyWins | SendErrorWins

  datatype Event =
    | Tick(to: int)
    | FirstSendEnds(ok: bool)
    | MessageArrives(canonical: Option<Message>, legacy: Option<Message>)
    | CanonicalTimerFires(handle: nat)
    | LegacyTimerFires(handle: nat)
    | ResendTimerFires(handle: nat)
    | ResendEnds(ok: bool)
    | ResendReacts
    | CanonicalReacts(parses: bool)
    | LegacyReacts
    | RaceSettles(winner: Winner)

  // ---------- The closures of the attempt ----------

  function Min(x: int, y: int): int {
    if x < y then x else y
  }

  function Max(x: int, y: int): int {
    if x < y then y else x
  }

  /** How long setTimeout waits: at least a millisecond. */
  function TimerDelay(delay: int): (d: int)
    ensures d >= 1 && (delay >= 1 ==> d == delay) && (delay < 1 ==> d == 1)
  {
    Max(1, delay)
  }

  /** A third of the timeout, but at least half a second and at most one. */
  function ResendInterval(timeout: int): (interval: int)
    ensures 500 <= interval <= 1000
    ensures timeout < 1500 ==> interval == 500
    ensures timeout >= 3000 ==> interval == 1000
    ensures 1500 <= timeout < 3000 ==> 3 * interval <= timeout < 3 * interval + 3
  {
    Min(1000, Max(500, timeout / 3))
  }

  function StopResends(s: Attempt): Attempt {
    if s.resendTimer.Some? then s.(armed := s.armed - {s.resendTimer.value}, resendTimer := None) else s
  }

  function FinalizeSuccess(s: Attempt): Attempt {
    if s.closed then s else StopResends(s.(closed := true)).(sendErrorReject := false)
  }

  function FinalizeError(s: Attempt): Attempt {
    if s.closed then s
    else
      var stopped := StopResends(s.(closed := true));
      stopped.(canonical := Cleanup(s.canonical), legacy := LegacyCancelled(s.legacy), sendErrorReject := false)
  }

  function HandleSendError(s: Attempt): Attempt {
    FinalizeError(s).(sendError := s.sendError || s.sendErrorReject)
  }

  function ScheduleNextSend(c: Config, s: Attempt): Attempt {
    var remaining := c.timeout - (s.now - c.start);
    if s.closed || remaining <= 0 then s
    else s.(resendTimer := Some(s.nextHandle), nextHandle := s.nextHandle + 1,
            armed := s.armed[s.nextHandle := s.now + TimerDelay(Min(ResendInterval(c.timeout), remaining))])
  }

  // ---------- The events ----------

  function Initial(c: Config): Attempt {
    Attempt(Created(None), LEGACY_IDLE, FirstSend, false, true, false, None, map[], 0, 0, 0, NotRun, false, c.start, 0)
  }

  function AfterFirstSend(c: Config, s: Attempt, ok: bool): Attempt {
    if ok then ScheduleNextSend(c,
        s.(canonical := Started(s.canonical, s.now + TimerDelay(c.timeout)), phase := Racing))
    else HandleSendError(s).(phase := Finished(Failed))
  }

  function AfterResendTimer(s: Attempt, handle: nat): Attempt {
    var fired := s.(armed := s.armed - {handle}, resendTimer := None);
    if fired.closed then fired else fired.(inFlight := fired.inFlight + 1, resends := fired.resends + 1)
  }

  function AfterResend(s: Attempt, ok: bool): Attempt
    requires s.inFlight > 0
  {
    var ended := s.(inFlight := s.inFlight - 1);
    if ok then ended.(fulfilled := ended.fulfilled + 1) else HandleSendError(ended)
  }

  function AfterCanonical(s: Attempt, parses: bool): Attempt {
    if s.canonical.outcome.Resolved? then
      var won := FinalizeSuccess(s);
      won.(legacy := LegacyCancelled(won.legacy), canonicalReaction := if parses then Succeeded else Rejected)
    else
      FinalizeError(s).(canonicalReaction := Rejected)
  }

  function AfterLegacy(s: Attempt): Attempt {
    var won := FinalizeSuccess(s);
    won.(canonical := Cleanup(won.canonical), legacyReaction := true)
  }

  /** Whether this contender of the race has settled. */
  predicate HasSettled(s: Attempt, winner: Winner) {
    match winner
    case CanonicalWins => s.canonicalReaction != NotRun
    case LegacyWins => s.legacyReaction
    case SendErrorWins => s.sendError
  }

  function ResultOf(s: Attempt, winner: Winner): Result {
    if winner.CanonicalWins? && s.canonicalReaction.Succeeded? && s.canonical.outcome.Resolved?
    then Canonical(s.canonical.outcome.message)
    else if winner.LegacyWins? && s.legacy.outcome.Resolved? then ByLegacy(s.legacy.outcome.message)
    else Failed
  }

  function AfterRace(s: Attempt, winner: Winner): Attempt {
    var result := ResultOf(s, winner);
    StopResends(if result.Failed? then FinalizeError(s) else s).(phase := Finished(result))
  }

  predicate NothingOverdue(armed: map<nat, int>, time: int) {
    forall h | h in armed :: time <= armed[h]
  }

  predicate Enabled(s: Attempt, event: Event) {
    match event
    case Tick(to) => s.now <= to && NothingOverdue(s.armed, to) && NothingOverdue(s.canonical.armed, to)
    case FirstSendEnds(_) => s.phase.FirstSend?
    case MessageArrives(_, _) => true
    case CanonicalTimerFires(h) => h in s.canonical.armed && s.canonical.armed[h] <= s.now
    case LegacyTimerFires(h) => h in s.legacy.armed
    case ResendTimerFires(h) => h in s.armed && s.armed[h] <= s.now
    case ResendEnds(_) => s.inFlight > 0
    case ResendReacts => s.fulfilled > 0
    case CanonicalReacts(_) => !s.phase.FirstSend? && s.canonicalReaction.NotRun? && !s.canonical.outcome.Pending?
    case LegacyReacts => !s.phase.FirstSend? && !s.legacyReaction && !s.legacy.outcome.Pending?
    case RaceSettles(winner) => s.phase.Racing? && HasSettled(s, winner)
  }

  function Apply(c: Config, s: Attempt, event: Event): Attempt
    requires Enabled(s, event)
  {
    match event
    case Tick(to) => s.(now := to)
    case FirstSendEnds(ok) => AfterFirstSend(c, s, ok)
    case MessageArrives(m, l) => s.(canonical := Delivered(s.canonical, m), legacy := LegacyDelivered(s.legacy, l))
    case CanonicalTimerFires(h) => s.(canonical := Expired(s.canonical, h))
    case LegacyTimerFires(h) => s.(legacy := LegacyFired(s.legacy, h))
    case ResendTimerFires(h) => AfterResendTimer(s, h)
    case ResendEnds(ok) => AfterResend(s, ok)
    case ResendReacts => ScheduleNextSend(c, s.(fulfilled := s.fulfilled - 1))
    case CanonicalReacts(parses) => AfterCanonical(s, parses)
    case LegacyReacts => AfterLegacy(s)
    case RaceSettles(winner) => AfterRace(s, winner)
  }

  /** One event; an event that cannot happen now is ignored. */
  function Step(c: Config, s: Attempt, event: Event): Attempt {
    if Enabled(s, event) then Apply(c, s, event) else s
  }

  function Run(c: Config, s: Attempt, events: seq<Event>): Attempt {
    if events == [] then s else Step(c, Run(c, s, events[..|events| - 1]), events[|events| - 1])
  }

  // ---------- What every run keeps ----------

  ghost predicate ClosedMeansReleased(s: Attempt) {
    && (s.closed ==> s.canonical.completed && s.legacy.disposed && s.resendTimer.None?)
    && (s.sendErrorReject <==> !s.closed)
    && (s.sendError || s.canonicalReaction != NotRun || s.legacyReaction || s.phase.Finished? ==> s.closed)
  }

  /** At most one resend is waiting for its timer, on its way, or waiting to schedule the next one. */
  ghost predicate OneResendAtATime(s: Attempt) {
    && s.armed.Keys == (if s.resendTimer.Some? then {s.resendTimer.value} else {})
    && (if s.resendTimer.Some? then 1 else 0) + s.inFlight + s.fulfilled <= 1
    && s.inFlight + s.fulfilled <= s.resends
    && (s.phase.FirstSend? ==> s.resendTimer.None? && s.inFlight == 0 && s.fulfilled == 0)
  }

  ghost predicate Outcomes(s: Attempt) {
    && (s.canonicalReaction.Succeeded? ==> s.canonical.outcome.Resolved?)
    && (s.legacyReaction ==> s.legacy.outcome.Resolved?)
    && (s.canonical.completed && s.canonical.outcome.Pending? ==> s.sendError || s.legacyReaction)
    && (s.phase.FirstSend? ==> !s.canonical.timerStarted && !s.closed)
    && (s.phase.Racing? ==> s.canonical.timerStarted || s.canonical.completed)
    && !s.legacy.outcome.TimedOut?
    && match s.phase
       case Finished(Canonical(m)) => s.canonical.outcome == Resolved(m)
       case Finished(ByLegacy(m)) => s.legacy.outcome == Resolved(m)
       case Finished(Failed) => s.sendError || s.canonicalReaction.Rejected?
       case _ => true
  }

  ghost predicate Inv(s: Attempt) {
    Tidy(s.canonical) && LegacyTidy(s.legacy) && ClosedMeansReleased(s) && OneResendAtATime(s) && Outcomes(s)
  }

  lemma SendsKeepInv(c: Config, s: Attempt, event: Event)
    requires Inv(s) && Enabled(s, event)
    requires event.FirstSendEnds? || event.ResendTimerFires? || event.ResendEnds? || event.ResendReacts?
    ensures Inv(Apply(c, s, event))
  {
  }

  lemma CanonicalKeepsInv(c: Config, s: Attempt, event: Event)
    requires Inv(s) && Enabled(s, event) && event.CanonicalReacts?
    ensures Inv(Apply(c, s, event))
  {
  }

  lemma LegacyKeepsInv(c: Config, s: Attempt, event: Event)
    requires Inv(s) && Enabled(s, event) && event.LegacyReacts?
    ensures Inv(Apply(c, s, event))
  {
  }

  lemma RaceKeepsInv(c: Config, s: Attempt, event: Event)
    requires Inv(s) && Enabled(s, event) && event.RaceSettles?
    ensures Inv(Apply(c, s, event))
  {
  }

  lemma AwaitersKeepInv(c: Config, s: Attempt, event: Event)
    requires Inv(s) && Enabled(s, event)
    requires event.Tick? || event.MessageArrives? || event.CanonicalTimerFires? || event.LegacyTimerFires?
    ensures Inv(Apply(c, s, event))
  {
  }

  lemma StepKeepsInv(c: Config, s: Attempt, event: Event)
    requires Inv(s)
    ensures Inv(Step(c, s, event))
  {
    hide Inv, Apply, Enabled;
    if Enabled(s, event) {
      match event
      case FirstSendEnds(_) | ResendTimerFires(_) | ResendEnds(_) | ResendReacts => SendsKeepInv(c, s, event);
      case CanonicalReacts(_) => CanonicalKeepsInv(c, s, event);
      case LegacyReacts => LegacyKeepsInv(c, s, event);
      case RaceSettles(_) => RaceKeepsInv(c, s, event);
      case _ => AwaitersKeepInv(c, s, event);
    }
  }

  lemma {:induction false} RunKeepsInv(c: Config, events: seq<Event>)
    ensures Inv(Run(c, Initial(c), events))
  {
    hide Step, Inv;
    if events == [] {
      InitialInv(c);
    } else {
      RunKeepsInv(c, events[..|events| - 1]);
      StepKeepsInv(c, Run(c, Initial(c), events[..|events| - 1]), events[|events| - 1]);
    }
  }

  lemma InitialInv(c: Config)
    ensures Inv(Initial(c))
  {
  }

  // ---------- Nothing is left behind ----------

  /** No listener, no pending timeout, no resend to come; a legacy timer can be left, and does nothing. */
  predicate Released(s: Attempt) {
    !s.canonical.listening && s.canonical.armed == map[] && !s.legacy.listening && s.armed == map[]
  }

  /** After a late event a closed attempt has resent nothing and is as released as before. */
  ghost predicate OnlyLeftovers(before: Attempt, after: Attempt) {
    && after.closed
    && after.resends == before.resends
    && after.inFlight <= before.inFlight
    && after.canonical == before.canonical
    && OnlyTimersGone(before.legacy, after.legacy)
    && (before.phase.Finished? ==> after.phase == before.phase)
  }

  lemma ClosedIsReleased(s: Attempt)
    requires Inv(s) && s.closed
    ensures Released(s)
  {
  }

  lemma LateSends(c: Config, s: Attempt, event: Event)
    requires Inv(s) && s.closed && Enabled(s, event)
    requires event.FirstSendEnds? || event.ResendTimerFires? || event.ResendEnds? || event.ResendReacts?
    ensures OnlyLeftovers(s, Apply(c, s, event))
  {
  }

  lemma LateReactions(c: Config, s: Attempt, event: Event)
    requires Inv(s) && s.closed && Enabled(s, event)
    requires event.CanonicalReacts? || event.LegacyReacts? || event.RaceSettles?
    ensures OnlyLeftovers(s, Apply(c, s, event))
  {
  }

  lemma LateEvent(c: Config, s: Attempt, event: Event)
    requires Inv(s) && s.closed
    ensures OnlyLeftovers(s, Step(c, s, event))
  {
    if Enabled(s, event) {
      match event
      case FirstSendEnds(_) | ResendTimerFires(_) | ResendEnds(_) | ResendReacts => LateSends(c, s, event);
      case CanonicalReacts(_) | LegacyReacts | RaceSettles(_) => LateReactions(c, s, event);
      case _ =>
    }
  }

  lemma {:induction false} ClosedStaysClosed(c: Config, s: Attempt, later: seq<Event>)
    requires Inv(s) && s.closed
    ensures Inv(Run(c, s, later)) && OnlyLeftovers(s, Run(c, s, later))
    decreases |later|
  {
    hide Step, Inv;
    if later != [] {
      var before := later[..|later| - 1];
      ClosedStaysClosed(c, s, before);
      LateEvent(c, Run(c, s, before), later[|later| - 1]);
      StepKeepsInv(c, Run(c, s, before), later[|later| - 1]);
    }
  }

  lemma {:induction false} RunAppend(c: Config, s: Attempt, events: seq<Event>, later: seq<Event>)
    ensures Run(c, s, events + later) == Run(c, Run(c, s, events), later)
    decreases |later|
  {
    hide Step;
    if later == [] {
      assert events + later == events;
    } else {
      var all := events + later;
      assert all[..|all| - 1] == events + later[..|later| - 1];
      RunAppend(c, s, events, later[..|later| - 1]);
    }
  }

  /**
   Once an attempt has settled, in any order of events, both listeners are gone and every timer is cleared
   or inert; whatever comes later, also from a send still on its way, nothing is sent or settled again.
   */
  lemma FinishedAttemptsLeaveNothing(c: Config, events: seq<Event>, later: seq<Event>)
    requires Run(c, Initial(c), events).phase.Finished?
    ensures Released(Run(c, Initial(c), events + later))
    ensures Run(c, Initial(c), events + later).phase == Run(c, Initial(c), events).phase
    ensures Run(c, Initial(c), events + later).resends == Run(c, Initial(c), events).resends
    ensures Run(c, Initial(c), events + later).canonical.settlements <= 1
    ensures Run(c, Initial(c), events + later).legacy.settlements <= 1
  {
    hide Run, Step;
    var s := Run(c, Initial(c), events);
    RunKeepsInv(c, events);
    RunAppend(c, Initial(c), events, later);
    ClosedStaysClosed(c, s, later);
    ClosedIsReleased(Run(c, s, later));
  }

  /** Until it closes, an attempt keeps listening for a first reply, and a race has its timeout or its answer. */
  ghost predicate Live(c: Config, s: Attempt) {
    match s.phase
    case FirstSend => s.canonical.listening || s.canonical.outcome.Resolved?
    case Racing =>
      || s.canonical.timer.Some?
      || (s.canonicalReaction.NotRun? && !s.canonical.outcome.Pending?)
      || HasSettled(s, CanonicalWins) || HasSettled(s, LegacyWins) || HasSettled(s, SendErrorWins)
    case Finished(_) => true
  }

  /** No run strands an attempt: unless it is over, its timeout is armed or a reaction is due that ends it. */
  lemma AttemptsAreNeverStranded(c: Config, events: seq<Event>)
    ensures Live(c, Run(c, Initial(c), events))
  {
    RunKeepsInv(c, events);
    hide Run;
  }

  // ---------- That resends keep coming ----------

  /** While the race is open and has time left, a resend is on its way, or due within an interval and the timeout. */
  ghost predicate KeepsResending(c: Config, s: Attempt) {
    s.phase.Racing? && !s.closed && s.now < c.start + c.timeout ==>
      || s.inFlight > 0 || s.fulfilled > 0
      || (s.resendTimer.Some? && s.resendTimer.value in s.armed && s.armed[s.resendTimer.value] <= c.start + c.timeout
          && s.armed[s.resendTimer.value] <= s.now + ResendInterval(c.timeout))
  }

  lemma SendsKeepResending(c: Config, s: Attempt, event: Event)
    requires Inv(s) && KeepsResending(c, s) && Enabled(s, event)
    requires event.FirstSendEnds? || event.ResendTimerFires? || event.ResendEnds? || event.ResendReacts?
    ensures KeepsResending(c, Apply(c, s, event))
  {
    hide ResendInterval, LegacyCancelled;
  }

  lemma OthersKeepResending(c: Config, s: Attempt, event: Event)
    requires Inv(s) && KeepsResending(c, s) && Enabled(s, event)
    requires !(event.FirstSendEnds? || event.ResendTimerFires? || event.ResendEnds? || event.ResendReacts?)
    ensures KeepsResending(c, Apply(c, s, event))
  {
    hide ResendInterval, LegacyCancelled, Inv;
  }

  /**
   In every run, as long as the race is open and its time not over, the next resend is scheduled, at most an interval
   ahead, or the one before has not settled; when the timer fires the request is sent again.
   */
  lemma {:induction false} ResendsKeepComing(c: Config, events: seq<Event>)
    ensures KeepsResending(c, Run(c, Initial(c), events))
  {
    hide Step, Inv;
    if events != [] {
      var before, last := events[..|events| - 1], events[|events| - 1];
      var s := Run(c, Initial(c), before);
      ResendsKeepComing(c, before);
      RunKeepsInv(c, before);
      hide KeepsResending, Apply, Enabled;
      StepsAreApplied(c, s, last);
      if Enabled(s, last) {
        if last.FirstSendEnds? || last.ResendTimerFires? || last.ResendEnds? || last.ResendReacts? {
          SendsKeepResending(c, s, last);
        } else {
          OthersKeepResending(c, s, last);
        }
      }
    }
  }

  lemma StepsAreApplied(c: Config, s: Attempt, event: Event)
    ensures Step(c, s, event) == if Enabled(s, event) then Apply(c, s, event) else s
  {
  }

  /** And firing in an open attempt means sending again. */
  lemma FiringSends(c: Config, s: Attempt, handle: nat)
    requires !s.closed && Enabled(s, ResendTimerFires(handle))
    ensures Step(c, s, ResendTimerFires(handle)).resends == s.resends + 1
    ensures Step(c, s, ResendTimerFires(handle)).inFlight == s.inFlight + 1
  {
  }

  // ---------- How many resends ----------

  ghost predicate Paced(c: Config, s: Attempt) {
    var gap := ResendInterval(c.timeout);
    && (s.resends > 0 ==> (s.resends - 1) * gap < c.timeout)
    && (s.resends * gap <= s.now - c.start || (s.resends > 0 && s.now - c.start >= c.timeout))
    && forall h | h in s.armed ::
         && s.now <= s.armed[h] <= c.start + c.timeout
         && ((s.resends + 1) * gap <= s.armed[h] - c.start
             || (s.armed[h] == c.start + c.timeout && s.resends * gap < c.timeout))
  }

  lemma IntervalIsPositive(timeout: int)
    ensures ResendInterval(timeout) >= 500
  {
  }

  lemma ScheduleKeepsPace(c: Config, s: Attempt)
    requires Paced(c, s) && s.armed == map[]
    ensures Paced(c, ScheduleNextSend(c, s))
  {
    var gap := ResendInterval(c.timeout);
    IntervalIsPositive(c.timeout);
    hide ResendInterval;
    assert (s.resends + 1) * gap == s.resends * gap + gap;
  }

  lemma TimerKeepsPace(c: Config, s: Attempt, handle: nat)
    requires Paced(c, s) && s.armed.Keys == {handle} && s.armed[handle] <= s.now
    ensures Paced(c, AfterResendTimer(s, handle))
  {
    var gap := ResendInterval(c.timeout);
    IntervalIsPositive(c.timeout);
    hide ResendInterval;
    assert handle in s.armed && s.now == s.armed[handle];
    assert (s.resends + 1) * gap == s.resends * gap + gap;
    assert (s.armed - {handle}).Keys == {};
  }

  /** The pace speaks of the resends, the clock and the armed resend timers only. */
  ghost predicate OnlyDisarmed(before: Attempt, after: Attempt) {
    && after.resends == before.resends && after.now == before.now
    && forall h | h in after.armed :: h in before.armed && after.armed[h] == before.armed[h]
  }

  lemma DisarmedKeepsPace(c: Config, s: Attempt, t: Attempt)
    requires Paced(c, s) && OnlyDisarmed(s, t)
    ensures Paced(c, t)
  {
    hide ResendInterval;
  }

  lemma TickKeepsPace(c: Config, s: Attempt, to: int)
    requires Paced(c, s) && s.now <= to && NothingOverdue(s.armed, to)
    ensures Paced(c, s.(now := to))
  {
    hide ResendInterval;
  }

  lemma FinalizersOnlyDisarm(s: Attempt)
    ensures OnlyDisarmed(s, StopResends(s)) && OnlyDisarmed(s, FinalizeError(s)) && OnlyDisarmed(s, FinalizeSuccess(s))
  {
  }

  lemma SendErrorsOnlyDisarm(c: Config, s: Attempt, ok: bool)
    ensures s.inFlight > 0 ==> OnlyDisarmed(s, AfterResend(s, ok))
    ensures !ok ==> OnlyDisarmed(s, AfterFirstSend(c, s, ok))
  {
    hide FinalizeError;
    FinalizersOnlyDisarm(s);
    if s.inFlight > 0 {
      FinalizersOnlyDisarm(s.(inFlight := s.inFlight - 1));
    }
  }

  lemma ReactionsOnlyDisarm(s: Attempt, parses: bool)
    ensures OnlyDisarmed(s, AfterCanonical(s, parses)) && OnlyDisarmed(s, AfterLegacy(s))
  {
    hide FinalizeError, FinalizeSuccess, LegacyCancelled, Cleanup;
    FinalizersOnlyDisarm(s);
  }

  lemma RaceOnlyDisarms(s: Attempt, winner: Winner)
    ensures OnlyDisarmed(s, AfterRace(s, winner))
  {
    hide FinalizeError, StopResends;
    FinalizersOnlyDisarm(s);
    FinalizersOnlyDisarm(FinalizeError(s));
  }

  lemma StepKeepsPace(c: Config, s: Attempt, event: Event)
    requires Paced(c, s) && Inv(s)
    ensures Paced(c, Step(c, s, event))
  {
    hide Paced;
    if Enabled(s, event) {
      match event
      case Tick(to) => TickKeepsPace(c, s, to);
      case FirstSendEnds(true) =>
        var racing := s.(canonical := Started(s.canonical, s.now + TimerDelay(c.timeout)), phase := Racing);
        DisarmedKeepsPace(c, s, racing);
        NoneArmed(s);
        ScheduleKeepsPace(c, racing);
      case ResendTimerFires(h) => TimerKeepsPace(c, s, h);
      case ResendReacts =>
        DisarmedKeepsPace(c, s, s.(fulfilled := s.fulfilled - 1));
        NoneArmed(s);
        ScheduleKeepsPace(c, s.(fulfilled := s.fulfilled - 1));
      case MessageArrives(_, _) | CanonicalTimerFires(_) | LegacyTimerFires(_) =>
        DisarmedKeepsPace(c, s, Apply(c, s, event));
      case RaceSettles(winner) =>
        RaceOnlyDisarms(s, winner);
        DisarmedKeepsPace(c, s, AfterRace(s, winner));
      case CanonicalReacts(parses) =>
        ReactionsOnlyDisarm(s, parses);
        DisarmedKeepsPace(c, s, AfterCanonical(s, parses));
      case LegacyReacts =>
        ReactionsOnlyDisarm(s, true);
        DisarmedKeepsPace(c, s, AfterLegacy(s));
      case _ =>
        SendErrorsOnlyDisarm(c, s, event.ok);
        DisarmedKeepsPace(c, s, Apply(c, s, event));
    }
  }

  lemma NoneArmed(s: Attempt)
    requires OneResendAtATime(s) && (s.phase.FirstSend? || s.fulfilled > 0)
    ensures s.armed == map[]
  {
  }

  /** Resends are at least an interval apart and stop at the timeout: there are at most ceil(timeout / interval). */
  lemma {:induction false} ResendsAreBounded(c: Config, events: seq<Event>)
    ensures Paced(c, Run(c, Initial(c), events))
    ensures Run(c, Initial(c), events).resends > 0 ==>
              (Run(c, Initial(c), events).resends - 1) * ResendInterval(c.timeout) < c.timeout
  {
    hide Step, Inv;
    if events != [] {
      ResendsAreBounded(c, events[..|events| - 1]);
      RunKeepsInv(c, events[..|events| - 1]);
      hide Paced;
      StepKeepsPace(c, Run(c, Initial(c), events[..|events| - 1]), events[|events| - 1]);
      PacedMeansFew(c, Run(c, Initial(c), events));
    }
  }

  lemma PacedMeansFew(c: Config, s: Attempt)
    requires Paced(c, s)
    ensures s.resends > 0 ==> (s.resends - 1) * ResendInterval(c.timeout) < c.timeout
  {
  }

  /** The event resends the handshake. */
  predicate Resends(s: Attempt, event: Event) {
    event.ResendTimerFires? && Enabled(s, event) && !s.closed
  }

  /** The next resend is an interval after t, or exactly at the timeout. */
  ghost predicate NextResendAfter(c: Config, s: Attempt, t: int) {
    && t <= s.now
    && forall h | h in s.armed :: t + ResendInterval(c.timeout) <= s.armed[h] || s.armed[h] == c.start + c.timeout
  }

  lemma DisarmedKeepsNext(c: Config, s: Attempt, after: Attempt, t: int)
    requires NextResendAfter(c, s, t) && OnlyDisarmed(s, after)
    ensures NextResendAfter(c, after, t)
  {
    hide ResendInterval;
  }

  lemma ScheduleKeepsNext(c: Config, s: Attempt, t: int)
    requires NextResendAfter(c, s, t)
    ensures NextResendAfter(c, ScheduleNextSend(c, s), t)
  {
  }

  lemma StepKeepsNext(c: Config, s: Attempt, event: Event, t: int)
    requires NextResendAfter(c, s, t)
    ensures NextResendAfter(c, Step(c, s, event), t)
  {
    hide NextResendAfter, OnlyDisarmed;
    if Enabled(s, event) {
      match event
      case Tick(to) => TickKeepsNext(c, s, to, t);
      case FirstSendEnds(true) =>
        var racing := s.(canonical := Started(s.canonical, s.now + TimerDelay(c.timeout)), phase := Racing);
        SameTimers(s, racing);
        DisarmedKeepsNext(c, s, racing, t);
        ScheduleKeepsNext(c, racing, t);
      case ResendTimerFires(h) => FiredKeepsNext(c, s, h, t);
      case ResendReacts =>
        SameTimers(s, s.(fulfilled := s.fulfilled - 1));
        DisarmedKeepsNext(c, s, s.(fulfilled := s.fulfilled - 1), t);
        ScheduleKeepsNext(c, s.(fulfilled := s.fulfilled - 1), t);
      case MessageArrives(_, _) | CanonicalTimerFires(_) | LegacyTimerFires(_) =>
        SameTimers(s, Apply(c, s, event));
        DisarmedKeepsNext(c, s, Apply(c, s, event), t);
      case RaceSettles(winner) =>
        RaceOnlyDisarms(s, winner);
        DisarmedKeepsNext(c, s, AfterRace(s, winner), t);
      case CanonicalReacts(parses) =>
        ReactionsOnlyDisarm(s, parses);
        DisarmedKeepsNext(c, s, AfterCanonical(s, parses), t);
      case LegacyReacts =>
        ReactionsOnlyDisarm(s, true);
        DisarmedKeepsNext(c, s, AfterLegacy(s), t);
      case _ =>
        SendErrorsOnlyDisarm(c, s, event.ok);
        DisarmedKeepsNext(c, s, Apply(c, s, event), t);
    }
  }

  lemma SameTimers(s: Attempt, after: Attempt)
    requires after.armed == s.armed && after.resends == s.resends && after.now == s.now
    ensures OnlyDisarmed(s, after)
  {
  }

  lemma TickKeepsNext(c: Config, s: Attempt, to: int, t: int)
    requires NextResendAfter(c, s, t) && s.now <= to
    ensures NextResendAfter(c, s.(now := to), t)
  {
    hide ResendInterval;
  }

  lemma FiredKeepsNext(c: Config, s: Attempt, handle: nat, t: int)
    requires NextResendAfter(c, s, t)
    ensures NextResendAfter(c, AfterResendTimer(s, handle), t)
  {
    hide ResendInterval;
  }

  lemma {:induction false} NextResendFrom(c: Config, s: Attempt, events: seq<Event>, t: int)
    requires NextResendAfter(c, s, t)
    ensures NextResendAfter(c, Run(c, s, events), t)
    decreases |events|
  {
    hide Step, NextResendAfter;
    if events == [] {
      assert Run(c, s, events) == s;
    } else {
      NextResendFrom(c, s, events[..|events| - 1], t);
      StepKeepsNext(c, Run(c, s, events[..|events| - 1]), events[|events| - 1], t);
    }
  }

  /** Two resends of one attempt are an interval apart, unless the later one is at the very timeout. */
  lemma ResendsAreApart(c: Config, events: seq<Event>, i: nat, j: nat)
    requires i < j < |events|
    requires Resends(Run(c, Initial(c), events[..i]), events[i]) && Resends(Run(c, Initial(c), events[..j]), events[j])
    ensures var first, second := Run(c, Initial(c), events[..i]).now, Run(c, Initial(c), events[..j]).now;
            first + ResendInterval(c.timeout) <= second || second == c.start + c.timeout
  {
    var s, t := Run(c, Initial(c), events[..i]), Run(c, Initial(c), events[..j]);
    var between := events[i + 1..j];
    assert events[..i + 1][..i] == events[..i] && events[..j] == events[..i + 1] + between;
    RunKeepsInv(c, events[..i]);
    RunAppend(c, Initial(c), events[..i + 1], between);
    ResendsAreBounded(c, events[..j]);
    assert Run(c, Initial(c), events[..i + 1]) == Step(c, s, events[i]);
    hide Run;
    assert (s.armed - {events[i].handle}).Keys == {};
    NextResendFrom(c, Step(c, s, events[i]), between, s.now);
    assert events[j].handle in t.armed && t.armed[events[j].handle] == t.now;
  }

  // ---------- How long the race lasts ----------

  ghost predicate WaitsUntil(s: Attempt, deadline: int) {
    && !s.phase.FirstSend?
    && (s.canonical.outcome.TimedOut? ==> deadline <= s.now)
    && forall h | h in s.canonical.armed :: s.canonical.armed[h] == deadline && s.now <= deadline
  }

  lemma StepKeepsWait(c: Config, s: Attempt, event: Event, deadline: int)
    requires Inv(s) && WaitsUntil(s, deadline)
    ensures WaitsUntil(Step(c, s, event), deadline)
  {
    hide StopResends, ScheduleNextSend, LegacyCancelled;
    if Enabled(s, event) {
      KeepsCanonicalTimers(c, s, event);
      if !event.CanonicalTimerFires? {
        OnlyTheTimerExpires(c, s, event);
      }
    }
  }

  lemma OnlyTheTimerExpires(c: Config, s: Attempt, event: Event)
    requires Enabled(s, event) && !event.CanonicalTimerFires?
    ensures Apply(c, s, event).canonical.outcome.TimedOut? ==> s.canonical.outcome.TimedOut?
  {
    hide LegacyCancelled;
  }

  /** Once the race is on, no event sets a canonical timer. */
  lemma KeepsCanonicalTimers(c: Config, s: Attempt, event: Event)
    requires Inv(s) && Enabled(s, event) && !s.phase.FirstSend?
    ensures SetsNoCanonicalTimer(s, Apply(c, s, event))
    ensures Apply(c, s, event).now == if event.Tick? then event.to else s.now
  {
    match event
    case CanonicalReacts(_) => EndsSetNoTimer(s);
      hide FinalizeError, FinalizeSuccess, LegacyCancelled, Inv;
    case LegacyReacts => EndsSetNoTimer(s);
      hide FinalizeError, FinalizeSuccess, LegacyCancelled, Inv;
    case RaceSettles(_) => EndsSetNoTimer(s);
      hide FinalizeError, FinalizeSuccess, LegacyCancelled, Inv;
    case ResendTimerFires(_) => ResendsSetNoTimer(c, s, event);
    case ResendEnds(_) => ResendsSetNoTimer(c, s, event);
    case ResendReacts => ResendsSetNoTimer(c, s, event);
    case _ => hide Inv;
  }

  ghost predicate SetsNoCanonicalTimer(s: Attempt, after: Attempt) {
    && after.canonical.armed.Keys <= s.canonical.armed.Keys
    && (forall h | h in after.canonical.armed :: after.canonical.armed[h] == s.canonical.armed[h])
    && !after.phase.FirstSend?
  }

  lemma EndsSetNoTimer(s: Attempt)
    requires !s.phase.FirstSend?
    ensures SetsNoCanonicalTimer(s, FinalizeError(s)) && FinalizeError(s).now == s.now
    ensures SetsNoCanonicalTimer(s, FinalizeSuccess(s)) && FinalizeSuccess(s).now == s.now
    ensures SetsNoCanonicalTimer(s, StopResends(FinalizeError(s))) && StopResends(FinalizeError(s)).now == s.now
  {
    hide LegacyCancelled;
  }

  lemma ResendsSetNoTimer(c: Config, s: Attempt, event: Event)
    requires Enabled(s, event) && !s.phase.FirstSend?
    requires event.ResendTimerFires? || event.ResendEnds? || event.ResendReacts?
    ensures SetsNoCanonicalTimer(s, Apply(c, s, event)) && Apply(c, s, event).now == s.now
  {
    hide LegacyCancelled;
  }

  lemma {:induction false} RaceWaitsUntil(c: Config, s: Attempt, later: seq<Event>, deadline: int)
    requires Inv(s) && WaitsUntil(s, deadline)
    ensures Inv(Run(c, s, later)) && WaitsUntil(Run(c, s, later), deadline)
    decreases |later|
  {
    hide Step, Inv, WaitsUntil;
    if later != [] {
      var before := later[..|later| - 1];
      RaceWaitsUntil(c, s, before, deadline);
      StepKeepsWait(c, Run(c, s, before), later[|later| - 1], deadline);
      StepKeepsInv(c, Run(c, s, before), later[|later| - 1]);
    }
  }

  /** Past the timeout, counted from the end of the first send, a race is over or a reaction that ends it is due. */
  lemma RacesEndInTime(c: Config, events: seq<Event>, later: seq<Event>)
    requires Run(c, Initial(c), events).phase.FirstSend?
    requires var deadline := Run(c, Initial(c), events).now + TimerDelay(c.timeout);
             deadline < Run(c, Initial(c), events + [FirstSendEnds(true)] + later).now
    ensures var s := Run(c, Initial(c), events + [FirstSendEnds(true)] + later);
            || s.phase.Finished?
            || (s.canonicalReaction.NotRun? && !s.canonical.outcome.Pending?)
            || HasSettled(s, CanonicalWins) || HasSettled(s, LegacyWins) || HasSettled(s, SendErrorWins)
  {
    var s := Run(c, Initial(c), events);
    var deadline := s.now + TimerDelay(c.timeout);
    var all := events + [FirstSendEnds(true)];
    assert all[..|all| - 1] == events;
    RunKeepsInv(c, events);
    RunKeepsInv(c, all);
    RunAppend(c, Initial(c), all, later);
    assert Run(c, Initial(c), all) == Step(c, s, FirstSendEnds(true));
    hide Run;
    assert WaitsUntil(Step(c, s, FirstSendEnds(true)), deadline);
    RaceWaitsUntil(c, Step(c, s, FirstSendEnds(true)), later, deadline);
    AttemptsAreNeverStranded(c, all + later);
    hide Step;
    WaitIsOver(Run(c, Initial(c), all + later), deadline);
  }

  /** And not before: if the attempt times out, the timeout has passed since the first send ended. */
  lemma RacesHaveTheirTime(c: Config, events: seq<Event>, later: seq<Event>)
    requires Run(c, Initial(c), events).phase.FirstSend?
    requires Run(c, Initial(c), events + [FirstSendEnds(true)] + later).canonical.outcome.TimedOut?
    ensures Run(c, Initial(c), events).now + c.timeout <= Run(c, Initial(c), events + [FirstSendEnds(true)] + later).now
  {
    var s := Run(c, Initial(c), events);
    var all := events + [FirstSendEnds(true)];
    assert all[..|all| - 1] == events;
    RunKeepsInv(c, events);
    RunKeepsInv(c, all);
    RunAppend(c, Initial(c), all, later);
    assert Run(c, Initial(c), all) == Step(c, s, FirstSendEnds(true));
    hide Run;
    assert WaitsUntil(Step(c, s, FirstSendEnds(true)), s.now + TimerDelay(c.timeout));
    RaceWaitsUntil(c, Step(c, s, FirstSendEnds(true)), later, s.now + TimerDelay(c.timeout));
  }

  lemma WaitIsOver(s: Attempt, deadline: int)
    requires Inv(s) && WaitsUntil(s, deadline) && deadline < s.now
    ensures s.canonical.timer.None?
  {
    forall h
      ensures h !in s.canonical.armed.Keys
    {
    }
  }
}
