/**
 Models performHandshake of src/services/osc/client.ts: a handshake attempt and, if it fails by a timeout
 and no transport was asked for, a second attempt over the other transport.
 */
module HandshakeRetry {
  import opened Awaiters
  import opened Handshake
  import opened Options

  datatype Call = Call(
    forced: bool,              // whether a transport was asked for
    timeout: int,
    first: Attempt, firstStart: int,
    second: Option<Attempt>, secondStart: int,
    gaveUp: bool)              // whether the first attempt's failure was final

  datatype CallEvent =
    | Clock(to: int)
    | InFirst(event: Event)
    | InSecond(event: Event)
    | FirstRejected(timedOut: bool)   // the continuation of the first attempt's rejection

  function Begin(forced: bool, timeout: int, now: int): Call {
    Call(forced, timeout, Initial(Config(now, timeout)), now, None, now, false)
  }

  function FirstConfig(call: Call): Config {
    Config(call.firstStart, call.timeout)
  }

  function SecondConfig(call: Call): Config {
    Config(call.secondStart, call.timeout)
  }

  function StepCall(call: Call, event: CallEvent): Call {
    match event
    case Clock(to) =>
      if Enabled(call.first, Tick(to)) && (call.second.Some? ==> Enabled(call.second.value, Tick(to))) then
        call.(first := call.first.(now := to),
              second := if call.second.Some? then Some(call.second.value.(now := to)) else None)
      else call
    case InFirst(e) => if e.Tick? then call else call.(first := Step(FirstConfig(call), call.first, e))
    case InSecond(e) =>
      if e.Tick? || call.second.None? then call
      else call.(second := Some(Step(SecondConfig(call), call.second.value, e)))
    case FirstRejected(timedOut) =>
      if call.first.phase != Finished(Failed) || call.second.Some? || call.gaveUp then call
      else if timedOut && !call.forced then
        call.(second := Some(Initial(Config(call.first.now, call.timeout))), secondStart := call.first.now)
      else call.(gaveUp := true)
  }

  /** The events that can happen to a call now. */
  predicate CanHappen(call: Call, event: CallEvent) {
    match event
    case Clock(to) => Enabled(call.first, Tick(to)) && (call.second.Some? ==> Enabled(call.second.value, Tick(to)))
    case InFirst(e) => !e.Tick? && Enabled(call.first, e)
    case InSecond(e) => !e.Tick? && call.second.Some? && Enabled(call.second.value, e)
    case FirstRejected(_) => call.first.phase == Finished(Failed) && call.second.None? && !call.gaveUp
  }

  function RunCall(call: Call, events: seq<CallEvent>): Call {
    if events == [] then call else StepCall(RunCall(call, events[..|events| - 1]), events[|events| - 1])
  }

  /** The promise of performHandshake has settled. */
  predicate IsOver(call: Call) {
    || (call.first.phase.Finished? && call.first.phase != Finished(Failed))
    || call.gaveUp
    || (call.second.Some? && call.second.value.phase.Finished?)
  }

  /** The call is still over, with the same attempts, and nothing has been sent since. */
  predicate StaysOver(before: Call, after: Call) {
    && IsOver(after) && after.first.resends == before.first.resends
    && (after.second.Some? <==> before.second.Some?)
    && (after.second.Some? ==> after.second.value.resends == before.second.value.resends)
  }

  ghost predicate CallInv(call: Call) {
    && Inv(call.first)
    && (call.gaveUp ==> call.first.phase == Finished(Failed) && call.second.None?)
    && (call.second.Some? ==> Inv(call.second.value) && call.first.phase == Finished(Failed) && !call.forced)
    && (call.first.phase.Finished? ==> call.first.closed)
    && Paced(FirstConfig(call), call.first)
  }

  lemma FinishedIsClosed(s: Attempt)
    requires Inv(s)
    ensures s.phase.Finished? ==> s.closed
  {
  }

  lemma FinishedStays(c: Config, s: Attempt, event: Event)
    requires Inv(s) && s.phase.Finished?
    ensures Step(c, s, event).phase == s.phase && Step(c, s, event).resends == s.resends && Step(c, s, event).closed
  {
    hide Step;
    LateEvent(c, s, event);
  }

  lemma StepKeepsCallInv(call: Call, event: CallEvent)
    requires CallInv(call)
    ensures CallInv(StepCall(call, event))
    ensures IsOver(call) ==> StaysOver(call, StepCall(call, event))
  {
    hide Inv, Paced;
    match event
    case Clock(to) =>
      StepKeepsInv(FirstConfig(call), call.first, Tick(to));
      StepKeepsPace(FirstConfig(call), call.first, Tick(to));
      if call.second.Some? {
        StepKeepsInv(SecondConfig(call), call.second.value, Tick(to));
      }
    case InFirst(e) =>
      hide Step;
      StepKeepsInv(FirstConfig(call), call.first, e);
      StepKeepsPace(FirstConfig(call), call.first, e);
      FinishedIsClosed(Step(FirstConfig(call), call.first, e));
      if call.first.phase.Finished? {
        FinishedStays(FirstConfig(call), call.first, e);
      }
    case InSecond(e) =>
      hide Step;
      if call.second.Some? {
        StepKeepsInv(SecondConfig(call), call.second.value, e);
        if call.second.value.phase.Finished? {
          FinishedStays(SecondConfig(call), call.second.value, e);
        }
      }
    case FirstRejected(timedOut) =>
      InitialInv(Config(call.first.now, call.timeout));
  }

  lemma {:induction false} CallKeepsInv(call: Call, events: seq<CallEvent>)
    requires CallInv(call)
    ensures CallInv(RunCall(call, events))
    ensures IsOver(call) ==> StaysOver(call, RunCall(call, events))
    decreases |events|
  {
    hide StepCall, CallInv, IsOver;
    if events != [] {
      CallKeepsInv(call, events[..|events| - 1]);
      StepKeepsCallInv(RunCall(call, events[..|events| - 1]), events[|events| - 1]);
    }
  }

  lemma BeginInv(forced: bool, timeout: int, now: int)
    ensures CallInv(Begin(forced, timeout, now))
  {
    InitialInv(Config(now, timeout));
  }

  /**
   The second attempt starts only when the first has released its listeners and timers, and never if a transport
   was asked for; one resend of the first attempt, at most, can still be on its way.
   */
  lemma RetryFollowsRelease(forced: bool, timeout: int, now: int, events: seq<CallEvent>)
    ensures var call := RunCall(Begin(forced, timeout, now), events);
            call.second.Some? ==>
              Released(call.first) && call.first.closed && !forced && call.first.inFlight + call.first.fulfilled <= 1
  {
    var call := RunCall(Begin(forced, timeout, now), events);
    BeginInv(forced, timeout, now);
    CallKeepsInv(Begin(forced, timeout, now), events);
    ForcedIsKept(Begin(forced, timeout, now), events);
    hide RunCall, Paced;
    if call.second.Some? {
      ClosedIsReleased(call.first);
    }
  }

  lemma {:induction false} ForcedIsKept(call: Call, events: seq<CallEvent>)
    ensures var after := RunCall(call, events);
            after.forced == call.forced && after.timeout == call.timeout && after.firstStart == call.firstStart
    decreases |events|
  {
    if events == [] {
      assert RunCall(call, events) == call;
    } else {
      ForcedIsKept(call, events[..|events| - 1]);
    }
  }

  /** Once performHandshake has settled nothing of either attempt is left, and no handshake is ever sent again. */
  lemma SettledCallsLeaveNothing(forced: bool, timeout: int, now: int, events: seq<CallEvent>, later: seq<CallEvent>)
    requires IsOver(RunCall(Begin(forced, timeout, now), events))
    ensures var over := RunCall(Begin(forced, timeout, now), events);
            var call := RunCall(over, later);
            && Released(call.first)
            && (call.second.Some? <==> over.second.Some?)
            && (call.second.Some? ==> Released(call.second.value))
            && call.first.resends == over.first.resends
            && (call.second.Some? ==> call.second.value.resends == over.second.value.resends)
  {
    var over := RunCall(Begin(forced, timeout, now), events);
    BeginInv(forced, timeout, now);
    CallKeepsInv(Begin(forced, timeout, now), events);
    CallKeepsInv(over, later);
    var call := RunCall(over, later);
    hide RunCall, Inv, Paced;
    FinishedIsClosed(call.first);
    ClosedIsReleased(call.first);
    if call.second.Some? {
      FinishedIsClosed(call.second.value);
      ClosedIsReleased(call.second.value);
    }
  }

  // ---------- When the attempts overlap on the wire ----------

  /** The second attempt has begun while a send of the first is still on its way. */
  predicate Overlaps(call: Call) {
    call.second.Some? && call.first.inFlight > 0
  }

  lemma OneEventMore(call: Call, events: seq<CallEvent>, event: CallEvent)
    ensures RunCall(call, events + [event]) == StepCall(RunCall(call, events), event)
  {
    assert (events + [event])[..|events|] == events;
  }

  /** A first attempt whose last resend is on its way when its timeout comes: send, resend, and the expiry due. */
  lemma ResendOnItsWay(timeout: int, now: int) returns (events: seq<CallEvent>)
    requires timeout > 0
    ensures var call := RunCall(Begin(false, timeout, now), events);
            && !call.forced && !call.gaveUp && call.second.None? && call.timeout == timeout && call.firstStart == now
            && call.first.phase.Racing? && call.first.inFlight == 1 && !call.first.closed && call.first.sendErrorReject
            && call.first.canonical == Started(Created(None), now + timeout) && call.first.canonicalReaction.NotRun?
            && call.first.now <= now + timeout && call.first.armed == map[] && call.first.resendTimer.None?
            && call.first.legacy == LEGACY_IDLE
  {
    var start := Begin(false, timeout, now);
    var due := now + Min(ResendInterval(timeout), timeout);
    var e1 := [InFirst(FirstSendEnds(true))];
    OneEventMore(start, [], InFirst(FirstSendEnds(true)));
    assert [] + e1 == e1;
    var sent := RunCall(start, e1);
    assert RunCall(start, []) == start;
    assert sent.first.armed == map[0 := due] && sent.first.canonical.armed == map[0 := now + timeout];
    OneEventMore(start, e1, Clock(due));
    var e2 := e1 + [Clock(due)];
    assert RunCall(start, e2).first == sent.first.(now := due);
    OneEventMore(start, e2, InFirst(ResendTimerFires(0)));
    events := e2 + [InFirst(ResendTimerFires(0))];
    assert sent.first.armed - {0} == map[];
  }

  /** From there the expiry ends the attempt and the call retries, with the send still not settled. */
  lemma RetryOvertakes(timeout: int, now: int) returns (events: seq<CallEvent>)
    requires timeout > 0
    ensures Overlaps(RunCall(Begin(false, timeout, now), events))
  {
    var start := Begin(false, timeout, now);
    var e2 := ExpiredMeanwhile(timeout, now);
    hide RunCall;
    OneEventMore(start, e2, InFirst(CanonicalReacts(false)));
    var e3 := e2 + [InFirst(CanonicalReacts(false))];
    OneEventMore(start, e3, InFirst(RaceSettles(CanonicalWins)));
    var e4 := e3 + [InFirst(RaceSettles(CanonicalWins))];
    OneEventMore(start, e4, FirstRejected(true));
    events := e4 + [FirstRejected(true)];
    assert RunCall(start, e3).first.canonicalReaction.Rejected?;
    assert RunCall(start, e4).first.phase == Finished(Failed);
  }

  /** The expiry has come, and its reaction is due. */
  lemma ExpiredMeanwhile(timeout: int, now: int) returns (events: seq<CallEvent>)
    requires timeout > 0
    ensures var call := RunCall(Begin(false, timeout, now), events);
            && !call.forced && !call.gaveUp && call.second.None?
            && call.first.phase.Racing? && call.first.inFlight == 1 && !call.first.closed && call.first.sendErrorReject
            && call.first.canonical.outcome == TimedOut && call.first.canonicalReaction.NotRun?
  {
    var start := Begin(false, timeout, now);
    var e0 := ResendOnItsWay(timeout, now);
    hide RunCall;
    OneEventMore(start, e0, Clock(now + timeout));
    var e1 := e0 + [Clock(now + timeout)];
    OneEventMore(start, e1, InFirst(CanonicalTimerFires(0)));
    events := e1 + [InFirst(CanonicalTimerFires(0))];
    assert RunCall(start, e1).first.now == now + timeout;
  }

  /** The attempts of a call can overlap on the wire exactly when it may retry and has time to resend. */
  lemma AttemptsOverlapIff(forced: bool, timeout: int, now: int)
    ensures (exists events :: Overlaps(RunCall(Begin(forced, timeout, now), events))) <==> !forced && timeout > 0
  {
    if !forced && timeout > 0 {
      var events := RetryOvertakes(timeout, now);
    } else {
      forall events
        ensures !Overlaps(RunCall(Begin(forced, timeout, now), events))
      {
        RetryFollowsRelease(forced, timeout, now, events);
        NoTimeNoResend(forced, timeout, now, events);
      }
    }
  }

  lemma NoTimeNoResend(forced: bool, timeout: int, now: int, events: seq<CallEvent>)
    ensures timeout <= 0 ==> RunCall(Begin(forced, timeout, now), events).first.inFlight == 0
  {
    var call := RunCall(Begin(forced, timeout, now), events);
    BeginInv(forced, timeout, now);
    CallKeepsInv(Begin(forced, timeout, now), events);
    ForcedIsKept(Begin(forced, timeout, now), events);
    hide RunCall;
    PacedMeansFew(FirstConfig(call), call.first);
    IntervalIsPositive(timeout);
    if call.first.resends > 0 {
      FewMeansTime(call.first.resends, ResendInterval(timeout), timeout);
    }
  }

  lemma FewMeansTime(resends: nat, interval: int, timeout: int)
    requires resends > 0 && interval > 0 && (resends - 1) * interval < timeout
    ensures timeout > 0
  {
    assert (resends - 1) * interval >= 0;
  }
}
