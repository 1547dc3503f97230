/** How often a transport tries to come back, and how far apart. */
module TransportRetries {
  import opened Backoff
  import opened Options
  import opened TransportMachine
  import opened TransportSafety

  /** The timer-driven attempts of the outage the transport is in, 0 if it is in none. */
  ghost function AttemptsInOutage(config: Config, start: State, events: seq<Event>): nat {
    if events == [] then 0
    else
      var n := |events| - 1;
      var s := Run(config, start, events[..n]);
      if Reconnects(s, events[n]) || Step(config, s, events[n]).reconnectStartedAt.None? then 0
      else AttemptsInOutage(config, start, events[..n]) + (if IsTimerAttempt(s, events[n]) then 1 else 0)
  }

  /** Each attempt has used up at least the minimum delay, and the next one will. */
  ghost predicate Paced(config: Config, s: State, attempts: nat) {
    && (s.reconnectStartedAt.None? ==> attempts == 0)
    && (s.reconnectStartedAt.Some? ==>
          && attempts * MinDelay(config.backoff) <= s.now - s.reconnectStartedAt.value
          && (config.reconnectTimeoutMs.Some? ==>
              attempts * MinDelay(config.backoff) <= config.reconnectTimeoutMs.value)
          && (s.reconnectTimer.Some? && s.reconnectTimer.value in s.armed ==>
                attempts * MinDelay(config.backoff) + MinDelay(config.backoff)
                <= s.armed[s.reconnectTimer.value].deadline - s.reconnectStartedAt.value))
  }

  ghost predicate ReconnectIsLive(s: State) {
    s.reconnectTimer.Some? ==> s.reconnectTimer.value in s.armed && s.reconnectTimer.value < s.nextHandle
  }

  lemma FailureKeepsPace(config: Config, s: State, random: real, attempts: nat)
    requires ProperConfig(config) && ValidRandom(random) && NoLeak(s) && s.running
    requires s.reconnectStartedAt.None? ==> attempts == 0
    requires s.reconnectStartedAt.Some? ==>
               && attempts * MinDelay(config.backoff) <= s.now - s.reconnectStartedAt.value
               && (config.reconnectTimeoutMs.Some? ==>
                   attempts * MinDelay(config.backoff) <= config.reconnectTimeoutMs.value)
    ensures Paced(config, HandleFailure(config, s, random), attempts)
    ensures ReconnectIsLive(HandleFailure(config, s, random))
  {
    ClearTimersClearsAll(s);
    var failures := if s.phase.Disconnected? then s.consecutiveFailures else s.consecutiveFailures + 1;
    DelayIsBounded(config.backoff, if failures == 0 then 1 else failures, random);
    hide ClearTimers, ComputeReconnectDelay, MinDelay;
  }

  lemma OnConnectedKeepsPace(config: Config, s: State, sendFails: bool, random: real)
    requires ProperConfig(config) && ValidRandom(random) && s.running && s.armed == map[] && s.reconnectTimer.None?
    ensures Paced(config, OnConnected(config, s, sendFails, random), 0)
  {
    var s1 := s.(phase := Connected, consecutiveFailures := 0, lastHeartbeatAckAt := Some(s.now),
                 lastHeartbeatSentAt := None, reconnectStartedAt := None);
    var s2 := ClearHeartbeat(EmitStatus(s1)).(lastHeartbeatSentAt := Some(s.now));
    assert s2.armed == map[];
    hide MinDelay;
    if sendFails {
      FailureKeepsPace(config, s2, random, 0);
      hide HandleFailure;
      ArmKeepsPace(config, HandleFailure(config, s2, random));
    }
  }

  lemma ArmKeepsPace(config: Config, s: State)
    requires Paced(config, s, 0) && ReconnectIsLive(s)
    ensures Paced(config,
            Arm(s, HeartbeatInterval, config.heartbeatIntervalMs).(heartbeatTimer := Some(s.nextHandle)), 0)
  {
  }

  lemma StatusKeepsTimers(s: State)
    requires NoLeak(s)
    ensures NoLeak(EmitStatus(s.(phase := Connecting)))
  {
  }

  lemma NothingArmed(s: State)
    requires s.armed == map[]
    ensures NoLeak(s)
  {
  }

  /** An attempt that does not connect at once leaves the outage where it was. */
  lemma ConnectKeepsPace(config: Config, s: State, opening: Opening, attempts: nat)
    requires ProperConfig(config) && ValidOpening(opening) && NoLeak(s) && s.running && s.phase.Disconnected?
    requires s.reconnectStartedAt.None? ==> attempts == 0
    requires s.reconnectStartedAt.Some? ==>
               && attempts * MinDelay(config.backoff) <= s.now - s.reconnectStartedAt.value
               && (config.reconnectTimeoutMs.Some? ==>
                   attempts * MinDelay(config.backoff) <= config.reconnectTimeoutMs.value)
    ensures Paced(config, ConnectTransport(config, s, opening), if opening.Immediate? then 0 else attempts)
  {
    hide HandleFailure, OnConnected, MinDelay, ClearTimers, NoLeak;
    var s1 := EmitStatus(s.(phase := Connecting));
    StatusKeepsTimers(s);
    ClearTimersClearsAll(s1);
    var s2 := ClearTimers(s1).(socket := None);
    NothingArmed(s2);
    match opening {
      case InitFails(random) => FailureKeepsPace(config, s2, random, attempts);
      case Pending =>
      case Immediate(sendFails, random) =>
        OnConnectedKeepsPace(config, s2.(socket := Some(s2.nextHandle), nextHandle := s2.nextHandle + 1), sendFails,
            random);
    }
  }

  lemma AttemptKeepsPace(config: Config, s: State, handle: nat, opening: Opening, attempts: nat)
    requires ProperConfig(config) && ValidOpening(opening) && Inv(config, s) && Paced(config, s, attempts)
    requires handle in s.armed && s.armed[handle] == Timer(ReconnectDelay, s.now)
    ensures Paced(config, ConnectTransport(config, s.(armed := s.armed - {handle}, reconnectTimer := None), opening),
                  if opening.Immediate? then 0 else attempts + 1)
  {
    hide ConnectTransport, MinDelay;
    ReconnectIsDue(config, s, handle);
    var m := MinDelay(config.backoff);
    assert (attempts + 1) * m == attempts * m + m;
    ConnectKeepsPace(config, s.(armed := s.armed - {handle}, reconnectTimer := None), opening, attempts + 1);
  }

  lemma SendHeartbeatKeepsPace(config: Config, s: State, sendFails: bool, random: real, attempts: nat)
    requires ProperConfig(config) && ValidRandom(random) && Inv(config, s) && Paced(config, s, attempts)
    ensures Paced(config, SendHeartbeat(config, s, sendFails, random), attempts)
  {
    if s.running && s.phase.Connected? && sendFails {
      hide HandleFailure, MinDelay;
      FailureKeepsPace(config, s.(lastHeartbeatSentAt := Some(s.now)), random, attempts);
    }
  }

  lemma FireKeepsPace(config: Config, s: State, event: Event, attempts: nat)
    requires ProperConfig(config) && Inv(config, s) && Paced(config, s, attempts) && Enabled(s, event) && event.Fire?
    ensures Paced(config, Step(config, s, event),
                  if IsTimerAttempt(s, event) then (if event.opening.Immediate? then 0 else attempts + 1) else attempts)
  {
    hide HandleFailure, MinDelay, ConnectTransport, SendHeartbeat;
    var handle := event.handle;
    match s.armed[handle].kind {
      case HeartbeatInterval =>
        RearmKeepsInv(config, s, handle);
        SendHeartbeatKeepsPace(
          config, s.(armed := s.armed[handle := Timer(HeartbeatInterval, s.now + config.heartbeatIntervalMs)]),
          event.sendFails, event.random, attempts);
      case HeartbeatTimeout =>
        var fired := s.(armed := s.armed - {handle});
        if fired.running {
          FailureKeepsPace(config, fired, event.random, attempts);
        }
      case ReconnectDelay => AttemptKeepsPace(config, s, handle, event.opening, attempts);
    }
  }

  lemma StepKeepsPace(config: Config, s: State, event: Event, attempts: nat)
    requires ProperConfig(config) && Inv(config, s) && Paced(config, s, attempts) && Enabled(s, event)
    ensures var t := Step(config, s, event);
            Paced(config, t, if Reconnects(s, event) || t.reconnectStartedAt.None? then 0
                             else attempts + (if IsTimerAttempt(s, event) then 1 else 0))
  {
    hide HandleFailure, MinDelay, ConnectTransport, OnConnected, OnFire;
    match event {
      case Tick(_) =>
      case Fire(_, _, _, _) => FireKeepsPace(config, s, event, attempts);
      case ForceConnect(opening) =>
        if s.running && s.phase.Disconnected? {
          ConnectKeepsPace(config, s, opening, attempts);
        } else {
          NothingToConnect(config, s, opening);
        }
      case SocketConnected(_, sendFails, random) =>
        if Connects(s, event) {
          OnConnectedKeepsPace(config, s, sendFails, random);
        }
      case Ack =>
      case Failure(random) =>
        if s.running {
          FailureKeepsPace(config, s, random, attempts);
        } else {
          NothingToFail(config, s, random);
        }
      case Stop =>
    }
  }

  lemma {:induction false} RunKeepsPace(config: Config, now: int, opening: Opening, events: seq<Event>)
    requires ProperConfig(config) && ValidOpening(opening) && Possible(config, Start(config, now, opening), events)
    ensures Paced(config, Run(config, Start(config, now, opening), events),
                  AttemptsInOutage(config, Start(config, now, opening), events))
  {
    hide Paced, Inv, Step, Enabled, Reconnects, IsTimerAttempt, ConnectTransport;
    var start := Start(config, now, opening);
    if events == [] {
      ConnectKeepsPace(config, Created(now), opening, 0);
    } else {
      var n := |events| - 1;
      PrefixIsPossible(config, start, events);
      hide Possible;
      RunKeepsPace(config, now, opening, events[..n]);
      RunKeepsInv(config, now, opening, events[..n]);
      StepKeepsPace(config, Run(config, start, events[..n]), events[n], AttemptsInOutage(config, start, events[..n]));
    }
  }

  /** One outage makes at most reconnectTimeoutMs / MinDelay timer-driven attempts, none of them late. */
  lemma OutageIsRetriedBoundedly(config: Config, now: int, opening: Opening, events: seq<Event>)
    requires ProperConfig(config) && ValidOpening(opening) && Possible(config, Start(config, now, opening), events)
    requires config.reconnectTimeoutMs.Some? && MinDelay(config.backoff) > 0
    ensures AttemptsInOutage(config, Start(config, now, opening), events)
            <= config.reconnectTimeoutMs.value / MinDelay(config.backoff)
  {
    RunKeepsPace(config, now, opening, events);
    hide Run, Start, Possible, AttemptsInOutage, MinDelay;
    QuotientBound(AttemptsInOutage(config, Start(config, now, opening), events), MinDelay(config.backoff),
                  config.reconnectTimeoutMs.value);
  }

  /** Every single timer-driven attempt, also the one that ends the outage by connecting, is within that bound. */
  lemma EveryAttemptIsBounded(config: Config, now: int, opening: Opening, events: seq<Event>, event: Event)
    requires ProperConfig(config) && ValidOpening(opening) && Possible(config, Start(config, now, opening), events)
    requires config.reconnectTimeoutMs.Some? && MinDelay(config.backoff) > 0
    requires IsTimerAttempt(Run(config, Start(config, now, opening), events), event)
    ensures AttemptsInOutage(config, Start(config, now, opening), events) + 1
            <= config.reconnectTimeoutMs.value / MinDelay(config.backoff)
  {
    hide Run, Start, Possible, AttemptsInOutage, MinDelay, Inv, Paced, IsTimerAttempt;
    RunKeepsPace(config, now, opening, events);
    RunKeepsInv(config, now, opening, events);
    AttemptIsWithin(config, Run(config, Start(config, now, opening), events),
                    AttemptsInOutage(config, Start(config, now, opening), events), event);
  }

  lemma AttemptIsWithin(config: Config, s: State, attempts: nat, event: Event)
    requires ProperConfig(config) && Inv(config, s) && Paced(config, s, attempts) && IsTimerAttempt(s, event)
    requires config.reconnectTimeoutMs.Some? && MinDelay(config.backoff) > 0
    ensures attempts + 1 <= config.reconnectTimeoutMs.value / MinDelay(config.backoff)
  {
    AttemptHasRoom(config, s, attempts, event);
    assert config.reconnectTimeoutMs.value >= 0;
    hide *;
    QuotientBound(attempts + 1, MinDelay(config.backoff), config.reconnectTimeoutMs.value);
  }

  lemma AttemptHasRoom(config: Config, s: State, attempts: nat, event: Event)
    requires Inv(config, s) && Paced(config, s, attempts) && IsTimerAttempt(s, event) && config.reconnectTimeoutMs.Some?
    ensures (attempts + 1) * MinDelay(config.backoff) <= config.reconnectTimeoutMs.value
  {
    var m := MinDelay(config.backoff);
    hide MinDelay;
    assert Remembers(s, ReconnectDelay, event.handle);
    assert (attempts + 1) * m == attempts * m + m;
  }

  // ---------- How far apart the attempts are ----------

  /** Every reconnection timer that is armed fires at least the minimum delay after t. */
  ghost predicate NextAttemptAfter(config: Config, s: State, t: int) {
    && t <= s.now
    && forall h | h in s.armed && s.armed[h].kind.ReconnectDelay? :: t + MinDelay(config.backoff) <= s.armed[h].deadline
  }

  lemma ScheduleKeepsNext(config: Config, s: State, random: real, t: int)
    requires ProperConfig(config) && ValidRandom(random) && NextAttemptAfter(config, s, t)
    ensures NextAttemptAfter(config, ScheduleReconnect(config, s, random), t)
  {
    DelayIsBounded(config.backoff, if s.consecutiveFailures == 0 then 1 else s.consecutiveFailures, random);
    hide ComputeReconnectDelay, MinDelay;
  }

  lemma ClearKeepsNext(config: Config, s: State, t: int)
    requires NextAttemptAfter(config, s, t)
    ensures NextAttemptAfter(config, ClearTimers(s), t) && NextAttemptAfter(config, ClearHeartbeat(s), t)
    ensures forall handle :: NextAttemptAfter(config, Disarm(s, handle), t)
  {
    hide MinDelay;
  }

  lemma FailureKeepsNext(config: Config, s: State, random: real, t: int)
    requires ProperConfig(config) && ValidRandom(random) && NextAttemptAfter(config, s, t)
    ensures NextAttemptAfter(config, HandleFailure(config, s, random), t)
  {
    hide ClearTimers, ScheduleReconnect, MinDelay;
    ClearKeepsNext(config, s, t);
    if s.running {
      var s1 := ClearTimers(s).(socket := None);
      var s2 := if s1.reconnectStartedAt.None? then s1.(reconnectStartedAt := Some(s1.now)) else s1;
      var s3 := if s2.phase.Disconnected? then s2
                else EmitStatus(s2.(phase := Disconnected, consecutiveFailures := s2.consecutiveFailures + 1));
      SameTimersNext(config, ClearTimers(s), s3, t) by {
        ClearKeepsNow(s);
      }
      ScheduleKeepsNext(config, s3, random, t);
    }
  }

  lemma ClearKeepsNow(s: State)
    ensures ClearTimers(s).now == s.now && ClearHeartbeat(s).now == s.now
  {
  }

  lemma SameTimersNext(config: Config, s: State, after: State, t: int)
    requires NextAttemptAfter(config, s, t) && after.armed == s.armed && s.now <= after.now
    ensures NextAttemptAfter(config, after, t)
  {
    hide MinDelay;
  }

  lemma ArmKeepsNext(config: Config, s: State, kind: TimerKind, delay: int, t: int)
    requires NextAttemptAfter(config, s, t) && !kind.ReconnectDelay?
    ensures NextAttemptAfter(config, Arm(s, kind, delay), t)
  {
    hide MinDelay;
  }

  lemma SendHeartbeatKeepsNext(config: Config, s: State, sendFails: bool, random: real, t: int)
    requires ProperConfig(config) && ValidRandom(random) && NextAttemptAfter(config, s, t)
    ensures NextAttemptAfter(config, SendHeartbeat(config, s, sendFails, random), t)
  {
    hide HandleFailure, NextAttemptAfter, Disarm, Arm;
    if s.running && s.phase.Connected? {
      var s1 := s.(lastHeartbeatSentAt := Some(s.now));
      SameTimersNext(config, s, s1, t);
      if sendFails {
        FailureKeepsNext(config, s1, random, t);
      } else {
        ClearKeepsNext(config, s1, t);
        var s2 := Arm(Disarm(s1, s1.heartbeatTimeoutTimer), HeartbeatTimeout, config.connectionTimeoutMs);
        ArmKeepsNext(config, Disarm(s1, s1.heartbeatTimeoutTimer), HeartbeatTimeout, config.connectionTimeoutMs, t);
        SameTimersNext(config, s2, s2.(heartbeatTimeoutTimer := Some(s1.nextHandle)), t);
      }
    }
  }

  lemma OnConnectedKeepsNext(config: Config, s: State, sendFails: bool, random: real, t: int)
    requires ProperConfig(config) && ValidRandom(random) && NextAttemptAfter(config, s, t)
    ensures NextAttemptAfter(config, OnConnected(config, s, sendFails, random), t)
  {
    hide SendHeartbeat, NextAttemptAfter, ClearHeartbeat, Arm;
    var s1 := EmitStatus(s.(phase := Connected, consecutiveFailures := 0, lastHeartbeatAckAt := Some(s.now),
                            lastHeartbeatSentAt := None, reconnectStartedAt := None));
    SameTimersNext(config, s, s1, t);
    if s1.running {
      ClearKeepsNext(config, s1, t);
      SendHeartbeatKeepsNext(config, ClearHeartbeat(s1), sendFails, random, t);
      var s2 := SendHeartbeat(config, ClearHeartbeat(s1), sendFails, random);
      ArmKeepsNext(config, s2, HeartbeatInterval, config.heartbeatIntervalMs, t);
      var s3 := Arm(s2, HeartbeatInterval, config.heartbeatIntervalMs);
      SameTimersNext(config, s3, s3.(heartbeatTimer := Some(s2.nextHandle)), t);
    }
  }

  lemma ConnectKeepsNext(config: Config, s: State, opening: Opening, t: int)
    requires ProperConfig(config) && ValidOpening(opening) && NextAttemptAfter(config, s, t)
    ensures NextAttemptAfter(config, ConnectTransport(config, s, opening), t)
  {
    hide HandleFailure, OnConnected, NextAttemptAfter, ClearTimers;
    if s.running && s.phase.Disconnected? {
      var s1 := EmitStatus(s.(phase := Connecting));
      SameTimersNext(config, s, s1, t);
      ClearKeepsNext(config, s1, t);
      var s2 := ClearTimers(s1).(socket := None);
      SameTimersNext(config, ClearTimers(s1), s2, t);
      var s3 := s2.(socket := Some(s2.nextHandle), nextHandle := s2.nextHandle + 1);
      SameTimersNext(config, s2, s3, t);
      match opening {
        case InitFails(random) => FailureKeepsNext(config, s2, random, t);
        case Pending =>
        case Immediate(sendFails, random) => OnConnectedKeepsNext(config, s3, sendFails, random, t);
      }
    }
  }

  lemma FireKeepsNext(config: Config, s: State, handle: nat, opening: Opening, sendFails: bool, random: real, t: int)
    requires ProperConfig(config) && ValidOpening(opening) && ValidRandom(random)
    requires handle in s.armed && NextAttemptAfter(config, s, t)
    ensures NextAttemptAfter(config, OnFire(config, s, handle, opening, sendFails, random), t)
  {
    var fired := s.(armed := s.armed - {handle});
    var next := s.(armed := s.armed[handle := Timer(HeartbeatInterval, s.now + config.heartbeatIntervalMs)]);
    hide HandleFailure, SendHeartbeat, ConnectTransport, NextAttemptAfter, ProperConfig, ValidOpening, ValidRandom;
    FiredKeepsNext(config, s, handle, t);
    match s.armed[handle].kind
    case HeartbeatInterval => SendHeartbeatKeepsNext(config, next, sendFails, random, t);
    case HeartbeatTimeout => FailureKeepsNext(config, fired, random, t);
    case ReconnectDelay => AttemptKeepsNext(config, fired, opening, t);
  }

  lemma AttemptKeepsNext(config: Config, fired: State, opening: Opening, t: int)
    requires ProperConfig(config) && ValidOpening(opening) && NextAttemptAfter(config, fired, t)
    ensures NextAttemptAfter(config, ConnectTransport(config, fired.(reconnectTimer := None), opening), t)
  {
    hide NextAttemptAfter, ConnectTransport;
    SameTimersNext(config, fired, fired.(reconnectTimer := None), t);
    ConnectKeepsNext(config, fired.(reconnectTimer := None), opening, t);
  }

  lemma FiredKeepsNext(config: Config, s: State, handle: nat, t: int)
    requires handle in s.armed && NextAttemptAfter(config, s, t)
    ensures NextAttemptAfter(config, s.(armed := s.armed - {handle}), t)
    ensures NextAttemptAfter(config,
            s.(armed := s.armed[handle := Timer(HeartbeatInterval, s.now + config.heartbeatIntervalMs)]), t)
  {
    hide MinDelay;
  }

  lemma StepKeepsNext(config: Config, s: State, event: Event, t: int)
    requires ProperConfig(config) && Enabled(s, event) && NextAttemptAfter(config, s, t)
    ensures NextAttemptAfter(config, Step(config, s, event), t)
  {
    hide OnFire, HandleFailure, OnConnected, ConnectTransport, NextAttemptAfter, ClearTimers, Disarm;
    match event
    case Tick(to) => SameTimersNext(config, s, s.(now := to), t);
    case Fire(handle, opening, sendFails, random) => FireKeepsNext(config, s, handle, opening, sendFails, random, t);
    case ForceConnect(opening) => ConnectKeepsNext(config, s, opening, t);
    case SocketConnected(_, sendFails, random) => OnConnectedKeepsNext(config, s, sendFails, random, t);
    case Ack =>
      ClearKeepsNext(config, s, t);
      DisarmKeepsNow(s, s.heartbeatTimeoutTimer);
      SameTimersNext(config, Disarm(s, s.heartbeatTimeoutTimer), Step(config, s, Ack), t);
    case Failure(random) => FailureKeepsNext(config, s, random, t);
    case Stop =>
      ClearKeepsNext(config, s, t);
      ClearKeepsNow(s);
      SameTimersNext(config, if s.running then ClearTimers(s) else s, Step(config, s, Stop), t);
  }

  lemma DisarmKeepsNow(s: State, handle: Option<nat>)
    ensures Disarm(s, handle).now == s.now
  {
  }

  lemma {:induction false} NextAttemptFrom(config: Config, start: State, events: seq<Event>, t: int)
    requires ProperConfig(config) && NextAttemptAfter(config, start, t) && Possible(config, start, events)
    ensures NextAttemptAfter(config, Run(config, start, events), t)
    decreases |events|
  {
    hide Step, NextAttemptAfter, Enabled;
    if events == [] {
      assert Run(config, start, events) == start;
    } else {
      PrefixIsPossible(config, start, events);
      hide Possible;
      NextAttemptFrom(config, start, events[..|events| - 1], t);
      StepKeepsNext(config, Run(config, start, events[..|events| - 1]), events[|events| - 1], t);
    }
  }

  lemma {:induction false} RunFrom(config: Config, start: State, events: seq<Event>, n: nat)
    requires n <= |events|
    ensures Run(config, start, events) == Run(config, Run(config, start, events[..n]), events[n..])
    decreases |events|
  {
    hide Step;
    if n == |events| {
      assert events[..n] == events && events[n..] == [];
    } else {
      var last := |events| - 1;
      RunFrom(config, start, events[..last], n);
      assert events[..last][..n] == events[..n] && events[..last][n..] == events[n..][..|events[n..]| - 1];
    }
  }

  lemma RestIsPossible(config: Config, start: State, events: seq<Event>, n: nat)
    requires Possible(config, start, events) && n <= |events|
    ensures Possible(config, Run(config, start, events[..n]), events[n..])
  {
    hide Step, Enabled;
    forall k | 0 <= k < |events[n..]|
      ensures Enabled(Run(config, Run(config, start, events[..n]), events[n..][..k]), events[n..][k])
    {
      RunFrom(config, start, events[..n + k], n);
      assert events[..n + k][..n] == events[..n] && events[..n + k][n..] == events[n..][..k];
    }
  }

  /** Any two timer-driven attempts, of one outage or of two, are at least the minimum delay apart. */
  lemma AttemptsAreApart(config: Config, now: int, opening: Opening, events: seq<Event>, i: nat, j: nat)
    requires ProperConfig(config) && ValidOpening(opening) && Possible(config, Start(config, now, opening), events)
    requires i < j < |events|
    requires IsTimerAttempt(Run(config, Start(config, now, opening), events[..i]), events[i])
    requires IsTimerAttempt(Run(config, Start(config, now, opening), events[..j]), events[j])
    ensures Run(config, Start(config, now, opening), events[..i]).now + MinDelay(config.backoff)
            <= Run(config, Start(config, now, opening), events[..j]).now
  {
    hide Run, Start, Possible, Step, Enabled, IsTimerAttempt, Inv, NextAttemptAfter;
    var start := Start(config, now, opening);
    var s := Run(config, start, events[..i]);
    TakeIsPossible(config, start, events, i);
    TakeIsPossible(config, start, events, j);
    RunKeepsInv(config, now, opening, events[..i]);
    EventAt(config, start, events, i);
    AttemptLeavesNone(config, s, events[i]);
    RestIsPossible(config, start, events[..j], i + 1);
    RunFrom(config, start, events[..j], i + 1);
    assert events[..j][..i + 1] == events[..i + 1];
    EventAt(config, start, events, j);
    NextAttemptFrom(config, Step(config, s, events[i]), events[..j][i + 1..], s.now);
    NextAttemptIsLate(config, Run(config, start, events[..j]), events[j], s.now);
  }

  lemma EventAt(config: Config, start: State, events: seq<Event>, i: nat)
    requires Possible(config, start, events) && i < |events|
    ensures Enabled(Run(config, start, events[..i]), events[i])
    ensures Run(config, start, events[..i + 1]) == Step(config, Run(config, start, events[..i]), events[i])
  {
    hide Step, Enabled;
    assert events[..i + 1][..i] == events[..i];
  }

  lemma NextAttemptIsLate(config: Config, s: State, event: Event, t: int)
    requires NextAttemptAfter(config, s, t) && IsTimerAttempt(s, event) && Enabled(s, event)
    ensures t + MinDelay(config.backoff) <= s.now
  {
  }

  lemma TakeIsPossible(config: Config, start: State, events: seq<Event>, n: nat)
    requires Possible(config, start, events) && n <= |events|
    ensures Possible(config, start, events[..n])
  {
    hide Enabled, Run;
    forall k | 0 <= k < n
      ensures Enabled(Run(config, start, events[..n][..k]), events[..n][k])
    {
      assert events[..n][..k] == events[..k];
    }
  }

  lemma AttemptLeavesNone(config: Config, s: State, event: Event)
    requires ProperConfig(config) && Inv(config, s) && Enabled(s, event) && IsTimerAttempt(s, event)
    ensures NextAttemptAfter(config, Step(config, s, event), s.now)
  {
    var fired := s.(armed := s.armed - {event.handle}, reconnectTimer := None);
    assert NextAttemptAfter(config, fired, s.now);
    hide ConnectTransport;
    ConnectKeepsNext(config, fired, event.opening, s.now);
  }

  lemma QuotientBound(a: nat, m: int, r: int)
    requires m > 0 && r >= 0 && a * m <= r
    ensures a <= r / m
  {
    var q := r / m;
    assert r < q * m + m;
    assert (q + 1) * m == q * m + m;
    ProductIsMonotone(q + 1, a, m);
  }

  lemma ProductIsMonotone(x: int, y: int, m: int)
    requires m >= 0
    ensures x <= y ==> x * m <= y * m
  {
    if x <= y {
      assert (y - x) * m >= 0;
    }
  }
}
