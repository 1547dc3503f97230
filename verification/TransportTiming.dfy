/** When a transport notices a silent peer. */
module TransportTiming {
  import opened Backoff
  import opened Options
  import opened TransportMachine
  import opened TransportSafety

  // ---------- What the invariant says to a caller ----------

  lemma AtMostOneTimerPerKind(config: Config, now: int, opening: Opening, events: seq<Event>, h: nat, k: nat)
    requires ProperConfig(config) && ValidOpening(opening) && Possible(config, Start(config, now, opening), events)
    requires var s := Run(config, Start(config, now, opening), events);
             h in s.armed && k in s.armed && s.armed[h].kind == s.armed[k].kind
    ensures h == k
  {
    RunKeepsInv(config, now, opening, events);
  }

  ghost predicate Dead(s: State) {
    && !s.running && s.phase.Disconnected? && s.socket.None? && s.armed == map[] && s.reconnectStartedAt.None?
    && s.heartbeatTimer.None? && s.heartbeatTimeoutTimer.None? && s.reconnectTimer.None?
  }

  lemma {:induction false} DeadForGood(config: Config, start: State, events: seq<Event>)
    requires Dead(start)
    ensures Dead(Run(config, start, events)) && Run(config, start, events).statuses == start.statuses
  {
    if events != [] {
      DeadForGood(config, start, events[..|events| - 1]);
    }
  }

  /** After stop nothing is ever armed, opened or reported again. */
  lemma StopIsFinal(config: Config, now: int, opening: Opening, before: seq<Event>, after: seq<Event>)
    requires ProperConfig(config) && ValidOpening(opening)
    requires Possible(config, Start(config, now, opening), before)
    ensures var stopped := Step(config, Run(config, Start(config, now, opening), before), Stop);
            var later := Run(config, stopped, after);
            && Dead(later)
            && later.statuses == Run(config, Start(config, now, opening), before).statuses
  {
    var s := Run(config, Start(config, now, opening), before);
    RunKeepsInv(config, now, opening, before);
    StepKeepsInv(config, s, Stop);
    if s.running {
      ClearTimersClearsAll(s);
    }
    DeadForGood(config, Step(config, s, Stop), after);
  }

  // ---------- A silent peer ----------

  /** While connected: the pending timeout, or else the next heartbeat, is near enough to the last ack. */
  ghost predicate Watched(config: Config, s: State) {
    s.phase.Connected? && IsArmed(s, s.heartbeatTimer, HeartbeatInterval) && s.lastHeartbeatAckAt.Some? ==>
      var next, ack := s.armed[s.heartbeatTimer.value].deadline, s.lastHeartbeatAckAt.value;
      && next <= s.now + config.heartbeatIntervalMs
      && if IsArmed(s, s.heartbeatTimeoutTimer, HeartbeatTimeout) then
           var expiry := s.armed[s.heartbeatTimeoutTimer.value].deadline;
           && expiry == next - config.heartbeatIntervalMs + config.connectionTimeoutMs
           && ack + config.connectionTimeoutMs <= expiry <= ack + config.heartbeatIntervalMs
               + config.connectionTimeoutMs
         else next <= ack + config.heartbeatIntervalMs
  }

  lemma ConnectedIsWatched(config: Config, s: State, sendFails: bool, random: real)
    requires ProperConfig(config) && s.running && s.armed == map[] && s.phase.Connecting?
    ensures Watched(config, OnConnected(config, s, sendFails, random))
  {
    var s1 := s.(phase := Connected, consecutiveFailures := 0, lastHeartbeatAckAt := Some(s.now),
                 lastHeartbeatSentAt := None, reconnectStartedAt := None);
    var s2 := ClearHeartbeat(EmitStatus(s1));
    assert s2.armed == map[];
    if sendFails {
      hide HandleFailure;
      FailureDisconnects(config, s2.(lastHeartbeatSentAt := Some(s2.now)), random);
    }
  }

  lemma FailureDisconnects(config: Config, s: State, random: real)
    requires s.running
    ensures HandleFailure(config, s, random).phase.Disconnected?
  {
  }

  lemma ConnectIsWatched(config: Config, s: State, opening: Opening)
    requires ProperConfig(config) && s.running && s.phase.Disconnected? && NoLeak(s)
    ensures Watched(config, ConnectTransport(config, s, opening))
  {
    var s1 := EmitStatus(s.(phase := Connecting));
    ClearTimersClearsAll(s1);
    var s2 := ClearTimers(s1).(socket := None);
    hide HandleFailure, OnConnected;
    match opening {
      case InitFails(random) => FailureDisconnects(config, s2, random);
      case Pending =>
      case Immediate(sendFails, random) =>
        ConnectedIsWatched(config, s2.(socket := Some(s2.nextHandle), nextHandle := s2.nextHandle + 1), sendFails,
            random);
    }
  }

  /** With an interval longer than the timeout, the timeout of one heartbeat is settled before the next is sent. */
  lemma IntervalKeepsWatch(config: Config, s: State, handle: nat, sendFails: bool, random: real)
    requires ProperConfig(config) && config.heartbeatIntervalMs > config.connectionTimeoutMs
    requires Inv(config, s) && Watched(config, s)
    requires handle in s.armed && s.armed[handle] == Timer(HeartbeatInterval, s.now)
    ensures Watched(config, OnInterval(config, s, handle, sendFails, random))
  {
    if s.phase.Connected? {
      if sendFails {
        hide HandleFailure;
        var rearmed := s.(armed := s.armed[handle := Timer(HeartbeatInterval, s.now + config.heartbeatIntervalMs)]);
        FailureDisconnects(config, rearmed.(lastHeartbeatSentAt := Some(s.now)), random);
      } else {
        assert !IsArmed(s, s.heartbeatTimeoutTimer, HeartbeatTimeout);
      }
    }
  }

  /** A heartbeat timeout that is due always finds its peer silent for long enough. */
  lemma TimeoutKeepsWatch(config: Config, s: State, handle: nat, random: real)
    requires ProperConfig(config) && Inv(config, s) && Watched(config, s)
    requires handle in s.armed && s.armed[handle] == Timer(HeartbeatTimeout, s.now)
    ensures Watched(config, OnHeartbeatTimeout(config, s.(armed := s.armed - {handle}), random))
  {
    hide HandleFailure;
    FailureDisconnects(config, s.(armed := s.armed - {handle}), random);
  }

  lemma StepKeepsWatch(config: Config, s: State, event: Event)
    requires ProperConfig(config) && config.heartbeatIntervalMs > config.connectionTimeoutMs
    requires Inv(config, s) && Watched(config, s) && Enabled(s, event)
    ensures Watched(config, Step(config, s, event))
  {
    hide HandleFailure, ConnectTransport, OnConnected, OnInterval, OnHeartbeatTimeout;
    match event {
      case Tick(_) =>
      case Fire(handle, opening, sendFails, random) =>
        match s.armed[handle].kind {
          case HeartbeatInterval => IntervalKeepsWatch(config, s, handle, sendFails, random);
          case HeartbeatTimeout => TimeoutKeepsWatch(config, s, handle, random);
          case ReconnectDelay =>
            ReconnectIsDue(config, s, handle);
            ConnectIsWatched(config, s.(armed := s.armed - {handle}, reconnectTimer := None), opening);
        }
      case ForceConnect(opening) =>
        if s.running && s.phase.Disconnected? {
          ConnectIsWatched(config, s, opening);
        } else {
          NothingToConnect(config, s, opening);
        }
      case SocketConnected(_, sendFails, random) =>
        if Connects(s, event) {
          ConnectedIsWatched(config, s, sendFails, random);
        }
      case Ack =>
      case Failure(random) =>
        if s.running {
          FailureDisconnects(config, s, random);
        } else {
          NothingToFail(config, s, random);
        }
      case Stop =>
    }
  }

  lemma {:induction false} RunKeepsWatch(config: Config, now: int, opening: Opening, events: seq<Event>)
    requires ProperConfig(config) && config.heartbeatIntervalMs > config.connectionTimeoutMs
    requires ValidOpening(opening) && Possible(config, Start(config, now, opening), events)
    ensures Watched(config, Run(config, Start(config, now, opening), events))
  {
    hide Watched, Inv, Step, Enabled, ConnectTransport;
    var start := Start(config, now, opening);
    if events == [] {
      ConnectIsWatched(config, Created(now), opening);
    } else {
      var n := |events| - 1;
      PrefixIsPossible(config, start, events);
      hide Possible;
      RunKeepsWatch(config, now, opening, events[..n]);
      RunKeepsInv(config, now, opening, events[..n]);
      StepKeepsWatch(config, Run(config, start, events[..n]), events[n]);
    }
  }

  /** A transport that is still connected heard from its peer at most this long ago, in every possible run. */
  ghost predicate DetectsSilenceWithin(config: Config, bound: int) {
    forall now, opening, events ::
      ValidOpening(opening) && Possible(config, Start(config, now, opening), events) ==>
        var s := Run(config, Start(config, now, opening), events);
        s.phase.Connected? ==> s.lastHeartbeatAckAt.Some? && s.now <= s.lastHeartbeatAckAt.value + bound
  }

  lemma SilentPeerIsDropped(config: Config, now: int, opening: Opening, events: seq<Event>)
    requires ProperConfig(config) && config.heartbeatIntervalMs > config.connectionTimeoutMs
    requires ValidOpening(opening) && Possible(config, Start(config, now, opening), events)
    ensures var s := Run(config, Start(config, now, opening), events);
            s.phase.Connected? ==>
              && s.lastHeartbeatAckAt.Some?
              && s.now <= s.lastHeartbeatAckAt.value + config.heartbeatIntervalMs + config.connectionTimeoutMs
  {
    RunKeepsInv(config, now, opening, events);
    RunKeepsWatch(config, now, opening, events);
  }

  /** The event shows that the peer is there: an accepted packet, or a connection that completes. */
  ghost predicate Heard(s: State, event: Event) {
    event.Ack? || (Reconnects(s, event) && s.running)
  }

  lemma FailureKeepsAck(config: Config, s: State, random: real)
    ensures HandleFailure(config, s, random).lastHeartbeatAckAt == s.lastHeartbeatAckAt
    ensures HandleFailure(config, s, random).now == s.now
  {
  }

  lemma SendHeartbeatKeepsAck(config: Config, s: State, sendFails: bool, random: real)
    ensures SendHeartbeat(config, s, sendFails, random).lastHeartbeatAckAt == s.lastHeartbeatAckAt
    ensures SendHeartbeat(config, s, sendFails, random).now == s.now
  {
    FailureKeepsAck(config, s.(lastHeartbeatSentAt := Some(s.now)), random);
    hide HandleFailure;
  }

  lemma OnConnectedAcks(config: Config, s: State, sendFails: bool, random: real)
    ensures OnConnected(config, s, sendFails, random).lastHeartbeatAckAt == Some(s.now)
    ensures OnConnected(config, s, sendFails, random).now == s.now
  {
    var s1 := EmitStatus(s.(phase := Connected, consecutiveFailures := 0, lastHeartbeatAckAt := Some(s.now),
                            lastHeartbeatSentAt := None, reconnectStartedAt := None));
    SendHeartbeatKeepsAck(config, ClearHeartbeat(s1), sendFails, random);
    hide SendHeartbeat;
  }

  lemma ConnectAcks(config: Config, s: State, opening: Opening)
    ensures ConnectTransport(config, s, opening).lastHeartbeatAckAt ==
            if s.running && s.phase.Disconnected? && opening.Immediate? then Some(s.now) else s.lastHeartbeatAckAt
    ensures ConnectTransport(config, s, opening).now == s.now
  {
    var s1 := EmitStatus(s.(phase := Connecting));
    ClearKeepsAck(s1);
    hide HandleFailure, OnConnected, ClearTimers;
    var s2 := ClearTimers(s1).(socket := None);
    match opening
    case InitFails(random) => FailureKeepsAck(config, s2, random);
    case Pending =>
    case Immediate(sendFails, random) =>
      OnConnectedAcks(config, s2.(socket := Some(s2.nextHandle), nextHandle := s2.nextHandle + 1), sendFails, random);
  }

  lemma ClearKeepsAck(s: State)
    ensures ClearTimers(s).lastHeartbeatAckAt == s.lastHeartbeatAckAt && ClearTimers(s).now == s.now
    ensures ClearTimers(s).running == s.running && ClearTimers(s).phase == s.phase
  {
  }

  lemma FireAcks(config: Config, s: State, handle: nat, opening: Opening, sendFails: bool, random: real)
    requires handle in s.armed
    ensures OnFire(config, s, handle, opening, sendFails, random).lastHeartbeatAckAt ==
            if s.armed[handle].kind.ReconnectDelay? && s.running && s.phase.Disconnected? && opening.Immediate?
            then Some(s.now) else s.lastHeartbeatAckAt
    ensures OnFire(config, s, handle, opening, sendFails, random).now == s.now
  {
    var next := s.(armed := s.armed[handle := Timer(HeartbeatInterval, s.now + config.heartbeatIntervalMs)]);
    SendHeartbeatKeepsAck(config, next, sendFails, random);
    FailureKeepsAck(config, s.(armed := s.armed - {handle}), random);
    ConnectAcks(config, s.(armed := s.armed - {handle}, reconnectTimer := None), opening);
    hide HandleFailure, SendHeartbeat, ConnectTransport;
  }

  /** The time of the last acknowledgement is set when the peer is heard, and kept by everything else. */
  lemma StepAcks(config: Config, s: State, event: Event)
    ensures Step(config, s, event).lastHeartbeatAckAt == s.lastHeartbeatAckAt
            || Step(config, s, event).lastHeartbeatAckAt == Some(s.now)
    ensures Heard(s, event) && (IsTimerAttempt(s, event) ==> s.phase.Disconnected?) ==>
              Step(config, s, event).lastHeartbeatAckAt == Some(s.now)
    ensures Step(config, s, event).now == if event.Tick? then event.to else s.now
  {
    hide HandleFailure, OnConnected, ConnectTransport, OnFire;
    match event
    case Fire(handle, opening, sendFails, random) =>
      if handle in s.armed {
        FireAcks(config, s, handle, opening, sendFails, random);
      }
    case ForceConnect(opening) => ConnectAcks(config, s, opening);
    case SocketConnected(_, sendFails, random) => OnConnectedAcks(config, s, sendFails, random);
    case Failure(random) => FailureKeepsAck(config, s, random);
    case _ =>
  }

  /** The peer was heard at t or later. */
  ghost predicate HeardSince(s: State, t: int) {
    s.lastHeartbeatAckAt.Some? && t <= s.lastHeartbeatAckAt.value <= s.now
  }

  lemma HearingIsKept(config: Config, s: State, event: Event, t: int)
    requires Enabled(s, event) && HeardSince(s, t)
    ensures HeardSince(Step(config, s, event), t)
  {
    StepAcks(config, s, event);
    StepAdvances(config, s, event);
    hide Step;
  }

  lemma HearingIsNoted(config: Config, s: State, event: Event)
    requires Enabled(s, event) && Inv(config, s) && Heard(s, event)
    ensures HeardSince(Step(config, s, event), s.now)
  {
    StepAcks(config, s, event);
    StepAdvances(config, s, event);
    AttemptsAreDisconnected(config, s, event);
    hide Step;
  }

  lemma {:induction false} LastAckIsKept(config: Config, now: int, opening: Opening, events: seq<Event>, i: nat)
    requires ProperConfig(config) && ValidOpening(opening) && Possible(config, Start(config, now, opening), events)
    requires i < |events| && Heard(Run(config, Start(config, now, opening), events[..i]), events[i])
    ensures HeardSince(Run(config, Start(config, now, opening), events),
            Run(config, Start(config, now, opening), events[..i]).now)
  {
    hide Start, Step, Enabled, Heard, HeardSince, Inv, ProperConfig, ValidOpening;
    var start, n := Start(config, now, opening), |events| - 1;
    PrefixIsPossible(config, start, events);
    hide Possible;
    assert events[..n][..i] == events[..i];
    if i == n {
      RunKeepsInv(config, now, opening, events[..n]);
      HearingIsNoted(config, Run(config, start, events[..n]), events[n]);
    } else {
      assert events[..n][i] == events[i];
      LastAckIsKept(config, now, opening, events[..n], i);
      HearingIsKept(config, Run(config, start, events[..n]), events[n], Run(config, start, events[..i]).now);
    }
  }

  lemma AttemptsAreDisconnected(config: Config, s: State, event: Event)
    requires Inv(config, s)
    ensures IsTimerAttempt(s, event) ==> s.phase.Disconnected?
  {
    if IsTimerAttempt(s, event) {
      assert Remembers(s, ReconnectDelay, event.handle);
    }
  }

  lemma StepAdvances(config: Config, s: State, event: Event)
    requires Enabled(s, event)
    ensures s.now <= Step(config, s, event).now
  {
    StepAcks(config, s, event);
    hide Step;
  }

  /** A heartbeat timeout fires and costs the transport its connection. */
  ghost predicate TimesOut(config: Config, s: State, event: Event) {
    && event.Fire? && event.handle in s.armed && s.armed[event.handle].kind.HeartbeatTimeout?
    && Step(config, s, event).phase != s.phase
  }

  lemma TimeoutIsLate(config: Config, s: State, event: Event)
    requires TimesOut(config, s, event) && s.lastHeartbeatAckAt.Some?
    ensures s.now - s.lastHeartbeatAckAt.value >= config.connectionTimeoutMs
  {
    hide HandleFailure;
  }

  /**
   In no possible run does a heartbeat timeout drop a transport whose peer was heard less than
   connectionTimeoutMs ago, whether by an accepted packet or by the connection itself.
   */
  lemma DroppedPeersWereSilent(config: Config, now: int, opening: Opening, events: seq<Event>, i: nat, event: Event)
    requires ProperConfig(config) && ValidOpening(opening)
    requires Possible(config, Start(config, now, opening), events) && i < |events|
    requires Heard(Run(config, Start(config, now, opening), events[..i]), events[i])
    requires TimesOut(config, Run(config, Start(config, now, opening), events), event)
    ensures var start := Start(config, now, opening);
            Run(config, start, events).now - Run(config, start, events[..i]).now >= config.connectionTimeoutMs
  {
    hide Run, Start, Possible, Heard, TimesOut, ProperConfig, ValidOpening;
    LastAckIsKept(config, now, opening, events, i);
    TimeoutIsLate(config, Run(config, Start(config, now, opening), events), event);
  }

  // ---------- When the interval is not longer than the timeout ----------

  /** Connected, never acknowledged since `ack`, with a timeout that the next heartbeat will replace in time. */
  ghost predicate Unnoticed(config: Config, s: State, ack: int, handle: nat) {
    && s.running && s.phase.Connected? && s.lastHeartbeatAckAt == Some(ack)
    && s.heartbeatTimer == Some(handle) && handle in s.armed
    && s.armed[handle] == Timer(HeartbeatInterval, s.now + config.heartbeatIntervalMs)
    && handle < s.nextHandle
    && s.heartbeatTimeoutTimer.Some? && s.heartbeatTimeoutTimer.value != handle
    && forall h | h in s.armed ::
         h == handle || (s.heartbeatTimeoutTimer == Some(h) &&
             s.armed[h].deadline == s.now + config.connectionTimeoutMs)
  }

  function OnePeriod(s: State, config: Config, handle: nat): seq<Event> {
    [Tick(s.now + config.heartbeatIntervalMs), Fire(handle, Pending, false, 0.0)]
  }

  lemma OnePeriodUnnoticed(config: Config, s: State, ack: int, handle: nat)
    requires 0 < config.heartbeatIntervalMs <= config.connectionTimeoutMs && Unnoticed(config, s, ack, handle)
    ensures var period := OnePeriod(s, config, handle);
            var ticked := Step(config, s, period[0]);
            && Enabled(s, period[0]) && Enabled(ticked, period[1])
            && Unnoticed(config, Step(config, ticked, period[1]), ack, handle)
            && Step(config, ticked, period[1]).now == s.now + config.heartbeatIntervalMs
  {
  }

  lemma PossibleExtension(config: Config, start: State, events: seq<Event>, event: Event)
    requires Possible(config, start, events) && Enabled(Run(config, start, events), event)
    ensures Possible(config, start, events + [event])
    ensures Run(config, start, events + [event]) == Step(config, Run(config, start, events), event)
  {
    var longer := events + [event];
    assert longer[..|events|] == events;
    forall i | 0 <= i < |longer|
      ensures Enabled(Run(config, start, longer[..i]), longer[i])
    {
      if i < |events| {
        assert longer[..i] == events[..i];
      }
    }
  }

  /** A possible run of n heartbeat periods in which the peer never answers and nothing is noticed. */
  lemma {:induction false} SilentPeriods(config: Config, n: nat) returns (events: seq<Event>, handle: nat)
    requires ProperConfig(config) && config.heartbeatIntervalMs <= config.connectionTimeoutMs
    ensures var start := Start(config, 0, Immediate(false, 0.0));
            && Possible(config, start, events)
            && Unnoticed(config, Run(config, start, events), 0, handle)
            && Run(config, start, events).now == n * config.heartbeatIntervalMs
  {
    hide Unnoticed, Step, Start, Enabled;
    var start := Start(config, 0, Immediate(false, 0.0));
    if n == 0 {
      events, handle := [], 2;
      FirstPeriod(config);
    } else {
      events, handle := SilentPeriods(config, n - 1);
      hide Possible, Run;
      var s := Run(config, start, events);
      var tick, fire := OnePeriod(s, config, handle)[0], OnePeriod(s, config, handle)[1];
      OnePeriodUnnoticed(config, s, 0, handle);
      PossibleExtension(config, start, events, tick);
      PossibleExtension(config, start, events + [tick], fire);
      events := events + [tick] + [fire];
      assert n * config.heartbeatIntervalMs == (n - 1) * config.heartbeatIntervalMs + config.heartbeatIntervalMs;
    }
  }

  lemma FirstPeriod(config: Config)
    requires ProperConfig(config)
    ensures Unnoticed(config, Start(config, 0, Immediate(false, 0.0)), 0, 2)
    ensures Start(config, 0, Immediate(false, 0.0)).now == 0
  {
    var s1 := EmitStatus(Created(0).(phase := Connecting));
    ClearTimersClearsAll(s1);
  }

  lemma SilenceIsDetected(config: Config)
    requires ProperConfig(config) && config.heartbeatIntervalMs > config.connectionTimeoutMs
    ensures DetectsSilenceWithin(config, config.heartbeatIntervalMs + config.connectionTimeoutMs)
  {
    hide Run, Start, Possible;
    forall now, opening, events | ValidOpening(opening) && Possible(config, Start(config, now, opening), events)
      ensures var s := Run(config, Start(config, now, opening), events);
              s.phase.Connected? ==>
                && s.lastHeartbeatAckAt.Some?
                && s.now <= s.lastHeartbeatAckAt.value + config.heartbeatIntervalMs + config.connectionTimeoutMs
    {
      SilentPeerIsDropped(config, now, opening, events);
    }
  }

  lemma SilenceGoesUnnoticed(config: Config, bound: int)
    requires ProperConfig(config) && config.heartbeatIntervalMs <= config.connectionTimeoutMs
    ensures !DetectsSilenceWithin(config, bound)
  {
    hide Run, Start, Possible, Unnoticed;
    var n := if bound < 0 then 0 else bound + 1;
    var events, handle := SilentPeriods(config, n);
    var s := Run(config, Start(config, 0, Immediate(false, 0.0)), events);
    UnnoticedIsConnected(config, s, handle);
    assert n * config.heartbeatIntervalMs >= n;
    assert s.now > s.lastHeartbeatAckAt.value + bound;
    assert ValidOpening(Immediate(false, 0.0));
  }

  lemma UnnoticedIsConnected(config: Config, s: State, handle: nat)
    requires Unnoticed(config, s, 0, handle)
    ensures s.phase.Connected? && s.lastHeartbeatAckAt == Some(0)
  {
  }

  /** A silent peer is detected in bounded time exactly when heartbeats are further apart than the timeout. */
  lemma SilenceIsDetectedIff(config: Config)
    requires ProperConfig(config)
    ensures (exists bound :: DetectsSilenceWithin(config, bound)) <==>
            config.heartbeatIntervalMs > config.connectionTimeoutMs
  {
    hide DetectsSilenceWithin;
    if config.heartbeatIntervalMs > config.connectionTimeoutMs {
      SilenceIsDetected(config);
    } else {
      forall bound
        ensures !DetectsSilenceWithin(config, bound)
      {
        SilenceGoesUnnoticed(config, bound);
      }
    }
  }
}
