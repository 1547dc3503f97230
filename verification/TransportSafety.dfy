/** What every run of a transport keeps between events. */
module TransportSafety {
  import opened Backoff
  import opened Options
  import opened TransportMachine

  predicate ProperConfig(config: Config) {
    && config.heartbeatIntervalMs > 0
    && config.connectionTimeoutMs >= 0
    && (config.reconnectTimeoutMs.Some? ==> config.reconnectTimeoutMs.value >= 0)
    && Normalised(config.backoff)
  }

  /** How often the transport has been reported lost since it was last reported connected. */
  ghost function DropsSinceConnected(statuses: seq<Phase>): nat {
    if statuses == [] then 0
    else
      var n := |statuses| - 1;
      match statuses[n]
      case Connected => 0
      case Disconnected => DropsSinceConnected(statuses[..n]) + 1
      case Connecting => DropsSinceConnected(statuses[..n])
  }

  lemma OneStatusMore(statuses: seq<Phase>, phase: Phase)
    ensures DropsSinceConnected(statuses + [phase]) ==
            match phase
            case Connected => 0
            case Disconnected => DropsSinceConnected(statuses) + 1
            case Connecting => DropsSinceConnected(statuses)
  {
    assert (statuses + [phase])[..|statuses|] == statuses;
  }

  ghost predicate Remembers(s: State, kind: TimerKind, handle: nat) {
    match kind
    case HeartbeatInterval => s.heartbeatTimer == Some(handle)
    case HeartbeatTimeout => s.heartbeatTimeoutTimer == Some(handle)
    case ReconnectDelay => s.reconnectTimer == Some(handle)
  }

  /** No timer leaks: every armed timer is the one the transport remembers for its kind. */
  ghost predicate NoLeak(s: State) {
    forall h | h in s.armed :: h < s.nextHandle && s.armed[h].deadline >= s.now && Remembers(s, s.armed[h].kind, h)
  }

  ghost predicate IsArmed(s: State, handle: Option<nat>, kind: TimerKind) {
    handle.Some? && handle.value in s.armed && s.armed[handle.value].kind == kind
  }

  ghost predicate Bookkeeping(s: State) {
    && s.consecutiveFailures == DropsSinceConnected(s.statuses)
    && (s.reconnectStartedAt.Some? ==> s.reconnectStartedAt.value <= s.now)
    && (s.lastHeartbeatAckAt.Some? ==> s.lastHeartbeatAckAt.value <= s.now)
  }

  /** A reconnection timer fires no later than the outage's time budget allows. */
  ghost predicate WithinBudget(config: Config, s: State) {
    s.reconnectTimer.Some? ==>
      && IsArmed(s, s.reconnectTimer, ReconnectDelay)
      && s.reconnectStartedAt.Some?
      && (config.reconnectTimeoutMs.Some? ==>
            s.armed[s.reconnectTimer.value].deadline <= s.reconnectStartedAt.value + config.reconnectTimeoutMs.value)
  }

  ghost predicate Inv(config: Config, s: State) {
    && NoLeak(s)
    && Bookkeeping(s)
    && WithinBudget(config, s)
    && (s.socket.None? <==> s.phase.Disconnected?)
    && (s.socket.Some? ==> s.socket.value < s.nextHandle)
    && (s.reconnectTimer.Some? ==> s.phase.Disconnected? && s.running)
    && (s.running && s.phase.Disconnected? ==>
          s.reconnectStartedAt.Some? && (config.reconnectTimeoutMs.None? ==> s.reconnectTimer.Some?))
    && (!s.running ==> s.phase.Disconnected? && s.armed == map[] && s.reconnectStartedAt.None?)
    && (s.phase.Connecting? ==> s.armed == map[])
    && (s.phase.Connected? ==>
          IsArmed(s, s.heartbeatTimer, HeartbeatInterval) && s.lastHeartbeatAckAt.Some? && s.reconnectStartedAt.None?)
    && (s.heartbeatTimer.Some? ==> IsArmed(s, s.heartbeatTimer, HeartbeatInterval))
    && (s.heartbeatTimeoutTimer.Some? ==>
          && s.phase.Connected?
          && s.heartbeatTimeoutTimer.value < s.nextHandle
          && (s.heartbeatTimeoutTimer.value in s.armed ==> IsArmed(s, s.heartbeatTimeoutTimer, HeartbeatTimeout)))
  }

  lemma ClearTimersClearsAll(s: State)
    requires NoLeak(s)
    ensures ClearTimers(s) ==
            s.(armed := map[], heartbeatTimer := None, heartbeatTimeoutTimer := None, reconnectTimer := None)
  {
    assert ClearTimers(s).armed == map[];
  }

  lemma ScheduleKeepsInv(config: Config, s: State, random: real)
    requires ProperConfig(config) && ValidRandom(random)
    requires s.running && s.phase.Disconnected? && s.socket.None? && s.reconnectStartedAt.Some? && Bookkeeping(s)
    requires s.armed == map[] && s.heartbeatTimer.None? && s.heartbeatTimeoutTimer.None? && s.reconnectTimer.None?
    ensures var t := ScheduleReconnect(config, s, random);
            Inv(config, t) && t.phase.Disconnected? && t.running && t.now == s.now && t.heartbeatTimer.None?
  {
    DelayIsBounded(config.backoff, if s.consecutiveFailures == 0 then 1 else s.consecutiveFailures, random);
  }

  /** After a failure a running transport is disconnected, with nothing armed but perhaps a reconnection. */
  lemma FailureKeepsInv(config: Config, s: State, random: real)
    requires ProperConfig(config) && ValidRandom(random)
    requires NoLeak(s) && Bookkeeping(s) && s.running
    ensures var t := HandleFailure(config, s, random);
            Inv(config, t) && t.phase.Disconnected? && t.running && t.now == s.now && t.heartbeatTimer.None?
  {
    hide Inv, ScheduleReconnect, ClearTimers;
    ClearTimersClearsAll(s);
    OneStatusMore(s.statuses, Disconnected);
    var s1 := ClearTimers(s).(socket := None);
    var s2 := if s1.reconnectStartedAt.None? then s1.(reconnectStartedAt := Some(s1.now)) else s1;
    var s3 := if s2.phase.Disconnected? then s2
              else EmitStatus(s2.(phase := Disconnected, consecutiveFailures := s2.consecutiveFailures + 1));
    ScheduleKeepsInv(config, s3, random);
  }

  /**
   What a failure of a running transport leads to: unless the time budget of the outage does not allow for it, the
   next attempt is due after the delay that the failures in a row call for.
   */
  ghost predicate RetryIsDue(config: Config, s: State, random: real, after: State) {
    var failures := if s.phase.Disconnected? then s.consecutiveFailures else s.consecutiveFailures + 1;
    && after.consecutiveFailures == failures
    && exists delay ::
         && IsDelayAfter(config.backoff, failures, random, delay)
         && if BudgetIsSpent(config, s, delay) then after.reconnectTimer.None?
            else after.reconnectTimer.Some? && after.reconnectTimer.value in after.armed
                 && after.armed[after.reconnectTimer.value] == Timer(ReconnectDelay, s.now + delay)
  }

  /** The outage, which lasts since its first failure, has used up its time, or would have after this delay. */
  predicate BudgetIsSpent(config: Config, s: State, delay: int) {
    var outage := if s.reconnectStartedAt.Some? then s.now - s.reconnectStartedAt.value else 0;
    config.reconnectTimeoutMs.Some? &&
    (outage >= config.reconnectTimeoutMs.value || outage + delay > config.reconnectTimeoutMs.value)
  }

  lemma FailureSetsRetry(config: Config, s: State, random: real)
    requires Normalised(config.backoff) && ValidRandom(random) && s.running
    ensures RetryIsDue(config, s, random, HandleFailure(config, s, random))
  {
    var failures := if s.phase.Disconnected? then s.consecutiveFailures else s.consecutiveFailures + 1;
    DelayIsExponential(config.backoff, failures, random);
    NoneCountsAsOne(config.backoff, failures, random);
    hide IsDelayAfter, ComputeReconnectDelay;
    var delay := ComputeReconnectDelay(config.backoff, if failures == 0 then 1 else failures, random);
    assert IsDelayAfter(config.backoff, failures, random, delay);
    var s1 := ClearTimers(s).(socket := None);
    ClearedIsUnscheduled(s);
    hide ClearTimers;
    var s2 := if s1.reconnectStartedAt.None? then s1.(reconnectStartedAt := Some(s1.now)) else s1;
    var s3 := if s2.phase.Disconnected? then s2
              else EmitStatus(s2.(phase := Disconnected, consecutiveFailures := s2.consecutiveFailures + 1));
    var after := ScheduleReconnect(config, s3, random);
    assert HandleFailure(config, s, random) == after;
    assert after.consecutiveFailures == failures;
    assert BudgetIsSpent(config, s, delay) ==> after.reconnectTimer.None?;
    assert !BudgetIsSpent(config, s, delay) ==> after.reconnectTimer == Some(s3.nextHandle);
  }

  lemma ClearedIsUnscheduled(s: State)
    ensures var t := ClearTimers(s);
            t.reconnectTimer.None? && t == s.(armed := t.armed, heartbeatTimer := None, heartbeatTimeoutTimer := None,
                                               reconnectTimer := None)
  {
  }

  lemma NoneCountsAsOne(b: ReconnectBackoff, failures: nat, random: real)
    ensures ComputeReconnectDelay(b, failures, random)
            == ComputeReconnectDelay(b, if failures == 0 then 1 else failures, random)
  {
  }

  /** Replacing the heartbeat timeout by a new one. */
  lemma ArmTimeoutKeepsInv(config: Config, s: State)
    requires ProperConfig(config) && Inv(config, s) && s.phase.Connected?
    ensures Inv(config, Arm(Disarm(s, s.heartbeatTimeoutTimer), HeartbeatTimeout, config.connectionTimeoutMs)
                        .(heartbeatTimeoutTimer := Some(s.nextHandle)))
  {
  }

  lemma SendHeartbeatKeepsInv(config: Config, s: State, sendFails: bool, random: real)
    requires ProperConfig(config) && ValidRandom(random) && Inv(config, s)
    ensures Inv(config, SendHeartbeat(config, s, sendFails, random))
  {
    if s.running && s.phase.Connected? {
      var s1 := s.(lastHeartbeatSentAt := Some(s.now));
      if sendFails {
        FailureKeepsInv(config, s1, random);
      } else {
        ArmTimeoutKeepsInv(config, s1);
      }
    }
  }

  /** A new connection whose first heartbeat has gone out or not: both kinds of heartbeat timer are fresh. */
  lemma FirstHeartbeatKeepsInv(config: Config, s: State, sendFails: bool, random: real)
    requires ProperConfig(config) && ValidRandom(random)
    requires s.armed == map[] && Bookkeeping(s) && s.running && s.phase.Connected? && s.reconnectTimer.None?
    requires s.heartbeatTimer.None? && s.heartbeatTimeoutTimer.None?
    requires s.socket.Some? && s.socket.value < s.nextHandle
    requires s.lastHeartbeatAckAt.Some? && s.reconnectStartedAt.None?
    ensures var s1 := SendHeartbeat(config, s, sendFails, random);
            Inv(config, Arm(s1, HeartbeatInterval, config.heartbeatIntervalMs).(heartbeatTimer := Some(s1.nextHandle)))
  {
    var s1 := s.(lastHeartbeatSentAt := Some(s.now));
    if sendFails {
      FailureKeepsInv(config, s1, random);
      InertInterval(config, HandleFailure(config, s1, random));
    }
  }

  /** An interval armed on a disconnected transport is remembered, and therefore cleared later. */
  lemma InertInterval(config: Config, s: State)
    requires ProperConfig(config) && Inv(config, s) && s.phase.Disconnected? && s.running && s.heartbeatTimer.None?
    ensures Inv(config, Arm(s, HeartbeatInterval, config.heartbeatIntervalMs).(heartbeatTimer := Some(s.nextHandle)))
  {
  }

  lemma OnConnectedKeepsInv(config: Config, s: State, sendFails: bool, random: real)
    requires ProperConfig(config) && ValidRandom(random)
    requires s.armed == map[] && s.running && s.reconnectTimer.None? && s.phase.Connecting?
    requires s.socket.Some? && s.socket.value < s.nextHandle
    ensures Inv(config, OnConnected(config, s, sendFails, random))
  {
    var s1 := s.(phase := Connected, consecutiveFailures := 0, lastHeartbeatAckAt := Some(s.now),
                 lastHeartbeatSentAt := None, reconnectStartedAt := None);
    OneStatusMore(s.statuses, Connected);
    var s2 := ClearHeartbeat(EmitStatus(s1));
    assert s2.armed == map[];
    hide Inv;
    FirstHeartbeatKeepsInv(config, s2, sendFails, random);
  }

  /** A transport about to open a socket, and with the socket it opens. */
  function Readied(s: State): State {
    ClearTimers(EmitStatus(s.(phase := Connecting))).(socket := None)
  }

  function WithSocket(s: State): State {
    s.(socket := Some(s.nextHandle), nextHandle := s.nextHandle + 1)
  }

  lemma ConnectOpens(config: Config, s: State, opening: Opening)
    requires s.running && s.phase.Disconnected?
    ensures ConnectTransport(config, s, opening) ==
            match opening
            case InitFails(random) => HandleFailure(config, Readied(s), random)
            case Pending => WithSocket(Readied(s))
            case Immediate(sendFails, random) => OnConnected(config, WithSocket(Readied(s)), sendFails, random)
  {
    hide HandleFailure, OnConnected, ClearTimers, EmitStatus;
  }

  lemma ReadiedIsClear(s: State)
    requires NoLeak(s) && Bookkeeping(s) && s.running
    ensures var t := Readied(s);
            && NoLeak(t) && Bookkeeping(t) && t.running && t.phase.Connecting? && t.armed == map[]
            && t.reconnectTimer.None? && t.heartbeatTimer.None? && t.heartbeatTimeoutTimer.None?
  {
    OneStatusMore(s.statuses, Connecting);
    ClearTimersClearsAll(EmitStatus(s.(phase := Connecting)));
    hide ClearTimers;
  }

  lemma ConnectKeepsInv(config: Config, s: State, opening: Opening)
    requires ProperConfig(config) && ValidOpening(opening)
    requires NoLeak(s) && Bookkeeping(s) && s.running && s.phase.Disconnected?
    ensures Inv(config, ConnectTransport(config, s, opening))
  {
    ConnectOpens(config, s, opening);
    ReadiedIsClear(s);
    ConnectingKeepsInv(config, Readied(s));
    hide ConnectTransport, Readied, Inv, HandleFailure, OnConnected, Bookkeeping, NoLeak;
    match opening
    case InitFails(random) => FailureKeepsInv(config, Readied(s), random);
    case Pending =>
    case Immediate(sendFails, random) => OnConnectedKeepsInv(config, WithSocket(Readied(s)), sendFails, random);
  }

  lemma ConnectingKeepsInv(config: Config, s: State)
    requires Bookkeeping(s) && s.running && s.phase.Connecting? && s.armed == map[] && s.reconnectTimer.None?
    requires s.heartbeatTimer.None? && s.heartbeatTimeoutTimer.None?
    ensures Inv(config, WithSocket(s))
  {
  }

  lemma RearmKeepsInv(config: Config, s: State, handle: nat)
    requires ProperConfig(config) && Inv(config, s) && handle in s.armed && s.armed[handle].kind.HeartbeatInterval?
    ensures Inv(config, s.(armed := s.armed[handle := Timer(HeartbeatInterval, s.now + config.heartbeatIntervalMs)]))
  {
  }

  lemma ExpiryKeepsInv(config: Config, s: State, handle: nat)
    requires Inv(config, s) && handle in s.armed && s.armed[handle].kind.HeartbeatTimeout?
    ensures Inv(config, s.(armed := s.armed - {handle}))
  {
  }

  lemma TimeoutKeepsInv(config: Config, s: State, random: real)
    requires ProperConfig(config) && Inv(config, s) && ValidRandom(random)
    ensures Inv(config, OnHeartbeatTimeout(config, s, random))
  {
    if s.running {
      FailureKeepsInv(config, s, random);
    }
  }

  lemma AckKeepsInv(config: Config, s: State)
    requires Inv(config, s) && s.socket.Some?
    ensures Inv(config, MarkHeartbeatAck(s))
  {
  }

  lemma FireKeepsInv(config: Config, s: State, handle: nat, opening: Opening, sendFails: bool, random: real)
    requires ProperConfig(config) && Inv(config, s) && Enabled(s, Fire(handle, opening, sendFails, random))
    ensures Inv(config, OnFire(config, s, handle, opening, sendFails, random))
  {
    hide SendHeartbeat, ConnectTransport, OnHeartbeatTimeout, HandleFailure, Inv;
    match s.armed[handle].kind {
      case HeartbeatInterval =>
        RearmKeepsInv(config, s, handle);
        SendHeartbeatKeepsInv(
          config, s.(armed := s.armed[handle := Timer(HeartbeatInterval, s.now + config.heartbeatIntervalMs)]),
              sendFails, random);
      case HeartbeatTimeout =>
        ExpiryKeepsInv(config, s, handle);
        TimeoutKeepsInv(config, s.(armed := s.armed - {handle}), random);
      case ReconnectDelay =>
        ReconnectIsDue(config, s, handle);
        ConnectKeepsInv(config, s.(armed := s.armed - {handle}, reconnectTimer := None), opening);
    }
  }

  lemma ReconnectIsDue(config: Config, s: State, handle: nat)
    requires Inv(config, s) && handle in s.armed && s.armed[handle].kind.ReconnectDelay?
    ensures var fired := s.(armed := s.armed - {handle}, reconnectTimer := None);
            NoLeak(fired) && Bookkeeping(fired) && s.running && s.phase.Disconnected?
  {
  }

  lemma StepKeepsInv(config: Config, s: State, event: Event)
    requires ProperConfig(config) && Inv(config, s) && Enabled(s, event)
    ensures Inv(config, Step(config, s, event))
  {
    match event
    case Tick(_) =>
    case Fire(handle, opening, sendFails, random) => FireKeepsInv(config, s, handle, opening, sendFails, random);
    case ForceConnect(opening) =>
      if s.running && s.phase.Disconnected? {
        ConnectKeepsInv(config, s, opening);
      }
    case SocketConnected(_, sendFails, random) =>
      if Connects(s, event) {
        OnConnectedKeepsInv(config, s, sendFails, random);
      }
    case Ack => AckKeepsInv(config, s);
    case Failure(random) =>
      if s.running {
        FailureKeepsInv(config, s, random);
      }
    case Stop =>
      if s.running {
        ClearTimersClearsAll(s);
      }
  }

  lemma NothingToConnect(config: Config, s: State, opening: Opening)
    requires !s.running || !s.phase.Disconnected?
    ensures ConnectTransport(config, s, opening) == s
  {
  }

  lemma NothingToFail(config: Config, s: State, random: real)
    requires !s.running
    ensures HandleFailure(config, s, random) == s
  {
  }

  lemma PrefixIsPossible(config: Config, start: State, events: seq<Event>)
    requires events != [] && Possible(config, start, events)
    ensures var n := |events| - 1;
            Possible(config, start, events[..n]) && Enabled(Run(config, start, events[..n]), events[n])
  {
    var n := |events| - 1;
    forall i | 0 <= i < n
      ensures Enabled(Run(config, start, events[..n][..i]), events[..n][i])
    {
      assert events[..n][..i] == events[..i];
    }
  }

  /** The invariant holds after every possible run from construction. */
  lemma {:induction false} RunKeepsInv(config: Config, now: int, opening: Opening, events: seq<Event>)
    requires ProperConfig(config) && ValidOpening(opening) && Possible(config, Start(config, now, opening), events)
    ensures Inv(config, Run(config, Start(config, now, opening), events))
  {
    hide Inv, Step, Enabled, ConnectTransport;
    var start := Start(config, now, opening);
    if events == [] {
      ConnectKeepsInv(config, Created(now), opening);
    } else {
      var n := |events| - 1;
      PrefixIsPossible(config, start, events);
      hide Possible;
      RunKeepsInv(config, now, opening, events[..n]);
      StepKeepsInv(config, Run(config, start, events[..n]), events[n]);
    }
  }
}
