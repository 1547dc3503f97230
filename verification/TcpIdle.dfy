/**
 Models the idle timer that initialiseTcpTransport of src/services/osc/connectionManager.ts sets on its socket:
 socket.setTimeout(connectionTimeoutMs), a deadline that every read and write on the socket sets anew and that
 0 turns off. A transport that reaches it is failed like one whose peer is silent.
 */
module TcpIdle {
  import opened Backoff
  import opened Options
  import opened TransportMachine
  import opened TransportSafety
  import opened TransportTiming

  /** A TCP transport and the deadline of its socket's idle timer. */
  datatype Tcp = Tcp(s: State, idle: Option<int>)

  datatype TcpEvent =
    | Base(event: Event)
    | Traffic                    // a write of the application, or a read that is no accepted packet
    | IdleFires(random: real)

  function Rearmed(config: Config, s: State): Option<int> {
    if s.socket.Some? && config.connectionTimeoutMs > 0 then Some(s.now + config.connectionTimeoutMs) else None
  }

  predicate WritesHeartbeat(s: State, event: Event) {
    event.Fire? && event.handle in s.armed && s.armed[event.handle].kind.HeartbeatInterval? && s.phase.Connected?
  }

  /** The event reads from or writes to the socket. */
  predicate Touches(s: State, event: Event) {
    event.Ack? || Connects(s, event) || WritesHeartbeat(s, event)
  }

  function StepTcp(config: Config, t: Tcp, e: TcpEvent): Tcp {
    match e
    case Base(event) =>
      var after := Step(config, t.s, event);
      Tcp(after, if after.socket.None? then None
                 else if after.socket != t.s.socket || Touches(t.s, event) then Rearmed(config, after)
                 else t.idle)
    case Traffic => t.(idle := Rearmed(config, t.s))
    case IdleFires(random) => Tcp(HandleFailure(config, t.s, random), None)
  }

  /** A TCP socket never connects at once. */
  predicate IsTcp(event: Event) {
    && (event.Fire? ==> !event.opening.Immediate?)
    && (event.ForceConnect? ==> !event.opening.Immediate?)
  }

  ghost predicate EnabledTcp(t: Tcp, e: TcpEvent) {
    match e
    case Base(event) => IsTcp(event) && Enabled(t.s, event) &&
      (event.Tick? && t.idle.Some? ==> event.to <= t.idle.value)
    case Traffic => t.s.socket.Some?
    case IdleFires(random) => t.idle == Some(t.s.now) && ValidRandom(random)
  }

  function StartTcp(config: Config, now: int, opening: Opening): Tcp {
    Tcp(Start(config, now, opening), Rearmed(config, Start(config, now, opening)))
  }

  function RunTcp(config: Config, t: Tcp, events: seq<TcpEvent>): Tcp {
    if events == [] then t
    else StepTcp(config, RunTcp(config, t, events[..|events| - 1]), events[|events| - 1])
  }

  ghost predicate PossibleTcp(config: Config, t: Tcp, events: seq<TcpEvent>) {
    forall i | 0 <= i < |events| :: EnabledTcp(RunTcp(config, t, events[..i]), events[i])
  }

  lemma PrefixIsPossibleTcp(config: Config, t: Tcp, events: seq<TcpEvent>)
    requires events != [] && PossibleTcp(config, t, events)
    ensures var n := |events| - 1;
            PossibleTcp(config, t, events[..n]) && EnabledTcp(RunTcp(config, t, events[..n]), events[n])
  {
    hide RunTcp, EnabledTcp;
    var n := |events| - 1;
    forall i | 0 <= i < n
      ensures EnabledTcp(RunTcp(config, t, events[..n][..i]), events[..n][i])
    {
      assert events[..n][..i] == events[..i];
    }
  }

  // ---------- What every run keeps ----------

  ghost predicate IdleInv(config: Config, t: Tcp) {
    && Inv(config, t.s)
    && (t.idle.Some? <==> t.s.socket.Some? && config.connectionTimeoutMs > 0)
    && (t.idle.Some? ==> t.s.now <= t.idle.value)
    && (t.s.socket.Some? ==> t.s.running)
  }

  lemma StartKeepsIdleInv(config: Config, now: int, opening: Opening)
    requires ProperConfig(config) && ValidOpening(opening)
    ensures IdleInv(config, StartTcp(config, now, opening))
  {
    ConnectKeepsInv(config, Created(now), opening);
    hide ConnectTransport;
  }

  lemma StepKeepsIdleInv(config: Config, t: Tcp, e: TcpEvent)
    requires ProperConfig(config) && IdleInv(config, t) && EnabledTcp(t, e)
    ensures IdleInv(config, StepTcp(config, t, e))
  {
    hide Step, HandleFailure;
    match e
    case Base(event) =>
      StepKeepsInv(config, t.s, event);
      StepAcks(config, t.s, event);
      hide Touches;
      SocketMeansRunning(config, Step(config, t.s, event));
    case Traffic =>
    case IdleFires(random) =>
      FailureKeepsInv(config, t.s, random);
      FailureLosesSocket(config, t.s, random);
  }

  lemma SocketMeansRunning(config: Config, s: State)
    requires Inv(config, s)
    ensures s.socket.Some? ==> s.running
  {
  }

  lemma FailureLosesSocket(config: Config, s: State, random: real)
    requires s.running
    ensures HandleFailure(config, s, random).socket.None? && HandleFailure(config, s, random).phase.Disconnected?
  {
  }

  // ---------- Heartbeats on a connection ----------

  /** While connected the next heartbeat is an interval after the last. */
  ghost predicate Beating(config: Config, s: State) {
    s.phase.Connected? ==>
      && s.lastHeartbeatSentAt.Some? && s.lastHeartbeatSentAt.value <= s.now
      && IsArmed(s, s.heartbeatTimer, HeartbeatInterval)
      && s.armed[s.heartbeatTimer.value].deadline == s.lastHeartbeatSentAt.value + config.heartbeatIntervalMs
  }

  /** Still the same connection and the same last heartbeat, or one sent just now. */
  ghost predicate BeatsOn(s: State, event: Event, after: State) {
    after.phase.Connected? ==>
      || (s.phase.Connected? && after.lastHeartbeatSentAt == s.lastHeartbeatSentAt && after.socket == s.socket
          && !Connects(s, event) && !WritesHeartbeat(s, event))
      || (after.lastHeartbeatSentAt == Some(s.now) && Touches(s, event) && after.now == s.now)
  }

  lemma FailureStopsBeat(config: Config, s: State, random: real, event: Event, before: State)
    requires s.running || !s.phase.Connected?
    ensures Beating(config, HandleFailure(config, s, random)) &&
            BeatsOn(before, event, HandleFailure(config, s, random))
  {
  }

  lemma ConnectionBeats(config: Config, s: State, event: Event)
    requires Inv(config, s) && Connects(s, event)
    ensures Beating(config, Step(config, s, event)) && BeatsOn(s, event, Step(config, s, event))
  {
    var s1 := EmitStatus(s.(phase := Connected, consecutiveFailures := 0, lastHeartbeatAckAt := Some(s.now),
                            lastHeartbeatSentAt := None, reconnectStartedAt := None));
    var s2 := ClearHeartbeat(s1).(lastHeartbeatSentAt := Some(s1.now));
    if event.sendFails {
      FailureLosesSocket(config, s2, event.random);
      hide HandleFailure;
    }
  }

  lemma IntervalBeats(config: Config, s: State, event: Event)
    requires Inv(config, s) && Enabled(s, event)
    requires event.Fire? && event.handle in s.armed && s.armed[event.handle].kind.HeartbeatInterval?
    ensures Beating(config, Step(config, s, event)) && BeatsOn(s, event, Step(config, s, event))
  {
    assert Remembers(s, HeartbeatInterval, event.handle);
    var next := s.(armed := s.armed[event.handle := Timer(HeartbeatInterval, s.now + config.heartbeatIntervalMs)]);
    if s.phase.Connected? && event.sendFails {
      FailureLosesSocket(config, next.(lastHeartbeatSentAt := Some(s.now)), event.random);
      hide HandleFailure;
    }
  }

  lemma TimeoutBeats(config: Config, s: State, event: Event)
    requires Inv(config, s) && Beating(config, s)
    requires event.Fire? && event.handle in s.armed && s.armed[event.handle].kind.HeartbeatTimeout?
    ensures Beating(config, Step(config, s, event)) && BeatsOn(s, event, Step(config, s, event))
  {
    FailureStopsBeat(config, s.(armed := s.armed - {event.handle}), event.random, event, s);
    hide HandleFailure;
  }

  lemma ConnectingStopsBeat(config: Config, s: State, opening: Opening)
    requires !opening.Immediate? && s.running && s.phase.Disconnected?
    ensures !ConnectTransport(config, s, opening).phase.Connected?
  {
    if opening.InitFails? {
      FailureLosesSocket(config, ClearTimers(EmitStatus(s.(phase := Connecting))).(socket := None), opening.random);
      hide HandleFailure;
    }
  }

  lemma BeatStep(config: Config, s: State, event: Event)
    requires Inv(config, s) && Beating(config, s) && Enabled(s, event) && IsTcp(event)
    ensures Beating(config, Step(config, s, event)) && BeatsOn(s, event, Step(config, s, event))
  {
    match event
    case Tick(_) =>
    case Fire(handle, opening, _, _) =>
      match s.armed[handle].kind {
        case HeartbeatInterval => IntervalBeats(config, s, event);
        case HeartbeatTimeout => TimeoutBeats(config, s, event);
        case ReconnectDelay =>
          assert Remembers(s, ReconnectDelay, handle);
          ConnectingStopsBeat(config, s.(armed := s.armed - {handle}, reconnectTimer := None), opening);
          hide ConnectTransport;
      }
    case ForceConnect(opening) =>
      if s.running && s.phase.Disconnected? {
        ConnectingStopsBeat(config, s, opening);
        hide ConnectTransport;
      }
    case SocketConnected(_, _, _) =>
      if Connects(s, event) {
        ConnectionBeats(config, s, event);
        hide OnConnected;
      }
    case Ack =>
    case Failure(random) => FailureStopsBeat(config, s, random, event, s);
    case Stop =>
  }

  // ---------- An idle peer that answers ----------

  /** The idle timer is at least a timeout after the last heartbeat, and at most `late` more. */
  ghost predicate IdleBounds(config: Config, t: Tcp, late: Option<int>) {
    t.s.phase.Connected? && t.s.lastHeartbeatSentAt.Some? && t.idle.Some? ==>
      var earliest := t.s.lastHeartbeatSentAt.value + config.connectionTimeoutMs;
      earliest <= t.idle.value && (late.Some? ==> t.idle.value <= earliest + late.value)
  }

  /** No traffic but heartbeats and answers to them that come at most d later. */
  ghost predicate Quiet(s: State, e: TcpEvent, d: int) {
    && !e.Traffic?
    && (e == Base(Ack) ==> s.lastHeartbeatSentAt.Some? && s.now <= s.lastHeartbeatSentAt.value + d)
  }

  lemma StepKeepsBounds(config: Config, t: Tcp, e: TcpEvent, late: Option<int>)
    requires ProperConfig(config) && IdleInv(config, t) && EnabledTcp(t, e)
    requires Beating(config, t.s) && IdleBounds(config, t, late)
    requires late.Some? ==> late.value >= 0 && Quiet(t.s, e, late.value)
    ensures Beating(config, StepTcp(config, t, e).s) && IdleBounds(config, StepTcp(config, t, e), late)
  {
    hide Step, HandleFailure;
    match e
    case Base(event) =>
      BeatStep(config, t.s, event);
      StepAcks(config, t.s, event);
      hide Inv, Enabled, IsTcp, IsArmed;
    case Traffic =>
    case IdleFires(random) =>
      FailureLosesSocket(config, t.s, random);
      FailureStopsBeat(config, t.s, random, Failure(random), t.s);
  }

  ghost predicate KeepsIdle(config: Config, t: Tcp, late: Option<int>) {
    IdleInv(config, t) && Beating(config, t.s) && IdleBounds(config, t, late)
  }

  /** All traffic of the run is heartbeats and answers at most d late. */
  ghost predicate IsQuiet(config: Config, t: Tcp, events: seq<TcpEvent>, d: int) {
    forall i | 0 <= i < |events| :: Quiet(RunTcp(config, t, events[..i]).s, events[i], d)
  }

  lemma PrefixIsQuiet(config: Config, t: Tcp, events: seq<TcpEvent>, d: int)
    requires events != [] && IsQuiet(config, t, events, d)
    ensures var n := |events| - 1;
            IsQuiet(config, t, events[..n], d) && Quiet(RunTcp(config, t, events[..n]).s, events[n], d)
  {
    hide RunTcp, Quiet;
    var n := |events| - 1;
    forall i | 0 <= i < n
      ensures Quiet(RunTcp(config, t, events[..n][..i]).s, events[..n][i], d)
    {
      assert events[..n][..i] == events[..i];
    }
  }

  lemma {:induction false} RunKeepsIdle(config: Config, now: int, opening: Opening, events: seq<TcpEvent>,
      late: Option<int>)
    requires ProperConfig(config) && ValidOpening(opening) && !opening.Immediate?
    requires PossibleTcp(config, StartTcp(config, now, opening), events)
    requires late.Some? ==> late.value >= 0 && IsQuiet(config, StartTcp(config, now, opening), events, late.value)
    ensures KeepsIdle(config, RunTcp(config, StartTcp(config, now, opening), events), late)
  {
    var t := StartTcp(config, now, opening);
    hide StepTcp, EnabledTcp, Quiet, IdleInv, Beating, IdleBounds;
    if events == [] {
      StartKeepsIdle(config, now, opening, late);
    } else {
      var n := |events| - 1;
      PrefixIsPossibleTcp(config, t, events);
      if late.Some? {
        PrefixIsQuiet(config, t, events, late.value);
      }
      RunKeepsIdle(config, now, opening, events[..n], late);
      StepKeepsIdleInv(config, RunTcp(config, t, events[..n]), events[n]);
      StepKeepsBounds(config, RunTcp(config, t, events[..n]), events[n], late);
    }
  }

  lemma StartKeepsIdle(config: Config, now: int, opening: Opening, late: Option<int>)
    requires ProperConfig(config) && ValidOpening(opening) && !opening.Immediate?
    ensures KeepsIdle(config, StartTcp(config, now, opening), late)
  {
    StartKeepsIdleInv(config, now, opening);
    ConnectingStopsBeat(config, Created(now), opening);
    hide ConnectTransport;
  }

  /**
   A peer that answers every heartbeat within d, on a connection that carries nothing else, never sees a second
   heartbeat if d and the idle time together are less than the interval: the connection is failed before.
   */
  lemma QuietConnectionsAreShort(config: Config, now: int, opening: Opening, events: seq<TcpEvent>, d: nat)
    requires ProperConfig(config) && ValidOpening(opening) && !opening.Immediate?
    requires 0 < config.connectionTimeoutMs && d + config.connectionTimeoutMs < config.heartbeatIntervalMs
    requires PossibleTcp(config, StartTcp(config, now, opening), events)
    requires IsQuiet(config, StartTcp(config, now, opening), events, d)
    ensures var s := RunTcp(config, StartTcp(config, now, opening), events).s;
            s.phase.Connected? ==>
              && s.lastHeartbeatSentAt.Some? && IsArmed(s, s.heartbeatTimer, HeartbeatInterval)
              && s.now <= s.lastHeartbeatSentAt.value + d + config.connectionTimeoutMs
              && s.now < s.armed[s.heartbeatTimer.value].deadline
  {
    RunKeepsIdle(config, now, opening, events, Some(d));
    hide RunTcp, StartTcp, PossibleTcp, IsQuiet;
  }

  // ---------- When an idle peer is safe ----------

  /** No possible run fails a connected transport by its idle timer. */
  ghost predicate SparesIdlePeers(config: Config) {
    forall now, opening, events, random ::
      ValidOpening(opening) && !opening.Immediate? && PossibleTcp(config, StartTcp(config, now, opening), events) ==>
        var t := RunTcp(config, StartTcp(config, now, opening), events);
        t.s.phase.Connected? ==> !EnabledTcp(t, IdleFires(random))
  }

  lemma FrequentHeartbeatsSpare(config: Config)
    requires ProperConfig(config) &&
             (config.connectionTimeoutMs == 0 || config.heartbeatIntervalMs < config.connectionTimeoutMs)
    ensures SparesIdlePeers(config)
  {
    hide RunTcp, StartTcp, PossibleTcp;
    forall now, opening, events, random
      | ValidOpening(opening) && !opening.Immediate? && PossibleTcp(config, StartTcp(config, now, opening), events)
      ensures var t := RunTcp(config, StartTcp(config, now, opening), events);
              t.s.phase.Connected? ==> !EnabledTcp(t, IdleFires(random))
    {
      RunKeepsIdle(config, now, opening, events, None);
      IdleIsFar(config, RunTcp(config, StartTcp(config, now, opening), events), random);
    }
  }

  lemma IdleIsFar(config: Config, t: Tcp, random: real)
    requires KeepsIdle(config, t, None)
    requires config.connectionTimeoutMs == 0 || config.heartbeatIntervalMs < config.connectionTimeoutMs
    ensures t.s.phase.Connected? ==> !EnabledTcp(t, IdleFires(random))
  {
    assert t.s.phase.Connected? ==> t.s.heartbeatTimer.Some? && t.s.heartbeatTimer.value in t.s.armed;
  }

  /** A connection just made, and answered at once: only the next heartbeat is armed. */
  lemma AnsweredConnection(config: Config)
    requires ProperConfig(config)
    ensures var s0 := Start(config, 0, Pending);
            var s1 := Step(config, s0, SocketConnected(0, false, 0.0));
            var s2 := Step(config, s1, Ack);
            && s0.socket == Some(0) && s0.now == 0 && Connects(s0, SocketConnected(0, false, 0.0))
            && s1.socket == Some(0) && s1.now == 0 && s1.lastHeartbeatSentAt == Some(0)
            && s2.socket == Some(0) && s2.now == 0 && s2.phase.Connected? && s2.running
            && s2.armed == map[2 := Timer(HeartbeatInterval, config.heartbeatIntervalMs)]
  {
    var s0 := Start(config, 0, Pending);
    assert ClearTimers(EmitStatus(Created(0).(phase := Connecting))).armed == map[];
    assert s0.armed == map[] && s0.nextHandle == 1;
    var s1 := Step(config, s0, SocketConnected(0, false, 0.0));
    assert s1.armed == map[1 := Timer(HeartbeatTimeout, config.connectionTimeoutMs),
                           2 := Timer(HeartbeatInterval, config.heartbeatIntervalMs)];
    assert s1.heartbeatTimeoutTimer == Some(1);
  }

  /** If heartbeats are no more frequent than the idle time, a peer that answers at once can be dropped. */
  lemma AnsweringPeerIsDropped(config: Config) returns (events: seq<TcpEvent>)
    requires ProperConfig(config) && 0 < config.connectionTimeoutMs <= config.heartbeatIntervalMs
    ensures PossibleTcp(config, StartTcp(config, 0, Pending), events) &&
            IsQuiet(config, StartTcp(config, 0, Pending), events, 0)
    ensures var t := RunTcp(config, StartTcp(config, 0, Pending), events);
            t.s.phase.Connected? && EnabledTcp(t, IdleFires(0.0))
  {
    var e0, e1, e2 := Base(SocketConnected(0, false, 0.0)), Base(Ack), Base(Tick(config.connectionTimeoutMs));
    var t0 := StartTcp(config, 0, Pending);
    AnsweredConnection(config);
    hide Step, Start;
    var t1, t2 := StepTcp(config, t0, e0), StepTcp(config, StepTcp(config, t0, e0), e1);
    assert t2.idle == Some(config.connectionTimeoutMs);
    StepTick(config, t2, config.connectionTimeoutMs);
    events := [e0, e1, e2];
    ThreeEvents(config, t0, e0, e1, e2);
  }

  lemma ThreeEvents(config: Config, t: Tcp, e0: TcpEvent, e1: TcpEvent, e2: TcpEvent)
    ensures var t1, t2 := StepTcp(config, t, e0), StepTcp(config, StepTcp(config, t, e0), e1);
            && (EnabledTcp(t, e0) && EnabledTcp(t1, e1) && EnabledTcp(t2, e2) ==> PossibleTcp(config, t, [e0, e1, e2]))
            && (Quiet(t.s, e0, 0) && Quiet(t1.s, e1, 0) && Quiet(t2.s, e2, 0) ==> IsQuiet(config, t, [e0, e1, e2], 0))
            && RunTcp(config, t, [e0, e1, e2]) == StepTcp(config, t2, e2)
  {
    hide StepTcp, EnabledTcp, Quiet;
    var events := [e0, e1, e2];
    assert events[..0] == [] && events[..1] == [e0] && events[..2] == [e0, e1] && [e0][..0] == [] &&
           [e0, e1][..1] == [e0];
    assert RunTcp(config, t, []) == t;
    assert RunTcp(config, t, [e0]) == StepTcp(config, t, e0);
  }

  lemma StepTick(config: Config, t: Tcp, to: int)
    ensures StepTcp(config, t, Base(Tick(to))) == Tcp(t.s.(now := to), if t.s.socket.None? then None else t.idle)
  {
  }

  /**
   A TCP transport never loses a peer that is merely idle exactly when heartbeats are more frequent than the
   idle time.
   */
  lemma IdlePeersAreSparedIff(config: Config)
    requires ProperConfig(config)
    ensures SparesIdlePeers(config) <==>
              config.connectionTimeoutMs == 0 || config.heartbeatIntervalMs < config.connectionTimeoutMs
  {
    if config.connectionTimeoutMs == 0 || config.heartbeatIntervalMs < config.connectionTimeoutMs {
      FrequentHeartbeatsSpare(config);
    } else {
      var events := AnsweringPeerIsDropped(config);
      assert ValidOpening(Pending) && !Pending.Immediate?;
      hide RunTcp, PossibleTcp, StartTcp, EnabledTcp;
      assert !SparesIdlePeers(config);
    }
  }

  // ---------- Silence on TCP ----------

  /** A TCP transport that is still connected heard from its peer at most this long ago, in every possible run. */
  ghost predicate DetectsSilenceOnTcp(config: Config, bound: int) {
    forall now, opening, events ::
      ValidOpening(opening) && !opening.Immediate? && PossibleTcp(config, StartTcp(config, now, opening), events) ==>
        var s := RunTcp(config, StartTcp(config, now, opening), events).s;
        s.phase.Connected? ==> s.lastHeartbeatAckAt.Some? && s.now <= s.lastHeartbeatAckAt.value + bound
  }

  /** What happens to the transport itself: other traffic nothing, and the idle timer fails it. */
  function Underlying(events: seq<TcpEvent>): seq<Event> {
    if events == [] then []
    else
      var before := Underlying(events[..|events| - 1]);
      match events[|events| - 1]
      case Base(event) => before + [event]
      case Traffic => before
      case IdleFires(random) => before + [Failure(random)]
  }

  /** Every run of a TCP transport is one of the plain machine, so whatever holds of all those holds of TCP. */
  lemma {:induction false} TcpRunIsRun(config: Config, now: int, opening: Opening, events: seq<TcpEvent>)
    requires PossibleTcp(config, StartTcp(config, now, opening), events)
    ensures Possible(config, Start(config, now, opening), Underlying(events))
    ensures RunTcp(config, StartTcp(config, now, opening), events).s
            == Run(config, Start(config, now, opening), Underlying(events))
  {
    hide Step, Start, HandleFailure, Possible, PossibleTcp, Touches;
    var start, t := Start(config, now, opening), StartTcp(config, now, opening);
    if events == [] {
      EmptyRunIsPossible(config, start);
    } else {
      var n := |events| - 1;
      PrefixIsPossibleTcp(config, t, events);
      TcpRunIsRun(config, now, opening, events[..n]);
      var before := RunTcp(config, t, events[..n]);
      match events[n]
      case Base(event) => PossibleExtension(config, start, Underlying(events[..n]), event);
      case Traffic =>
      case IdleFires(random) =>
        PossibleExtension(config, start, Underlying(events[..n]), Failure(random));
        FailureIsStep(config, before.s, random);
    }
  }

  lemma EmptyRunIsPossible(config: Config, start: State)
    ensures Possible(config, start, []) && Run(config, start, []) == start
  {
  }

  lemma FailureIsStep(config: Config, s: State, random: real)
    ensures Step(config, s, Failure(random)) == HandleFailure(config, s, random)
  {
  }

  lemma SilenceIsDetectedOnTcp(config: Config)
    requires ProperConfig(config) && config.heartbeatIntervalMs > config.connectionTimeoutMs
    ensures DetectsSilenceOnTcp(config, config.heartbeatIntervalMs + config.connectionTimeoutMs)
  {
    hide RunTcp, StartTcp, PossibleTcp, Run, Start, Possible, Underlying;
    forall now, opening, events | ValidOpening(opening) && !opening.Immediate? &&
                                  PossibleTcp(config, StartTcp(config, now, opening), events)
      ensures var s := RunTcp(config, StartTcp(config, now, opening), events).s;
              s.phase.Connected? ==>
                && s.lastHeartbeatAckAt.Some?
                && s.now <= s.lastHeartbeatAckAt.value + (config.heartbeatIntervalMs + config.connectionTimeoutMs)
    {
      TcpRunIsRun(config, now, opening, events);
      SilentPeerIsDropped(config, now, opening, Underlying(events));
    }
  }

  /** Connected and unacknowledged since `ack`; the heartbeat just written has put the idle timer off as well. */
  ghost predicate UnnoticedOnTcp(config: Config, t: Tcp, ack: int, handle: nat) {
    && Unnoticed(config, t.s, ack, handle)
    && t.s.socket.Some? && t.idle == Some(t.s.now + config.connectionTimeoutMs)
  }

  lemma PossibleTcpExtension(config: Config, t: Tcp, events: seq<TcpEvent>, e: TcpEvent)
    requires PossibleTcp(config, t, events) && EnabledTcp(RunTcp(config, t, events), e)
    ensures PossibleTcp(config, t, events + [e])
    ensures RunTcp(config, t, events + [e]) == StepTcp(config, RunTcp(config, t, events), e)
  {
    hide EnabledTcp, StepTcp;
    var longer := events + [e];
    assert longer[..|events|] == events;
    forall i | 0 <= i < |longer|
      ensures EnabledTcp(RunTcp(config, t, longer[..i]), longer[i])
    {
      assert i < |events| ==> longer[..i] == events[..i] && longer[i] == events[i];
    }
  }

  lemma OnePeriodOnTcp(config: Config, t: Tcp, ack: int, handle: nat)
    requires 0 < config.heartbeatIntervalMs <= config.connectionTimeoutMs && UnnoticedOnTcp(config, t, ack, handle)
    ensures var period := OnePeriod(t.s, config, handle);
            var ticked := StepTcp(config, t, Base(period[0]));
            && EnabledTcp(t, Base(period[0])) && EnabledTcp(ticked, Base(period[1]))
            && UnnoticedOnTcp(config, StepTcp(config, ticked, Base(period[1])), ack, handle)
            && StepTcp(config, ticked, Base(period[1])).s.now == t.s.now + config.heartbeatIntervalMs
  {
    OnePeriodUnnoticed(config, t.s, ack, handle);
    StepTick(config, t, t.s.now + config.heartbeatIntervalMs);
    HeartbeatIsWritten(config, t.s.(now := t.s.now + config.heartbeatIntervalMs), handle);
    hide Step, Enabled;
  }

  lemma HeartbeatIsWritten(config: Config, s: State, handle: nat)
    requires s.running && s.phase.Connected? && handle in s.armed && s.armed[handle].kind.HeartbeatInterval?
    ensures WritesHeartbeat(s, Fire(handle, Pending, false, 0.0))
    ensures Step(config, s, Fire(handle, Pending, false, 0.0)).socket == s.socket
    ensures Step(config, s, Fire(handle, Pending, false, 0.0)).now == s.now
  {
  }

  lemma FirstConnectionOnTcp(config: Config)
    requires ProperConfig(config) && 0 < config.connectionTimeoutMs
    ensures var t, e := StartTcp(config, 0, Pending), Base(SocketConnected(0, false, 0.0));
            && EnabledTcp(t, e) && UnnoticedOnTcp(config, StepTcp(config, t, e), 0, 2)
            && StepTcp(config, t, e).s.now == 0
  {
    var s0 := Start(config, 0, Pending);
    AnsweredConnection(config);
    assert s0.armed == map[] && s0.nextHandle == 1 && s0.heartbeatTimer.None? && s0.heartbeatTimeoutTimer.None? by {
      assert ClearTimers(EmitStatus(Created(0).(phase := Connecting))).armed == map[];
    }
    hide Start;
  }

  /** A possible run of n heartbeat periods on TCP in which the peer never answers, and neither timer fires. */
  lemma {:induction false} SilentPeriodsOnTcp(config: Config, n: nat) returns (events: seq<TcpEvent>, handle: nat)
    requires ProperConfig(config) && config.heartbeatIntervalMs <= config.connectionTimeoutMs
    ensures var start := StartTcp(config, 0, Pending);
            && PossibleTcp(config, start, events)
            && UnnoticedOnTcp(config, RunTcp(config, start, events), 0, handle)
            && RunTcp(config, start, events).s.now == n * config.heartbeatIntervalMs
  {
    hide UnnoticedOnTcp, StepTcp, StartTcp, EnabledTcp;
    var start := StartTcp(config, 0, Pending);
    if n == 0 {
      var e := Base(SocketConnected(0, false, 0.0));
      FirstConnectionOnTcp(config);
      PossibleTcpExtension(config, start, [], e);
      events, handle := [e], 2;
      assert [] + [e] == [e];
    } else {
      events, handle := SilentPeriodsOnTcp(config, n - 1);
      hide PossibleTcp, RunTcp;
      var t := RunTcp(config, start, events);
      var tick, fire := Base(OnePeriod(t.s, config, handle)[0]), Base(OnePeriod(t.s, config, handle)[1]);
      OnePeriodOnTcp(config, t, 0, handle);
      PossibleTcpExtension(config, start, events, tick);
      PossibleTcpExtension(config, start, events + [tick], fire);
      events := events + [tick] + [fire];
      assert n * config.heartbeatIntervalMs == (n - 1) * config.heartbeatIntervalMs + config.heartbeatIntervalMs;
    }
  }

  lemma SilenceGoesUnnoticedOnTcp(config: Config, bound: int)
    requires ProperConfig(config) && config.heartbeatIntervalMs <= config.connectionTimeoutMs
    ensures !DetectsSilenceOnTcp(config, bound)
  {
    hide RunTcp, StartTcp, PossibleTcp, Unnoticed;
    var n := if bound < 0 then 0 else bound + 1;
    var events, handle := SilentPeriodsOnTcp(config, n);
    var s := RunTcp(config, StartTcp(config, 0, Pending), events).s;
    UnnoticedIsConnected(config, s, handle);
    assert n * config.heartbeatIntervalMs >= n;
    assert s.now > s.lastHeartbeatAckAt.value + bound;
    assert ValidOpening(Pending) && !Pending.Immediate?;
  }

  /**
   On TCP too, where the idle timer could have helped, a silent peer is detected in bounded time exactly when
   heartbeats are further apart than the timeout: every heartbeat written sets the idle timer anew.
   */
  lemma SilenceIsDetectedOnTcpIff(config: Config)
    requires ProperConfig(config)
    ensures (exists bound :: DetectsSilenceOnTcp(config, bound)) <==>
            config.heartbeatIntervalMs > config.connectionTimeoutMs
  {
    hide DetectsSilenceOnTcp;
    if config.heartbeatIntervalMs > config.connectionTimeoutMs {
      SilenceIsDetectedOnTcp(config);
    } else {
      forall bound
        ensures !DetectsSilenceOnTcp(config, bound)
      {
        SilenceGoesUnnoticedOnTcp(config, bound);
      }
    }
  }

  /**
   TCP spares idle peers and detects silent ones exactly when the timeout is 0, which turns the idle timer off and
   leaves no time for answers. With a timeout, no configuration does both.
   */
  lemma TcpServesBothIff(config: Config)
    requires ProperConfig(config)
    ensures SparesIdlePeers(config) && (exists bound :: DetectsSilenceOnTcp(config, bound)) <==>
            config.connectionTimeoutMs == 0
  {
    IdlePeersAreSparedIff(config);
    SilenceIsDetectedOnTcpIff(config);
    hide SparesIdlePeers, DetectsSilenceOnTcp;
  }
}
