/**
 Models the transports of the class OscConnectionManager of src/services/osc/connectionManager.ts as
 the code runs them: fields updated in place, one method per method or callback of the source. Each
 method is proved to do what TransportMachine says, and OnData to cut the stream as Framing says.

 The fields `armed`, `nextHandle`, `now` and `statuses` stand for what surrounds the object: the timer
 runtime, the clock and the listeners of 'status' events.
 */
module ConnectionManager {
  import opened Backoff
  import opened Framing
  import opened Options
  import opened TransportMachine
  import opened TransportSafety
  import opened TransportStatus

  class Transport {
    const config: Config
    var phase: Phase
    var socket: Option<nat>
    var buffer: seq<Byte>
    var heartbeatTimer: Option<nat>
    var heartbeatTimeoutTimer: Option<nat>
    var reconnectTimer: Option<nat>
    var lastHeartbeatSentAt: Option<int>
    var lastHeartbeatAckAt: Option<int>
    var consecutiveFailures: nat
    var reconnectStartedAt: Option<int>
    var running: bool
    var armed: map<nat, Timer>
    var nextHandle: nat
    var now: int
    var statuses: seq<Phase>

    ghost function View(): State
      reads this
    {
      State(phase, socket, heartbeatTimer, heartbeatTimeoutTimer, reconnectTimer, lastHeartbeatSentAt,
            lastHeartbeatAckAt, consecutiveFailures, reconnectStartedAt, running, armed, nextHandle, now, statuses)
    }

    constructor (config: Config, now: int, opening: Opening)
      ensures this.config == config && View() == Start(config, now, opening) && (socket.Some? ==> buffer == [])
    {
      this.config := config;
      phase, socket, buffer := Disconnected, None, [];
      heartbeatTimer, heartbeatTimeoutTimer, reconnectTimer := None, None, None;
      lastHeartbeatSentAt, lastHeartbeatAckAt, consecutiveFailures, reconnectStartedAt := None, None, 0, None;
      running, armed, nextHandle, statuses := true, map[], 0, [];
      this.now := now;
      new;
      hide ConnectTransport;
      Connect(opening);
    }

    // ---------- The timer runtime ----------

    method SetTimer(kind: TimerKind, delay: int) returns (handle: nat)
      modifies this`armed, this`nextHandle
      ensures View() == Arm(old(View()), kind, delay) && handle == old(nextHandle)
    {
      handle := nextHandle;
      armed := armed[handle := Timer(kind, now + delay)];
      nextHandle := nextHandle + 1;
    }

    method ClearTimer(handle: Option<nat>)
      modifies this`armed
      ensures View() == Disarm(old(View()), handle)
    {
      if handle.Some? {
        armed := armed - {handle.value};
      }
    }

    // ---------- Clearing ----------

    method ClearHeartbeatTimers()
      modifies this`armed, this`heartbeatTimer, this`heartbeatTimeoutTimer
      ensures View() == ClearHeartbeat(old(View()))
    {
      ClearTimer(heartbeatTimer);
      ClearTimer(heartbeatTimeoutTimer);
      heartbeatTimer, heartbeatTimeoutTimer := None, None;
    }

    method ClearAllTimers()
      modifies this`armed, this`heartbeatTimer, this`heartbeatTimeoutTimer, this`reconnectTimer
      ensures View() == ClearTimers(old(View()))
    {
      ClearHeartbeatTimers();
      ClearTimer(reconnectTimer);
      reconnectTimer := None;
    }

    method DestroySocket()
      modifies this`socket, this`buffer
      ensures View() == old(View()).(socket := None)
      ensures buffer == if old(socket).Some? then [] else old(buffer)
    {
      if socket.Some? {
        socket := None;
        buffer := [];
      }
    }

    // ---------- Failure and reconnection ----------

    /** The part of handleTransportFailure before the reconnection is scheduled. */
    method DropTransport()
      modifies this
      ensures View() == Dropped(Emptied(old(View())))
      ensures socket.None?
    {
      hide ClearTimers;
      ClearAllTimers();
      DestroySocket();
      if reconnectStartedAt.None? {
        reconnectStartedAt := Some(now);
      }
      if !phase.Disconnected? {
        phase := Disconnected;
        consecutiveFailures := consecutiveFailures + 1;
        statuses := statuses + [phase];
      }
    }

    method HandleTransportFailure(random: real)
      modifies this
      ensures View() == HandleFailure(config, old(View()), random)
      ensures Normalised(config.backoff) && ValidRandom(random) && old(running) ==>
                RetryIsDue(config, old(View()), random, View())
      ensures StreamIsKept(old(socket), old(buffer), socket, buffer)
    {
      hide ScheduleReconnect, Dropped, Emptied, Normalised, ValidRandom, RetryIsDue;
      ghost var s := View();
      if Normalised(config.backoff) && ValidRandom(random) && running {
        FailureSetsRetry(config, s, random);
      }
      if running {
        FailureDrops(config, View(), random);
        DropTransport();
        ScheduleReconnection(random);
      }
    }

    method ScheduleReconnection(random: real)
      modifies this`armed, this`nextHandle, this`reconnectTimer, this`reconnectStartedAt
      ensures View() == ScheduleReconnect(config, old(View()), random)
    {
      hide ComputeReconnectDelay;
      if reconnectTimer.Some? || !running {
        return;
      }
      if reconnectStartedAt.None? {
        reconnectStartedAt := Some(now);
      }
      var failures := if consecutiveFailures == 0 then 1 else consecutiveFailures;
      var delay := ComputeReconnectDelay(config.backoff, failures, random);
      if config.reconnectTimeoutMs.Some? {
        var elapsed := now - reconnectStartedAt.value;
        if elapsed >= config.reconnectTimeoutMs.value || elapsed + delay > config.reconnectTimeoutMs.value {
          return;
        }
      }
      var handle := SetTimer(ReconnectDelay, delay);
      reconnectTimer := Some(handle);
    }

    method Connect(opening: Opening)
      modifies this
      ensures View() == ConnectTransport(config, old(View()), opening)
      ensures if old(running) && old(phase).Disconnected? then socket.None? || buffer == []
              else StreamIsKept(old(socket), old(buffer), socket, buffer)
    {
      hide HandleFailure, OnConnected, ClearTimers;
      if !running || !phase.Disconnected? {
        return;
      }
      phase := Connecting;
      statuses := statuses + [phase];
      ClearAllTimers();
      DestroySocket();
      match opening {
        case InitFails(random) =>
          HandleTransportFailure(random);
        case Pending =>
          OpenSocket();
        case Immediate(sendFails, random) =>
          OpenSocket();
          OnTransportConnected(sendFails, random);
      }
    }

    method OpenSocket()
      modifies this`socket, this`nextHandle, this`buffer
      ensures View() == old(View()).(socket := Some(old(nextHandle)), nextHandle := old(nextHandle) + 1) && buffer == []
    {
      socket := Some(nextHandle);
      nextHandle := nextHandle + 1;
      buffer := [];
    }

    // ---------- Heartbeat ----------

    method OnTransportConnected(sendFails: bool, random: real)
      modifies this
      ensures View() == OnConnected(config, old(View()), sendFails, random)
      ensures StreamIsKept(old(socket), old(buffer), socket, buffer)
    {
      hide StartHeartbeat;
      ghost var s := View();
      phase := Connected;
      consecutiveFailures := 0;
      lastHeartbeatAckAt := Some(now);
      lastHeartbeatSentAt := None;
      reconnectStartedAt := None;
      statuses := statuses + [phase];
      assert View() == EmitStatus(s.(phase := Connected, consecutiveFailures := 0, lastHeartbeatAckAt := Some(s.now),
                                     lastHeartbeatSentAt := None, reconnectStartedAt := None));
      StartHeartbeats(sendFails, random);
    }

    method StartHeartbeats(sendFails: bool, random: real)
      modifies this
      ensures View() == StartHeartbeat(config, old(View()), sendFails, random)
      ensures StreamIsKept(old(socket), old(buffer), socket, buffer)
    {
      hide SendHeartbeat, ClearHeartbeat;
      if !running {
        return;
      }
      ClearHeartbeatTimers();
      SendOneHeartbeat(sendFails, random);
      var handle := SetTimer(HeartbeatInterval, config.heartbeatIntervalMs);
      heartbeatTimer := Some(handle);
    }

    /** The heartbeat closure; `sendFails` says whether sendThroughState throws. */
    method SendOneHeartbeat(sendFails: bool, random: real)
      modifies this
      ensures View() == SendHeartbeat(config, old(View()), sendFails, random)
      ensures StreamIsKept(old(socket), old(buffer), socket, buffer)
    {
      hide HandleFailure;
      if !running || !phase.Connected? {
        return;
      }
      lastHeartbeatSentAt := Some(now);
      if sendFails {
        HandleTransportFailure(random);
        return;
      }
      ClearTimer(heartbeatTimeoutTimer);
      var handle := SetTimer(HeartbeatTimeout, config.connectionTimeoutMs);
      heartbeatTimeoutTimer := Some(handle);
    }

    method MarkAck()
      modifies this`armed, this`lastHeartbeatAckAt, this`heartbeatTimeoutTimer
      ensures View() == MarkHeartbeatAck(old(View()))
    {
      lastHeartbeatAckAt := Some(now);
      if heartbeatTimeoutTimer.Some? {
        ClearTimer(heartbeatTimeoutTimer);
        heartbeatTimeoutTimer := None;
      }
    }

    // ---------- Callbacks ----------

    /** A timer fires: one-shot timers are gone, the interval is armed for its next period. */
    method OnTimer(handle: nat, opening: Opening, sendFails: bool, random: real)
      requires handle in armed
      modifies this
      ensures View() == OnFire(config, old(View()), handle, opening, sendFails, random)
      ensures StreamIsKept(old(socket), old(buffer), socket, buffer) || (old(phase).Disconnected? && buffer == [])
    {
      hide HandleFailure, SendHeartbeat, ConnectTransport;
      match armed[handle].kind {
        case HeartbeatInterval =>
          armed := armed[handle := Timer(HeartbeatInterval, now + config.heartbeatIntervalMs)];
          SendOneHeartbeat(sendFails, random);
        case HeartbeatTimeout =>
          armed := armed - {handle};
          var lastAck := if lastHeartbeatAckAt.Some? then lastHeartbeatAckAt.value else 0;
          var elapsed := now - lastAck;
          if elapsed >= config.connectionTimeoutMs {
            HandleTransportFailure(random);
          }
        case ReconnectDelay =>
          armed := armed - {handle};
          reconnectTimer := None;
          Connect(opening);
      }
    }

    method OnSocketConnected(connected: nat, sendFails: bool, random: real)
      modifies this
      ensures View() == Step(config, old(View()), SocketConnected(connected, sendFails, random))
      ensures StreamIsKept(old(socket), old(buffer), socket, buffer)
    {
      hide OnConnected;
      if !phase.Connecting? || socket != Some(connected) {
        return;
      }
      OnTransportConnected(sendFails, random);
    }

    /**
     A chunk of bytes arrives: every complete packet is emitted, and the accepted ones count as acks.
     `accepts` is the heartbeat matcher; without a custom one it accepts everything.
     */
    method OnData(chunk: seq<Byte>, accepts: Packet -> bool) returns (packets: seq<Packet>)
      modifies this`buffer, this`armed, this`lastHeartbeatAckAt, this`heartbeatTimeoutTimer
      ensures Decoded(packets, buffer) == Decode(old(buffer) + chunk)
      ensures AreCutInto(old(buffer) + chunk, packets, buffer) && !HasFrame(buffer)
      ensures View() == if AnyAccepted(packets, accepts) then Step(config, old(View()), Ack) else old(View())
    {
      hide MarkHeartbeatAck, AnyAccepted, AreCutInto;
      var remaining := buffer + chunk;
      ghost var whole := Decode(remaining);
      packets := [];
      NoneAccepted(accepts);
      while HasFrame(remaining)
        invariant whole == Decoded(packets + Decode(remaining).packets, Decode(remaining).rest)
        invariant View() == if AnyAccepted(packets, accepts) then MarkHeartbeatAck(old(View())) else old(View())
        decreases |remaining|
      {
        var packet := FirstPacket(remaining);
        OneMorePacket(packets, packet, accepts);
        AckTwice(old(View()));
        if accepts(packet) {
          MarkAck();
        }
        assert packets + ([packet] + Decode(AfterFirstFrame(remaining)).packets)
            == packets + [packet] + Decode(AfterFirstFrame(remaining)).packets;
        packets := packets + [packet];
        remaining := AfterFirstFrame(remaining);
      }
      buffer := remaining;
      NothingWhole(remaining);
      DecodeCutsIff(old(buffer) + chunk, packets, buffer);
    }

    /** What the event loop calls for an event: the clock, a timer, a socket, a write callback, or the manager. */
    method Handle(event: Event)
      requires Enabled(View(), event) && (phase.Disconnected? ==> socket.None?)
      modifies this
      ensures View() == Step(config, old(View()), event)
      ensures StreamIsKept(old(socket), old(buffer), socket, buffer) || (old(socket).None? && buffer == [])
    {
      hide ConnectTransport, OnFire, HandleFailure, OnConnected, MarkHeartbeatAck, StopTransport;
      match event
      case Tick(to) => now := to;
      case Fire(handle, opening, sendFails, random) => OnTimer(handle, opening, sendFails, random);
      case ForceConnect(opening) => Connect(opening);
      case SocketConnected(connected, sendFails, random) => OnSocketConnected(connected, sendFails, random);
      case Ack => MarkAck();
      case Failure(random) => HandleTransportFailure(random);
      case Stop => StopConnection();
    }

    method StopConnection()
      modifies this
      ensures View() == StopTransport(old(View()))
      ensures StreamIsKept(old(socket), old(buffer), socket, buffer)
    {
      hide ClearTimers;
      if !running {
        return;
      }
      StoppedClears(View());
      running := false;
      ClearAllTimers();
      DestroySocket();
      phase := Disconnected;
      reconnectStartedAt := None;
    }

    /** sendThroughState on TCP: the bytes written, or an error if not connected or too long for the prefix. */
    method SendThroughState(packet: Packet) returns (written: Option<seq<Byte>>)
      ensures written.Some? <==> socket.Some? && phase.Connected? && Sendable(packet)
      ensures written.Some? ==> written.value == Frame(packet) && Decode(written.value) == Decoded([packet], [])
      ensures written.Some? ==> |written.value| == 4 + |packet| && BeginsWithPacket(written.value, packet)
    {
      if socket.None? || !phase.Connected? || !Sendable(packet) {
        return None;
      }
      written := Some(Frame(packet));
      FrameBeginsWithPacket(packet);
      DecodeInvertsFrames([packet]);
      assert FrameAll([packet]) == Frame(packet);
    }
  }

  /** The receive buffer lives as long as its socket. */
  predicate StreamIsKept(socket: Option<nat>, buffer: seq<Byte>, socket': Option<nat>, buffer': seq<Byte>) {
    socket'.None? || (socket' == socket && buffer' == buffer)
  }

  lemma StoppedClears(s: State)
    ensures ClearTimers(s.(running := false)) == ClearTimers(s).(running := false)
  {
  }

  ghost predicate AnyAccepted(packets: seq<Packet>, accepts: Packet -> bool) {
    exists p :: p in packets && accepts(p)
  }

  lemma NoneAccepted(accepts: Packet -> bool)
    ensures !AnyAccepted([], accepts)
  {
  }

  lemma OneMorePacket(packets: seq<Packet>, packet: Packet, accepts: Packet -> bool)
    ensures AnyAccepted(packets + [packet], accepts) <==> AnyAccepted(packets, accepts) || accepts(packet)
  {
    assert forall p :: p in packets + [packet] <==> p in packets || p == packet;
  }

  lemma NothingWhole(bytes: seq<Byte>)
    requires !HasFrame(bytes)
    ensures Decode(bytes) == Decoded([], bytes)
  {
  }

  lemma AckTwice(s: State)
    ensures MarkHeartbeatAck(MarkHeartbeatAck(s)) == MarkHeartbeatAck(s)
  {
  }

  // ---------- Choosing a transport ----------

  datatype TransportType = Tcp | Udp

  datatype Preference = Reliability | Speed | Auto

  function Weight(phase: Phase): nat {
    match phase
    case Disconnected => 0
    case Connecting => 1
    case Connected => 2
  }

  function GetTransportPriority(preference: Preference, tcp: Phase, udp: Phase): seq<TransportType> {
    match preference
    case Reliability => [Tcp, Udp]
    case Speed => [Udp, Tcp]
    case Auto => if Weight(udp) > Weight(tcp) then [Udp, Tcp] else [Tcp, Udp]
  }

  function PhaseOf(transport: TransportType, tcp: Phase, udp: Phase): Phase {
    if transport.Tcp? then tcp else udp
  }

  /** The transport to send through, or none, in which case both are told to connect. */
  function PickTransport(preference: Preference, tcp: Phase, udp: Phase): (picked: Option<TransportType>)
    ensures picked.Some? <==> tcp.Connected? || udp.Connected?
    ensures picked == Some(Tcp) ==> tcp.Connected?
    ensures picked == Some(Udp) ==> udp.Connected?
    ensures tcp.Connected? && udp.Connected? ==> picked == Some(if preference.Speed? then Udp else Tcp)
  {
    var order := GetTransportPriority(preference, tcp, udp);
    if PhaseOf(order[0], tcp, udp).Connected? then Some(order[0])
    else if PhaseOf(order[1], tcp, udp).Connected? then Some(order[1])
    else None
  }
}
