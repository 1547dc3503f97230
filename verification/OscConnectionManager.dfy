/**
 Models the class OscConnectionManager of src/services/osc/connectionManager.ts with its two transports.

 Ghost state ties each transport to the run of TransportMachine it has been through, and the TCP buffer to the
 bytes received on the current socket, so that what is proved of all runs holds of the objects between calls.
 */
module OscConnectionManagers {
  import opened ConnectionManager
  import opened Framing
  import opened Options
  import opened TransportMachine
  import opened TransportSafety
  import opened TransportStatus
  import opened TransportTiming

  /** The state is the one a possible run leads to. */
  ghost predicate Ran(config: Config, began: int, opening: Opening, history: seq<Event>, s: State) {
    && ProperConfig(config) && ValidOpening(opening)
    && Possible(config, Start(config, began, opening), history)
    && s == Run(config, Start(config, began, opening), history)
  }

  lemma RanStart(config: Config, began: int, opening: Opening)
    requires ProperConfig(config) && ValidOpening(opening)
    ensures Ran(config, began, opening, [], Start(config, began, opening))
  {
  }

  lemma RanStep(config: Config, began: int, opening: Opening, history: seq<Event>, s: State, event: Event)
    requires Ran(config, began, opening, history, s) && Enabled(s, event)
    ensures Ran(config, began, opening, history + [event], Step(config, s, event))
  {
    hide Start, Step, Enabled, Possible, Run;
    PossibleExtension(config, Start(config, began, opening), history, event);
  }

  /** What every run keeps, read off a transport. */
  lemma RanIsSafe(config: Config, began: int, opening: Opening, history: seq<Event>, s: State)
    requires Ran(config, began, opening, history, s)
    ensures Inv(config, s)
    ensures s.phase.Disconnected? ==> s.socket.None?
    ensures !s.running ==> Dead(s)
    ensures IsReported(s)
  {
    RunKeepsInv(config, began, opening, history);
    RunReports(config, began, opening, history);
  }

  /** A stopped transport stays as it is, and reports nothing. */
  lemma StoppedStays(config: Config, s: State, event: Event)
    requires Dead(s)
    ensures Dead(Step(config, s, event)) && Step(config, s, event).statuses == s.statuses
  {
    DeadForGood(config, s, [event]);
    assert [event][..0] == [];
  }

  class OscConnectionManager {
    const tcp: Transport
    const udp: Transport
    ghost const began: int
    ghost const tcpOpening: Opening
    ghost const udpOpening: Opening
    ghost var tcpHistory: seq<Event>
    ghost var udpHistory: seq<Event>
    ghost var received: seq<Byte>    // on the current TCP socket

    /** Both transports are in a reachable state, share the clock and the flag, and the stream is decoded so far. */
    ghost predicate Valid()
      reads this, tcp, udp
    {
      && tcp != udp && tcp.running == udp.running && tcp.now == udp.now
      && Ran(tcp.config, began, tcpOpening, tcpHistory, tcp.View())
      && Ran(udp.config, began, udpOpening, udpHistory, udp.View())
      && (tcp.socket.Some? ==> tcp.buffer == Decode(received).rest)
    }

    constructor (tcpConfig: Config, udpConfig: Config, now: int, tcpOpening: Opening, udpOpening: Opening)
      requires ProperConfig(tcpConfig) && ProperConfig(udpConfig) && ValidOpening(tcpOpening) &&
               ValidOpening(udpOpening)
      ensures Valid() && fresh(tcp) && fresh(udp) && tcpHistory == [] && udpHistory == [] && tcp.running
      ensures tcp.config == tcpConfig && udp.config == udpConfig
    {
      tcp := new Transport(tcpConfig, now, tcpOpening);
      udp := new Transport(udpConfig, now, udpOpening);
      this.tcpOpening, this.udpOpening, began := tcpOpening, udpOpening, now;
      tcpHistory, udpHistory, received := [], [], [];
      new;
      hide Ran, Start;
      RanStart(tcpConfig, now, tcpOpening);
      RanStart(udpConfig, now, udpOpening);
      StartIsRunning(tcpConfig, now, tcpOpening);
      StartIsRunning(udpConfig, now, udpOpening);
    }

    /** A timer, a socket or a write callback of the TCP transport. */
    method OnTcpEvent(event: Event)
      requires Valid() && Enabled(tcp.View(), event) && !event.Tick? && !event.Stop?
      modifies this`tcpHistory, this`received, tcp
      ensures Valid() && tcpHistory == old(tcpHistory) + [event]
      ensures !old(tcp.running) ==> Dead(tcp.View()) && tcp.statuses == old(tcp.statuses)
    {
      hide Ran, Step, Enabled, Dead;
      RanIsSafe(tcp.config, began, tcpOpening, tcpHistory, tcp.View());
      RanStep(tcp.config, began, tcpOpening, tcpHistory, tcp.View(), event);
      StepKeepsFlagAndClock(tcp.config, tcp.View(), event);
      if !tcp.running {
        StoppedStays(tcp.config, tcp.View(), event);
      }
      ghost var socket, buffer := tcp.socket, tcp.buffer;
      tcp.Handle(event);
      tcpHistory := tcpHistory + [event];
      received := if StreamIsKept(socket, buffer, tcp.socket, tcp.buffer) then received else [];
    }

    method OnUdpEvent(event: Event)
      requires Valid() && Enabled(udp.View(), event) && !event.Tick? && !event.Stop?
      modifies this`udpHistory, udp
      ensures Valid() && udpHistory == old(udpHistory) + [event]
      ensures !old(udp.running) ==> Dead(udp.View()) && udp.statuses == old(udp.statuses)
    {
      hide Ran, Step, Enabled, Dead;
      RanIsSafe(udp.config, began, udpOpening, udpHistory, udp.View());
      RanStep(udp.config, began, udpOpening, udpHistory, udp.View(), event);
      StepKeepsFlagAndClock(udp.config, udp.View(), event);
      if !udp.running {
        StoppedStays(udp.config, udp.View(), event);
      }
      udp.Handle(event);
      udpHistory := udpHistory + [event];
    }

    /** A chunk arrives on the TCP socket: what has been emitted on it is what the bytes so far decode to. */
    method OnTcpData(chunk: seq<Byte>, accepts: Packet -> bool) returns (packets: seq<Packet>)
      requires Valid() && tcp.socket.Some?
      modifies this`tcpHistory, this`received, tcp`buffer, tcp`armed, tcp`lastHeartbeatAckAt, tcp`heartbeatTimeoutTimer
      ensures Valid() && received == old(received) + chunk
      ensures Decode(received).packets == Decode(old(received)).packets + packets
      ensures AreCutInto(received, Decode(received).packets, tcp.buffer)
      ensures tcpHistory == old(tcpHistory) + (if AnyAccepted(packets, accepts) then [Ack] else [])
    {
      hide Ran, Step, AnyAccepted, Decode;
      RanStep(tcp.config, began, tcpOpening, tcpHistory, tcp.View(), Ack);
      DecodeContinues(received, chunk);
      assert tcpHistory + [] == tcpHistory;
      packets := tcp.OnData(chunk, accepts);
      received := received + chunk;
      DecodeCutsIff(received, Decode(received).packets, tcp.buffer);
      tcpHistory := tcpHistory + (if AnyAccepted(packets, accepts) then [Ack] else []);
    }

    /** Time passes for both transports. */
    method AdvanceClock(to: int)
      requires Valid() && Enabled(tcp.View(), Tick(to)) && Enabled(udp.View(), Tick(to))
      modifies this`tcpHistory, this`udpHistory, tcp`now, udp`now
      ensures Valid() && tcpHistory == old(tcpHistory) + [Tick(to)] && udpHistory == old(udpHistory) + [Tick(to)]
    {
      hide Ran, Enabled;
      RanStep(tcp.config, began, tcpOpening, tcpHistory, tcp.View(), Tick(to));
      RanStep(udp.config, began, udpOpening, udpHistory, udp.View(), Tick(to));
      tcp.now := to;
      udp.now := to;
      tcpHistory, udpHistory := tcpHistory + [Tick(to)], udpHistory + [Tick(to)];
    }

    /** pickTransport: the first connected transport in the preferred order; without one, both are made to connect. */
    method Pick(preference: Preference, tcpOpening: Opening, udpOpening: Opening)
      returns (picked: Option<TransportType>)
      requires Valid() && ValidOpening(tcpOpening) && ValidOpening(udpOpening)
      modifies this`tcpHistory, this`udpHistory, this`received, tcp, udp
      ensures Valid() && picked == PickTransport(preference, old(tcp.phase), old(udp.phase))
      ensures picked.Some? ==> tcp.View() == old(tcp.View()) && udp.View() == old(udp.View())
      ensures picked.None? ==> tcpHistory == old(tcpHistory) + [ForceConnect(tcpOpening)]
                               && udpHistory == old(udpHistory) + [ForceConnect(udpOpening)]
      ensures !old(tcp.running) ==> Dead(tcp.View()) && Dead(udp.View())
    {
      hide Ran, Dead;
      var order := GetTransportPriority(preference, tcp.phase, udp.phase);
      for i := 0 to |order|
        invariant forall j | 0 <= j < i :: !PhaseOf(order[j], tcp.phase, udp.phase).Connected?
      {
        if PhaseOf(order[i], tcp.phase, udp.phase).Connected? {
          RanIsSafe(tcp.config, began, this.tcpOpening, tcpHistory, tcp.View());
          RanIsSafe(udp.config, began, this.udpOpening, udpHistory, udp.View());
          return Some(order[i]);
        }
      }
      picked := None;
      if order[0].Tcp? {
        OnTcpEvent(ForceConnect(tcpOpening));
        OnUdpEvent(ForceConnect(udpOpening));
      } else {
        OnUdpEvent(ForceConnect(udpOpening));
        OnTcpEvent(ForceConnect(tcpOpening));
      }
    }

    /** send: the transport used and what it is given to write, or an error. */
    method Send(preference: Preference, packet: Packet, tcpOpening: Opening, udpOpening: Opening)
      returns (sent: Option<(TransportType, seq<Byte>)>)
      requires Valid() && ValidOpening(tcpOpening) && ValidOpening(udpOpening)
      modifies this`tcpHistory, this`udpHistory, this`received, tcp, udp
      ensures Valid()
      ensures match PickTransport(preference, old(tcp.phase), old(udp.phase))
              case None => sent.None?
              case Some(Tcp) => sent == if Sendable(packet) then Some((Tcp, Frame(packet))) else None
              case Some(Udp) => sent == Some((Udp, packet))
      ensures sent.Some? && sent.value.0.Tcp? ==>
                |sent.value.1| == 4 + |packet| && BeginsWithPacket(sent.value.1, packet)
      ensures !old(tcp.running) ==> sent.None?
    {
      hide Ran;
      RanIsSafe(tcp.config, began, this.tcpOpening, tcpHistory, tcp.View());
      RanIsSafe(udp.config, began, this.udpOpening, udpHistory, udp.View());
      var picked := Pick(preference, tcpOpening, udpOpening);
      match picked {
        case None =>
          sent := None;
        case Some(Tcp) =>
          var written := tcp.SendThroughState(packet);
          sent := if written.Some? then Some((Tcp, written.value)) else None;
        case Some(Udp) =>
          sent := Some((Udp, packet));
      }
    }

    /** stop, which is final: see the contracts above for a manager that is no longer running. */
    method StopAll()
      requires Valid()
      modifies this`tcpHistory, this`udpHistory, tcp, udp
      ensures Valid() && !tcp.running && !udp.running
      ensures Dead(tcp.View()) && Dead(udp.View())
      ensures tcp.statuses == old(tcp.statuses) && udp.statuses == old(udp.statuses)
    {
      hide Ran, StopTransport;
      RanStep(tcp.config, began, tcpOpening, tcpHistory, tcp.View(), Stop);
      RanStep(udp.config, began, udpOpening, udpHistory, udp.View(), Stop);
      StopEndsRunning(tcp.View());
      StopEndsRunning(udp.View());
      tcp.StopConnection();
      udp.StopConnection();
      tcpHistory, udpHistory := tcpHistory + [Stop], udpHistory + [Stop];
      RanIsSafe(tcp.config, began, tcpOpening, tcpHistory, tcp.View());
      RanIsSafe(udp.config, began, udpOpening, udpHistory, udp.View());
    }
  }

  lemma StepKeepsFlagAndClock(config: Config, s: State, event: Event)
    requires !event.Tick? && !event.Stop?
    ensures Step(config, s, event).running == s.running && Step(config, s, event).now == s.now
  {
    StepAcks(config, s, event);
    hide Step;
    FlagIsKept(config, s, event);
  }

  lemma StartIsRunning(config: Config, began: int, opening: Opening)
    ensures Start(config, began, opening).running && Start(config, began, opening).now == began
  {
    ConnectKeepsRunning(config, Created(began), opening);
    ConnectAcks(config, Created(began), opening);
    hide ConnectTransport;
  }

  lemma ConnectKeepsRunning(config: Config, s: State, opening: Opening)
    ensures ConnectTransport(config, s, opening).running == s.running
  {
  }

  lemma FlagIsKept(config: Config, s: State, event: Event)
    requires !event.Stop?
    ensures Step(config, s, event).running == s.running
  {
    match event
    case ForceConnect(opening) => ConnectKeepsRunning(config, s, opening);
    case Fire(handle, opening, _, _) =>
      if handle in s.armed {
        ConnectKeepsRunning(config, s.(armed := s.armed - {handle}, reconnectTimer := None), opening);
        hide ConnectTransport;
      }
    case _ =>
  }

  lemma StopEndsRunning(s: State)
    ensures !StopTransport(s).running && StopTransport(s).now == s.now && StopTransport(s).statuses == s.statuses
  {
  }

  /** A transport that is still connected heard from its peer this long ago at most. */
  ghost predicate HeardInTime(config: Config, s: State) {
    s.phase.Connected? ==>
      && s.lastHeartbeatAckAt.Some?
      && s.now <= s.lastHeartbeatAckAt.value + config.heartbeatIntervalMs + config.connectionTimeoutMs
  }

  lemma RanIsHeard(config: Config, began: int, opening: Opening, history: seq<Event>, s: State)
    requires Ran(config, began, opening, history, s) && config.heartbeatIntervalMs > config.connectionTimeoutMs
    ensures HeardInTime(config, s)
  {
    SilentPeerIsDropped(config, began, opening, history);
    hide Run, Start, Possible;
  }

  /**
   What a caller can rely on between calls, for both transports: every timer that is armed is remembered, the 'status'
   events tell the phase, nothing is armed once the manager has stopped, and a silent peer is dropped in time if
   heartbeats are further apart than the timeout.
   */
  lemma ManagerInvariant(manager: OscConnectionManager)
    requires manager.Valid()
    ensures NoLeak(manager.tcp.View()) && NoLeak(manager.udp.View())
    ensures IsReported(manager.tcp.View()) && IsReported(manager.udp.View())
    ensures !manager.tcp.running ==> manager.tcp.armed == map[] && manager.udp.armed == map[]
    ensures forall t: Transport | t in {manager.tcp, manager.udp} ::
              t.config.heartbeatIntervalMs > t.config.connectionTimeoutMs ==> HeardInTime(t.config, t.View())
  {
    var tcp, udp := manager.tcp, manager.udp;
    RanIsSafe(tcp.config, manager.began, manager.tcpOpening, manager.tcpHistory, tcp.View());
    RanIsSafe(udp.config, manager.began, manager.udpOpening, manager.udpHistory, udp.View());
    hide Ran, HeardInTime;
    if tcp.config.heartbeatIntervalMs > tcp.config.connectionTimeoutMs {
      RanIsHeard(tcp.config, manager.began, manager.tcpOpening, manager.tcpHistory, tcp.View());
    }
    if udp.config.heartbeatIntervalMs > udp.config.connectionTimeoutMs {
      RanIsHeard(udp.config, manager.began, manager.udpOpening, manager.udpHistory, udp.View());
    }
  }
}
