/**
 The specification of one transport of src/services/osc/connectionManager.ts as a state machine.

 `armed` is the timer runtime: every timer that has been set and has neither fired nor been cleared,
 by handle. The fields `heartbeatTimer`, `heartbeatTimeoutTimer` and `reconnectTimer` are the handles
 the transport remembers. Timers are ideal: time never passes an armed deadline without the timer
 firing (`Enabled`). Sockets are fresh numbers; a write callback may report failure at any time,
 also for a socket that has long been replaced. Status listeners are taken not to call back.
 */
module TransportMachine {
  import opened Backoff
  import opened Options

  datatype Phase = Disconnected | Connecting | Connected

  datatype TimerKind = HeartbeatInterval | HeartbeatTimeout | ReconnectDelay

  datatype Timer = Timer(kind: TimerKind, deadline: int)

  datatype Config = Config(
    heartbeatIntervalMs: int, connectionTimeoutMs: int, reconnectTimeoutMs: Option<int>, backoff: ReconnectBackoff)

  datatype State = State(
    phase: Phase,
    socket: Option<nat>,
    heartbeatTimer: Option<nat>,
    heartbeatTimeoutTimer: Option<nat>,
    reconnectTimer: Option<nat>,
    lastHeartbeatSentAt: Option<int>,
    lastHeartbeatAckAt: Option<int>,
    consecutiveFailures: nat,
    reconnectStartedAt: Option<int>,
    running: bool,
    armed: map<nat, Timer>,
    nextHandle: nat,
    now: int,
    statuses: seq<Phase>)  // the phases emitted as 'status' events

  /** How an attempt to open a socket goes; `random` feeds the delay if it fails. */
  datatype Opening =
    | InitFails(random: real)                      // the socket cannot be created or configured
    | Pending                                      // the connection is established later, or never
    | Immediate(sendFails: bool, random: real)     // unbound UDP: connected at once

  datatype Event =
    | Tick(to: int)
    | Fire(handle: nat, opening: Opening, sendFails: bool, random: real)
    | ForceConnect(opening: Opening)               // pickTransport found no connected transport
    | SocketConnected(socket: nat, sendFails: bool, random: real)
    | Ack                                          // an accepted packet arrived
    | Failure(random: real)                        // error, close, idle timeout, or a failed write of any age
    | Stop

  // ---------- The pieces ----------

  function Disarm(s: State, handle: Option<nat>): State {
    if handle.Some? then s.(armed := s.armed - {handle.value}) else s
  }

  function Arm(s: State, kind: TimerKind, delay: int): State {
    s.(armed := s.armed[s.nextHandle := Timer(kind, s.now + delay)], nextHandle := s.nextHandle + 1)
  }

  function ClearHeartbeat(s: State): State {
    Disarm(Disarm(s, s.heartbeatTimer), s.heartbeatTimeoutTimer).(heartbeatTimer := None, heartbeatTimeoutTimer := None)
  }

  function ClearTimers(s: State): State {
    var s1 := ClearHeartbeat(s);
    Disarm(s1, s1.reconnectTimer).(reconnectTimer := None)
  }

  function EmitStatus(s: State): State {
    s.(statuses := s.statuses + [s.phase])
  }

  function ScheduleReconnect(config: Config, s: State, random: real): State {
    if s.reconnectTimer.Some? || !s.running then s
    else
      var s1 := if s.reconnectStartedAt.None? then s.(reconnectStartedAt := Some(s.now)) else s;
      var failures := if s.consecutiveFailures == 0 then 1 else s.consecutiveFailures;
      var delay := ComputeReconnectDelay(config.backoff, failures, random);
      var elapsed := s.now - s1.reconnectStartedAt.value;
      if config.reconnectTimeoutMs.Some?
         && (elapsed >= config.reconnectTimeoutMs.value || elapsed + delay > config.reconnectTimeoutMs.value)
      then s1
      else Arm(s1, ReconnectDelay, delay).(reconnectTimer := Some(s1.nextHandle))
  }

  function HandleFailure(config: Config, s: State, random: real): State {
    if !s.running then s
    else
      var s1 := ClearTimers(s).(socket := None);
      var s2 := if s1.reconnectStartedAt.None? then s1.(reconnectStartedAt := Some(s1.now)) else s1;
      var s3 := if s2.phase.Disconnected? then s2
                else EmitStatus(s2.(phase := Disconnected, consecutiveFailures := s2.consecutiveFailures + 1));
      ScheduleReconnect(config, s3, random)
  }

  function SendHeartbeat(config: Config, s: State, sendFails: bool, random: real): State {
    if !s.running || !s.phase.Connected? then s
    else
      var s1 := s.(lastHeartbeatSentAt := Some(s.now));
      if sendFails then HandleFailure(config, s1, random)
      else Arm(Disarm(s1, s1.heartbeatTimeoutTimer), HeartbeatTimeout, config.connectionTimeoutMs)
           .(heartbeatTimeoutTimer := Some(s1.nextHandle))
  }

  function StartHeartbeat(config: Config, s: State, sendFails: bool, random: real): State {
    if !s.running then s
    else
      var s1 := SendHeartbeat(config, ClearHeartbeat(s), sendFails, random);
      Arm(s1, HeartbeatInterval, config.heartbeatIntervalMs).(heartbeatTimer := Some(s1.nextHandle))
  }

  function OnConnected(config: Config, s: State, sendFails: bool, random: real): State {
    var s1 := s.(phase := Connected, consecutiveFailures := 0, lastHeartbeatAckAt := Some(s.now),
                 lastHeartbeatSentAt := None, reconnectStartedAt := None);
    StartHeartbeat(config, EmitStatus(s1), sendFails, random)
  }

  function ConnectTransport(config: Config, s: State, opening: Opening): State {
    if !s.running || !s.phase.Disconnected? then s
    else
      var s1 := ClearTimers(EmitStatus(s.(phase := Connecting))).(socket := None);
      match opening
      case InitFails(random) => HandleFailure(config, s1, random)
      case Pending => s1.(socket := Some(s1.nextHandle), nextHandle := s1.nextHandle + 1)
      case Immediate(sendFails, random) =>
        OnConnected(config, s1.(socket := Some(s1.nextHandle), nextHandle := s1.nextHandle + 1), sendFails, random)
  }

  /** The interval timer fires: it is armed again for the next period and a heartbeat is sent. */
  function OnInterval(config: Config, s: State, handle: nat, sendFails: bool, random: real): State {
    var next := Timer(HeartbeatInterval, s.now + config.heartbeatIntervalMs);
    SendHeartbeat(config, s.(armed := s.armed[handle := next]), sendFails, random)
  }

  function OnHeartbeatTimeout(config: Config, s: State, random: real): State {
    var lastAck := if s.lastHeartbeatAckAt.Some? then s.lastHeartbeatAckAt.value else 0;
    if s.now - lastAck >= config.connectionTimeoutMs then HandleFailure(config, s, random) else s
  }

  function MarkHeartbeatAck(s: State): State {
    Disarm(s, s.heartbeatTimeoutTimer).(lastHeartbeatAckAt := Some(s.now), heartbeatTimeoutTimer := None)
  }

  function StopTransport(s: State): State {
    if !s.running then s
    else ClearTimers(s).(running := false, socket := None, phase := Disconnected, reconnectStartedAt := None)
  }

  // ---------- Steps and runs ----------

  predicate ValidRandom(random: real) {
    0.0 <= random < 1.0
  }

  predicate ValidOpening(opening: Opening) {
    opening.Pending? || ValidRandom(opening.random)
  }

  /** What the environment may do next: time stops at every armed deadline until its timer has fired. */
  ghost predicate Enabled(s: State, event: Event) {
    match event
    case Tick(to) => s.now <= to && forall h | h in s.armed :: to <= s.armed[h].deadline
    case Fire(handle, opening, _, random) =>
      handle in s.armed && s.armed[handle].deadline == s.now && ValidOpening(opening) && ValidRandom(random)
    case ForceConnect(opening) => ValidOpening(opening)
    case SocketConnected(_, _, random) => ValidRandom(random)
    case Ack => s.socket.Some?
    case Failure(random) => ValidRandom(random)
    case Stop => true
  }

  function OnFire(config: Config, s: State, handle: nat, opening: Opening, sendFails: bool, random: real): State
    requires handle in s.armed
  {
    match s.armed[handle].kind
    case HeartbeatInterval => OnInterval(config, s, handle, sendFails, random)
    case HeartbeatTimeout => OnHeartbeatTimeout(config, s.(armed := s.armed - {handle}), random)
    case ReconnectDelay => ConnectTransport(config, s.(armed := s.armed - {handle}, reconnectTimer := None), opening)
  }

  /** A socket's connection callback counts only while that socket is the one being connected. */
  predicate Connects(s: State, event: Event) {
    event.SocketConnected? && s.phase.Connecting? && s.socket == Some(event.socket)
  }

  function Step(config: Config, s: State, event: Event): State {
    match event
    case Tick(to) => s.(now := to)
    case Fire(handle, opening, sendFails, random) =>
      if handle in s.armed then OnFire(config, s, handle, opening, sendFails, random) else s
    case ForceConnect(opening) => ConnectTransport(config, s, opening)
    case SocketConnected(_, sendFails, random) =>
      if Connects(s, event) then OnConnected(config, s, sendFails, random) else s
    case Ack => MarkHeartbeatAck(s)
    case Failure(random) => HandleFailure(config, s, random)
    case Stop => StopTransport(s)
  }

  /** The event completes a connection, whatever happens to its first heartbeat. */
  predicate Reconnects(s: State, event: Event) {
    || Connects(s, event)
    || (event.ForceConnect? && s.running && s.phase.Disconnected? && event.opening.Immediate?)
    || (IsTimerAttempt(s, event) && event.opening.Immediate?)
  }

  predicate IsTimerAttempt(s: State, event: Event) {
    event.Fire? && event.handle in s.armed && s.armed[event.handle].kind.ReconnectDelay?
  }

  function Created(now: int): State {
    State(Disconnected, None, None, None, None, None, None, 0, None, true, map[], 0, now, [])
  }

  /** The transport after its constructor's first attempt to connect. */
  function Start(config: Config, now: int, opening: Opening): State {
    ConnectTransport(config, Created(now), opening)
  }

  function Run(config: Config, start: State, events: seq<Event>): State {
    if events == [] then start
    else Step(config, Run(config, start, events[..|events| - 1]), events[|events| - 1])
  }

  ghost predicate Possible(config: Config, start: State, events: seq<Event>) {
    forall i | 0 <= i < |events| :: Enabled(Run(config, start, events[..i]), events[i])
  }
}
