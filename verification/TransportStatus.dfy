/**
 Which 'status' events a transport of src/services/osc/connectionManager.ts emits: every change of its phase as it
 happens, and nothing else; only stop changes the phase without a word.
 */
module TransportStatus {
  import opened Options
  import opened TransportMachine
  import opened TransportSafety

  /** A change of phase that can happen at once. */
  predicate IsChange(before: Phase, after: Phase) {
    match before
    case Disconnected => after.Connecting?
    case Connecting => after.Connected? || after.Disconnected?
    case Connected => after.Disconnected?
  }

  function LastReported(statuses: seq<Phase>): Phase {
    if statuses == [] then Disconnected else statuses[|statuses| - 1]
  }

  /** From the disconnected phase each report is a change from the one before. */
  ghost predicate AreChanges(statuses: seq<Phase>) {
    forall i | 0 <= i < |statuses| :: IsChange(LastReported(statuses[..i]), statuses[i])
  }

  ghost predicate IsReported(s: State) {
    AreChanges(s.statuses) && (s.running ==> LastReported(s.statuses) == s.phase)
  }

  /** The reports of a step continue those made before. */
  ghost predicate ReportsOn(s: State, after: State) {
    IsReported(after) && s.statuses <= after.statuses
  }

  lemma OneReportMore(s: State, phase: Phase)
    requires IsReported(s) && s.running && IsChange(s.phase, phase)
    ensures ReportsOn(s, EmitStatus(s.(phase := phase)))
  {
    var longer := s.statuses + [phase];
    forall i | 0 <= i < |longer|
      ensures IsChange(LastReported(longer[..i]), longer[i])
    {
      if i < |s.statuses| {
        assert longer[..i] == s.statuses[..i];
      } else {
        assert longer[..i] == s.statuses;
      }
    }
  }

  /** What reports nothing and changes no phase. */
  lemma SilentChange(s: State, after: State)
    requires IsReported(s) && after.statuses == s.statuses && after.phase == s.phase && after.running == s.running
    ensures ReportsOn(s, after)
  {
  }

  lemma ClearingIsSilent(s: State)
    ensures var t := ClearTimers(s); t.statuses == s.statuses && t.phase == s.phase && t.running == s.running
    ensures var t := ClearHeartbeat(s); t.statuses == s.statuses && t.phase == s.phase && t.running == s.running
  {
  }

  lemma SchedulingIsSilent(config: Config, s: State, random: real)
    ensures var t := ScheduleReconnect(config, s, random);
            t.statuses == s.statuses && t.phase == s.phase && t.running == s.running
  {
  }

  /** A failed transport without its socket and timers, at the start of an outage or in one. */
  function Emptied(s: State): State {
    var s1 := ClearTimers(s).(socket := None);
    if s1.reconnectStartedAt.None? then s1.(reconnectStartedAt := Some(s1.now)) else s1
  }

  function Dropped(s: State): State {
    if s.phase.Disconnected? then s
    else EmitStatus(s.(phase := Disconnected, consecutiveFailures := s.consecutiveFailures + 1))
  }

  lemma FailureDrops(config: Config, s: State, random: real)
    requires s.running
    ensures HandleFailure(config, s, random) == ScheduleReconnect(config, Dropped(Emptied(s)), random)
  {
    hide ClearTimers, ScheduleReconnect;
  }

  lemma EmptiedIsSilent(s: State)
    ensures Emptied(s).statuses == s.statuses && Emptied(s).phase == s.phase && Emptied(s).running == s.running
  {
    ClearingIsSilent(s);
    hide ClearTimers;
  }

  lemma FailureReports(config: Config, s: State, random: real)
    requires IsReported(s)
    ensures ReportsOn(s, HandleFailure(config, s, random))
    ensures s.running ==> HandleFailure(config, s, random).phase.Disconnected?
  {
    if s.running {
      FailureDrops(config, s, random);
      EmptiedIsSilent(s);
      hide HandleFailure, Emptied, Dropped, ScheduleReconnect;
      SilentChange(s, Emptied(s));
      DropReports(config, Emptied(s), random);
    } else {
      SilentChange(s, s);
    }
  }

  lemma DropReports(config: Config, s: State, random: real)
    requires IsReported(s) && s.running
    ensures ReportsOn(s, ScheduleReconnect(config, Dropped(s), random))
    ensures ScheduleReconnect(config, Dropped(s), random).phase.Disconnected?
  {
    hide ScheduleReconnect, IsReported;
    if !s.phase.Disconnected? {
      var counted := s.(consecutiveFailures := s.consecutiveFailures + 1);
      SilentChange(s, counted);
      OneReportMore(counted, Disconnected);
    } else {
      SilentChange(s, s);
    }
    SchedulingIsSilent(config, Dropped(s), random);
    SilentChange(Dropped(s), ScheduleReconnect(config, Dropped(s), random));
  }

  lemma HeartbeatReports(config: Config, s: State, sendFails: bool, random: real)
    requires IsReported(s)
    ensures ReportsOn(s, SendHeartbeat(config, s, sendFails, random))
  {
    var s1 := s.(lastHeartbeatSentAt := Some(s.now));
    SilentChange(s, s1);
    hide IsReported, HandleFailure;
    FailureReports(config, s1, random);
    SilentChange(s, Arm(Disarm(s1, s1.heartbeatTimeoutTimer), HeartbeatTimeout, config.connectionTimeoutMs)
                    .(heartbeatTimeoutTimer := Some(s1.nextHandle)));
  }

  lemma ConnectionReports(config: Config, s: State, sendFails: bool, random: real)
    requires IsReported(s) && s.running && s.phase.Connecting?
    ensures ReportsOn(s, OnConnected(config, s, sendFails, random))
  {
    var s0 := s.(consecutiveFailures := 0, lastHeartbeatAckAt := Some(s.now), lastHeartbeatSentAt := None,
                 reconnectStartedAt := None);
    SilentChange(s, s0);
    OneReportMore(s0, Connected);
    var s1 := EmitStatus(s0.(phase := Connected));
    ClearingIsSilent(s1);
    hide ClearHeartbeat, SendHeartbeat, IsReported;
    SilentChange(s1, ClearHeartbeat(s1));
    HeartbeatReports(config, ClearHeartbeat(s1), sendFails, random);
    var s2 := SendHeartbeat(config, ClearHeartbeat(s1), sendFails, random);
    SilentChange(s2, Arm(s2, HeartbeatInterval, config.heartbeatIntervalMs).(heartbeatTimer := Some(s2.nextHandle)));
  }

  lemma ConnectReports(config: Config, s: State, opening: Opening)
    requires IsReported(s)
    ensures ReportsOn(s, ConnectTransport(config, s, opening))
  {
    if s.running && s.phase.Disconnected? {
      OneReportMore(s, Connecting);
      var s1 := EmitStatus(s.(phase := Connecting));
      ClearingIsSilent(s1);
      hide ClearTimers, HandleFailure, OnConnected, IsReported;
      var s2 := ClearTimers(s1).(socket := None);
      SilentChange(s1, s2);
      var tried := s2.(socket := Some(s2.nextHandle), nextHandle := s2.nextHandle + 1);
      SilentChange(s2, tried);
      match opening
      case InitFails(random) => FailureReports(config, s2, random);
      case Pending =>
      case Immediate(sendFails, random) => ConnectionReports(config, tried, sendFails, random);
    }
  }

  lemma FireReports(config: Config, s: State, handle: nat, opening: Opening, sendFails: bool, random: real)
    requires IsReported(s) && handle in s.armed
    ensures ReportsOn(s, OnFire(config, s, handle, opening, sendFails, random))
  {
    hide IsReported, SendHeartbeat, HandleFailure, ConnectTransport;
    match s.armed[handle].kind
    case HeartbeatInterval =>
      var next := s.(armed := s.armed[handle := Timer(HeartbeatInterval, s.now + config.heartbeatIntervalMs)]);
      SilentChange(s, next);
      HeartbeatReports(config, next, sendFails, random);
    case HeartbeatTimeout =>
      var fired := s.(armed := s.armed - {handle});
      SilentChange(s, fired);
      FailureReports(config, fired, random);
    case ReconnectDelay =>
      var fired := s.(armed := s.armed - {handle}, reconnectTimer := None);
      SilentChange(s, fired);
      ConnectReports(config, fired, opening);
  }

  lemma StepReports(config: Config, s: State, event: Event)
    requires IsReported(s) && Inv(config, s)
    ensures ReportsOn(s, Step(config, s, event))
  {
    hide HandleFailure, OnConnected, ConnectTransport, OnFire, ClearTimers;
    match event
    case Fire(handle, opening, sendFails, random) =>
      if handle in s.armed {
        FireReports(config, s, handle, opening, sendFails, random);
      }
    case ForceConnect(opening) => ConnectReports(config, s, opening);
    case SocketConnected(_, sendFails, random) =>
      if Connects(s, event) {
        ConnectionReports(config, s, sendFails, random);
      }
    case Failure(random) => FailureReports(config, s, random);
    case Stop => ClearingIsSilent(s);
    case _ =>
  }

  /**
   In every possible run the reports tell the phase: they are changes that can happen, one after the other, the last
   is the phase of a running transport, and none is ever taken back.
   */
  lemma {:induction false} RunReports(config: Config, now: int, opening: Opening, events: seq<Event>)
    requires ProperConfig(config) && ValidOpening(opening) && Possible(config, Start(config, now, opening), events)
    ensures IsReported(Run(config, Start(config, now, opening), events))
    ensures events != [] ==>
              Run(config, Start(config, now, opening), events[..|events| - 1]).statuses
              <= Run(config, Start(config, now, opening), events).statuses
  {
    hide IsReported, Step, Enabled, ConnectTransport, Inv;
    var start := Start(config, now, opening);
    if events == [] {
      NothingReported(now);
      ConnectReports(config, Created(now), opening);
    } else {
      var n := |events| - 1;
      PrefixIsPossible(config, start, events);
      hide Possible;
      RunReports(config, now, opening, events[..n]);
      RunKeepsInv(config, now, opening, events[..n]);
      StepReports(config, Run(config, start, events[..n]), events[n]);
    }
  }

  lemma NothingReported(now: int)
    ensures IsReported(Created(now))
  {
  }
}
