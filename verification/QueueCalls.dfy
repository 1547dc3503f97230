/**
 The calls of run of src/services/osc/requestQueue.ts, as callers make them: what their optional target and family
 keys mean for the queue of module Lanes, and what follows for calls that name different targets or one family.
 */
module QueueCalls {
  import opened Lanes
  import opened Options

  /** A call of run with the options it was given, or the settlement of the task of a target with this rank. */
  datatype Call =
    | Called(operation: string, targetKey: Option<string>, familyKey: Option<string>)
    | Finished(target: string, ticket: nat)

  /** A key that is missing or empty is no key. */
  predicate IsGiven(key: Option<string>) {
    key.Some? && key.value != ""
  }

  /** The target a call goes to: the one it names, or else `default`. */
  predicate GoesTo(call: Call, target: string) {
    call.Called? && if IsGiven(call.targetKey) then target == call.targetKey.value else target == "default"
  }

  predicate Concerns(call: Call, target: string) {
    GoesTo(call, target) || (call.Finished? && call.target == target)
  }

  /** The event of the queue that a call is: a task of the family it names, or of none, for its target. */
  predicate IsEventOf(call: Call, event: Event) {
    match call
    case Called(operation, targetKey, familyKey) =>
      && event.Submit? && event.operation == operation && GoesTo(call, event.target)
      && event.family == (if IsGiven(familyKey) then familyKey else None)
    case Finished(target, ticket) => event == Settle(target, ticket)
  }

  /** The events are those of the calls, in their order. */
  ghost predicate AreEventsOf(calls: seq<Call>, events: seq<Event>) {
    |calls| == |events| && forall i | 0 <= i < |calls| :: IsEventOf(calls[i], events[i])
  }

  ghost function CallsTo(calls: seq<Call>, target: string): seq<Call> {
    if calls == [] then []
    else
      var n := |calls| - 1;
      CallsTo(calls[..n], target) + (if Concerns(calls[n], target) then [calls[n]] else [])
  }

  /** The calls of run among them. */
  ghost function Runs(calls: seq<Call>): seq<Call> {
    if calls == [] then []
    else
      var n := |calls| - 1;
      Runs(calls[..n]) + (if calls[n].Called? then [calls[n]] else [])
  }

  lemma OneCallMore(calls: seq<Call>, events: seq<Event>, call: Call, event: Event)
    requires AreEventsOf(calls, events) && IsEventOf(call, event)
    ensures AreEventsOf(calls + [call], events + [event])
  {
  }

  /** An event that a call to this target is does to a lane what the call says, whatever else it may be. */
  lemma ConcernsItsTarget(call: Call, event: Event, target: string)
    requires IsEventOf(call, event)
    ensures Concerns(call, target) <==> event.target == target
  {
  }

  lemma {:induction false} EventsOfCallsTo(calls: seq<Call>, events: seq<Event>, target: string)
    requires AreEventsOf(calls, events)
    ensures AreEventsOf(CallsTo(calls, target), EventsOf(events, target))
  {
    if calls != [] {
      var n := |calls| - 1;
      EventsOfCallsTo(calls[..n], events[..n], target);
      ConcernsItsTarget(calls[n], events[n], target);
      hide IsEventOf, Concerns;
    }
  }

  lemma EventIsDetermined(call: Call, a: Event, b: Event)
    requires IsEventOf(call, a) && IsEventOf(call, b)
    ensures a == b
  {
  }

  /** Whatever other calls come in between: the state of a target is a function of the calls that concern it. */
  lemma OnlyOwnCallsMatter(concurrency: nat, calls: seq<Call>, events: seq<Event>, calls': seq<Call>,
      events': seq<Event>, target: string)
    requires concurrency >= 1 && AreEventsOf(calls, events) && AreEventsOf(calls', events')
    requires CallsTo(calls, target) == CallsTo(calls', target)
    ensures LaneOf(QueueAfter(concurrency, events), target) == LaneOf(QueueAfter(concurrency, events'), target)
  {
    hide IsEventOf;
    EventsOfCallsTo(calls, events, target);
    EventsOfCallsTo(calls', events', target);
    var own, own' := EventsOf(events, target), EventsOf(events', target);
    forall i | 0 <= i < |own|
      ensures own[i] == own'[i]
    {
      EventIsDetermined(CallsTo(calls, target)[i], own[i], own'[i]);
    }
    assert own == own';
    QueueIsProduct(concurrency, events, target);
    QueueIsProduct(concurrency, events', target);
  }

  /** So a call that names one target, and its settlement, change nothing for another. */
  lemma OtherTargetsAreUnaffected(concurrency: nat, calls: seq<Call>, events: seq<Event>, call: Call, event: Event,
      target: string)
    requires concurrency >= 1 && AreEventsOf(calls, events) && IsEventOf(call, event) && !Concerns(call, target)
    ensures LaneOf(QueueAfter(concurrency, events + [event]), target) == LaneOf(QueueAfter(concurrency, events), target)
  {
    OneCallMore(calls, events, call, event);
    assert (calls + [call])[..|calls|] == calls;
    OnlyOwnCallsMatter(concurrency, calls + [call], events + [event], calls, events, target);
  }

  // ---------- Which call a task is ----------

  /** The task is that of the call with its rank among those to its target. */
  predicate IsTaskOf(task: Task, runs: seq<Call>) {
    && task.ticket < |runs| && runs[task.ticket].Called?
    && task.operation == runs[task.ticket].operation
    && task.family == if IsGiven(runs[task.ticket].familyKey) then runs[task.ticket].familyKey else None
  }

  /** The calls with these two ranks name the same family. */
  predicate NameOneFamily(runs: seq<Call>, i: nat, j: nat) {
    && i < |runs| && j < |runs| && runs[i].Called? && runs[j].Called?
    && IsGiven(runs[i].familyKey) && runs[i].familyKey == runs[j].familyKey
  }

  lemma {:induction false} SubmissionsAreRuns(concurrency: nat, calls: seq<Call>, events: seq<Event>)
    requires AreEventsOf(calls, events)
    ensures var lane := LaneAfter(concurrency, events);
            && |lane.submitted| == |Runs(calls)|
            && forall t | t in lane.submitted :: IsTaskOf(t, Runs(calls))
  {
    if calls != [] {
      var n := |calls| - 1;
      SubmissionsAreRuns(concurrency, calls[..n], events[..n]);
      var lane := Apply(LaneAfter(concurrency, events[..n]), events[n]);
      DrainMovesTasks(concurrency, lane);
      assert IsEventOf(calls[n], events[n]);
      hide Drain, AreEventsOf;
      OneRunMore(LaneAfter(concurrency, events[..n]), Runs(calls[..n]), calls[n], events[n]);
    }
  }

  lemma OneRunMore(lane: Lane, runs: seq<Call>, call: Call, event: Event)
    requires IsEventOf(call, event) && |lane.submitted| == |runs| && forall t | t in lane.submitted :: IsTaskOf(t, runs)
    ensures var after, more := Apply(lane, event), runs + (if call.Called? then [call] else []);
            |after.submitted| == |more| && forall t | t in after.submitted :: IsTaskOf(t, more)
  {
    if call.Called? {
      var task := Task(|lane.submitted|, event.family, event.operation);
      assert Apply(lane, event).submitted == lane.submitted + [task];
      assert IsTaskOf(task, runs + [call]);
      hide Apply;
    } else {
      assert runs + [] == runs;
    }
  }

  lemma {:induction false} RunsAreCalls(calls: seq<Call>)
    ensures forall call | call in Runs(calls) :: call in calls && call.Called?
  {
    if calls != [] {
      var n := |calls| - 1;
      RunsAreCalls(calls[..n]);
      assert calls == calls[..n] + [calls[n]];
    }
  }

  lemma {:induction false} CallsToGoThere(calls: seq<Call>, target: string)
    ensures forall call | call in CallsTo(calls, target) :: call in calls && Concerns(call, target)
  {
    if calls != [] {
      var n := |calls| - 1;
      CallsToGoThere(calls[..n], target);
      assert calls == calls[..n] + [calls[n]];
    }
  }

  /**
   Of the calls that go to one target at most `concurrency` are active at a time, each of them under its rank, and no
   two that name the same family.
   */
  lemma ActiveCallsAreExclusive(concurrency: nat, calls: seq<Call>, events: seq<Event>, target: string)
    requires concurrency >= 1 && AreEventsOf(calls, events)
    ensures var active := LaneOf(QueueAfter(concurrency, events), target).active;
            var runs := Runs(CallsTo(calls, target));
            && |active| <= concurrency
            && (forall call | call in runs :: call in calls && GoesTo(call, target))
            && (forall t | t in active :: IsTaskOf(t, runs))
            && forall i, j | 0 <= i < j < |active| ::
                 active[i].ticket != active[j].ticket && !NameOneFamily(runs, active[i].ticket, active[j].ticket)
  {
    var runs := Runs(CallsTo(calls, target));
    RunsAreCalls(CallsTo(calls, target));
    CallsToGoThere(calls, target);
    EventsOfCallsTo(calls, events, target);
    QueueIsSafe(concurrency, events, target);
    QueueIsProduct(concurrency, events, target);
    SubmissionsAreRuns(concurrency, CallsTo(calls, target), EventsOf(events, target));
    var lane := LaneOf(QueueAfter(concurrency, events), target);
    hide QueueAfter, LaneAfter, LaneOf, Runs, CallsTo, IsTaskOf, AreEventsOf;
    forall t | t in lane.active
      ensures IsTaskOf(t, runs)
    {
      ActiveIsSubmitted(lane, t);
    }
    ExclusiveFamilies(lane.active, runs);
  }

  lemma ActiveIsSubmitted(lane: Lane, t: Task)
    requires multiset(lane.submitted) == multiset(lane.pending) + (multiset(lane.active) + multiset(lane.settled))
    requires t in lane.active
    ensures t in lane.submitted
  {
    assert multiset(lane.active)[t] > 0 && multiset(lane.submitted)[t] > 0;
  }

  lemma ExclusiveFamilies(active: seq<Task>, runs: seq<Call>)
    requires SlotsAreExclusive(active) && forall t | t in active :: IsTaskOf(t, runs)
    ensures forall i, j | 0 <= i < j < |active| ::
              active[i].ticket != active[j].ticket && !NameOneFamily(runs, active[i].ticket, active[j].ticket)
  {
    forall i, j | 0 <= i < j < |active|
      ensures active[i].ticket != active[j].ticket && !NameOneFamily(runs, active[i].ticket, active[j].ticket)
    {
      assert active[i] in active && active[j] in active;
    }
  }
}
