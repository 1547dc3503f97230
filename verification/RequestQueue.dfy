/**
 Models the class RequestQueue of src/services/osc/requestQueue.ts: one queue per target, a cap on
 concurrent tasks per target, and mutual exclusion of the tasks of one family within a target.

 Ghost state ties the object to modules QueueCalls and Lanes: `calls` is every call of run and every settlement so
 far, `history` is what they mean for the queue, and `lanes` is the state that history leads to. A task body is taken
 not to call the queue back while it is being started; its settlement (result, error or timeout) is a later call of
 OnSettled.
 */
module RequestQueues {
  import opened Lanes
  import opened Options
  import opened QueueCalls

  /** The value of the `concurrency` option: JavaScript numbers, with rounding left out. */
  datatype NumberOption = Missing | NotANumber | Infinite(positive: bool) | Finite(value: real)

  function NormaliseConcurrency(value: NumberOption): (c: nat)
    ensures c >= 1
    ensures value.Finite? && value.value >= 1.0 ==> c as real <= value.value < c as real + 1.0
    ensures !value.Finite? || value.value < 2.0 ==> c == 1
  {
    if !value.Finite? || value.value <= 0.0 || value.value.Floor < 1 then 1 else value.value.Floor
  }

  function NormaliseKey(value: Option<string>, fallback: string): string {
    if value.None? || value.value == "" then fallback else value.value
  }

  datatype QueueTask = QueueTask(operation: string, familyKey: Option<string>)

  class TargetQueueState {
    const targetKey: string
    var pending: seq<QueueTask>
    var activeFamilies: set<string>
    var activeCount: int

    constructor (targetKey: string)
      ensures this.targetKey == targetKey && pending == [] && activeFamilies == {} && activeCount == 0
    {
      this.targetKey := targetKey;
      pending := [];
      activeFamilies := {};
      activeCount := 0;
    }

    /** The object holds exactly what the lane says is pending and active. */
    ghost predicate Holds(lane: Lane)
      reads this
    {
      && |pending| == |lane.pending|
      && (forall i | 0 <= i < |pending| :: pending[i] == QueueTask(lane.pending[i].operation, lane.pending[i].family))
      && activeCount == |lane.active|
      && activeFamilies == Families(lane.active)
    }

    method Push(task: QueueTask, ghost lane: Lane)
      requires Holds(lane)
      modifies this
      ensures Holds(Enqueue(lane, task.familyKey, task.operation))
    {
      pending := pending + [task];
    }

    /** The slot and the family of an active task become free. */
    method Finish(next: QueueTask, ghost lane: Lane, ghost ticket: nat)
      requires Holds(lane) && SlotsAreExclusive(lane.active) &&
               Task(ticket, next.familyKey, next.operation) in lane.active
      modifies this
      ensures Holds(Release(lane, ticket))
    {
      FamiliesAfterRelease(lane.active, Task(ticket, next.familyKey, next.operation));
      activeCount := activeCount - 1;
      if next.familyKey.Some? {
        activeFamilies := activeFamilies - {next.familyKey.value};
      }
    }

    /** Takes the task at nextIndex out of the pending list and gives it a slot. */
    method Start(nextIndex: int, ghost concurrency: nat, ghost lane: Lane) returns (next: QueueTask)
      requires Holds(lane) && CanStart(concurrency, lane)
      requires nextIndex == FirstRunnable(lane.pending, Families(lane.active))
      modifies this
      ensures Holds(StartNext(concurrency, lane))
      ensures next == QueueTask(lane.pending[nextIndex].operation, lane.pending[nextIndex].family)
    {
      next := pending[nextIndex];
      ghost var after := StartNext(concurrency, lane);
      FamiliesAfterStart(lane.active, lane.pending[nextIndex]);
      pending := pending[..nextIndex] + pending[nextIndex + 1..];
      activeCount := activeCount + 1;
      if next.familyKey.Some? {
        activeFamilies := activeFamilies + {next.familyKey.value};
      }
      assert activeFamilies == Families(after.active);
      assert forall i | 0 <= i < |pending| ::
          pending[i] == QueueTask(after.pending[i].operation, after.pending[i].family);
    }
  }

  class RequestQueue {
    const concurrency: nat
    var targets: map<string, TargetQueueState>
    var targetOrder: seq<string>
    ghost var lanes: map<string, Lane>
    ghost var history: seq<Event>
    ghost var calls: seq<Call>

    /** What holds at every step, also in the middle of Process. */
    ghost predicate Linked()
      reads this`targets, this`targetOrder, this`lanes, targets.Values
    {
      && concurrency >= 1
      && (forall key | key in targets ::
            targets[key].targetKey == key && targets[key].Holds(LaneOf(lanes, key)))
      && (forall key | key in lanes && key !in targets :: NothingOutstanding(lanes[key]))
      && ListsOnce(targetOrder, targets.Keys)
    }

    /** The target holds work, and nothing more can start on it. */
    ghost predicate Settled(key: string)
      reads this`lanes
    {
      !NothingOutstanding(LaneOf(lanes, key)) && Quiescent(concurrency, LaneOf(lanes, key))
    }

    /** The invariant between calls. */
    ghost predicate Valid()
      reads this, targets.Values
    {
      && Linked()
      && lanes == QueueAfter(concurrency, history)
      && AreEventsOf(calls, history)
      && (forall key | key in targets :: Settled(key))
    }

    constructor (concurrency: NumberOption)
      ensures Valid() && this.concurrency == NormaliseConcurrency(concurrency) && history == [] && calls == []
    {
      this.concurrency := NormaliseConcurrency(concurrency);
      targets := map[];
      targetOrder := [];
      lanes := map[];
      history, calls := [], [];
    }

    method CreateTarget(targetKey: string) returns (target: TargetQueueState)
      requires Linked() && targetKey !in targets
      modifies this`targets, this`targetOrder
      ensures Linked() && fresh(target)
      ensures targets == old(targets)[targetKey := target]
    {
      hide ListsOnce;
      AppendedListsOneMore(targetOrder, targets.Keys, targetKey);
      target := new TargetQueueState(targetKey);
      targets := targets[targetKey := target];
      assert targets.Keys == old(targets).Keys + {targetKey};
      targetOrder := targetOrder + [targetKey];
      assert target.Holds(LaneOf(lanes, targetKey));
    }

    method GetTargetState(targetKey: string) returns (target: TargetQueueState)
      requires Linked()
      modifies this`targets, this`targetOrder
      ensures Linked()
      ensures targets == old(targets)[targetKey := target]
      ensures if targetKey in old(targets) then target == old(targets)[targetKey] else fresh(target)
    {
      hide ListsOnce, NothingOutstanding;
      if targetKey in targets {
        assert targets == targets[targetKey := targets[targetKey]];
        target := targets[targetKey];
      } else {
        target := CreateTarget(targetKey);
      }
    }

    method FindRunnableTaskIndex(target: TargetQueueState, ghost lane: Lane) returns (index: int)
      requires target.Holds(lane)
      ensures var n := FirstRunnable(lane.pending, Families(lane.active));
              index == if n == |lane.pending| then -1 else n
    {
      index := 0;
      while index < |target.pending|
        invariant 0 <= index <= |target.pending|
        invariant forall j | 0 <= j < index :: Blocked(lane.pending[j], Families(lane.active))
      {
        var candidate := target.pending[index];
        if candidate.familyKey.None? || candidate.familyKey.value !in target.activeFamilies {
          FirstRunnableIs(lane.pending, Families(lane.active), index);
          return;
        }
        index := index + 1;
      }
      FirstRunnableIs(lane.pending, Families(lane.active), index);
      index := -1;
    }

    method CleanupTarget(target: TargetQueueState)
      requires Linked() && target.targetKey in targets && targets[target.targetKey] == target
      modifies this`targets, this`targetOrder
      ensures Linked()
      ensures targets == if NothingOutstanding(LaneOf(lanes, target.targetKey)) then old(targets) - {target.targetKey}
                         else old(targets)
    {
      if |target.pending| > 0 || target.activeCount > 0 {
        return;
      }
      hide ListsOnce;
      var key := target.targetKey;
      WithoutListsTheRest(targetOrder, targets.Keys, key);
      targets := targets - {key};
      targetOrder := Without(targetOrder, key);
    }

    /** The body of Process's inner loop: start one task on this target, or drop the target if it is idle. */
    method ServeTarget(targetKey: string) returns (started: bool)
      requires Linked()
      modifies this`targets, this`targetOrder, this`lanes, targets.Values
      ensures Linked()
      ensures targets == old(targets) || targets == old(targets) - {targetKey}
      ensures started ==> CanStart(concurrency, LaneOf(old(lanes), targetKey))
                          && lanes == old(lanes)[targetKey := StartNext(concurrency, LaneOf(old(lanes), targetKey))]
      ensures !started ==> lanes == old(lanes) && (targetKey in targets ==> Settled(targetKey))
    {
      hide Families, FirstRunnable, ListsOnce;
      started := false;
      if targetKey in targets && targets[targetKey].activeCount < concurrency {
        var target := targets[targetKey];
        ghost var lane := LaneOf(lanes, targetKey);
        var nextIndex := FindRunnableTaskIndex(target, lane);
        if nextIndex < 0 {
          CleanupTarget(target);
        } else {
          var next := target.Start(nextIndex, concurrency, lane);   // and its operation is called
          assert next.operation == StartNext(concurrency, lane).started[|lane.started|].operation;
          lanes := lanes[targetKey := StartNext(concurrency, lane)];
          started := true;
        }
      }
    }

    /** One pass of Process over a snapshot of the targets. */
    method ProcessOnce() returns (started: bool)
      requires Linked()
      modifies this`targets, this`targetOrder, this`lanes, targets.Values
      ensures Linked()
      ensures KeepsTargets(old(targets), targets) && Advanced(concurrency, old(lanes), lanes, started)
      ensures !started ==> forall key | key in targets :: Settled(key)
    {
      ghost var before := lanes;
      var snapshot := targetOrder;
      started := false;
      assert forall key | key in targets :: key in snapshot;
      assert Advanced(concurrency, before, lanes, started);
      hide Advanced, CanStart, Families, FirstRunnable, Quiescent, LaneOf, StartNext, NothingOutstanding, ListsOnce;
      for i := 0 to |snapshot|
        invariant Linked()
        invariant KeepsTargets(old(targets), targets)
        invariant forall key | key in targets :: key in snapshot
        invariant Advanced(concurrency, before, lanes, started)
        invariant !started ==> forall j | 0 <= j < i && snapshot[j] in targets :: Settled(snapshot[j])
      {
        ghost var soFar := lanes;
        var startedHere := ServeTarget(snapshot[i]);
        if startedHere {
          OneMoreStart(concurrency, before, soFar, snapshot[i], started);
          started := true;
        }
      }
    }

    method Process()
      requires Linked()
      modifies this`targets, this`targetOrder, this`lanes, targets.Values
      ensures Linked()
      ensures lanes == DrainAll(concurrency, old(lanes))
      ensures KeepsTargets(old(targets), targets)
      ensures forall key | key in targets :: Settled(key)
    {
      ghost var before := lanes;
      var started := true;
      while started
        invariant Linked()
        invariant KeepsTargets(old(targets), targets) && DrainAll(concurrency, lanes) == DrainAll(concurrency, before)
        invariant !started ==> forall key | key in targets :: Settled(key)
        decreases |Backlog(lanes)|, started
      {
        started := ProcessOnce();
      }
      QuiescentMeansDrained(concurrency, lanes, targets.Keys);
    }

    /** The first half of a submission: the task joins its target's pending list. */
    method Accept(key: string, queueTask: QueueTask)
      requires Linked()
      modifies this`targets, this`targetOrder, this`lanes, targets.Values
      ensures Linked()
      ensures key in targets && targets == old(targets)[key := targets[key]]
      ensures if key in old(targets) then targets[key] == old(targets)[key] else fresh(targets[key])
      ensures lanes == old(lanes)[key := Enqueue(LaneOf(old(lanes), key), queueTask.familyKey, queueTask.operation)]
    {
      hide Families, Enqueue, ListsOnce, NothingOutstanding, TargetQueueState.Holds;
      var target := GetTargetState(key);
      target.Push(queueTask, LaneOf(lanes, key));
      lanes := lanes[key := Enqueue(LaneOf(lanes, key), queueTask.familyKey, queueTask.operation)];
    }

    method AcceptAndProcess(key: string, queueTask: QueueTask)
      requires Linked() && lanes == QueueAfter(concurrency, history)
      modifies this`targets, this`targetOrder, this`lanes, targets.Values
      ensures Linked() && lanes
              == QueueAfter(concurrency, history + [Submit(key, queueTask.familyKey, queueTask.operation)])
      ensures forall k | k in targets :: Settled(k)
    {
      hide QueueAfter, DrainAll, NothingOutstanding, CanStart, Enqueue, ListsOnce;
      QueueStep(concurrency, history, Submit(key, queueTask.familyKey, queueTask.operation));
      Accept(key, queueTask);
      Process();
    }

    /** Submits a task and starts whatever can start. */
    method Run(operation: string, targetKey: Option<string>, familyKey: Option<string>)
      requires Valid()
      modifies this, targets.Values
      ensures Valid() && calls == old(calls) + [Called(operation, targetKey, familyKey)]
    {
      hide QueueAfter, NothingOutstanding, CanStart, NormaliseKey, FamilyOf, ListsOnce, AreEventsOf;
      var key, family := NormaliseKey(targetKey, "default"), FamilyOf(familyKey);
      KeysAreNormalised(operation, targetKey, familyKey);
      OneCallMore(calls, history, Called(operation, targetKey, familyKey), Submit(key, family, operation));
      AcceptAndProcess(key, QueueTask(operation, family));
      history := history + [Submit(key, family, operation)];
      calls := calls + [Called(operation, targetKey, familyKey)];
    }

    /** The first half of a settlement: the task's slot and family become free. */
    method FreeSlot(target: TargetQueueState, next: QueueTask, ghost ticket: nat)
      requires Linked()
      requires target.targetKey in targets && targets[target.targetKey] == target
      requires SlotsAreExclusive(LaneOf(lanes, target.targetKey).active)
      requires Task(ticket, next.familyKey, next.operation) in LaneOf(lanes, target.targetKey).active
      modifies this`targets, this`targetOrder, this`lanes, target
      ensures Linked()
      ensures KeepsTargets(old(targets), targets)
      ensures lanes == old(lanes)[target.targetKey := Release(LaneOf(old(lanes), target.targetKey), ticket)]
    {
      var key := target.targetKey;
      target.Finish(next, LaneOf(lanes, key), ticket);
      lanes := lanes[key := Release(LaneOf(lanes, key), ticket)];
      CleanupTarget(target);
    }

    method FreeSlotAndProcess(target: TargetQueueState, next: QueueTask, ghost ticket: nat)
      requires Linked() && lanes == QueueAfter(concurrency, history)
      requires target.targetKey in targets && targets[target.targetKey] == target
      requires Task(ticket, next.familyKey, next.operation) in LaneOf(lanes, target.targetKey).active
      modifies this`targets, this`targetOrder, this`lanes, targets.Values
      ensures Linked() && lanes == QueueAfter(concurrency, history + [Settle(target.targetKey, ticket)])
      ensures forall k | k in targets :: Settled(k)
    {
      hide QueueAfter, DrainAll, NothingOutstanding, CanStart, SlotsAreExclusive, ListsOnce;
      ActiveSlotsAreExclusive(concurrency, history, target.targetKey);
      QueueStep(concurrency, history, Settle(target.targetKey, ticket));
      FreeSlot(target, next, ticket);
      Process();
    }

    /** The continuation of an active task that has resolved, failed or timed out. */
    method OnSettled(target: TargetQueueState, next: QueueTask, ghost ticket: nat)
      requires Valid()
      requires target.targetKey in targets && targets[target.targetKey] == target
      requires Task(ticket, next.familyKey, next.operation) in LaneOf(lanes, target.targetKey).active
      modifies this, targets.Values
      ensures Valid()
      ensures history == old(history) + [Settle(target.targetKey, ticket)]
      ensures calls == old(calls) + [Finished(target.targetKey, ticket)]
    {
      hide QueueAfter, NothingOutstanding, CanStart, ListsOnce, AreEventsOf;
      OneCallMore(calls, history, Finished(target.targetKey, ticket), Settle(target.targetKey, ticket));
      FreeSlotAndProcess(target, next, ticket);
      history := history + [Settle(target.targetKey, ticket)];
      calls := calls + [Finished(target.targetKey, ticket)];
    }
  }

  lemma ActiveSlotsAreExclusive(concurrency: nat, events: seq<Event>, key: string)
    requires concurrency >= 1
    ensures SlotsAreExclusive(LaneOf(QueueAfter(concurrency, events), key).active)
  {
    QueueIsSafe(concurrency, events, key);
  }

  /** What a caller can rely on between calls, in terms of the object's own fields. */
  lemma QueueInvariant(queue: RequestQueue, key: string)
    requires queue.Valid() && key in queue.targets
    ensures var target := queue.targets[key];
            && 1 <= target.activeCount <= queue.concurrency
            && target.activeFamilies == Families(LaneAfter(queue.concurrency, EventsOf(queue.history, key)).active)
            && (target.activeCount == queue.concurrency
                || forall t | t in target.pending :: t.familyKey.Some? && t.familyKey.value in target.activeFamilies)
  {
    QueueMakesProgress(queue.concurrency, queue.history, key);
    QueueIsSafe(queue.concurrency, queue.history, key);
    QueueIsProduct(queue.concurrency, queue.history, key);
  }

  /** The same in terms of the calls made: those active on a target went there and name different families. */
  lemma ActiveCalls(queue: RequestQueue, key: string)
    requires queue.Valid() && key in queue.targets
    ensures var runs := Runs(CallsTo(queue.calls, key));
            var active := LaneOf(queue.lanes, key).active;
            && |active| == queue.targets[key].activeCount <= queue.concurrency
            && (forall call | call in runs :: call in queue.calls && GoesTo(call, key))
            && (forall t | t in active :: IsTaskOf(t, runs))
            && forall i, j | 0 <= i < j < |active| ::
                 active[i].ticket != active[j].ticket && !NameOneFamily(runs, active[i].ticket, active[j].ticket)
  {
    ActiveCallsAreExclusive(queue.concurrency, queue.calls, queue.history, key);
    hide QueueAfter, Runs, CallsTo, AreEventsOf, IsTaskOf, GoesTo, NameOneFamily;
  }

  /** What run makes of its options is what they mean. */
  lemma KeysAreNormalised(operation: string, targetKey: Option<string>, familyKey: Option<string>)
    ensures IsEventOf(Called(operation, targetKey, familyKey),
                      Submit(NormaliseKey(targetKey, "default"), FamilyOf(familyKey), operation))
  {
  }

  /** The exclusion family of a task: an empty or missing family key means none. */
  function FamilyOf(familyKey: Option<string>): Option<string> {
    var key := NormaliseKey(familyKey, "");
    if key == "" then None else Some(key)
  }

  ghost predicate KeepsTargets(before: map<string, TargetQueueState>, now: map<string, TargetQueueState>) {
    forall key | key in now :: key in before && now[key] == before[key]
  }

  lemma StartKeepsDrain(concurrency: nat, lanes: map<string, Lane>, key: string)
    requires CanStart(concurrency, LaneOf(lanes, key))
    ensures DrainAll(concurrency, lanes[key := StartNext(concurrency, LaneOf(lanes, key))])
            == DrainAll(concurrency, lanes)
  {
    assert Drain(concurrency, lanes[key]) == Drain(concurrency, StartNext(concurrency, lanes[key]));
  }

  lemma FirstRunnableIs(pending: seq<Task>, families: set<string>, n: nat)
    requires n <= |pending| && forall j | 0 <= j < n :: Blocked(pending[j], families)
    requires n < |pending| ==> !Blocked(pending[n], families)
    ensures FirstRunnable(pending, families) == n
  {
    if FirstRunnable(pending, families) < n {
      assert false;
    }
  }

  ghost predicate NothingOutstanding(lane: Lane) {
    lane.pending == [] && lane.active == []
  }

  /** The order is a duplicate-free listing of the keys. */
  ghost predicate ListsOnce(order: seq<string>, keys: set<string>) {
    && (forall i, j | 0 <= i < j < |order| :: order[i] != order[j])
    && (forall key :: key in order <==> key in keys)
  }

  /** The order with its first occurrence of key spliced out. */
  function Without(order: seq<string>, key: string): seq<string> {
    if order == [] then []
    else if order[0] == key then order[1..]
    else [order[0]] + Without(order[1..], key)
  }

  lemma {:induction false} WithoutListsTheRest(order: seq<string>, keys: set<string>, key: string)
    requires ListsOnce(order, keys)
    ensures ListsOnce(Without(order, key), keys - {key})
  {
    if order != [] {
      assert order == [order[0]] + order[1..];
      assert order[0] in order;
      if order[0] != key {
        WithoutListsTheRest(order[1..], keys - {order[0]}, key);
        var rest := Without(order[1..], key);
        assert order[0] !in rest;
        assert forall k :: k in [order[0]] + rest <==> k == order[0] || k in rest;
      }
    }
  }

  lemma AppendedListsOneMore(order: seq<string>, keys: set<string>, key: string)
    requires ListsOnce(order, keys) && key !in keys
    ensures ListsOnce(order + [key], keys + {key})
  {
    assert forall k :: k in order + [key] <==> k in order || k == key;
  }

  lemma FamiliesAfterStart(active: seq<Task>, next: Task)
    ensures Families(active + [next])
            == if next.family.Some? then Families(active) + {next.family.value} else Families(active)
  {
    assert forall t :: t in active + [next] <==> t in active || t == next;
  }

  lemma QueueStep(concurrency: nat, events: seq<Event>, event: Event)
    ensures var before := QueueAfter(concurrency, events);
            QueueAfter(concurrency, events + [event])
            == DrainAll(concurrency, before[event.target := Apply(LaneOf(before, event.target), event)])
  {
    assert (events + [event])[..|events|] == events;
  }

  lemma FamiliesAfterRelease(active: seq<Task>, task: Task)
    requires SlotsAreExclusive(active) && task in active
    ensures var n := IndexOf(active, task.ticket);
            && n < |active| && active[n] == task
            && Families(active[..n] + active[n + 1..])
               == if task.family.Some? then Families(active) - {task.family.value} else Families(active)
  {
    var n := IndexOf(active, task.ticket);
    var i :| 0 <= i < |active| && active[i] == task;
    assert i == n;
    FamiliesWithout(active, n);
  }

  lemma FamiliesWithout(active: seq<Task>, n: nat)
    requires SlotsAreExclusive(active) && n < |active|
    ensures Families(active[..n] + active[n + 1..])
            == if active[n].family.Some? then Families(active) - {active[n].family.value} else Families(active)
  {
    RestIsOfOthers(active, n);
    RestHasOthers(active, n);
    hide SlotsAreExclusive;
  }

  lemma RestIsOfOthers(active: seq<Task>, n: nat)
    requires SlotsAreExclusive(active) && n < |active|
    ensures forall t | t in active[..n] + active[n + 1..] ::
              t in active && (t.family.Some? ==> t.family != active[n].family)
  {
    var rest := active[..n] + active[n + 1..];
    forall t | t in rest
      ensures t in active && (t.family.Some? ==> t.family != active[n].family)
    {
      var i :| 0 <= i < |rest| && rest[i] == t;
      assert t == active[if i < n then i else i + 1];
    }
  }

  lemma RestHasOthers(active: seq<Task>, n: nat)
    requires n < |active|
    ensures forall t | t in active && t != active[n] :: t in active[..n] + active[n + 1..]
  {
    var rest := active[..n] + active[n + 1..];
    forall t | t in active && t != active[n]
      ensures t in rest
    {
      var i :| 0 <= i < |active| && active[i] == t;
      assert rest[if i < n then i else i - 1] == t;
    }
  }

  /** One pair for every pending task; each pass of Process that starts something removes some. */
  ghost function Backlog(lanes: map<string, Lane>): set<(string, nat)> {
    set key, i: nat | key in lanes && i < |lanes[key].pending| :: (key, i)
  }

  lemma BacklogShrinks(concurrency: nat, lanes: map<string, Lane>, key: string)
    requires CanStart(concurrency, LaneOf(lanes, key))
    ensures |Backlog(lanes[key := StartNext(concurrency, LaneOf(lanes, key))])| < |Backlog(lanes)|
  {
    var last := |lanes[key].pending| - 1;
    var after := Backlog(lanes[key := StartNext(concurrency, lanes[key])]);
    assert (key, last) in Backlog(lanes);
    assert after == Backlog(lanes) - {(key, last)};
  }

  /** Nothing happened, or the backlog shrank towards the same drained state. */
  ghost predicate Advanced(concurrency: nat, before: map<string, Lane>, now: map<string, Lane>, started: bool) {
    && DrainAll(concurrency, now) == DrainAll(concurrency, before)
    && if started then |Backlog(now)| < |Backlog(before)| else now == before
  }

  lemma OneMoreStart(concurrency: nat, before: map<string, Lane>, lanes: map<string, Lane>, key: string, started: bool)
    requires Advanced(concurrency, before, lanes, started) && CanStart(concurrency, LaneOf(lanes, key))
    ensures Advanced(concurrency, before, lanes[key := StartNext(concurrency, LaneOf(lanes, key))], true)
  {
    hide CanStart, LaneOf, StartNext, DrainAll, Backlog;
    BacklogShrinks(concurrency, lanes, key);
    StartKeepsDrain(concurrency, lanes, key);
  }

  lemma QuiescentMeansDrained(concurrency: nat, lanes: map<string, Lane>, live: set<string>)
    requires forall key | key in lanes ::
               if key in live then Quiescent(concurrency, lanes[key]) else NothingOutstanding(lanes[key])
    ensures lanes == DrainAll(concurrency, lanes)
  {
  }
}
