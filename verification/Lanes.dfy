/**
 The specification of the request scheduler of src/services/osc/requestQueue.ts.

 A `Lane` is the life of one target key: every task submitted to it, and which of them are
 pending, active and settled. Lanes are total: a key the scheduler holds no state for has an idle
 lane. `QueueAfter` is the whole queue, where every event is followed by draining all lanes, as
 process() does; `LaneAfter` is a queue that serves a single key.
 */
module Lanes {
  import opened Options

  /** A submitted task: its rank among the submissions of its target, its exclusion family, and what it runs. */
  datatype Task = Task(ticket: nat, family: Option<string>, operation: string)

  datatype Lane = Lane(
    submitted: seq<Task>, pending: seq<Task>, active: seq<Task>, started: seq<Task>, settled: seq<Task>)

  const IDLE := Lane([], [], [], [], [])

  datatype Event =
    | Submit(target: string, family: Option<string>, operation: string)
    | Settle(target: string, ticket: nat)

  // ---------- One step ----------

  ghost function Families(tasks: seq<Task>): set<string> {
    set t | t in tasks && t.family.Some? :: t.family.value
  }

  ghost predicate Blocked(task: Task, families: set<string>) {
    task.family.Some? && task.family.value in families
  }

  /** The first pending task whose family is free, or |pending|. */
  ghost function FirstRunnable(pending: seq<Task>, families: set<string>): (n: nat)
    ensures n <= |pending|
    ensures forall j | 0 <= j < n :: Blocked(pending[j], families)
    ensures n < |pending| ==> !Blocked(pending[n], families)
  {
    if pending == [] || !Blocked(pending[0], families) then 0 else 1 + FirstRunnable(pending[1..], families)
  }

  ghost predicate CanStart(concurrency: nat, lane: Lane) {
    |lane.active| < concurrency && FirstRunnable(lane.pending, Families(lane.active)) < |lane.pending|
  }

  ghost function StartNext(concurrency: nat, lane: Lane): Lane
    requires CanStart(concurrency, lane)
  {
    var n := FirstRunnable(lane.pending, Families(lane.active));
    var next := lane.pending[n];
    lane.(pending := lane.pending[..n] + lane.pending[n + 1..],
          active := lane.active + [next],
          started := lane.started + [next])
  }

  /** What process() does to a lane: start tasks until nothing more can start. */
  ghost function Drain(concurrency: nat, lane: Lane): Lane
    decreases |lane.pending|
  {
    if CanStart(concurrency, lane) then Drain(concurrency, StartNext(concurrency, lane)) else lane
  }

  ghost function Enqueue(lane: Lane, family: Option<string>, operation: string): Lane {
    var task := Task(|lane.submitted|, family, operation);
    lane.(submitted := lane.submitted + [task], pending := lane.pending + [task])
  }

  ghost function IndexOf(tasks: seq<Task>, ticket: nat): (n: nat)
    ensures n <= |tasks| && (n < |tasks| ==> tasks[n].ticket == ticket)
    ensures forall j | 0 <= j < n :: tasks[j].ticket != ticket
  {
    if tasks == [] || tasks[0].ticket == ticket then 0 else 1 + IndexOf(tasks[1..], ticket)
  }

  /** The task with this ticket gives its slot back; a ticket that is not active changes nothing. */
  ghost function Release(lane: Lane, ticket: nat): Lane {
    var n := IndexOf(lane.active, ticket);
    if n == |lane.active| then lane
    else lane.(active := lane.active[..n] + lane.active[n + 1..], settled := lane.settled + [lane.active[n]])
  }

  ghost function Apply(lane: Lane, event: Event): Lane {
    match event
    case Submit(_, family, operation) => Enqueue(lane, family, operation)
    case Settle(_, ticket) => Release(lane, ticket)
  }

  // ---------- Runs ----------

  /** A queue fed the events of a single target. */
  ghost function LaneAfter(concurrency: nat, events: seq<Event>): Lane {
    if events == [] then IDLE
    else
      var n := |events| - 1;
      Drain(concurrency, Apply(LaneAfter(concurrency, events[..n]), events[n]))
  }

  ghost function LaneOf(lanes: map<string, Lane>, key: string): Lane {
    if key in lanes then lanes[key] else IDLE
  }

  ghost function DrainAll(concurrency: nat, lanes: map<string, Lane>): map<string, Lane> {
    map key | key in lanes :: Drain(concurrency, lanes[key])
  }

  /** The shared queue: each event is applied to its target's lane and then every lane is drained. */
  ghost function QueueAfter(concurrency: nat, events: seq<Event>): map<string, Lane> {
    if events == [] then map[]
    else
      var n := |events| - 1;
      var before := QueueAfter(concurrency, events[..n]);
      var key := events[n].target;
      DrainAll(concurrency, before[key := Apply(LaneOf(before, key), events[n])])
  }

  ghost function EventsOf(events: seq<Event>, key: string): seq<Event> {
    if events == [] then []
    else
      var n := |events| - 1;
      EventsOf(events[..n], key) + (if events[n].target == key then [events[n]] else [])
  }

  // ---------- The invariant of a lane ----------

  ghost predicate SlotsAreExclusive(tasks: seq<Task>) {
    forall i, j | 0 <= i < j < |tasks| ::
      tasks[i].ticket != tasks[j].ticket && (tasks[i].family.Some? ==> tasks[i].family != tasks[j].family)
  }

  ghost predicate Ascending(tasks: seq<Task>) {
    forall i, j | 0 <= i < j < |tasks| :: tasks[i].ticket < tasks[j].ticket
  }

  /** Two tasks that may never overtake each other: same family, or both without one, or any two on a serial queue. */
  ghost predicate Ordered(concurrency: nat, earlier: Task, later: Task) {
    earlier.family == later.family || concurrency == 1 ==> earlier.ticket < later.ticket
  }

  ghost predicate StartsInOrder(concurrency: nat, lane: Lane) {
    && (forall i, j | 0 <= i < j < |lane.started| :: Ordered(concurrency, lane.started[i], lane.started[j]))
    && (forall i, j | 0 <= i < |lane.started| && 0 <= j < |lane.pending| ::
          Ordered(concurrency, lane.started[i], lane.pending[j]))
  }

  ghost predicate Conserved(lane: Lane) {
    && multiset(lane.submitted) == multiset(lane.pending) + multiset(lane.started)
    && multiset(lane.submitted) == multiset(lane.pending) + (multiset(lane.active) + multiset(lane.settled))
  }

  ghost predicate LaneInv(concurrency: nat, lane: Lane) {
    && |lane.active| <= concurrency
    && SlotsAreExclusive(lane.active)
    && Ascending(lane.pending)
    && (forall i | 0 <= i < |lane.submitted| :: lane.submitted[i].ticket == i)
    && (forall t | t in lane.pending :: t.ticket < |lane.submitted|)
    && (forall t | t in lane.started :: t.ticket < |lane.submitted|)
    && (forall t | t in lane.active :: t in lane.started)
    && (forall s, p | s in lane.started && p in lane.pending :: s.ticket != p.ticket)
    && StartsInOrder(concurrency, lane)
  }

  ghost predicate Quiescent(concurrency: nat, lane: Lane) {
    !CanStart(concurrency, lane)
  }

  /** Moving one element from one list to the end of another loses nothing. */
  lemma MoveConserves<T>(from: seq<T>, n: nat, to: seq<T>)
    requires n < |from|
    ensures multiset(from[..n] + from[n + 1..]) + multiset(to + [from[n]]) == multiset(from) + multiset(to)
  {
    assert from == from[..n] + [from[n]] + from[n + 1..];
  }

  lemma RemovalLeavesOthers(tasks: seq<Task>, n: nat)
    requires n < |tasks| && forall i, j | 0 <= i < j < |tasks| :: tasks[i].ticket != tasks[j].ticket
    ensures forall t | t in tasks[..n] + tasks[n + 1..] :: t in tasks && t.ticket != tasks[n].ticket
  {
    var rest := tasks[..n] + tasks[n + 1..];
    forall t | t in rest
      ensures t in tasks && t.ticket != tasks[n].ticket
    {
      var j :| 0 <= j < |rest| && rest[j] == t;
      assert t == tasks[if j < n then j else j + 1];
    }
  }

  /** The queue discipline at the moment of a start: whatever is overtaken has its family active. */
  lemma OvertakenTasksAreBlocked(concurrency: nat, lane: Lane, earlier: Task)
    requires LaneInv(concurrency, lane) && CanStart(concurrency, lane)
    requires earlier in lane.pending && earlier.ticket < StartNext(concurrency, lane).started[|lane.started|].ticket
    ensures earlier in StartNext(concurrency, lane).pending
    ensures Blocked(earlier, Families(lane.active))
  {
    var n := FirstRunnable(lane.pending, Families(lane.active));
    var j :| 0 <= j < |lane.pending| && lane.pending[j] == earlier;
    assert StartNext(concurrency, lane).pending[j] == earlier;
  }

  lemma StartKeepsSlots(concurrency: nat, lane: Lane)
    requires LaneInv(concurrency, lane) && CanStart(concurrency, lane)
    ensures SlotsAreExclusive(StartNext(concurrency, lane).active)
  {
    var n := FirstRunnable(lane.pending, Families(lane.active));
    var next := lane.pending[n];
    forall i | 0 <= i < |lane.active|
      ensures lane.active[i].ticket != next.ticket
      ensures lane.active[i].family.Some? ==> lane.active[i].family != next.family
    {
      assert lane.active[i] in lane.active && next in lane.pending;
      assert lane.active[i].family.Some? ==> lane.active[i].family.value in Families(lane.active);
    }
  }

  /** What the next task leaves pending, it may be started before: it overtakes only tasks of active families. */
  lemma NextIsInOrder(concurrency: nat, lane: Lane)
    requires LaneInv(concurrency, lane) && CanStart(concurrency, lane)
    ensures var n := FirstRunnable(lane.pending, Families(lane.active));
            forall j | 0 <= j < |lane.pending| && j != n :: Ordered(concurrency, lane.pending[n], lane.pending[j])
  {
    hide SlotsAreExclusive, StartsInOrder;
    var n := FirstRunnable(lane.pending, Families(lane.active));
    forall j | 0 <= j < |lane.pending| && j != n
      ensures Ordered(concurrency, lane.pending[n], lane.pending[j])
    {
      if j < n {
        // overtaken: its family is active, so it is not next's family, and the queue is not serial
        assert Blocked(lane.pending[j], Families(lane.active));
        assert lane.active != [];
      }
    }
  }

  lemma MoveKeepsOrder(concurrency: nat, lane: Lane, n: nat, after: Lane)
    requires StartsInOrder(concurrency, lane) && n < |lane.pending|
    requires after.started == lane.started + [lane.pending[n]]
    requires after.pending == lane.pending[..n] + lane.pending[n + 1..]
    requires forall j | 0 <= j < |lane.pending| && j != n :: Ordered(concurrency, lane.pending[n], lane.pending[j])
    ensures StartsInOrder(concurrency, after)
  {
    hide Ordered;
    forall i, j | 0 <= i < |after.started| && 0 <= j < |after.pending|
      ensures Ordered(concurrency, after.started[i], after.pending[j])
    {
      var k := if j < n then j else j + 1;
      assert after.pending[j] == lane.pending[k];
    }
  }

  lemma StartKeepsOrder(concurrency: nat, lane: Lane)
    requires LaneInv(concurrency, lane) && CanStart(concurrency, lane)
    ensures StartsInOrder(concurrency, StartNext(concurrency, lane))
  {
    NextIsInOrder(concurrency, lane);
    hide Families, Ordered, SlotsAreExclusive, Ascending, StartsInOrder;
    var n := FirstRunnable(lane.pending, Families(lane.active));
    MoveKeepsOrder(concurrency, lane, n, StartNext(concurrency, lane));
  }

  lemma StartKeepsAscending(concurrency: nat, lane: Lane)
    requires CanStart(concurrency, lane) && Ascending(lane.pending)
    ensures Ascending(StartNext(concurrency, lane).pending)
  {
    hide FirstRunnable, Families;
  }

  lemma StartKeepsMembership(concurrency: nat, lane: Lane)
    requires LaneInv(concurrency, lane) && CanStart(concurrency, lane)
    ensures var after := StartNext(concurrency, lane);
            && (forall t | t in after.pending :: t in lane.pending)
            && (forall t | t in after.started :: t in lane.started || t in lane.pending)
            && (forall t | t in after.active :: t in after.started)
            && (forall s, p | s in after.started && p in after.pending :: s.ticket != p.ticket)
  {
    RemovalLeavesOthers(lane.pending, FirstRunnable(lane.pending, Families(lane.active)));
  }

  lemma StartKeepsInv(concurrency: nat, lane: Lane)
    requires LaneInv(concurrency, lane) && CanStart(concurrency, lane)
    ensures LaneInv(concurrency, StartNext(concurrency, lane))
  {
    StartKeepsSlots(concurrency, lane);
    StartKeepsOrder(concurrency, lane);
    StartKeepsAscending(concurrency, lane);
    StartKeepsMembership(concurrency, lane);
  }

  lemma {:induction false} DrainKeepsInv(concurrency: nat, lane: Lane)
    requires LaneInv(concurrency, lane)
    ensures LaneInv(concurrency, Drain(concurrency, lane))
    ensures Quiescent(concurrency, Drain(concurrency, lane))
    decreases |lane.pending|
  {
    if CanStart(concurrency, lane) {
      StartKeepsInv(concurrency, lane);
      DrainKeepsInv(concurrency, StartNext(concurrency, lane));
    }
  }

  lemma EnqueueKeepsInv(concurrency: nat, lane: Lane, family: Option<string>, operation: string)
    requires LaneInv(concurrency, lane)
    ensures LaneInv(concurrency, Enqueue(lane, family, operation))
  {
    EnqueueKeepsOrder(concurrency, lane, family, operation);
    hide StartsInOrder, Ascending, SlotsAreExclusive;
  }

  lemma EnqueueKeepsOrder(concurrency: nat, lane: Lane, family: Option<string>, operation: string)
    requires LaneInv(concurrency, lane)
    ensures StartsInOrder(concurrency, Enqueue(lane, family, operation))
    ensures Ascending(Enqueue(lane, family, operation).pending)
  {
    hide SlotsAreExclusive;
    var after := Enqueue(lane, family, operation);
    forall i, j | 0 <= i < |lane.started| && 0 <= j < |after.pending|
      ensures Ordered(concurrency, after.started[i], after.pending[j])
    {
      assert lane.started[i] in lane.started;
    }
    forall i | 0 <= i < |lane.pending|
      ensures lane.pending[i].ticket < |lane.submitted|
    {
      assert lane.pending[i] in lane.pending;
    }
  }

  lemma ReleaseKeepsInv(concurrency: nat, lane: Lane, ticket: nat)
    requires LaneInv(concurrency, lane)
    ensures LaneInv(concurrency, Release(lane, ticket))
  {
    var n := IndexOf(lane.active, ticket);
    if n < |lane.active| {
      RemovalLeavesOthers(lane.active, n);
    }
  }

  lemma {:induction false} RunKeepsInv(concurrency: nat, events: seq<Event>)
    requires concurrency >= 1
    ensures LaneInv(concurrency, LaneAfter(concurrency, events))
    ensures Quiescent(concurrency, LaneAfter(concurrency, events))
  {
    if events != [] {
      var n := |events| - 1;
      var lane := LaneAfter(concurrency, events[..n]);
      RunKeepsInv(concurrency, events[..n]);
      match events[n] {
        case Submit(_, family, operation) => EnqueueKeepsInv(concurrency, lane, family, operation);
        case Settle(_, ticket) => ReleaseKeepsInv(concurrency, lane, ticket);
      }
      DrainKeepsInv(concurrency, Apply(lane, events[n]));
    }
  }

  lemma {:induction false} DrainConserves(concurrency: nat, lane: Lane)
    requires Conserved(lane)
    ensures Conserved(Drain(concurrency, lane))
    decreases |lane.pending|
  {
    if CanStart(concurrency, lane) {
      var n := FirstRunnable(lane.pending, Families(lane.active));
      MoveConserves(lane.pending, n, lane.started);
      MoveConserves(lane.pending, n, lane.active);
      DrainConserves(concurrency, StartNext(concurrency, lane));
    }
  }

  lemma EnqueueConserves(lane: Lane, family: Option<string>, operation: string)
    requires Conserved(lane)
    ensures Conserved(Enqueue(lane, family, operation))
  {
  }

  lemma ReleaseConserves(lane: Lane, ticket: nat)
    requires Conserved(lane)
    ensures Conserved(Release(lane, ticket))
  {
    var n := IndexOf(lane.active, ticket);
    hide IndexOf;
    if n < |lane.active| {
      MoveConserves(lane.active, n, lane.settled);
      var after := Release(lane, ticket);
      assert multiset(after.active) + multiset(after.settled) == multiset(lane.active) + multiset(lane.settled);
    }
  }

  lemma {:induction false} RunConserves(concurrency: nat, events: seq<Event>)
    ensures Conserved(LaneAfter(concurrency, events))
  {
    if events != [] {
      var n := |events| - 1;
      var lane := LaneAfter(concurrency, events[..n]);
      RunConserves(concurrency, events[..n]);
      match events[n] {
        case Submit(_, family, operation) => EnqueueConserves(lane, family, operation);
        case Settle(_, ticket) => ReleaseConserves(lane, ticket);
      }
      DrainConserves(concurrency, Apply(lane, events[n]));
    }
  }

  // ---------- The theorems about every run ----------

  /** The shared queue is the product of independent single-target queues. */
  lemma {:induction false} QueueIsProduct(concurrency: nat, events: seq<Event>, key: string)
    requires concurrency >= 1
    ensures LaneOf(QueueAfter(concurrency, events), key) == LaneAfter(concurrency, EventsOf(events, key))
  {
    if events != [] {
      var n := |events| - 1;
      var own := EventsOf(events[..n], key);
      QueueIsProduct(concurrency, events[..n], key);
      RunKeepsInv(concurrency, own);
      assert (own + [events[n]])[..|own|] == own;
      assert own + [] == own;
    }
  }

  /** Safety in every reachable state. */
  lemma QueueIsSafe(concurrency: nat, events: seq<Event>, key: string)
    requires concurrency >= 1
    ensures var lane := LaneOf(QueueAfter(concurrency, events), key);
            && |lane.active| <= concurrency
            && SlotsAreExclusive(lane.active)
            && multiset(lane.submitted) == multiset(lane.pending) + (multiset(lane.active) + multiset(lane.settled))
            && (forall t :: multiset(lane.settled)[t] <= 1)
  {
    QueueIsProduct(concurrency, events, key);
    RunKeepsInv(concurrency, EventsOf(events, key));
    RunConserves(concurrency, EventsOf(events, key));
    SettledOnce(LaneAfter(concurrency, EventsOf(events, key)));
  }

  lemma SettledOnce(lane: Lane)
    requires Conserved(lane) && forall i | 0 <= i < |lane.submitted| :: lane.submitted[i].ticket == i
    ensures forall t :: multiset(lane.settled)[t] <= 1
  {
    forall t
      ensures multiset(lane.settled)[t] <= 1
    {
      OncePerTicket(lane.submitted, t);
      assert multiset(lane.settled)[t] <= multiset(lane.submitted)[t];
    }
  }

  lemma {:induction false} OncePerTicket(tasks: seq<Task>, t: Task)
    requires forall i | 0 <= i < |tasks| :: tasks[i].ticket == i
    ensures multiset(tasks)[t] <= 1
    ensures t.ticket >= |tasks| ==> multiset(tasks)[t] == 0
  {
    if tasks != [] {
      var n := |tasks| - 1;
      assert tasks == tasks[..n] + [tasks[n]];
      OncePerTicket(tasks[..n], t);
    }
  }

  /** Progress: a key with anything outstanding has an active task, and is full or has every pending task blocked. */
  lemma QueueMakesProgress(concurrency: nat, events: seq<Event>, key: string)
    requires concurrency >= 1
    ensures var lane := LaneOf(QueueAfter(concurrency, events), key);
            && (lane.pending != [] ==> lane.active != [])
            && (|lane.active| == concurrency || forall t | t in lane.pending :: Blocked(t, Families(lane.active)))
  {
    QueueIsProduct(concurrency, events, key);
    RunKeepsInv(concurrency, EventsOf(events, key));
    var lane := LaneOf(QueueAfter(concurrency, events), key);
    if lane.active == [] && lane.pending != [] {
      assert false;
    }
  }

  /** Start order: by submission within a family, among family-less tasks, and altogether when the queue is serial. */
  lemma QueueStartsInOrder(concurrency: nat, events: seq<Event>, key: string, i: nat, j: nat)
    requires concurrency >= 1
    requires var lane := LaneOf(QueueAfter(concurrency, events), key); i < j < |lane.started|
    ensures var lane := LaneOf(QueueAfter(concurrency, events), key);
            lane.started[i].family == lane.started[j].family || concurrency == 1
            ==> lane.started[i].ticket < lane.started[j].ticket
  {
    QueueIsProduct(concurrency, events, key);
    RunKeepsInv(concurrency, EventsOf(events, key));
    var lane := LaneOf(QueueAfter(concurrency, events), key);
    assert Ordered(concurrency, lane.started[i], lane.started[j]);
  }

  lemma {:induction false} SerialDrainIsFifo(lane: Lane)
    requires lane.started + lane.pending == lane.submitted
    ensures Drain(1, lane).started + Drain(1, lane).pending == lane.submitted
    ensures Drain(1, lane).submitted == lane.submitted
    decreases |lane.pending|
  {
    if CanStart(1, lane) {
      assert FirstRunnable(lane.pending, Families(lane.active)) == 0;
      var after := StartNext(1, lane);
      assert after.started + after.pending == lane.started + lane.pending;
      SerialDrainIsFifo(after);
    }
  }

  lemma {:induction false} SerialLaneIsFifo(events: seq<Event>)
    ensures LaneAfter(1, events).started + LaneAfter(1, events).pending == LaneAfter(1, events).submitted
  {
    if events != [] {
      var n := |events| - 1;
      var lane := LaneAfter(1, events[..n]);
      SerialLaneIsFifo(events[..n]);
      var next := Apply(lane, events[n]);
      assert next.started + next.pending == next.submitted;
      SerialDrainIsFifo(next);
    }
  }

  /** A serial queue is first in, first out: what has started is a prefix of what was submitted. */
  lemma SerialQueueIsFifo(events: seq<Event>, key: string)
    ensures var lane := LaneOf(QueueAfter(1, events), key);
            lane.started + lane.pending == lane.submitted
  {
    QueueIsProduct(1, events, key);
    SerialLaneIsFifo(EventsOf(events, key));
  }

  /** Each settlement of an active task takes exactly that task out of what is outstanding. */
  lemma SettlementShrinksBacklog(concurrency: nat, events: seq<Event>, key: string, ticket: nat)
    requires concurrency >= 1
    requires exists t :: t in LaneOf(QueueAfter(concurrency, events), key).active && t.ticket == ticket
    ensures var before := LaneOf(QueueAfter(concurrency, events), key);
            var after := LaneOf(QueueAfter(concurrency, events + [Settle(key, ticket)]), key);
            && |after.pending| + |after.active| == |before.pending| + |before.active| - 1
            && |after.settled| == |before.settled| + 1
            && after.settled[..|before.settled|] == before.settled
            && after.settled[|before.settled|].ticket == ticket
  {
    var event := Settle(key, ticket);
    assert (events + [event])[..|events|] == events;
    QueueIsProduct(concurrency, events, key);
    QueueIsProduct(concurrency, events + [event], key);
    var own := EventsOf(events, key);
    assert EventsOf(events + [event], key) == own + [event];
    assert (own + [event])[..|own|] == own;
    DrainMovesTasks(concurrency, Release(LaneAfter(concurrency, own), ticket));
  }

  ghost function Outstanding(lane: Lane): nat {
    |lane.pending| + |lane.active|
  }

  /** Settlements of this target only, each of a task that is active when it comes. */
  ghost predicate AreSettlements(concurrency: nat, events: seq<Event>, key: string, settlements: seq<Event>) {
    forall i | 0 <= i < |settlements| ::
      && settlements[i].Settle? && settlements[i].target == key
      && exists t :: t in LaneOf(QueueAfter(concurrency, events + settlements[..i]), key).active
                     && t.ticket == settlements[i].ticket
  }

  /**
   No task is stranded: as many settlements as there are tasks outstanding, in whatever order, leave the
   target idle.
   */
  lemma {:induction false} SettlementsDrain(concurrency: nat, events: seq<Event>, key: string, settlements: seq<Event>)
    requires concurrency >= 1 && AreSettlements(concurrency, events, key, settlements)
    ensures Outstanding(LaneOf(QueueAfter(concurrency, events + settlements), key)) + |settlements|
            == Outstanding(LaneOf(QueueAfter(concurrency, events), key))
    decreases |settlements|
  {
    hide QueueAfter, LaneOf;
    if settlements == [] {
      assert events + settlements == events;
    } else {
      var n := |settlements| - 1;
      var before, last := settlements[..n], settlements[n];
      forall i | 0 <= i < n
        ensures before[i].Settle? && before[i].target == key
        ensures exists t :: t in LaneOf(QueueAfter(concurrency, events + before[..i]), key).active
                            && t.ticket == before[i].ticket
      {
        assert before[..i] == settlements[..i] && before[i] == settlements[i];
      }
      SettlementsDrain(concurrency, events, key, before);
      assert settlements[..n] == before;
      SettlementShrinksBacklog(concurrency, events + before, key, last.ticket);
      assert last == Settle(key, last.ticket);
      assert events + settlements == events + before + [last];
    }
  }

  /** And while anything is outstanding there is an active task whose settlement can come next. */
  lemma SomeTaskIsActive(concurrency: nat, events: seq<Event>, key: string)
    requires concurrency >= 1 && Outstanding(LaneOf(QueueAfter(concurrency, events), key)) > 0
    ensures LaneOf(QueueAfter(concurrency, events), key).active != []
  {
    QueueMakesProgress(concurrency, events, key);
    hide QueueAfter, LaneOf;
  }

  lemma {:induction false} DrainMovesTasks(concurrency: nat, lane: Lane)
    ensures var after := Drain(concurrency, lane);
            && |after.pending| + |after.active| == |lane.pending| + |lane.active|
            && after.settled == lane.settled && after.submitted == lane.submitted
            && lane.started <= after.started
    decreases |lane.pending|
  {
    if CanStart(concurrency, lane) {
      DrainMovesTasks(concurrency, StartNext(concurrency, lane));
    }
  }
}
