/**
 Models collectCandidates and findSetPayload of src/tools/fpe/index.ts: a breadth-first search through the
 values of a decoded reply. Objects are numbered, so that the graph may share them and contain cycles.
 */
module PayloadSearch {
  import opened Options

  datatype Value = Null | Primitive | Ref(id: nat)

  /**
   An object or an array. `values` are its property values or elements; `numbers` what parseInteger makes of
   the properties set_number, set, number, id and index.
   */
  datatype Node = Node(isArray: bool, values: seq<Value>, numbers: seq<Option<int>>)

  type Graph = map<nat, Node>

  /** Every referenced object exists. */
  ghost predicate Closed(graph: Graph, raw: Value) {
    && (raw.Ref? ==> raw.id in graph)
    && forall id, v | id in graph && v in graph[id].values :: v.Ref? ==> v.id in graph
  }

  /** A chain of exactly n references leads from raw to the object. */
  ghost predicate ReachedIn(graph: Graph, raw: Value, id: nat, n: nat)
    decreases n
  {
    if n == 0 then raw == Ref(id)
    else exists from :: from in graph && ReachedIn(graph, raw, from, n - 1) && Ref(id) in graph[from].values
  }

  ghost predicate Reachable(graph: Graph, raw: Value, id: nat) {
    exists n :: ReachedIn(graph, raw, id, n)
  }

  ghost predicate Within(graph: Graph, raw: Value, id: nat, n: nat) {
    exists m: nat :: m <= n && ReachedIn(graph, raw, id, m)
  }

  /** What visiting an object adds to the queue. */
  function Pushed(node: Node): seq<Value> {
    if node.isArray then node.values else References(node.values)
  }

  function References(values: seq<Value>): (refs: seq<Value>)
    ensures forall v :: v in refs <==> v in values && v.Ref?
  {
    if values == [] then []
    else (if values[0].Ref? then [values[0]] else []) + References(values[1..])
  }

  /** An object, not an array, that has the number under one of the names looked at. */
  ghost predicate HasNumber(node: Node, setNumber: int) {
    !node.isArray && exists i :: 0 <= i < |node.numbers| && node.numbers[i] == Some(setNumber)
  }

  predicate IsMatch(graph: Graph, id: nat, setNumber: int): (matches: bool)
    requires id in graph
    ensures matches <==> HasNumber(graph[id], setNumber)
  {
    !graph[id].isArray && Some(setNumber) in graph[id].numbers
  }

  // ---------- The invariant of the search ----------

  /** levels[i] is the length of the shortest chain to candidates[i], and never decreases. */
  ghost predicate Ranked(graph: Graph, raw: Value, candidates: seq<nat>, levels: seq<nat>) {
    && |levels| == |candidates|
    && (forall i | 0 <= i < |candidates| :: candidates[i] in graph && ReachedIn(graph, raw, candidates[i], levels[i]))
    && (forall i, n: nat | 0 <= i < |candidates| && ReachedIn(graph, raw, candidates[i], n) :: levels[i] <= n)
    && (forall i, j | 0 <= i <= j < |levels| :: levels[i] <= levels[j])
  }

  function LastLevel(levels: seq<nat>): nat {
    if levels == [] then 0 else levels[|levels| - 1]
  }

  /** The queue holds reachable values in order of depth, none shallower than a candidate or two levels deeper. */
  ghost predicate Queued(graph: Graph, raw: Value, queue: seq<Value>, depths: seq<nat>, levels: seq<nat>) {
    && |depths| == |queue|
    && (forall j | 0 <= j < |queue| && queue[j].Ref? ::
          queue[j].id in graph && ReachedIn(graph, raw, queue[j].id, depths[j]))
    && (forall i, j | 0 <= i <= j < |depths| :: depths[i] <= depths[j])
    && (forall j | 0 <= j < |depths| :: LastLevel(levels) <= depths[j] <= LastLevel(levels) + 1)
  }

  ghost predicate Waiting(queue: seq<Value>, depths: seq<nat>, id: nat, depth: nat)
    requires |depths| == |queue|
  {
    exists j :: 0 <= j < |queue| && queue[j] == Ref(id) && depths[j] == depth
  }

  /** Nothing is forgotten: what a candidate refers to is a candidate or waits in the queue, one level deeper. */
  ghost predicate Complete(graph: Graph, raw: Value, candidates: seq<nat>, levels: seq<nat>, queue: seq<Value>,
      depths: seq<nat>)
    requires |levels| == |candidates| && |depths| == |queue|
  {
    && (forall id | raw == Ref(id) :: id in candidates || Waiting(queue, depths, id, 0))
    && (forall i, id | 0 <= i < |candidates| && candidates[i] in graph && Ref(id) in graph[candidates[i]].values ::
          id in candidates || Waiting(queue, depths, id, levels[i] + 1))
  }

  ghost predicate Inv(graph: Graph, raw: Value, candidates: seq<nat>, levels: seq<nat>, queue: seq<Value>,
      depths: seq<nat>) {
    && Ranked(graph, raw, candidates, levels)
    && Queued(graph, raw, queue, depths, levels)
    && Complete(graph, raw, candidates, levels, queue, depths)
  }

  ghost predicate Distinct(ids: seq<nat>) {
    forall i, j | 0 <= i < j < |ids| :: ids[i] != ids[j]
  }

  /** Whatever is nearer than the front of the queue has been found. */
  lemma {:induction false} NearerIsFound(graph: Graph, raw: Value, candidates: seq<nat>, levels: seq<nat>,
                                         queue: seq<Value>, depths: seq<nat>, id: nat, n: nat)
    requires Inv(graph, raw, candidates, levels, queue, depths)
    requires queue == [] || n < depths[0]
    requires ReachedIn(graph, raw, id, n)
    ensures id in candidates
    decreases n
  {
    if n == 0 {
      assert raw == Ref(id);
    } else {
      var from :| from in graph && ReachedIn(graph, raw, from, n - 1) && Ref(id) in graph[from].values;
      NearerIsFound(graph, raw, candidates, levels, queue, depths, from, n - 1);
      var i :| 0 <= i < |candidates| && candidates[i] == from;
      assert levels[i] <= n - 1;
      NoneIsShallower(queue, depths, id, levels[i] + 1);
    }
  }

  lemma NoneIsShallower(queue: seq<Value>, depths: seq<nat>, id: nat, depth: nat)
    requires |depths| == |queue| && (forall i, j | 0 <= i <= j < |depths| :: depths[i] <= depths[j])
    requires queue == [] || depth < depths[0]
    ensures !Waiting(queue, depths, id, depth)
  {
  }

  /** The front is left out because it is no object or has been visited. */
  lemma SkipFront(graph: Graph, raw: Value, candidates: seq<nat>, levels: seq<nat>, queue: seq<Value>, depths: seq<nat>)
    requires Inv(graph, raw, candidates, levels, queue, depths) && queue != []
    requires queue[0].Ref? ==> queue[0].id in candidates
    ensures Inv(graph, raw, candidates, levels, queue[1..], depths[1..])
  {
    hide ReachedIn;
    forall id, depth | Waiting(queue, depths, id, depth) && id !in candidates
      ensures Waiting(queue[1..], depths[1..], id, depth)
    {
      var j :| 0 <= j < |queue| && queue[j] == Ref(id) && depths[j] == depth;
      assert queue[1..][j - 1] == Ref(id) && depths[1..][j - 1] == depth;
    }
  }

  function Repeat(n: nat, depth: nat): seq<nat> {
    seq(n, _ => depth)
  }

  lemma VisitKeepsRanked(graph: Graph, raw: Value, candidates: seq<nat>, levels: seq<nat>, queue: seq<Value>,
      depths: seq<nat>)
    requires Inv(graph, raw, candidates, levels, queue, depths)
    requires queue != [] && queue[0].Ref? && queue[0].id !in candidates
    ensures Ranked(graph, raw, candidates + [queue[0].id], levels + [depths[0]])
  {
    hide ReachedIn;
    forall n | ReachedIn(graph, raw, queue[0].id, n)
      ensures depths[0] <= n
    {
      if n < depths[0] {
        NearerIsFound(graph, raw, candidates, levels, queue, depths, queue[0].id, n);
        assert false;
      }
    }
  }

  lemma VisitKeepsQueued(graph: Graph, raw: Value, levels: seq<nat>, queue: seq<Value>, depths: seq<nat>,
      pushed: seq<Value>)
    requires Queued(graph, raw, queue, depths, levels) && Closed(graph, raw)
    requires queue != [] && queue[0].Ref? && pushed == Pushed(graph[queue[0].id])
    ensures Queued(graph, raw, queue[1..] + pushed, depths[1..] + Repeat(|pushed|, depths[0] + 1), levels + [depths[0]])
  {
    var id, queue', depths' := queue[0].id, queue[1..] + pushed, depths[1..] + Repeat(|pushed|, depths[0] + 1);
    forall j | 0 <= j < |queue'| && queue'[j].Ref?
      ensures queue'[j].id in graph && ReachedIn(graph, raw, queue'[j].id, depths'[j])
    {
      if j < |queue| - 1 {
        assert queue'[j] == queue[j + 1] && depths'[j] == depths[j + 1];
      } else {
        assert queue'[j] in pushed && queue'[j] in graph[id].values && depths'[j] == depths[0] + 1;
      }
    }
  }

  lemma VisitKeepsComplete(graph: Graph, raw: Value, candidates: seq<nat>, levels: seq<nat>,
                           queue: seq<Value>, depths: seq<nat>, pushed: seq<Value>)
    requires |levels| == |candidates| && |depths| == |queue| && Complete(graph, raw, candidates, levels, queue, depths)
    requires queue != [] && queue[0].Ref? && queue[0].id in graph && pushed == Pushed(graph[queue[0].id])
    ensures Complete(graph, raw, candidates + [queue[0].id], levels + [depths[0]],
                     queue[1..] + pushed, depths[1..] + Repeat(|pushed|, depths[0] + 1))
  {
    hide Pushed;
    var id, queue', depths' := queue[0].id, queue[1..] + pushed, depths[1..] + Repeat(|pushed|, depths[0] + 1);
    var candidates', levels' := candidates + [id], levels + [depths[0]];
    forall child, depth | Waiting(queue, depths, child, depth) && child !in candidates'
      ensures Waiting(queue', depths', child, depth)
    {
      var j :| 0 <= j < |queue| && queue[j] == Ref(child) && depths[j] == depth;
      assert queue'[j - 1] == Ref(child) && depths'[j - 1] == depth;
    }
    forall i, child | 0 <= i < |candidates'| && candidates'[i] in graph && Ref(child) in graph[candidates'[i]].values
      ensures child in candidates' || Waiting(queue', depths', child, levels'[i] + 1)
    {
      if i == |candidates| {
        PushedRefs(graph[id], child);
        var k :| 0 <= k < |pushed| && pushed[k] == Ref(child);
        assert queue'[|queue| - 1 + k] == Ref(child) && depths'[|queue| - 1 + k] == depths[0] + 1;
      }
    }
  }

  lemma PushedRefs(node: Node, child: nat)
    requires Ref(child) in node.values
    ensures Ref(child) in Pushed(node)
  {
  }

  method CollectCandidates(graph: Graph, raw: Value) returns (candidates: seq<nat>)
    requires Closed(graph, raw)
    ensures Distinct(candidates)
    ensures forall id :: id in candidates <==> Reachable(graph, raw, id)
    ensures forall id | id in candidates :: id in graph
    ensures forall i, j, n: nat | 0 <= i <= j < |candidates| && Within(graph, raw, candidates[j], n) ::
              Within(graph, raw, candidates[i], n)
  {
    hide Inv, Closed, Pushed;
    var visited: set<nat> := {};
    var queue: seq<Value> := if raw.Null? then [] else [raw];
    candidates := [];
    ghost var depths, levels := Repeat(|queue|, 0), [];
    StartIsInv(graph, raw);
    while queue != []
      invariant Inv(graph, raw, candidates, levels, queue, depths)
      invariant forall id :: id in visited <==> id in candidates
      invariant Distinct(candidates) && visited <= graph.Keys
      decreases |graph.Keys - visited|, |queue|
    {
      var current := queue[0];
      QueueFits(graph, raw, candidates, levels, queue, depths);
      if !current.Ref? || current.id in visited {
        SkipFront(graph, raw, candidates, levels, queue, depths);
        queue, depths := queue[1..], depths[1..];
        continue;
      }
      var pushed := Pushed(graph[current.id]);
      VisitKeepsInv(graph, raw, candidates, levels, queue, depths, pushed);
      FewerLeft(graph.Keys, visited, current.id);
      visited := visited + {current.id};
      depths, levels := depths[1..] + Repeat(|pushed|, depths[0] + 1), levels + [depths[0]];
      candidates := candidates + [current.id];
      queue := queue[1..] + pushed;
    }
    SearchIsDone(graph, raw, candidates, levels, queue, depths);
  }

  lemma StartIsInv(graph: Graph, raw: Value)
    requires Closed(graph, raw)
    ensures var queue := if raw.Null? then [] else [raw]; Inv(graph, raw, [], [], queue, Repeat(|queue|, 0))
  {
    var queue := if raw.Null? then [] else [raw];
    forall id | raw == Ref(id)
      ensures Waiting(queue, Repeat(|queue|, 0), id, 0)
    {
      assert queue[0] == Ref(id);
    }
  }

  lemma QueueFits(graph: Graph, raw: Value, candidates: seq<nat>, levels: seq<nat>, queue: seq<Value>, depths: seq<nat>)
    requires Inv(graph, raw, candidates, levels, queue, depths) && queue != []
    ensures |depths| == |queue| && (queue[0].Ref? ==> queue[0].id in graph)
  {
  }

  lemma FewerLeft(all: set<nat>, visited: set<nat>, id: nat)
    requires id in all && id !in visited
    ensures |all - (visited + {id})| < |all - visited|
  {
    assert all - visited == (all - (visited + {id})) + {id};
  }

  lemma VisitKeepsInv(graph: Graph, raw: Value, candidates: seq<nat>, levels: seq<nat>,
                      queue: seq<Value>, depths: seq<nat>, pushed: seq<Value>)
    requires Inv(graph, raw, candidates, levels, queue, depths) && Closed(graph, raw)
    requires queue != [] && queue[0].Ref? && queue[0].id !in candidates && queue[0].id in graph
    requires |depths| == |queue| && pushed == Pushed(graph[queue[0].id])
    ensures Inv(graph, raw, candidates + [queue[0].id], levels + [depths[0]],
                queue[1..] + pushed, depths[1..] + Repeat(|pushed|, depths[0] + 1))
  {
    VisitKeepsRanked(graph, raw, candidates, levels, queue, depths);
    VisitKeepsQueued(graph, raw, levels, queue, depths, pushed);
    VisitKeepsComplete(graph, raw, candidates, levels, queue, depths, pushed);
    hide Complete, Queued, Ranked, Pushed, Repeat;
  }

  lemma SearchIsDone(graph: Graph, raw: Value, candidates: seq<nat>, levels: seq<nat>, queue: seq<Value>,
      depths: seq<nat>)
    requires Inv(graph, raw, candidates, levels, queue, depths) && queue == []
    ensures forall id :: id in candidates <==> Reachable(graph, raw, id)
    ensures forall id | id in candidates :: id in graph
    ensures forall i, j, n: nat | 0 <= i <= j < |candidates| && Within(graph, raw, candidates[j], n) ::
              Within(graph, raw, candidates[i], n)
  {
    hide ReachedIn;
    forall id
      ensures id in candidates <==> Reachable(graph, raw, id)
    {
      if n: nat :| ReachedIn(graph, raw, id, n) {
        NearerIsFound(graph, raw, candidates, levels, queue, depths, id, n);
      }
    }
  }

  /** An object for the set, and none is nearer to the root; or there is none at all. */
  method FindSetPayload(graph: Graph, raw: Value, setNumber: int) returns (found: Option<nat>)
    requires Closed(graph, raw)
    ensures found.None? <==> forall id | Reachable(graph, raw, id) && id in graph :: !HasNumber(graph[id], setNumber)
    ensures found.Some? ==>
              && Reachable(graph, raw, found.value) && found.value in graph && HasNumber(graph[found.value], setNumber)
              && forall id, n: nat | id in graph && HasNumber(graph[id], setNumber) && Within(graph, raw, id, n) ::
                   Within(graph, raw, found.value, n)
  {
    hide Reachable, Within, HasNumber;
    var candidates := CollectCandidates(graph, raw);
    for i := 0 to |candidates|
      invariant forall j | 0 <= j < i :: candidates[j] in graph && !HasNumber(graph[candidates[j]], setNumber)
    {
      assert candidates[i] in candidates;
      if IsMatch(graph, candidates[i], setNumber) {
        forall id, n: nat | id in graph && HasNumber(graph[id], setNumber) && Within(graph, raw, id, n)
          ensures Within(graph, raw, candidates[i], n)
        {
          WithinIsReachable(graph, raw, id, n);
          var j :| 0 <= j < |candidates| && candidates[j] == id;
        }
        return Some(candidates[i]);
      }
    }
    return None;
  }

  lemma WithinIsReachable(graph: Graph, raw: Value, id: nat, n: nat)
    requires Within(graph, raw, id, n)
    ensures Reachable(graph, raw, id)
  {
  }
}
