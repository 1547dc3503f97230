# Verification of the OSC gateway

A Dafny model of the stateful and algorithmic parts of the gateway between tools and an Eos lighting
console, and proofs of what they keep. `dafny verify dfyconfig.toml` checks the project.

| files | what they model |
|---|---|
| `Lanes.dfy`, `QueueCalls.dfy`, `RequestQueue.dfy` | the request scheduler: one queue per target, a cap per target, mutual exclusion per family, and the calls made of it |
| `CacheKey.dfy`, `CacheKeyOrder.dfy`, `CacheKeyUnique.dfy` | the cache key: its printer, the order of keys, and which requests share a key |
| `PlainCache.dfy`, `TagIndexes.dfy`, `ResourceCache.dfy`, `KeyCuts.dfy` | the TTL cache with its tag and prefix indexes, and cache keys in it |
| `Framing.dfy`, `Backoff.dfy` | the length-prefixed stream of the section "OSC Packets" of the Open Sound Control 1.0 specification, and the reconnection delays |
| `TransportMachine.dfy`, `TransportSafety.dfy`, `TransportStatus.dfy`, `TransportTiming.dfy`, `TransportRetries.dfy`, `TcpIdle.dfy` | a transport as a state machine: connect, failure, reconnect, heartbeat, stop, and the idle timer of a TCP socket |
| `ConnectionManager.dfy`, `OscConnectionManager.dfy` | the transports and their manager as objects |
| `Awaiters.dfy`, `Requests.dfy`, `Handshake.dfy`, `HandshakeRetry.dfy` | response awaiters, the request shape, and the handshake race with its retry |
| `HandshakeClient.dfy`, `HandshakeCall.dfy` | the awaiters, the attempt and performHandshake as objects |
| `RangeText.dfy`, `ChannelRanges.dfy`, `ChannelRoundTrip.dfy`, `RangeAliases.dfy` | the range-list parser and validator, the spellings they accept, the printer, and the round trip |
| `RateLimiter.dfy` | the fixed-window rate limiter with lazy cleanup |
| `EditDistance.dfy` | the Levenshtein matrix and the closest allowed rule |
| `PayloadSearch.dfy` | the breadth-first search through a decoded reply |
| `Options.dfy` | a value that may be missing |

What updates its fields in the source is a class here, each of whose methods is proved against a
specification on values: `Lanes` for the queue, `PlainCache` for the cache, `TransportMachine` for a
transport, `Awaiters` and `Handshake` for the client. The theorems about all runs are lemmas about these
specifications. `RequestQueue`, `ResourceCache`, `OscConnectionManager` and `HandshakeCall` carry the history
of their calls as ghost state; their invariant `Valid` says that the object is where that history leads, and so
the theorems hold of the objects between calls.

Asynchronous code is modelled event by event. A fetch of the cache is a begin and a complete step; a task's
settlement, a timer, a promise reaction and a write callback are steps of their own; any other step may
come in between. Clocks are ideal: time stops at an armed deadline until the timer has fired.

Results where the code does less than its documentation or names suggest:

- A silent peer is detected if and only if `heartbeatIntervalMs > connectionTimeoutMs` (`SilenceIsDetectedIff`, and
  `SilenceIsDetectedOnTcpIff` for TCP with its idle timer): otherwise each heartbeat replaces the pending timeout
  before it fires. At equality this rests on the two timers, due at the same time, firing in either order.
- On TCP the idle timer of the socket asks for the opposite (`IdlePeersAreSparedIff`), so only a timeout of 0, which
  turns it off, serves both (`TcpServesBothIff`). With the defaults of 5000 and 3000, a peer that answers every
  heartbeat within less than two seconds but has nothing else to say is dropped before the second one.
- Requests without bars in their addresses share a cache key only if they ask for the same thing
  (`CacheKeyIsCanonical`), except that a missing target and an explicit target `default` are not told apart; with a
  bar there is always a collision (`KeyIsUniqueIff`). The key depends on how the request is written if and only if an
  object holds two keys that the comparison cannot tell apart, such as the two spellings of an accented letter
  (`KeyIsCanonicalIff`).
- An entry id parses back if and only if the key has no `::` (`EntryIdRoundTrip`). An IPv6 target or free text in a
  payload puts one there, and such an entry is never removed by tag, prefix or address (`InvalidateByTag`,
  `InvalidateByPrefix`, `InvalidateByOscAddress`). It takes nothing from the others: requests whose address and
  target hold no bar hit whenever they may (`RequestsAreServed`), while with a bar the id of one request can be cut
  to the key of another (`AnyKeyCanBeCutTo`) and then removes it along with its own tags (`CutEntryIsHit`).
- Storing over a live entry leaves a dangling id if and only if it drops one of its tags (`StoringKeepsSharpIff`).
- The limiter admits up to 2 max(1, max) - 1 requests in a window that straddles two of its own, and no more.
- Cancelling the legacy awaiter leaves the timers of all but the last legacy message armed, though inert
  (`CancelClearsLastTimer`).
- A send error beats a reply that has already arrived: the request then fails (`RequestsEndAsDecided`).
- A request whose send outlasts its timer rejects a promise that nothing awaits yet (`UnhandledIff`).
- A second handshake attempt can overtake a send of the first that is still on its way (`AttemptsOverlapIff`). At a
  timeout of 1 ms this too rests on timers due at the same time firing in either order.

## Model

| member | source | states |
|---|---|---|
| `Lanes.QueueIsProduct` | src/services/osc/requestQueue.ts:75-181 | in every run, what the shared queue does for one target is what a queue fed only that target's submissions and settlements does |
| `Lanes.QueueIsSafe` | src/services/osc/requestQueue.ts:75-181 | in every reachable state a target has at most `concurrency` active tasks, no two of one family; submitted tasks are exactly the pending, active and settled ones, each settled at most once |
| `Lanes.QueueMakesProgress` | src/services/osc/requestQueue.ts:129-181 | after every event a target with pending work has an active task, and is full or has every pending task blocked by a busy family |
| `Lanes.QueueStartsInOrder` | src/services/osc/requestQueue.ts:129-169 | starts follow submission order within a family, among family-less tasks, and altogether when the concurrency is 1 |
| `Lanes.OvertakenTasksAreBlocked` | src/services/osc/requestQueue.ts:140-169 | at the moment a task starts, every earlier submission still pending has its family active |
| `Lanes.SerialQueueIsFifo` | src/services/osc/requestQueue.ts:129-169 | with concurrency 1, what has started followed by what is pending is the list of submissions |
| `Lanes.SettlementShrinksBacklog` | src/services/osc/requestQueue.ts:153-160 | each settlement of an active task takes exactly that task out of what is outstanding |
| `Lanes.SettlementsDrain` | src/services/osc/requestQueue.ts:129-181 | as many settlements as there are tasks outstanding, in whatever order, leave the target idle |
| `Lanes.SomeTaskIsActive` | src/services/osc/requestQueue.ts:129-181 | while anything is outstanding there is an active task whose settlement can come next |
| `Lanes.RunKeepsInv` | src/services/osc/requestQueue.ts:129-181 | the invariant of a target holds after every run, and nothing more can start |
| `Lanes.RunConserves` | src/services/osc/requestQueue.ts:75-161 | no run loses or duplicates a task |
| `RequestQueues.NormaliseConcurrency` | src/services/osc/requestQueue.ts:50-55 | the cap is at least 1, the truncation of a finite value from 1 upwards, and 1 for everything else |
| `RequestQueues.TargetQueueState.Push` | src/services/osc/requestQueue.ts:91-91 | the pushed task is the last pending one of its target |
| `RequestQueues.TargetQueueState.Start` | src/services/osc/requestQueue.ts:146-153 | exactly the task at the index leaves the pending list and takes a slot and its family, and it is the one whose operation is called |
| `RequestQueues.TargetQueueState.Finish` | src/services/osc/requestQueue.ts:154-157 | the slot and the family of the settled task become free, those of the others stay |
| `RequestQueues.RequestQueue.constructor` | src/services/osc/requestQueue.ts:71-73 | a new queue satisfies the invariant |
| `RequestQueues.RequestQueue.GetTargetState` | src/services/osc/requestQueue.ts:112-127 | the existing target or a fresh one, listed once in `targetOrder` |
| `RequestQueues.RequestQueue.FindRunnableTaskIndex` | src/services/osc/requestQueue.ts:165-169 | the index of the first pending task whose family is free, or -1 |
| `RequestQueues.RequestQueue.CleanupTarget` | src/services/osc/requestQueue.ts:171-181 | a target leaves the map and the order exactly when nothing is outstanding |
| `RequestQueues.RequestQueue.ServeTarget` | src/services/osc/requestQueue.ts:135-153 | one target starts its first runnable task, or nothing can start on it |
| `RequestQueues.RequestQueue.ProcessOnce` | src/services/osc/requestQueue.ts:132-162 | a pass over a snapshot of the targets that starts something shrinks the backlog; otherwise every target is saturated |
| `RequestQueues.RequestQueue.Process` | src/services/osc/requestQueue.ts:129-163 | the do/while loop ends, and leaves every target drained and saturated |
| `RequestQueues.RequestQueue.Run` | src/services/osc/requestQueue.ts:75-94 | a call keeps the invariant: the object is in the state that all calls and settlements lead to, this one included, with the target and family it names |
| `RequestQueues.RequestQueue.OnSettled` | src/services/osc/requestQueue.ts:153-160 | so does a settlement, by result, error or timeout |
| `RequestQueues.QueueInvariant` | src/services/osc/requestQueue.ts:129-181 | between calls every remaining target has an active task, at most the cap, and is full or blocked; `activeFamilies` is the set of families of the active tasks |
| `RequestQueues.ActiveCalls` | src/services/osc/requestQueue.ts:75-181 | between calls what is active on a target are at most `concurrency` calls that went there, no two of which name the same family |
| `QueueCalls.ActiveCallsAreExclusive` | src/services/osc/requestQueue.ts:57-94 | the same of every history of calls: a non-empty target key is the target, otherwise it is `default`; a non-empty family key is the family, otherwise there is none |
| `QueueCalls.OnlyOwnCallsMatter` | src/services/osc/requestQueue.ts:57-94 | the state of a target is a function of the calls that go there and their settlements, whatever else is called |
| `QueueCalls.OtherTargetsAreUnaffected` | src/services/osc/requestQueue.ts:57-94 | so a call that goes elsewhere, or its settlement, changes nothing for a target |
| `CacheKeyUnique.KeyIsUniqueIff` | src/services/cache/index.ts:143-154 | a request shares its key with no other request if and only if its address and its target hold no bar and its target, a missing one read as `default`, is not `default` |
| `CacheKeyUnique.KeyIsCanonicalIff` | src/services/cache/index.ts:90-154 | a request gets the same key however its objects are written if and only if no object of it holds two keys the comparison cannot tell apart |
| `CacheKeyUnique.KeysAgreeIff` | src/services/cache/index.ts:143-154 | any two requests share a key exactly when address and target joined, the port, and the two printed values agree |
| `CacheKeyUnique.CacheKeyIsCanonical` | src/services/cache/index.ts:90-154 | the key of a request without bars and ties, with a target or without, tells exactly what is asked for: it is the key of another if and only if address, target (a missing one read as `default`) and port are the same, and payload and extra mean the same |
| `CacheKeyUnique.UnspelledKeyIsCanonical` | src/services/cache/index.ts:90-154 | so two such requests of which neither spells out the target `default` share a key if and only if they are the same request |
| `CacheKeyUnique.LastSegmentIsReadable` | src/services/cache/index.ts:143-154 | the printed values and the port can be read off the end of a key, whatever the addresses hold |
| `CacheKeyUnique.ValueIsSealed` | src/services/cache/index.ts:112-128 | a printed value has no bar and no backslash outside its quotes |
| `CacheKeyOrder.TextIsCanonicalIff` | src/services/cache/index.ts:112-128 | the printed text of a value depends on its meaning alone if and only if no object holds two keys that tie |
| `CacheKeys.ValueIsReadable` | src/services/cache/index.ts:112-128 | unique readability: two printed values followed by a boundary agree only if the values and the rests do |
| `CacheKeyOrder.SameMeaningSameText` | src/services/cache/index.ts:112-128 | without ties equal JSON values print the same text, whatever the order of their keys |
| `CacheKeyOrder.TiedTwin` | src/services/cache/index.ts:112-128 | a value with a tie has a twin that means the same and prints differently |
| `CacheKeys.SanitiseKeepsMeaning` | src/services/cache/index.ts:90-110 | sanitising drops undefined fields and keeps the meaning |
| `CacheKeys.UnescapeInvertsEscape` | src/services/cache/index.ts:112-128 | string escapes are read back as the character they stand for |
| `CacheKeys.EscapesAsJson` | src/services/cache/index.ts:112-128 | the escapes are those of JSON.stringify |
| `CacheKeys.ExampleKey` | src/services/cache/index.ts:143-154 | the key of a request with unsorted keys, an undefined field, no target and no extra |
| `CacheKeyOrder.SortIsSorted` | src/services/cache/index.ts:121-123 | keys that do not tie are printed in the order of the comparison |
| `EntryIds.HasSeparatorIff` | src/services/cache/index.ts:134-137 | a key has the separator when it holds `::` anywhere |
| `EntryIds.EntryIdRoundTrip` | src/services/cache/index.ts:130-137 | an entry id parses back to its entry exactly when the key contains no `::` |
| `EntryIds.KeyIsCutAtSeparator` | src/services/cache/index.ts:134-137 | of any other key only what precedes the first `::` comes back |
| `EntryIds.IsCutToIff` | src/services/cache/index.ts:130-137 | the id of an entry parses to another exactly when they have one type and the key of the first goes on with `::` where that of the other, which holds none, ends |
| `EntryIds.LoopbackKeyIsLost` | src/services/cache/index.ts:130-137 | so the id of a request to the IPv6 target ::1 parses to another entry |
| `EntryIds.EntryIdsAreDistinct` | src/services/cache/index.ts:130-132 | distinct entries have distinct ids |
| `PlainCache.HitIff` | src/services/cache/index.ts:181-218 | of the linear scan, in every interleaving: a fetch at `now` hits exactly when a fetch of the entry that began at s has completed with now < s + its TTL and nothing since has replaced, expired or invalidated what it stored (the class: see `BeginFetch`) |
| `PlainCache.RemovesIff` | src/services/cache/index.ts:231-288 | what an event removes, in terms of its own fields and those of the fetch: tags, prefix tags that begin the address, type, key and TTL |
| `PlainCache.HitReturnsLastCompleted` | src/services/cache/index.ts:181-218 | of the linear scan: a hit returns the value of the last fetch of the entry to complete, not invalidated since |
| `PlainCache.LiveEntryWasStored` | src/services/cache/index.ts:181-218 | of the linear scan: every live entry was stored by a completed fetch and not disturbed since |
| `PlainCache.UndisturbedEntryIsLive` | src/services/cache/index.ts:181-288 | of the linear scan: what was stored and not disturbed is live |
| `PlainCache.EveryFetchIsCounted` | src/services/cache/index.ts:345-355 | hits plus misses are the fetches begun since the last `clearAll` |
| `PlainCache.HitsAreCounted` | src/services/cache/index.ts:345-355 | the hits among them are those that some completed fetch answers |
| `TagIndexes.Register` | src/services/cache/index.ts:357-371 | the id is added to the bucket of each tag and to no other |
| `TagIndexes.Deregister` | src/services/cache/index.ts:383-407 | the id leaves the bucket of each tag, empty buckets disappear, other ids stay |
| `ResourceCaches.IndexesAreTheScan` | src/services/cache/index.ts:357-408 | between calls an id is in a bucket of either index exactly when the scan of the history holds the entry with that tag, for any entry the history treats well |
| `TagIndexes.BucketIsScan` | src/services/cache/index.ts:235-257 | the ids of a bucket miss no live `::`-free entry that carries the tag, and hit no other entry the index is exact about |
| `TagIndexes.CutEntryIsHit` | src/services/cache/index.ts:235-257 | the ids of a bucket hit any entry that the id of one with the tag is cut to |
| `TagIndexes.ParsedKeysAreSafe` | src/services/cache/index.ts:134-137 | no id parses to an entry whose key holds `::`, so no invalidation through ids reaches one |
| `ResourceCaches.TagBucketIsScan` | src/services/cache/index.ts:235-245 | dropping the entries of a bucket is a linear scan by tag for all entries the indexes are exact about |
| `ResourceCaches.PrefixBucketIsScan` | src/services/cache/index.ts:247-257 | the same for a prefix tag |
| `ResourceCaches.AddressScan` | src/services/cache/index.ts:259-268 | dropping the tag of an address and then every covering prefix tag of the index is one scan by address |
| `TagIndexes.StoringKeepsSharpIff` | src/services/cache/index.ts:357-371 | storing an entry keeps the index exact about another or itself if and only if it drops no tag of itself, and its id is not cut to the other while it has tags |
| `ResourceCaches.CallersAreWellBehavedAtIff` | src/services/cache/index.ts:181-218 | with tags that are a function of type and key, as in every caller, a history treats an entry well if and only if no entry with tags was stored whose id is cut to it |
| `KeyCuts.NoRequestIsCutToAnother` | src/services/cache/index.ts:130-154 | no id of one request is cut to the key of another, if no address or target holds a bar |
| `KeyCuts.AnyKeyCanBeCutTo` | src/services/cache/index.ts:130-154 | with a bar it can be: for every request whose key holds no `::` there is one whose id is cut to it |
| `KeyCuts.RequestsAreWellBehaved` | src/tools/effects/index.ts:647-664 | so requests without bars, tagged by type and key, are always treated well |
| `KeyCuts.RequestsAreServed` | src/services/cache/index.ts:181-288 | used like this, the cache hits exactly when some completed fetch serves the request, whatever holds `::` |
| `ResourceCaches.TracksStep` | src/services/cache/index.ts:169-288 | each operation extends the history by its event and keeps every live entry accounted for; what the history treats well stays equal to the scan |
| `ResourceCaches.FollowsStep` | src/services/cache/index.ts:169-288 | in particular any entry that the history treats well, whatever else is stored, is live exactly as in the scan of the history |
| `ResourceCaches.CountsStep` | src/services/cache/index.ts:345-355 | and the hits and misses of a type whose fetches are all for such entries are those of the scan |
| `ResourceCaches.AccountedStep` | src/services/cache/index.ts:169-288 | on every history each live entry was stored by a completed fetch and has been out of reach of every event since |
| `ResourceCaches.HitIsServed` | src/services/cache/index.ts:181-196 | on every history a hit is what some such fetch stored; for entries the history treats well, and for keys with `::`, every such fetch hits |
| `ResourceCaches.ServedIsLastCompleted` | src/services/cache/index.ts:181-288 | on every history the value is that of the last fetch of the entry to complete, begun at s with now < s + TTL; if the key is `::`-free, no later event has expired or invalidated it |
| `ResourceCaches.ResourceCache.constructor` | src/services/cache/index.ts:168-179 | a new cache satisfies the invariant |
| `ResourceCaches.ResourceCache.BeginFetch` | src/services/cache/index.ts:181-202 | a live entry is returned and counted as a hit, an expired one dropped and a miss counted; on every history a hit is the value of a completed fetch that is within its TTL and out of reach of every event since, and for entries the history treats well, or keys with `::`, every such fetch hits |
| `ResourceCaches.ResourceCache.CompleteFetch` | src/services/cache/index.ts:199-218 | the fetched value is stored from the start of the fetch for the TTL of the call, or else of its type, or else the default, and registered |
| `ResourceCaches.ResourceCache.StoreEntry` | src/services/cache/index.ts:205-217 | the indexes keep covering the live entries, and stay exact about just the entries that the storing spares |
| `ResourceCaches.ResourceCache.RemoveEntry` | src/services/cache/index.ts:373-408 | exactly this entry goes, and the indexes stay covering, and exact where they were |
| `ResourceCaches.ResourceCache.InvalidateIds` | src/services/cache/index.ts:240-244 | every entry the ids parse to goes, although the bucket shrinks meanwhile |
| `ResourceCaches.ResourceCache.InvalidateByTag` | src/services/cache/index.ts:235-245 | on every history an entry with the tag survives if and only if its key holds `::`, and what goes is what the ids of the bucket parse to; an entry the history treats well goes only with its own tags |
| `ResourceCaches.ResourceCache.InvalidateByPrefix` | src/services/cache/index.ts:247-257 | the same by prefix tag |
| `ResourceCaches.ResourceCache.InvalidateByOscAddress` | src/services/cache/index.ts:259-268 | an entry with the tag of the address, or a prefix tag whose text begins it, survives if and only if its key holds `::`, although the loop deletes the buckets it iterates over; an entry with neither survives if the history treats it well |
| `ResourceCaches.ResourceCache.NotifyResourceChange` | src/services/cache/index.ts:270-275 | two invalidations by tag |
| `ResourceCaches.ResourceCache.HandleOscMessage` | src/services/cache/index.ts:277-281 | outgoing console messages invalidate by address, others nothing |
| `ResourceCaches.ResourceCache.InvalidateEntry` | src/services/cache/index.ts:231-233 | exactly the named entry goes |
| `ResourceCaches.ResourceCache.InvalidateResourceType` | src/services/cache/index.ts:220-229 | exactly the entries of the type go |
| `ResourceCaches.ResourceCache.ClearAllEntries` | src/services/cache/index.ts:283-288 | nothing is left, and the counters restart |
| `ResourceCaches.ResourceCache.SetDefaultTtl` | src/services/cache/index.ts:297-299 | a negative TTL counts as 0 |
| `ResourceCaches.ResourceCache.SetResourceTtl` | src/services/cache/index.ts:301-307 | only the TTL of this type is set or removed |
| `Framing.FramingRoundTrip` | src/services/osc/connectionManager.ts:318-338 | packets framed for sending, concatenated and cut into any chunks, are emitted in order with an empty leftover |
| `Framing.ChunkingIsInvisible` | src/services/osc/connectionManager.ts:318-338 | for any bytes, output and leftover depend only on the concatenation of the chunks |
| `Framing.LeftoverHasNoFrame` | src/services/osc/connectionManager.ts:318-338 | the leftover never holds a complete frame |
| `Framing.DecodeLosesNothing` | src/services/osc/connectionManager.ts:318-338 | framing the output again and appending the leftover gives the input back |
| `Framing.DecodeInvertsFrames` | src/services/osc/connectionManager.ts:318-338 | decoding inverts framing |
| `Framing.DecodeContinues` | src/services/osc/connectionManager.ts:318-338 | decoding a prefix, and then the leftover with the rest, is decoding the whole |
| `Framing.DecodeCutsIff` | src/services/osc/connectionManager.ts:318-338 | what is decoded is how the bytes are cut: packets that each stand behind their big-endian length, and a rest that begins with no whole one |
| `Framing.DigitsOfLength` | src/services/osc/connectionManager.ts:323-323 | byte k of a length is its digit of weight 256 to the power of 3 - k |
| `Framing.ShortPacketIsEmitted` | src/services/osc/connectionManager.ts:318-338 | bytes 0, 0, 0, n and then n bytes are one packet, whatever follows |
| `Framing.LongerPacketsComeLater` | src/services/osc/connectionManager.ts:680-691 | where the prefixes of two packets first differ, the longer one has the greater byte |
| `Framing.LengthRoundTrip` | src/services/osc/connectionManager.ts:680-691 | the four-byte big-endian length is read back |
| `Backoff.NormaliseBackoff` | src/services/osc/connectionManager.ts:138-148 | each option is kept if it is in range, clamped if not, and has its default if missing: 1000 ms, eight times the initial delay, 2, and no jitter |
| `Backoff.DelayNeverDecreases` | src/services/osc/connectionManager.ts:566-580 | without jitter the delay never decreases with the failure count |
| `Backoff.DelayIsBounded` | src/services/osc/connectionManager.ts:566-580 | every delay lies between the rounded capped exponential and the rounded maximum |
| `Backoff.CappedDelayGrows` | src/services/osc/connectionManager.ts:566-580 | the capped exponential grows up to the cap |
| `Backoff.DelayIsExponential` | src/services/osc/connectionManager.ts:566-580 | the delay after n failures is the rounding of the initial delay multiplied n - 1 times, never beyond the maximum, and raised by its share of jitter |
| `Backoff.DelayIsDetermined` | src/services/osc/connectionManager.ts:566-580 | and no other whole number is |
| `Backoff.DefaultDelays` | src/services/osc/connectionManager.ts:138-148 | with the defaults: 1000, 2000, 4000, 8000 and 8000 ms |
| `TransportSafety.FailureSetsRetry` | src/services/osc/connectionManager.ts:539-612 | a failure of a running transport counts once and arms the next attempt exactly that delay later, unless the time budget of the outage does not allow it |
| `TransportSafety.RunKeepsInv` | src/services/osc/connectionManager.ts:272-623 | in every possible run: socket null exactly when disconnected, reconnect timer only then, every armed timer remembered, failures counted since the last connection, and a running disconnected transport without a budget has a reconnect armed |
| `TransportSafety.StepKeepsInv` | src/services/osc/connectionManager.ts:272-623 | each event keeps that invariant |
| `TransportSafety.FailureKeepsInv` | src/services/osc/connectionManager.ts:539-564 | a failure keeps it, whatever state it finds |
| `TransportTiming.AtMostOneTimerPerKind` | src/services/osc/connectionManager.ts:444-509 | no run has two heartbeat intervals, two timeouts or two reconnects armed |
| `TransportTiming.StopIsFinal` | src/services/osc/connectionManager.ts:190-206 | after `stop` nothing is ever armed, opened or reported again |
| `TransportStatus.RunReports` | src/services/osc/connectionManager.ts:272-623 | in every possible run the status events are the changes of phase as they happen, the last one the phase of a running transport, and none is taken back |
| `TransportTiming.SilenceIsDetectedIff` | src/services/osc/connectionManager.ts:444-490 | a silent peer is dropped in bounded time if and only if the heartbeat interval exceeds the connection timeout |
| `TransportTiming.SilentPeerIsDropped` | src/services/osc/connectionManager.ts:444-490 | then a transport still connected was acknowledged at most interval + timeout ago |
| `TransportTiming.SilenceGoesUnnoticed` | src/services/osc/connectionManager.ts:470-489 | otherwise each heartbeat replaces the pending timeout, and no bound holds |
| `TransportTiming.DroppedPeersWereSilent` | src/services/osc/connectionManager.ts:474-483 | in no possible run does a heartbeat timeout drop a transport whose peer was heard, by a packet or by connecting, less than `connectionTimeoutMs` ago |
| `TransportTiming.LastAckIsKept` | src/services/osc/connectionManager.ts:431-442 | the time the peer was last heard is never forgotten |
| `TransportRetries.OutageIsRetriedBoundedly` | src/services/osc/connectionManager.ts:582-612 | one outage has made at most reconnectTimeoutMs / minimum delay timer-driven attempts |
| `TransportRetries.EveryAttemptIsBounded` | src/services/osc/connectionManager.ts:582-612 | every single attempt, also the one that connects, is within that bound |
| `TransportRetries.AttemptsAreApart` | src/services/osc/connectionManager.ts:582-612 | any two timer-driven attempts, of one outage or of two, are at least the minimum delay apart |
| `TransportRetries.RunKeepsPace` | src/services/osc/connectionManager.ts:582-612 | the attempts of an outage times the minimum delay fit into the time it has lasted and into its budget |
| `TransportTiming.RunKeepsWatch` | src/services/osc/connectionManager.ts:444-490 | while connected, the pending timeout or the next heartbeat is near enough to the last acknowledgement |
| `TcpIdle.IdlePeersAreSparedIff` | src/services/osc/connectionManager.ts:350-368 | the idle timer of a TCP socket never fails a connected transport if and only if it is off or heartbeats are more frequent than it |
| `TcpIdle.QuietConnectionsAreShort` | src/services/osc/connectionManager.ts:350-368 | with rarer heartbeats a connection that carries nothing but answered heartbeats is failed before the second one |
| `TcpIdle.AnsweringPeerIsDropped` | src/services/osc/connectionManager.ts:350-368 | a possible run in which a peer that answers at once is dropped |
| `TcpIdle.TcpRunIsRun` | src/services/osc/connectionManager.ts:350-490 | every run of a TCP transport with its idle timer is a run of the plain machine |
| `TcpIdle.SilenceIsDetectedOnTcpIff` | src/services/osc/connectionManager.ts:350-490 | over the runs of a TCP transport, idle timer included, some bound on the detection of a silent peer exists if and only if the interval exceeds the timeout |
| `TcpIdle.SilentPeriodsOnTcp` | src/services/osc/connectionManager.ts:350-490 | otherwise there is a possible TCP run of any length in which the peer never answers: each heartbeat written sets the idle timer anew |
| `TcpIdle.TcpServesBothIff` | src/services/osc/connectionManager.ts:350-490 | a TCP configuration both detects silent peers and spares idle ones if and only if its timeout is 0 |
| `TcpIdle.StepKeepsBounds` | src/services/osc/connectionManager.ts:350-490 | each event keeps the idle deadline within its distance of the last heartbeat |
| `ConnectionManager.Transport.Handle` | src/services/osc/connectionManager.ts:272-623 | every callback leaves the state the machine prescribes, and the receive buffer lives as long as its socket |
| `ConnectionManager.Transport.OnData` | src/services/osc/connectionManager.ts:318-338 | buffer and chunk are cut into the packets emitted, each behind its big-endian length, and the leftover, which begins with no whole one; a packet that is accepted acknowledges |
| `ConnectionManager.Transport.SendThroughState` | src/services/osc/connectionManager.ts:669-703 | TCP packets are written behind their length as a big-endian number |
| `ConnectionManager.Transport.HandleTransportFailure` | src/services/osc/connectionManager.ts:539-564 | the transport is dropped, and its reconnect timer is armed for the delay that the failures in a row call for |
| `ConnectionManager.PickTransport` | src/services/osc/connectionManager.ts:625-667 | a connected transport if there is one, in the order of the preference |
| `OscConnectionManagers.OscConnectionManager.constructor` | src/services/osc/connectionManager.ts:112-167 | both transports have made their first attempt, and the invariant holds |
| `OscConnectionManagers.OscConnectionManager.OnTcpEvent` | src/services/osc/connectionManager.ts:306-623 | any callback of the TCP transport keeps the invariant that it is in a state a possible run leads to; once stopped it stays dead |
| `OscConnectionManagers.OscConnectionManager.OnUdpEvent` | src/services/osc/connectionManager.ts:371-623 | the same for UDP |
| `OscConnectionManagers.OscConnectionManager.OnTcpData` | src/services/osc/connectionManager.ts:318-338 | what has been emitted on a socket is what all the bytes received on it decode to |
| `OscConnectionManagers.OscConnectionManager.AdvanceClock` | src/services/osc/connectionManager.ts:431-623 | time passes for both up to the next deadline |
| `OscConnectionManagers.OscConnectionManager.Pick` | src/services/osc/connectionManager.ts:625-640 | the connected transport that comes first in the preference; if there is none, both are made to connect; nothing once stopped |
| `OscConnectionManagers.OscConnectionManager.Send` | src/services/osc/connectionManager.ts:236-252 | which transport is used and what it is given to write, or an error; always an error once stopped |
| `OscConnectionManagers.OscConnectionManager.StopAll` | src/services/osc/connectionManager.ts:190-206 | both transports are dead, silently, and every later call leaves them so |
| `OscConnectionManagers.ManagerInvariant` | src/services/osc/connectionManager.ts:190-623 | between calls no timer leaks, the status events tell the phase, nothing is armed once stopped, and with an interval above the timeout a connected peer of either transport was heard within interval + timeout |
| `OscConnectionManagers.RanStep` | src/services/osc/connectionManager.ts:190-623 | an enabled event extends a possible run |
| `EditDistance.LevenshteinDistance` | src/tools/commands/command_tools.ts:150-177 | the matrix ends in the edit distance |
| `EditDistance.EditDistanceIsMinimal` | src/tools/commands/command_tools.ts:150-177 | some chain of that many single insertions, deletions and substitutions leads from a to b, and no shorter one does |
| `EditDistance.NoShorterChain` | src/tools/commands/command_tools.ts:150-177 | every chain of edits is at least that long |
| `EditDistance.ShortestChain` | src/tools/commands/command_tools.ts:150-177 | a chain of that length exists |
| `EditDistance.LevOneEdit` | src/tools/commands/command_tools.ts:150-177 | one edit changes the distance by at most one |
| `EditDistance.LevIsMetric` | src/tools/commands/command_tools.ts:150-177 | the distance is a metric: zero exactly on equal texts, symmetric, with the triangle inequality |
| `EditDistance.ClosestAllowedRule` | src/tools/commands/command_tools.ts:179-194 | the earliest allowed rule at minimum distance, or none exactly when no rule is allowed |
| `RateLimiter.AnyWindowIsBounded` | src/server/httpGateway.ts:1144-1166 | any half-open window of length `windowMs` accepts at most 2 max(1, max) - 1 requests of one address |
| `RateLimiter.BoundIsTight` | src/server/httpGateway.ts:1144-1166 | and that many can be accepted |
| `RateLimiter.CleanupIsInvisible` | src/server/httpGateway.ts:976-984 | every decision is that of the limiter without cleanup |
| `RateLimiter.AddressesAreIndependent` | src/server/httpGateway.ts:1144-1166 | decisions for an address depend only on its own requests |
| `RateLimiter.DecidedAlone` | src/server/httpGateway.ts:1144-1166 | each decision is the one its own window gives |
| `RateLimiter.AcceptedIff` | src/server/httpGateway.ts:1144-1166 | of every window exactly the first max(1, max) requests of an address are accepted, where a window is opened by the first request and by each first one that comes `windowMs` or more after the last opening |
| `RateLimiter.Limiter.CleanupRateLimitState` | src/server/httpGateway.ts:976-984 | exactly the windows that are out of date by the factor are deleted |
| `RateLimiter.Limiter.ConsumeRateLimit` | src/server/httpGateway.ts:1144-1166 | a request is accepted exactly if it is among the first max(1, max) of its window |
| `RangeText.ParseNumberRangeString` | src/utils/validators.ts:136-174 | the strictly increasing list of the union of the well-formed parts clipped to the bounds; on accepted texts nothing is clipped |
| `RangeText.ValidIff` | src/utils/validators.ts:176-205 | the validator accepts exactly the texts with a part, all of whose parts are read and none clipped |
| `RangeText.ValidMeansExact` | src/utils/validators.ts:176-205 | an accepted text denotes a non-empty set, none of it out of bounds |
| `RangeText.MatchRangeIff` | src/utils/validators.ts:150-150 | the scanner finds a range exactly where the range pattern matches, with those two numbers |
| `RangeText.ReadPartIff` | src/utils/validators.ts:149-171 | a part denotes a range exactly when it is two numbers with a hyphen between, in either order, or a single signed number |
| `RangeText.SortDistinctSorts` | src/utils/validators.ts:173-173 | sorting a set gives its strictly increasing list |
| `ChannelRanges.NormalisedChannels` | src/tools/channels/index.ts:41-45 | the strictly increasing list of what the channels truncate to |
| `ChannelRanges.FormatRangeList` | src/tools/channels/index.ts:140-165 | the loop collects the runs of consecutive values |
| `ChannelRanges.RunsAreSeparated` | src/tools/channels/index.ts:140-165 | the ranges are in order and not adjacent |
| `ChannelRanges.RunsCoverExactly` | src/tools/channels/index.ts:140-165 | they cover exactly the values |
| `ChannelRanges.RunsAreMinimal` | src/tools/channels/index.ts:140-165 | no list of intervals covering the same values is shorter |
| `ChannelRoundTrip.ExpressionRoundTrip` | src/tools/channels/index.ts:167-172 | parsing a printed list gives the values within the bounds, the list itself exactly when all are; the validator accepts it exactly for a non-empty list within the bounds |
| `ChannelRoundTrip.SpelledUnion` | src/utils/validators.ts:124-174 | a list of ranges is read as their union in any of its spellings: dashes or the range words between the ends, commas, other separators or the list words between the entries, in any case, with any white space around them |
| `ChannelRoundTrip.SpelledParts` | src/utils/validators.ts:124-146 | the parser then sees exactly the ranges |
| `RangeAliases.AliasIsSkipped` | src/utils/validators.ts:97-106 | and so it does behind any of the default alias words |
| `ChannelRoundTrip.NormaliserRewrites` | src/utils/validators.ts:124-134 | the normaliser turns such marks into `-` and `,` and keeps the numbers |
| `ChannelRoundTrip.PrintedParts` | src/utils/validators.ts:145-146 | the parser sees exactly the printed ranges |
| `ChannelRoundTrip.RangeRoundTrip` | src/utils/validators.ts:110-122 | a printed range is read back as itself |
| `ChannelRoundTrip.IntRoundTrip` | src/utils/validators.ts:110-122 | a printed integer is read back as itself |
| `ChannelRoundTrip.DigitAt` | src/tools/channels/index.ts:140-172 | the printed digits from the right have weights 1, 10, 100 and so on, with no zero in front |
| `ChannelRoundTrip.FirstDigitCounts` | src/utils/validators.ts:110-122 | and so they are read: the first of k + 1 digits counts 10 to the power of k |
| `Awaiters.AwaiterSettlesOnce` | src/services/osc/client.ts:2165-2222 | in every order of replies, expiry and cancels a response awaiter settles at most once; completed, it has no listener and no timer and nothing affects it |
| `Awaiters.FirstEventDecides` | src/services/osc/client.ts:2165-2222 | its promise carries the first reply or expiry, and stays pending after a cancel that comes first |
| `Awaiters.LegacySettlesOnce` | src/services/osc/client.ts:1672-1709 | the legacy awaiter settles at most once; disposed, it only runs out of timers |
| `Awaiters.FirstLegacyTimerDecides` | src/services/osc/client.ts:1672-1709 | its promise carries the message whose timer fires first, and stays pending after a cancel that comes before |
| `Awaiters.CancelClearsLastTimer` | src/services/osc/client.ts:1678-1705 | cancelling clears the timer of the last legacy message only: nothing stays armed if and only if at most one arrived |
| `Requests.RequestsConserve` | src/services/osc/client.ts:736-760 | when a request is over, listener and timer are gone and nothing later has any effect |
| `Requests.RequestsEndAsDecided` | src/services/osc/client.ts:442-500 | a request fails exactly when its send does, and otherwise ends as the first of reply and expiry says |
| `Requests.RequestsResume` | src/services/osc/client.ts:736-760 | once its send has succeeded and reply or expiry has come, it ends that way as soon as it runs on |
| `Requests.UnhandledIff` | src/services/osc/client.ts:729-756 | the promise of the awaiter is rejected before anything awaits it if and only if the timer fires before the send has ended and before a reply |
| `Handshake.FinishedAttemptsLeaveNothing` | src/services/osc/client.ts:1378-1510 | once an attempt has settled, in any order of events, both listeners are gone, every timer is cleared or inert, and nothing is sent or settled again |
| `Handshake.RunKeepsInv` | src/services/osc/client.ts:1378-1510 | in every run: closed means released, at most one resend is under way, and a result comes from an awaiter that has it |
| `Handshake.AttemptsAreNeverStranded` | src/services/osc/client.ts:1481-1509 | while its first send is on its way an attempt listens or has its reply; from then on, until it is over, it has its timeout armed or a reaction due |
| `Handshake.RacesEndInTime` | src/services/osc/client.ts:1481-1509 | past the timeout after the first send, the attempt is over or the reaction that ends it is due |
| `Handshake.RacesHaveTheirTime` | src/services/osc/client.ts:1481-1509 | and no attempt times out before that |
| `Handshake.ResendsAreBounded` | src/services/osc/client.ts:1429-1455 | there are at most ceil(timeout / interval) resends |
| `Handshake.ResendsAreApart` | src/services/osc/client.ts:1429-1455 | two resends of an attempt are an interval apart, unless the later one is at the very timeout |
| `Handshake.ResendsKeepComing` | src/services/osc/client.ts:1429-1455 | while the race is open and has time left, the next resend is due within an interval and within the timeout, or the one before has not settled |
| `HandshakeRetry.RetryFollowsRelease` | src/services/osc/client.ts:1512-1530 | the second attempt starts only when the first has released listeners and timers, with at most one resend of it unsettled, and never when a transport was asked for |
| `HandshakeRetry.AttemptsOverlapIff` | src/services/osc/client.ts:1512-1530 | a send of the first attempt can be on its way during the second if and only if the call may retry and its timeout is positive |
| `HandshakeRetry.SettledCallsLeaveNothing` | src/services/osc/client.ts:1368-1530 | once performHandshake has settled, nothing of either attempt is left, no second attempt begins, and nothing is resent |
| `HandshakeRetry.StepKeepsCallInv` | src/services/osc/client.ts:1512-1530 | each event keeps both attempts sound, and a settled call settled |
| `HandshakeClient.ResponseAwaiter.constructor` | src/services/osc/client.ts:2176-2219 | one listener is added, and the timer is armed unless told otherwise |
| `HandshakeClient.ResponseAwaiter.Cleanup` | src/services/osc/client.ts:2189-2199 | listener and timer go, once; other listeners stay |
| `HandshakeClient.LegacyAwaiter.Cancel` | src/services/osc/client.ts:1695-1705 | the listener and the remembered timer go; other listeners stay |
| `HandshakeClient.HandshakeAttempt.constructor` | src/services/osc/client.ts:1378-1394 | two listeners are added, no others touched |
| `HandshakeClient.HandshakeAttempt.Handle` | src/services/osc/client.ts:1396-1509 | every closure leaves the state the machine prescribes and the listeners of others alone |
| `HandshakeCalls.HandshakeCall.constructor` | src/services/osc/client.ts:1368-1394 | the call has begun, with the gateway listeners of before as those of others |
| `HandshakeCalls.HandshakeCall.OnFirst` | src/services/osc/client.ts:1396-1509 | any closure of the first attempt keeps the invariant that the call is in a state a run leads to, and the listeners of others |
| `HandshakeCalls.HandshakeCall.OnSecond` | src/services/osc/client.ts:1396-1525 | the same for the second |
| `HandshakeCalls.HandshakeCall.OnFirstRejected` | src/services/osc/client.ts:1514-1529 | a second attempt is made exactly after a timeout without a transport asked for |
| `HandshakeCalls.HandshakeCall.OtherListens` | src/services/osc/client.ts:1378-1388 | others may start to listen at any time |
| `HandshakeCalls.HandshakeCall.OverGivesBack` | src/services/osc/client.ts:1368-1530 | once the call has settled the gateway holds exactly the listeners of others, and no timeout or resend is armed |
| `PayloadSearch.CollectCandidates` | src/tools/fpe/index.ts:317-358 | on any finite graph, cycles included, the search ends with every reachable object once, in order of depth |
| `PayloadSearch.FindSetPayload` | src/tools/fpe/index.ts:360-375 | a nearest object for the set, or none exactly when no reachable object matches |
| `PayloadSearch.NearerIsFound` | src/tools/fpe/index.ts:328-356 | whatever is nearer than the front of the queue has been found |

## Left out

- Sockets, the OSC codec, HTTP, logging and file access: their effects are events and parameters.
- Tool handlers, schemas, capability tables, configuration parsing and messages: branch reading and constant data.
- Authentication, CORS, role gating, redaction and archive import.
- `getDiagnostics`, `getStats` and `getStatsSnapshot`: they only read the state.
- Synchronous re-entry: task bodies, 'status' listeners and 'message' listeners are taken not to call the
  object back while it is calling them.
- A queue timeout frees the slot while the transport call may still be running, so exclusion is about slots.
- An invalidation during a fetch does not affect what that fetch later stores; the hit lemmas count from the storing.
- The early drop of a `::`-free entry that the history does not treat well: `InvalidateByTag` says it in terms of the
  index, through a dangling id or one that is cut to the entry, but no condition on the history alone is given.
- Keys that look like array indices, which an engine lists first whatever the order they were written in: objects
  are modelled with their fields in any order.
- The cache map of a type is reached through the outer map each time; that `fetch` keeps a reference to it across
  the await is not modelled (the map is never replaced while in use).
- JSON numbers are their canonical text, and key comparison (`localeCompare`) is a parameter taken to be a strict
  weak order; lone surrogates, and an object key `__proto__`, are not modelled.
- Timers of the transports are ideal: a delay of 0 is 0 and not 1 ms, and timers due at the same time fire in any order.
- Doubles: delays are reals and times integers, so overflow to Infinity, rounding above 2^53, and delays above
  2^31 ms are not modelled; neither are channel numbers that print with an exponent.
- The idle timer of `TcpIdle.dfy` is not a field of the class `Transport`, which sees it as the event `Failure`.
- Caller-supplied aliases of the range parser: the default alias words are modelled. Characters outside the Basic
  Multilingual Plane are not.
- The ordering of promise reactions (microtasks): any order is allowed, so no claim is made on which of two replies
  that have both arrived wins a handshake.
- When the first send of a handshake fails, the attempt also rejects a promise nobody awaits; the process-wide event
  that this raises, and that a request raises whose timer beats its send (`UnhandledIff`), is not modelled.
- Spreading a very long array onto the stack in the payload search, and the field readers built on it.
