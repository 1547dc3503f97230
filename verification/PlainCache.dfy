/**
 The specification of the tagged TTL cache of src/services/cache/index.ts: one flat map and
 invalidation by linear scan, with no index.

 A fetch is two events, because its fetcher is awaited: `Begin` looks the entry up, drops it if it
 has expired and counts; `Complete` stores what the fetcher returned. Anything may happen in between.
 */
module PlainCache {

  datatype Ref = Ref(resourceType: string, key: string)

  datatype Entry<+V> = Entry(value: V, expiresAt: int, tags: seq<string>, prefixTags: seq<string>)

  datatype Event<+V> =
    | Begin(ref: Ref, now: int)
    | Complete(ref: Ref, value: V, startedAt: int, ttl: int, tags: seq<string>, prefixTags: seq<string>)
    | ByTag(tag: string)
    | ByPrefix(prefixTag: string)
    | ByAddress(address: string)
    | ByType(resourceType: string)
    | ByEntry(ref: Ref)
    | ClearAll

  datatype Stats = Stats(hits: nat, misses: nat)

  const OSC_PREFIX := "osc-prefix:"

  function OscAddressTag(address: string): string {
    "osc:" + address
  }

  function ExtractPrefixKey(prefixTag: string): string {
    if OSC_PREFIX <= prefixTag then prefixTag[|OSC_PREFIX|..] else prefixTag
  }

  function ExpiresAt(startedAt: int, ttl: int): int {
    if ttl > 0 then startedAt + ttl else startedAt
  }

  // ---------- One step ----------

  /** A message on this address concerns a prefix tag. */
  predicate Covers(prefixTag: string, address: string) {
    ExtractPrefixKey(prefixTag) <= address
  }

  /** The event removes this entry, or stores another one in its place. */
  ghost predicate Disturbs<V>(event: Event<V>, ref: Ref, entry: Entry<V>) {
    match event
    case Begin(r, now) => r == ref && entry.expiresAt <= now
    case Complete(r, _, _, _, _, _) => r == ref
    case ByTag(tag) => tag in entry.tags
    case ByPrefix(prefixTag) => prefixTag in entry.prefixTags
    case ByAddress(address) =>
      OscAddressTag(address) in entry.tags || exists p :: p in entry.prefixTags && Covers(p, address)
    case ByType(resourceType) => ref.resourceType == resourceType
    case ByEntry(r) => r == ref
    case ClearAll => true
  }

  ghost function Stored<V>(event: Event<V>): Entry<V>
    requires event.Complete?
  {
    Entry(event.value, ExpiresAt(event.startedAt, event.ttl), event.tags, event.prefixTags)
  }

  /** A linear scan keeps what the event does not disturb; a completed fetch adds its entry. */
  ghost function Next<V>(live: map<Ref, Entry<V>>, event: Event<V>): map<Ref, Entry<V>> {
    var kept := map ref | ref in live && !Disturbs(event, ref, live[ref]) :: live[ref];
    if event.Complete? then kept[event.ref := Stored(event)] else kept
  }

  ghost function After<V>(history: seq<Event<V>>): map<Ref, Entry<V>> {
    if history == [] then map[]
    else Next(After(history[..|history| - 1]), history[|history| - 1])
  }

  ghost predicate IsHit<V>(live: map<Ref, Entry<V>>, ref: Ref, now: int) {
    ref in live && live[ref].expiresAt > now
  }

  ghost function CountFetch<V>(stats: Stats, live: map<Ref, Entry<V>>, event: Event<V>, resourceType: string): Stats {
    match event
    case Begin(ref, now) =>
      if ref.resourceType != resourceType then stats
      else if IsHit(live, ref, now) then stats.(hits := stats.hits + 1)
      else stats.(misses := stats.misses + 1)
    case ClearAll => Stats(0, 0)
    case _ => stats
  }

  ghost function StatsAfter<V>(history: seq<Event<V>>, resourceType: string): Stats {
    if history == [] then Stats(0, 0)
    else
      var n := |history| - 1;
      CountFetch(StatsAfter(history[..n], resourceType), After(history[..n]), history[n], resourceType)
  }

  // ---------- What a hit means ----------

  /** Event i stored this entry, and nothing since has disturbed it. */
  ghost predicate StoredAndUndisturbed<V>(history: seq<Event<V>>, i: nat, ref: Ref, entry: Entry<V>) {
    && i < |history|
    && history[i].Complete? && history[i].ref == ref && Stored(history[i]) == entry
    && forall j | i < j < |history| :: !Disturbs(history[j], ref, entry)
  }

  lemma {:induction false} LiveEntryWasStored<V>(history: seq<Event<V>>, ref: Ref) returns (i: nat)
    requires ref in After(history)
    ensures StoredAndUndisturbed(history, i, ref, After(history)[ref])
  {
    var n := |history| - 1;
    if history[n].Complete? && history[n].ref == ref {
      i := n;
    } else {
      i := LiveEntryWasStored(history[..n], ref);
      assert forall j | i < j < n :: history[j] == history[..n][j];
    }
  }

  lemma {:induction false} UndisturbedEntryIsLive<V>(history: seq<Event<V>>, i: nat, ref: Ref, entry: Entry<V>)
    requires StoredAndUndisturbed(history, i, ref, entry)
    ensures ref in After(history) && After(history)[ref] == entry
  {
    var n := |history| - 1;
    if i < n {
      assert forall j | i < j < n :: history[..n][j] == history[j];
      UndisturbedEntryIsLive(history[..n], i, ref, entry);
    }
  }

  // ---------- The same in terms of the calls ----------

  /** What this fetch stored is within its TTL, counted from its start; or the clock is back before that. */
  predicate InTime<V>(done: Event<V>, now: int)
    requires done.Complete?
  {
    now < done.startedAt || (done.ttl > 0 && now < done.startedAt + done.ttl)
  }

  /** A prefix tag, with its mark or without, whose text begins the address. */
  ghost predicate BeginsAddress(prefixTag: string, address: string) {
    exists prefix: string ::
      && prefix <= address
      && (prefixTag == "osc-prefix:" + prefix || (prefixTag == prefix && !("osc-prefix:" <= prefixTag)))
  }

  /** An entry with these tags is one that a message on this address makes stale. */
  ghost predicate IsConcerned(tags: seq<string>, prefixTags: seq<string>, address: string) {
    "osc:" + address in tags || exists p :: p in prefixTags && BeginsAddress(p, address)
  }

  /** The event drops or replaces what this fetch stored. */
  ghost predicate Removes<V>(event: Event<V>, done: Event<V>)
    requires done.Complete?
  {
    match event
    case Begin(ref, now) => ref == done.ref && !InTime(done, now)
    case Complete(ref, _, _, _, _, _) => ref == done.ref
    case ByTag(tag) => tag in done.tags
    case ByPrefix(prefixTag) => prefixTag in done.prefixTags
    case ByAddress(address) => IsConcerned(done.tags, done.prefixTags, address)
    case ByType(resourceType) => done.ref.resourceType == resourceType
    case ByEntry(ref) => ref == done.ref
    case ClearAll => true
  }

  lemma CoversIff(prefixTag: string, address: string)
    ensures Covers(prefixTag, address) <==> BeginsAddress(prefixTag, address)
  {
    if OSC_PREFIX <= prefixTag {
      assert prefixTag == "osc-prefix:" + ExtractPrefixKey(prefixTag);
      forall prefix: string | prefixTag == "osc-prefix:" + prefix
        ensures prefix == ExtractPrefixKey(prefixTag)
      {
        assert ("osc-prefix:" + prefix)[|OSC_PREFIX|..] == prefix;
      }
    } else {
      forall prefix: string
        ensures prefixTag != "osc-prefix:" + prefix
      {
        assert OSC_PREFIX <= "osc-prefix:" + prefix;
      }
      assert "osc-prefix:" + prefixTag != prefixTag;
    }
  }

  lemma ConcernsIff<V>(address: string, ref: Ref, entry: Entry<V>)
    ensures IsConcerned(entry.tags, entry.prefixTags, address) <==> Disturbs(ByAddress(address), ref, entry)
  {
    forall p: string
      ensures Covers(p, address) <==> BeginsAddress(p, address)
    {
      CoversIff(p, address);
    }
  }

  lemma RemovesIff<V>(event: Event<V>, done: Event<V>)
    requires done.Complete?
    ensures Removes(event, done) <==> Disturbs(event, done.ref, Stored(done))
  {
    if event.ByAddress? {
      ConcernsIff(event.address, done.ref, Stored(done));
    }
    hide IsConcerned, Covers;
  }

  lemma InTimeIff<V>(done: Event<V>, now: int)
    requires done.Complete?
    ensures InTime(done, now) <==> now < Stored(done).expiresAt
  {
  }

  /** Event i completed a fetch of this entry that a fetch at this time may be answered with. */
  ghost predicate Answers<V>(history: seq<Event<V>>, i: nat, ref: Ref, now: int) {
    && i < |history| && history[i].Complete? && history[i].ref == ref && InTime(history[i], now)
    && forall j | i < j < |history| :: !Removes(history[j], history[i])
  }

  lemma AnswersIff<V>(history: seq<Event<V>>, i: nat, ref: Ref, now: int)
    ensures Answers(history, i, ref, now) <==>
              && i < |history| && history[i].Complete?
              && StoredAndUndisturbed(history, i, ref, Stored(history[i])) && now < Stored(history[i]).expiresAt
  {
    if i < |history| && history[i].Complete? {
      InTimeIff(history[i], now);
      forall j | i < j < |history|
        ensures Removes(history[j], history[i]) <==> Disturbs(history[j], history[i].ref, Stored(history[i]))
      {
        RemovesIff(history[j], history[i]);
      }
    }
    hide Removes, Disturbs, Stored, InTime;
  }

  /**
   A fetch hits exactly when some earlier fetch of the same entry has completed, began at s with
   now < s + its TTL, and nothing since it was stored has replaced, expired or invalidated it.
   */
  lemma HitIff<V>(history: seq<Event<V>>, ref: Ref, now: int)
    ensures IsHit(After(history), ref, now) <==> exists i: nat :: Answers(history, i, ref, now)
  {
    hide Answers;
    if IsHit(After(history), ref, now) {
      var i := LiveEntryWasStored(history, ref);
      AnswersIff(history, i, ref, now);
    }
    if i: nat :| Answers(history, i, ref, now) {
      AnswersIff(history, i, ref, now);
      UndisturbedEntryIsLive(history, i, ref, Stored(history[i]));
    }
  }

  /** What a hit returns: the value of the last fetch of the entry to complete, which is still within its TTL. */
  lemma HitReturnsLastCompleted<V>(history: seq<Event<V>>, ref: Ref, now: int) returns (i: nat)
    requires IsHit(After(history), ref, now)
    ensures Answers(history, i, ref, now) && After(history)[ref].value == history[i].value
    ensures forall j | i < j < |history| && history[j].Complete? :: history[j].ref != ref
    ensures now < history[i].startedAt + (if history[i].ttl > 0 then history[i].ttl else 0)
    ensures forall j | i < j < |history| :: !Disturbs(history[j], ref, Stored(history[i]))
  {
    i := LiveEntryWasStored(history, ref);
    AnswersIff(history, i, ref, now);
  }

  // ---------- The counters ----------

  /** The fetches of a resource type begun since the last ClearAll. */
  ghost function BegunSinceClear<V>(history: seq<Event<V>>, resourceType: string): nat {
    if history == [] then 0
    else
      var n := |history| - 1;
      match history[n]
      case ClearAll => 0
      case Begin(ref, _) => BegunSinceClear(history[..n], resourceType)
        + (if ref.resourceType == resourceType then 1 else 0)
      case _ => BegunSinceClear(history[..n], resourceType)
  }

  /** Those of them that hit. */
  ghost function HitsSinceClear<V>(history: seq<Event<V>>, resourceType: string): nat {
    if history == [] then 0
    else
      var n := |history| - 1;
      match history[n]
      case ClearAll => 0
      case Begin(ref, now) => HitsSinceClear(history[..n], resourceType)
        + (if ref.resourceType == resourceType && exists i: nat :: Answers(history[..n], i, ref, now) then 1 else 0)
      case _ => HitsSinceClear(history[..n], resourceType)
  }

  /** The hits are those fetches that some completed one answers. */
  lemma {:induction false} HitsAreCounted<V>(history: seq<Event<V>>, resourceType: string)
    ensures StatsAfter(history, resourceType).hits == HitsSinceClear(history, resourceType)
  {
    if history != [] {
      var n := |history| - 1;
      HitsAreCounted(history[..n], resourceType);
      if history[n].Begin? {
        HitIff(history[..n], history[n].ref, history[n].now);
      }
      hide Answers, IsHit, After;
    }
  }

  lemma {:induction false} EveryFetchIsCounted<V>(history: seq<Event<V>>, resourceType: string)
    ensures var stats := StatsAfter(history, resourceType);
            stats.hits + stats.misses == BegunSinceClear(history, resourceType)
  {
    if history != [] {
      EveryFetchIsCounted(history[..|history| - 1], resourceType);
    }
  }
}
