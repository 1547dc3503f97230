/**
 Models the class ResourceCache of src/services/cache/index.ts: entries stored per resource type and
 indexed twice, by tag and by prefix tag, through entry ids that are strings to be split apart again.

 Ghost state ties the object to module PlainCache: `history` is every event so far. An entry whose key is free
 of "::" is held exactly as the linear scan of that history holds it if the history treats it well: its tags are
 never dropped, and no tagged entry has an id that is cut to it. What holds of any history is stated apart.
 */
module ResourceCaches {
  import opened EntryIds
  import opened Options
  import opened PlainCache
  import opened TagIndexes

  predicate KnownType(resourceType: string) {
    resourceType in RESOURCE_TYPES
  }

  lemma KnownTypesHaveNoColon(resourceType: string)
    requires KnownType(resourceType)
    ensures ':' !in resourceType
  {
  }

  type Store<V> = map<string, map<string, Entry<V>>>

  /** The stored entries as one flat map. */
  ghost function Flatten<V>(caches: Store<V>): map<Ref, Entry<V>> {
    map t, k | t in caches && k in caches[t] :: Ref(t, k) := caches[t][k]
  }

  lemma FlattenAt<V>(caches: Store<V>, ref: Ref)
    ensures ref in Flatten(caches) <==> ref.resourceType in caches && ref.key in caches[ref.resourceType]
    ensures ref in Flatten(caches) ==> Flatten(caches)[ref] == caches[ref.resourceType][ref.key]
  {
  }

  lemma FlattenWithout<V>(caches: Store<V>, ref: Ref)
    requires ref.resourceType in caches
    ensures Flatten(caches[ref.resourceType := caches[ref.resourceType] - {ref.key}]) == Flatten(caches) - {ref}
  {
    var after := caches[ref.resourceType := caches[ref.resourceType] - {ref.key}];
    forall r: Ref
      ensures r in Flatten(after) <==> r in Flatten(caches) - {ref}
      ensures r in Flatten(after) ==> Flatten(after)[r] == Flatten(caches)[r]
    {
      FlattenAt(after, r);
      FlattenAt(caches, r);
    }
  }

  lemma FlattenWith<V>(caches: Store<V>, ref: Ref, entry: Entry<V>)
    requires ref.resourceType in caches
    ensures Flatten(caches[ref.resourceType := caches[ref.resourceType][ref.key := entry]])
            == Flatten(caches)[ref := entry]
  {
    var after := caches[ref.resourceType := caches[ref.resourceType][ref.key := entry]];
    forall r: Ref
      ensures r in Flatten(after) <==> r in Flatten(caches)[ref := entry]
      ensures r in Flatten(after) ==> Flatten(after)[r] == Flatten(caches)[ref := entry][r]
    {
      FlattenAt(after, r);
      FlattenAt(caches, r);
    }
  }

  ghost predicate SameEntries<V>(a: Store<V>, b: Store<V>, r: Ref) {
    && (r.resourceType in a && r.key in a[r.resourceType] <==> r.resourceType in b && r.key in b[r.resourceType])
    && (r.resourceType in a && r.key in a[r.resourceType] ==> a[r.resourceType][r.key] == b[r.resourceType][r.key])
  }

  lemma FlattenSame<V>(a: Store<V>, b: Store<V>)
    requires forall r: Ref :: SameEntries(a, b, r)
    ensures Flatten(a) == Flatten(b)
  {
    forall r: Ref
      ensures r in Flatten(a) <==> r in Flatten(b)
      ensures r in Flatten(a) ==> Flatten(a)[r] == Flatten(b)[r]
    {
      assert SameEntries(a, b, r);
      FlattenAt(a, r);
      FlattenAt(b, r);
    }
  }

  lemma FlattenEmptyType<V>(caches: Store<V>, t: string)
    requires t !in caches
    ensures Flatten(caches[t := map[]]) == Flatten(caches)
  {
    var after: Store<V> := caches[t := map[]];
    forall r: Ref
      ensures SameEntries(after, caches, r)
    {
    }
    FlattenSame(after, caches);
  }

  ghost function TagsOf<V>(live: map<Ref, Entry<V>>): TagLists {
    map ref | ref in live :: live[ref].tags
  }

  ghost function PrefixTagsOf<V>(live: map<Ref, Entry<V>>): TagLists {
    map ref | ref in live :: live[ref].prefixTags
  }

  /** The history treats this entry well: no completed fetch blurs what the indexes know of it. */
  ghost predicate WellBehavedAt<V>(history: seq<Event<V>>, ref: Ref) {
    forall i | 0 <= i < |history| && history[i].Complete? :: Spares(After(history[..i]), history[i], ref)
  }

  ghost predicate Spares<V>(live: map<Ref, Entry<V>>, event: Event<V>, ref: Ref)
    requires event.Complete?
  {
    && Spared(TagsOf(live), event.ref, event.tags, ref)
    && Spared(PrefixTagsOf(live), event.ref, event.prefixTags, ref)
  }

  ghost predicate AgreeAt<V>(a: map<Ref, Entry<V>>, b: map<Ref, Entry<V>>, ref: Ref) {
    (ref in a <==> ref in b) && (ref in a ==> a[ref] == b[ref])
  }

  ghost predicate AgreeOn<V>(refs: iset<Ref>, a: map<Ref, Entry<V>>, b: map<Ref, Entry<V>>) {
    forall ref | ref in refs :: AgreeAt(a, b, ref)
  }

  lemma SameLists<V>(a: map<Ref, Entry<V>>, b: map<Ref, Entry<V>>, event: Event<V>, ref: Ref)
    requires AgreeAt(a, b, ref) && event.Complete?
    ensures Spares(a, event, ref) <==> Spares(b, event, ref)
  {
  }

  /** What a scan does to an entry does not depend on the other entries. */
  lemma ScanIsLocal<V>(a: map<Ref, Entry<V>>, b: map<Ref, Entry<V>>, event: Event<V>, ref: Ref)
    requires AgreeAt(a, b, ref)
    ensures AgreeAt(Next(a, event), Next(b, event), ref)
  {
  }

  /** What every operation keeps: no live entry is missing from a bucket it belongs to. */
  ghost predicate IndexesCover<V>(tagIndex: Index, prefixIndex: Index, live: map<Ref, Entry<V>>) {
    && (forall ref | ref in live :: KnownType(ref.resourceType))
    && NoEmptyBucket(tagIndex) && Covered(tagIndex, TagsOf(live))
    && NoEmptyBucket(prefixIndex) && Covered(prefixIndex, PrefixTagsOf(live))
  }

  /** The entries that both indexes are exact about. */
  ghost function SharpRefs<V>(tagIndex: Index, prefixIndex: Index, live: map<Ref, Entry<V>>): iset<Ref> {
    iset ref | SharpAt(tagIndex, TagsOf(live), ref) && SharpAt(prefixIndex, PrefixTagsOf(live), ref)
  }

  lemma LiveTypesAreKnown<V>(live: map<Ref, Entry<V>>)
    requires forall ref | ref in live :: KnownType(ref.resourceType)
    ensures KnownTypes(TagsOf(live)) && KnownTypes(PrefixTagsOf(live))
  {
    forall ref | ref in live
      ensures ':' !in ref.resourceType
    {
      KnownTypesHaveNoColon(ref.resourceType);
    }
  }

  lemma RemovalKeepsIndexes<V>(
    tagIndex: Index, prefixIndex: Index, tagIndex': Index, prefixIndex': Index, live: map<Ref, Entry<V>>, ref: Ref)
    requires ref in live && IndexesCover(tagIndex, prefixIndex, live)
    requires Deregistered(tagIndex, tagIndex', GetEntryId(ref), live[ref].tags) && NoEmptyBucket(tagIndex')
    requires Deregistered(prefixIndex, prefixIndex', GetEntryId(ref), live[ref].prefixTags) &&
             NoEmptyBucket(prefixIndex')
    ensures IndexesCover(tagIndex', prefixIndex', live - {ref})
    ensures SharpRefs(tagIndex, prefixIndex, live) <= SharpRefs(tagIndex', prefixIndex', live - {ref})
  {
    LiveTypesAreKnown(live);
    assert TagsOf(live) - {ref} == TagsOf(live - {ref}) && PrefixTagsOf(live) - {ref} == PrefixTagsOf(live - {ref});
    RemovalKeepsCovered(tagIndex, tagIndex', TagsOf(live), ref);
    RemovalKeepsCovered(prefixIndex, prefixIndex', PrefixTagsOf(live), ref);
    forall r | r in SharpRefs(tagIndex, prefixIndex, live)
      ensures r in SharpRefs(tagIndex', prefixIndex', live - {ref})
    {
      RemovalKeepsSharp(tagIndex, tagIndex', TagsOf(live), ref, r);
      RemovalKeepsSharp(prefixIndex, prefixIndex', PrefixTagsOf(live), ref, r);
    }
  }

  lemma StoringKeepsIndexes<V>(
    tagIndex: Index, prefixIndex: Index, tagIndex': Index, prefixIndex': Index,
    live: map<Ref, Entry<V>>, ref: Ref, entry: Entry<V>)
    requires KnownType(ref.resourceType) && IndexesCover(tagIndex, prefixIndex, live)
    requires Registered(tagIndex, tagIndex', GetEntryId(ref), entry.tags) && NoEmptyBucket(tagIndex')
    requires Registered(prefixIndex, prefixIndex', GetEntryId(ref), entry.prefixTags) && NoEmptyBucket(prefixIndex')
    ensures IndexesCover(tagIndex', prefixIndex', live[ref := entry])
    ensures forall r | r in SharpRefs(tagIndex, prefixIndex, live) ::
              r in SharpRefs(tagIndex', prefixIndex', live[ref := entry])
              <==> Spared(TagsOf(live), ref, entry.tags, r) && Spared(PrefixTagsOf(live), ref, entry.prefixTags, r)
  {
    LiveTypesAreKnown(live);
    KnownTypesHaveNoColon(ref.resourceType);
    assert TagsOf(live)[ref := entry.tags] == TagsOf(live[ref := entry]);
    assert PrefixTagsOf(live)[ref := entry.prefixTags] == PrefixTagsOf(live[ref := entry]);
    StoringKeepsCovered(tagIndex, tagIndex', TagsOf(live), ref, entry.tags);
    StoringKeepsCovered(prefixIndex, prefixIndex', PrefixTagsOf(live), ref, entry.prefixTags);
    forall r | r in SharpRefs(tagIndex, prefixIndex, live)
      ensures r in SharpRefs(tagIndex', prefixIndex', live[ref := entry])
              <==> Spared(TagsOf(live), ref, entry.tags, r) && Spared(PrefixTagsOf(live), ref, entry.prefixTags, r)
    {
      StoringKeepsSharpIff(tagIndex, tagIndex', TagsOf(live), ref, entry.tags, r);
      StoringKeepsSharpIff(prefixIndex, prefixIndex', PrefixTagsOf(live), ref, entry.prefixTags, r);
    }
  }

  function StatsAt(stats: map<string, Stats>, resourceType: string): Stats {
    if resourceType in stats then stats[resourceType] else Stats(0, 0)
  }

  /**
   The event removes or replaces the entry as the code does it: as a linear scan would, except that an entry
   whose key holds the separator is out of reach of invalidation by tag, prefix or address.
   */
  ghost predicate Reaches<V>(event: Event<V>, ref: Ref, entry: Entry<V>) {
    Disturbs(event, ref, entry) && (HasSeparator(ref.key) ==> !event.ByTag? && !event.ByPrefix? && !event.ByAddress?)
  }

  /** What one operation may do to the live entries, on any history. */
  ghost predicate Effect<V>(live: map<Ref, Entry<V>>, event: Event<V>, live': map<Ref, Entry<V>>) {
    && (event.Complete? ==> event.ref in live')
    && (forall ref | ref in live' ::
          if event.Complete? && ref == event.ref then live'[ref] == Stored(event)
          else ref in live && live'[ref] == live[ref] && !Reaches(event, ref, live[ref]))
    && (forall ref | ref in live && HasSeparator(ref.key) && !Reaches(event, ref, live[ref]) :: ref in live')
  }

  /** Event i stored this entry, and nothing since has reached it. */
  ghost predicate StoredAndUnreached<V>(history: seq<Event<V>>, i: nat, ref: Ref, entry: Entry<V>) {
    && i < |history|
    && history[i].Complete? && history[i].ref == ref && Stored(history[i]) == entry
    && forall j | i < j < |history| :: !Reaches(history[j], ref, entry)
  }

  /**
   Event i completed a fetch of this entry that a fetch at this time may be answered with: it is in time, and no
   event since has removed what it stored, but for invalidations that a separator in the key hides it from.
   */
  ghost predicate Serves<V>(history: seq<Event<V>>, i: nat, ref: Ref, now: int) {
    && i < |history| && history[i].Complete? && history[i].ref == ref && InTime(history[i], now)
    && forall j | i < j < |history| :: !Removes(history[j], history[i]) || IsHidden(history[j], ref)
  }

  /** Invalidation by tag, prefix or address goes by ids, and no id leads to a key with the separator. */
  predicate IsHidden<V>(event: Event<V>, ref: Ref) {
    HasSeparator(ref.key) && (event.ByTag? || event.ByPrefix? || event.ByAddress?)
  }

  lemma ServesIff<V>(history: seq<Event<V>>, i: nat, ref: Ref, now: int)
    ensures Serves(history, i, ref, now) <==>
              && i < |history| && history[i].Complete?
              && StoredAndUnreached(history, i, ref, Stored(history[i])) && now < Stored(history[i]).expiresAt
  {
    if i < |history| && history[i].Complete? {
      InTimeIff(history[i], now);
      forall j | i < j < |history|
        ensures Removes(history[j], history[i]) <==> Disturbs(history[j], history[i].ref, Stored(history[i]))
      {
        RemovesIff(history[j], history[i]);
      }
    }
    hide Removes, Disturbs, Stored, InTime, HasSeparator;
  }

  ghost predicate IsServed<V>(history: seq<Event<V>>, ref: Ref, now: int) {
    exists i: nat :: Serves(history, i, ref, now)
  }

  ghost predicate IsServedWith<V>(history: seq<Event<V>>, ref: Ref, now: int, value: V) {
    exists i: nat :: Serves(history, i, ref, now) && history[i].value == value
  }

  /** On every history: what is live was stored and not reached since, and conversely for keys with the separator. */
  ghost predicate Accounted<V>(history: seq<Event<V>>, live: map<Ref, Entry<V>>) {
    && (forall ref | ref in live :: exists i: nat :: StoredAndUnreached(history, i, ref, live[ref]))
    && (forall i: nat | i < |history| && history[i].Complete? && HasSeparator(history[i].ref.key)
                      && StoredAndUnreached(history, i, history[i].ref, Stored(history[i])) ::
          history[i].ref in live && live[history[i].ref] == Stored(history[i]))
  }

  lemma AccountedStep<V>(history: seq<Event<V>>, live: map<Ref, Entry<V>>, event: Event<V>, live': map<Ref, Entry<V>>)
    requires Accounted(history, live) && Effect(live, event, live')
    ensures Accounted(history + [event], live')
  {
    var longer, n := history + [event], |history|;
    hide Reaches, HasSeparator;
    forall ref | ref in live'
      ensures exists i: nat :: StoredAndUnreached(longer, i, ref, live'[ref])
    {
      if event.Complete? && ref == event.ref {
        assert StoredAndUnreached(longer, n, ref, live'[ref]);
      } else {
        var i :| StoredAndUnreached(history, i, ref, live[ref]);
        assert StoredAndUnreached(longer, i, ref, live'[ref]);
      }
    }
    forall i: nat | i <= n && longer[i].Complete? && HasSeparator(longer[i].ref.key)
                    && StoredAndUnreached(longer, i, longer[i].ref, Stored(longer[i]))
      ensures longer[i].ref in live' && live'[longer[i].ref] == Stored(longer[i])
    {
      if i < n {
        StillUnreached(history, event, i, longer[i].ref, Stored(longer[i]));
        CompletionReaches(event, longer[i].ref, Stored(longer[i]));
      }
    }
  }

  lemma StillUnreached<V>(history: seq<Event<V>>, event: Event<V>, i: nat, ref: Ref, entry: Entry<V>)
    requires i < |history| && StoredAndUnreached(history + [event], i, ref, entry)
    ensures StoredAndUnreached(history, i, ref, entry) && !Reaches(event, ref, entry)
  {
    hide Reaches;
    var longer := history + [event];
    assert longer[|history|] == event;
    assert forall j | 0 <= j < |history| :: longer[j] == history[j];
  }

  lemma CompletionReaches<V>(event: Event<V>, ref: Ref, entry: Entry<V>)
    ensures event.Complete? && event.ref == ref ==> Reaches(event, ref, entry)
  {
  }

  /** A linear scan has that effect, unless it is by tag, prefix or address. */
  lemma ScanHasEffect<V>(live: map<Ref, Entry<V>>, event: Event<V>, sharp: iset<Ref>)
    requires !event.ByTag? && !event.ByPrefix? && !event.ByAddress?
    ensures Effect(live, event, Next(live, event)) && AgreeOn(sharp, Next(live, event), Next(live, event))
  {
  }

  /** What the history treats well, the indexes are exact about, and it is live as in the scan of the history. */
  ghost predicate Follows<V>(history: seq<Event<V>>, live: map<Ref, Entry<V>>, sharp: iset<Ref>) {
    forall ref | WellBehavedAt(history, ref) && !HasSeparator(ref.key) ::
      ref in sharp && AgreeAt(live, After(history), ref)
  }

  lemma FollowsStep<V>(history: seq<Event<V>>, live: map<Ref, Entry<V>>, sharp: iset<Ref>, event: Event<V>,
      live': map<Ref, Entry<V>>, sharp': iset<Ref>)
    requires Follows(history, live, sharp) && AgreeOn(sharp, live', Next(live, event))
    requires forall ref | ref in sharp && (event.Complete? ==> Spares(live, event, ref)) :: ref in sharp'
    ensures Follows(history + [event], live', sharp')
  {
    hide HasSeparator, Next, Spares;
    HistoryStep(history, event);
    forall ref | WellBehavedAt(history + [event], ref) && !HasSeparator(ref.key)
      ensures ref in sharp' && AgreeAt(live', After(history + [event]), ref)
    {
      WellBehavedBefore(history, event, ref);
      if event.Complete? {
        SameLists(live, After(history), event, ref);
      }
      ScanIsLocal(live, After(history), event, ref);
    }
  }

  lemma WellBehavedBefore<V>(history: seq<Event<V>>, event: Event<V>, ref: Ref)
    requires WellBehavedAt(history + [event], ref)
    ensures WellBehavedAt(history, ref) && (event.Complete? ==> Spares(After(history), event, ref))
  {
    hide Spares, After;
    var longer := history + [event];
    assert longer[|history|] == event && longer[..|history|] == history;
    assert forall i | 0 <= i < |history| :: longer[i] == history[i] && longer[..i] == history[..i];
  }

  /** Every fetch of this type so far was for a safe key that the history treats well. */
  ghost predicate WellBehavedIn<V>(history: seq<Event<V>>, resourceType: string) {
    forall i | 0 <= i < |history| && history[i].Begin? && history[i].ref.resourceType == resourceType ::
      WellBehavedAt(history, history[i].ref) && !HasSeparator(history[i].ref.key)
  }

  ghost predicate CountsFollow<V>(history: seq<Event<V>>, stats: map<string, Stats>) {
    forall t | WellBehavedIn(history, t) :: StatsAt(stats, t) == StatsAfter(history, t)
  }

  lemma CountsStep<V>(history: seq<Event<V>>, live: map<Ref, Entry<V>>, stats: map<string, Stats>, sharp: iset<Ref>,
      event: Event<V>, stats': map<string, Stats>)
    requires Follows(history, live, sharp) && CountsFollow(history, stats)
    requires forall t :: StatsAt(stats', t) == CountFetch(StatsAt(stats, t), live, event, t)
    ensures CountsFollow(history + [event], stats')
  {
    hide HasSeparator, WellBehavedAt;
    var longer := history + [event];
    HistoryStep(history, event);
    forall t | WellBehavedIn(longer, t)
      ensures StatsAt(stats', t) == StatsAfter(longer, t)
    {
      assert longer[|history|] == event;
      forall i | 0 <= i < |history| && history[i].Begin? && history[i].ref.resourceType == t
        ensures WellBehavedAt(history, history[i].ref) && !HasSeparator(history[i].ref.key)
      {
        assert longer[i] == history[i];
        WellBehavedBefore(history, event, history[i].ref);
      }
      if event.Begin? && event.ref.resourceType == t {
        WellBehavedBefore(history, event, event.ref);
      }
    }
  }

  /** Every fetch is counted, every live entry is accounted for, and what is treated well is as in the scan. */
  ghost predicate Tracks<V>(history: seq<Event<V>>, live: map<Ref, Entry<V>>, stats: map<string, Stats>,
      sharp: iset<Ref>) {
    && (forall t :: StatsAt(stats, t).hits + StatsAt(stats, t).misses == BegunSinceClear(history, t))
    && Accounted(history, live)
    && Follows(history, live, sharp)
    && CountsFollow(history, stats)
  }

  /** A type that was ever fetched has its map of entries, which is never taken away again. */
  ghost predicate BegunIn<V>(history: seq<Event<V>>, types: set<string>) {
    forall i | 0 <= i < |history| && history[i].Begin? :: history[i].ref.resourceType in types
  }

  lemma TracksStep<V>(
    history: seq<Event<V>>, live: map<Ref, Entry<V>>, stats: map<string, Stats>, sharp: iset<Ref>,
    event: Event<V>, live': map<Ref, Entry<V>>, stats': map<string, Stats>, sharp': iset<Ref>)
    requires Tracks(history, live, stats, sharp)
    requires Effect(live, event, live') && AgreeOn(sharp, live', Next(live, event))
    requires forall ref | ref in sharp && (event.Complete? ==> Spares(live, event, ref)) :: ref in sharp'
    requires forall t :: StatsAt(stats', t) == CountFetch(StatsAt(stats, t), live, event, t)
    ensures Tracks(history + [event], live', stats', sharp')
  {
    hide Accounted, Effect, Follows, CountsFollow, AgreeOn, Spares, Next, After;
    HistoryStep(history, event);
    CountsStep(history, live, stats, sharp, event, stats');
    AccountedStep(history, live, event, live');
    FollowsStep(history, live, sharp, event, live', sharp');
  }

  /** An event that neither fetches nor clears leaves the counters alone. */
  lemma NothingCounted<V>(stats: map<string, Stats>, live: map<Ref, Entry<V>>, event: Event<V>)
    requires !event.Begin? && !event.ClearAll?
    ensures forall t :: StatsAt(stats, t) == CountFetch(StatsAt(stats, t), live, event, t)
  {
  }

  lemma FreshStore<V>()
    ensures Flatten<V>(map[]) == map[]
  {
  }

  lemma FreshIndexes<V>()
    ensures IndexesCover<V>(map[], map[], map[])
    ensures forall ref: Ref | !HasSeparator(ref.key) :: ref in SharpRefs<V>(map[], map[], map[])
  {
  }

  lemma FreshHistory<V>(sharp: iset<Ref>)
    requires forall ref: Ref | !HasSeparator(ref.key) :: ref in sharp
    ensures Tracks<V>([], map[], map[], sharp)
  {
  }

  class ResourceCache<V(==)> {
    var caches: Store<V>
    var stats: map<string, Stats>
    var tagIndex: Index
    var prefixIndex: Index
    var defaultTtlMs: int
    var resourceTtls: map<string, int>
    ghost var history: seq<Event<V>>

    ghost function Live(): map<Ref, Entry<V>>
      reads this`caches
    {
      Flatten(caches)
    }

    ghost predicate Indexed()
      reads this`caches, this`tagIndex, this`prefixIndex
    {
      IndexesCover(tagIndex, prefixIndex, Live())
    }

    ghost function Sharp(): iset<Ref>
      reads this`caches, this`tagIndex, this`prefixIndex
    {
      SharpRefs(tagIndex, prefixIndex, Live())
    }

    /** The object against its history. */
    ghost predicate Valid()
      reads this`caches, this`tagIndex, this`prefixIndex, this`stats, this`history
    {
      && Indexed()
      && Tracks(history, Live(), stats, Sharp())
      && BegunIn(history, caches.Keys)
    }

    constructor ()
      ensures Valid() && history == [] && defaultTtlMs == 1500 && resourceTtls == map[]
    {
      caches := map[];
      stats := map[];
      tagIndex := map[];
      prefixIndex := map[];
      defaultTtlMs := 1500;
      resourceTtls := map[];
      history := [];
      new;
      hide IndexesCover, SharpRefs, Tracks, Flatten;
      FreshStore<V>();
      FreshIndexes<V>();
      FreshHistory<V>(Sharp());
    }

    method RemoveEntry(ref: Ref)
      requires Indexed()
      modifies this`caches, this`tagIndex, this`prefixIndex
      ensures Indexed() && old(Sharp()) <= Sharp()
      ensures Live() == old(Live()) - {ref} && caches.Keys == old(caches).Keys
    {
      hide IndexesCover, SharpRefs, Flatten, HasSeparator;
      FlattenAt(caches, ref);
      if ref.resourceType !in caches || ref.key !in caches[ref.resourceType] {
        assert Live() == Live() - {ref};
        return;
      }
      var entry := caches[ref.resourceType][ref.key];
      FlattenWithout(caches, ref);
      IndexesHaveNoEmptyBucket(tagIndex, prefixIndex, Live());
      caches := caches[ref.resourceType := caches[ref.resourceType] - {ref.key}];
      var tags := Deregister(tagIndex, GetEntryId(ref), entry.tags);
      var prefixes := Deregister(prefixIndex, GetEntryId(ref), entry.prefixTags);
      RemovalKeepsIndexes(tagIndex, prefixIndex, tags, prefixes, old(Live()), ref);
      tagIndex, prefixIndex := tags, prefixes;
    }

    /** Removes the entries that a snapshot of ids parses to, one at a time, in any order. */
    method InvalidateIds(ids: set<string>)
      requires Indexed()
      modifies this`caches, this`tagIndex, this`prefixIndex
      ensures Indexed() && old(Sharp()) <= Sharp()
      ensures Live() == old(Live()) - Parsed(ids) && caches.Keys == old(caches).Keys
    {
      hide IndexesCover, SharpRefs, Flatten, Parsed;
      var unseen := ids;
      ghost var before, removed := Live(), Parsed({});
      ParsedNone();
      assert ids - unseen == {};
      while unseen != {}
        invariant unseen <= ids && removed == Parsed(ids - unseen)
        invariant Indexed() && old(Sharp()) <= Sharp()
        invariant Live() == before - removed && caches.Keys == old(caches).Keys
        decreases |unseen|
      {
        var entryId :| entryId in unseen;
        var parsed := ParseEntryId(entryId);
        ParsedWith(ids - unseen, entryId);
        assert ids - (unseen - {entryId}) == ids - unseen + {entryId};
        unseen := unseen - {entryId};
        if parsed.Some? {
          RemoveEntry(parsed.value);
          RemovedTogether(before, removed, parsed.value);
          removed := removed + {parsed.value};
        }
      }
      assert ids - unseen == ids;
    }

    method DropByTag(tag: string)
      requires Indexed()
      modifies this`caches, this`tagIndex, this`prefixIndex
      ensures Indexed() && caches.Keys == old(caches).Keys
      ensures old(Sharp()) <= Sharp() && AgreeOn(old(Sharp()), Live(), Next(old(Live()), Event<V>.ByTag(tag)))
      ensures Effect(old(Live()), Event<V>.ByTag(tag), Live())
      ensures Live() == old(Live()) - Parsed(Bucket(old(tagIndex), tag))
    {
      var refs := Bucket(tagIndex, tag);
      TagBucketIsScan(tagIndex, prefixIndex, Live(), tag);
      InvalidateIds(refs);
    }

    method DropByPrefix(prefixTag: string)
      requires Indexed()
      modifies this`caches, this`tagIndex, this`prefixIndex
      ensures Indexed() && caches.Keys == old(caches).Keys
      ensures old(Sharp()) <= Sharp() && AgreeOn(old(Sharp()), Live(), Next(old(Live()), Event<V>.ByPrefix(prefixTag)))
      ensures Effect(old(Live()), Event<V>.ByPrefix(prefixTag), Live())
      ensures Live() == old(Live()) - Parsed(Bucket(old(prefixIndex), prefixTag))
    {
      var refs := Bucket(prefixIndex, prefixTag);
      PrefixBucketIsScan(tagIndex, prefixIndex, Live(), prefixTag);
      InvalidateIds(refs);
    }

    method DropByAddress(address: string)
      requires Indexed()
      modifies this`caches, this`tagIndex, this`prefixIndex
      ensures Indexed() && caches.Keys == old(caches).Keys
      ensures old(Sharp()) <= Sharp() && AgreeOn(old(Sharp()), Live(), Next(old(Live()), Event<V>.ByAddress(address)))
      ensures Effect(old(Live()), Event<V>.ByAddress(address), Live())
    {
      hide SharpRefs, WithoutPrefixes, Survivors, Flatten, Next, HasSeparator, Effect;
      DropByTag(OscAddressTag(address));
      ghost var live, index, sharp := Live(), prefixIndex, Sharp();
      ghost var dropped := {};
      var unseen := prefixIndex.Keys;
      NothingDropped(live);
      assert Covered(index, PrefixTagsOf(live));
      hide IndexesCover, Covered;
      while unseen != {}
        invariant unseen <= index.Keys
        invariant dropped == set p | p in index.Keys - unseen && Covers(p, address)
        invariant Indexed() && caches.Keys == old(caches).Keys
        invariant sharp <= Sharp() && AgreeOn(sharp, Live(), WithoutPrefixes(live, dropped))
        invariant Survivors(live, dropped, Live())
        decreases |unseen|
      {
        var prefixTag :| prefixTag in unseen;
        unseen := unseen - {prefixTag};
        var prefix := ExtractPrefixKey(prefixTag);
        if prefix <= address {
          DropOnePrefix(live, dropped, prefixTag, sharp);
          dropped := dropped + {prefixTag};
        }
      }
      AddressScan(old(Sharp()), sharp, old(Live()), live, index, dropped, address, Live());
      AddressHasEffect(old(Live()), live, index, dropped, address, Live());
    }

    /** One turn of the loop of invalidateByOscAddress. */
    method DropOnePrefix(ghost live: map<Ref, Entry<V>>, ghost dropped: set<string>, prefixTag: string,
        ghost sharp: iset<Ref>)
      requires Indexed() && sharp <= Sharp() && AgreeOn(sharp, Live(), WithoutPrefixes(live, dropped))
      requires Survivors(live, dropped, Live())
      modifies this`caches, this`tagIndex, this`prefixIndex
      ensures Indexed() && sharp <= Sharp()
      ensures AgreeOn(sharp, Live(), WithoutPrefixes(live, dropped + {prefixTag}))
      ensures Survivors(live, dropped + {prefixTag}, Live()) && caches.Keys == old(caches).Keys
    {
      hide IndexesCover, SharpRefs, WithoutPrefixes, Survivors, Flatten, Next, HasSeparator, Effect;
      DropByPrefix(prefixTag);
      OnePrefixMore(sharp, old(Sharp()), live, dropped, old(Live()), prefixTag, Live());
      SurvivorsStep(live, dropped, old(Live()), prefixTag, Live());
    }

    method InvalidateByTag(tag: string)
      requires Valid()
      modifies this`caches, this`tagIndex, this`prefixIndex, this`history
      ensures Valid() && history == old(history) + [ByTag(tag)]
      ensures Live() == old(Live()) - Parsed(Bucket(old(tagIndex), tag))
      ensures forall ref | ref in old(Live()) && tag in old(Live())[ref].tags ::
                ref in Live() <==> HasSeparator(ref.key)
      ensures forall ref | ref in old(Live()) && tag !in old(Live())[ref].tags
                           && (HasSeparator(ref.key) || WellBehavedAt(old(history), ref)) ::
                ref in Live()
    {
      hide IndexesCover, SharpRefs, Tracks, Flatten, Next, HasSeparator, WellBehavedAt, Disturbs, AgreeOn, Effect;
      ghost var live, sharp, event := Live(), Sharp(), Event<V>.ByTag(tag);
      DropByTag(tag);
      EffectOfInvalidation(live, event, Live());
      UnconcernedStay(history, live, stats, sharp, event, Live());
      NothingCounted(stats, live, event);
      TracksStep(history, live, stats, sharp, event, Live(), stats, Sharp());
      history := history + [event];
    }

    method InvalidateByPrefix(prefixTag: string)
      requires Valid()
      modifies this`caches, this`tagIndex, this`prefixIndex, this`history
      ensures Valid() && history == old(history) + [ByPrefix(prefixTag)]
      ensures Live() == old(Live()) - Parsed(Bucket(old(prefixIndex), prefixTag))
      ensures forall ref | ref in old(Live()) && prefixTag in old(Live())[ref].prefixTags ::
                ref in Live() <==> HasSeparator(ref.key)
      ensures forall ref | ref in old(Live()) && prefixTag !in old(Live())[ref].prefixTags
                           && (HasSeparator(ref.key) || WellBehavedAt(old(history), ref)) ::
                ref in Live()
    {
      hide IndexesCover, SharpRefs, Tracks, Flatten, Next, HasSeparator, WellBehavedAt, Disturbs, AgreeOn, Effect;
      ghost var live, sharp, event := Live(), Sharp(), Event<V>.ByPrefix(prefixTag);
      DropByPrefix(prefixTag);
      EffectOfInvalidation(live, event, Live());
      UnconcernedStay(history, live, stats, sharp, event, Live());
      NothingCounted(stats, live, event);
      TracksStep(history, live, stats, sharp, event, Live(), stats, Sharp());
      history := history + [event];
    }

    method InvalidateByOscAddress(address: string)
      requires Valid()
      modifies this`caches, this`tagIndex, this`prefixIndex, this`history
      ensures Valid() && history == old(history) + [ByAddress(address)]
      ensures forall ref | ref in old(Live())
                           && IsConcerned(old(Live())[ref].tags, old(Live())[ref].prefixTags, address) ::
                ref in Live() <==> HasSeparator(ref.key)
      ensures forall ref | ref in old(Live())
                           && !IsConcerned(old(Live())[ref].tags, old(Live())[ref].prefixTags, address)
                           && (HasSeparator(ref.key) || WellBehavedAt(old(history), ref)) ::
                ref in Live()
      ensures forall ref | ref in Live() :: ref in old(Live()) && Live()[ref] == old(Live())[ref]
    {
      hide IndexesCover, SharpRefs, Tracks, Flatten, Next, HasSeparator, WellBehavedAt, Disturbs, AgreeOn, Effect;
      ghost var live, sharp, event := Live(), Sharp(), Event<V>.ByAddress(address);
      DropByAddress(address);
      EffectOfInvalidation(live, event, Live());
      forall ref | ref in live
        ensures IsConcerned(live[ref].tags, live[ref].prefixTags, address) <==> Disturbs(event, ref, live[ref])
      {
        ConcernsIff(address, ref, live[ref]);
      }
      UnconcernedStay(history, live, stats, sharp, event, Live());
      NothingCounted(stats, live, event);
      TracksStep(history, live, stats, sharp, event, Live(), stats, Sharp());
      history := history + [event];
    }

    method HandleOscMessage(address: string)
      requires Valid()
      modifies this`caches, this`tagIndex, this`prefixIndex, this`history
      ensures Valid()
      ensures history == if "/eos/out/" <= address then old(history) + [ByAddress(address)] else old(history)
    {
      if "/eos/out/" <= address {
        InvalidateByOscAddress(address);
      }
    }

    method NotifyResourceChange(resourceType: string, key: Option<string>)
      requires Valid()
      modifies this`caches, this`tagIndex, this`prefixIndex, this`history
      ensures Valid()
      ensures history == old(history) + [ByTag("resource:" + resourceType)]
                         + (if key.Some? then [ByTag("resource:" + resourceType + ":" + key.value)] else [])
    {
      InvalidateByTag("resource:" + resourceType);
      if key.Some? {
        InvalidateByTag("resource:" + resourceType + ":" + key.value);
      }
    }

    method InvalidateEntry(ref: Ref)
      requires Valid()
      modifies this`caches, this`tagIndex, this`prefixIndex, this`history
      ensures Valid() && history == old(history) + [ByEntry(ref)]
      ensures Live() == old(Live()) - {ref}
    {
      hide IndexesCover, SharpRefs, Tracks, Flatten, Next, HasSeparator, WellBehavedAt, Disturbs, AgreeOn, Effect;
      EntryScan(Live(), ref);
      ghost var live, sharp, event := Live(), Sharp(), Event<V>.ByEntry(ref);
      ScanHasEffect(live, event, sharp);
      RemoveEntry(ref);
      NothingCounted(stats, live, event);
      TracksStep(history, live, stats, sharp, event, Live(), stats, Sharp());
      history := history + [event];
    }

    method DropType(resourceType: string)
      requires Indexed()
      modifies this`caches, this`tagIndex, this`prefixIndex
      ensures Indexed() && old(Sharp()) <= Sharp() && caches.Keys == old(caches).Keys
      ensures Live() == Next(old(Live()), Event<V>.ByType(resourceType))
    {
      hide IndexesCover, SharpRefs, Next, Flatten;
      if resourceType !in caches {
        NothingOfType(caches, resourceType);
        return;
      }
      var unseen := caches[resourceType].Keys;
      ghost var before, removed := Live(), {};
      while unseen != {}
        invariant unseen <= old(caches)[resourceType].Keys
        invariant Indexed() && old(Sharp()) <= Sharp() && caches.Keys == old(caches).Keys
        invariant removed == set key | key in old(caches)[resourceType].Keys - unseen :: Ref(resourceType, key)
        invariant Live() == before - removed
        decreases |unseen|
      {
        var key :| key in unseen;
        unseen := unseen - {key};
        RemoveEntry(Ref(resourceType, key));
        RemovedTogether(before, removed, Ref(resourceType, key));
        removed := removed + {Ref(resourceType, key)};
      }
      EverythingOfType(old(caches), resourceType, removed);
    }

    method InvalidateResourceType(resourceType: string)
      requires Valid()
      modifies this`caches, this`tagIndex, this`prefixIndex, this`history
      ensures Valid() && history == old(history) + [ByType(resourceType)]
      ensures Live() == Next(old(Live()), Event<V>.ByType(resourceType))
    {
      hide IndexesCover, SharpRefs, Tracks, Flatten, Next, HasSeparator, WellBehavedAt, Disturbs, AgreeOn, Effect;
      ghost var live, sharp, event := Live(), Sharp(), Event<V>.ByType(resourceType);
      ScanHasEffect(live, event, sharp);
      DropType(resourceType);
      NothingCounted(stats, live, event);
      TracksStep(history, live, stats, sharp, event, Live(), stats, Sharp());
      history := history + [event];
    }

    method DropAll()
      requires Indexed()
      modifies this`caches, this`tagIndex, this`prefixIndex
      ensures Indexed() && old(Sharp()) <= Sharp() && caches.Keys == old(caches).Keys
      ensures Live() == map[]
    {
      hide IndexesCover, SharpRefs;
      var unseen := caches.Keys;
      while unseen != {}
        invariant Indexed() && old(Sharp()) <= Sharp() && caches.Keys == old(caches).Keys
        invariant forall ref | ref in Live() :: ref.resourceType in unseen
        decreases |unseen|
      {
        var resourceType :| resourceType in unseen;
        unseen := unseen - {resourceType};
        TypeIsGone(Live(), resourceType);
        DropType(resourceType);
      }
      assert Live() == map[];
    }

    method ClearAllEntries()
      requires Valid()
      modifies this`caches, this`tagIndex, this`prefixIndex, this`stats, this`history
      ensures Valid() && history == old(history) + [ClearAll] && Live() == map[]
    {
      ghost var live, sharp, event := Live(), Sharp(), Event<V>.ClearAll;
      hide IndexesCover, SharpRefs, Tracks, Flatten, Next, HasSeparator, WellBehavedAt, Disturbs, AgreeOn, Effect;
      DropAll();
      ClearScan(live, stats);
      ScanHasEffect(live, event, sharp);
      ghost var counted := stats;
      stats := map[];
      TracksStep(history, live, counted, sharp, event, Live(), stats, Sharp());
      history := history + [event];
    }

    method SetDefaultTtl(ttlMs: int)
      modifies this`defaultTtlMs
      ensures defaultTtlMs == if ttlMs < 0 then 0 else ttlMs
    {
      defaultTtlMs := if 0 < ttlMs then ttlMs else 0;
    }

    method SetResourceTtl(resourceType: string, ttlMs: Option<int>)
      modifies this`resourceTtls
      ensures forall t | t != resourceType :: (t in resourceTtls <==> t in old(resourceTtls))
                                            && (t in resourceTtls ==> resourceTtls[t] == old(resourceTtls)[t])
      ensures resourceType in resourceTtls <==> ttlMs.Some?
      ensures ttlMs.Some? ==> resourceTtls[resourceType] == if ttlMs.value < 0 then 0 else ttlMs.value
    {
      if ttlMs.None? {
        resourceTtls := resourceTtls - {resourceType};
      } else {
        resourceTtls := resourceTtls[resourceType := if 0 < ttlMs.value then ttlMs.value else 0];
      }
    }

    /** getCache: a type's map of entries is created the first time it is asked for. */
    method OpenType(resourceType: string)
      requires Indexed() && KnownType(resourceType)
      modifies this`caches
      ensures Indexed() && old(Sharp()) <= Sharp()
      ensures Live() == old(Live()) && caches.Keys == old(caches).Keys + {resourceType}
    {
      if resourceType !in caches {
        FlattenEmptyType(caches, resourceType);
        caches := caches[resourceType := map[]];
      }
    }

    /** The synchronous start of fetch: a live entry is returned, an expired one dropped, and the fetch counted. */
    method BeginFetch(ref: Ref, now: int) returns (hit: Option<V>)
      requires Valid() && KnownType(ref.resourceType)
      modifies this`caches, this`tagIndex, this`prefixIndex, this`stats, this`history
      ensures Valid() && history == old(history) + [Begin(ref, now)]
      ensures hit.Some? <==> IsHit(old(Live()), ref, now)
      ensures hit.Some? ==> hit.value == old(Live())[ref].value
      ensures hit.Some? ==> IsServedWith(old(history), ref, now, hit.value)
      ensures WellBehavedAt(old(history), ref) || HasSeparator(ref.key) ==>
                (hit.Some? <==> IsServed(old(history), ref, now))
      ensures Live() == Next(old(Live()), Event<V>.Begin(ref, now))
    {
      ghost var live, sharp, counted := Live(), Sharp(), stats;
      ghost var event := Event<V>.Begin(ref, now);
      hide IndexesCover, SharpRefs, Tracks, Flatten, Next, HasSeparator, WellBehavedAt, Disturbs, AgreeOn,
          Effect, IsServed, IsServedWith;
      BeginScan(live, ref, now);
      OpenType(ref.resourceType);
      FlattenAt(caches, ref);
      var cache := caches[ref.resourceType];
      var soFar := StatsAt(stats, ref.resourceType);
      if ref.key in cache && cache[ref.key].expiresAt > now {
        hit := Some(cache[ref.key].value);
        stats := stats[ref.resourceType := soFar.(hits := soFar.hits + 1)];
      } else {
        hit := None;
        if ref.key in cache {
          RemoveEntry(ref);
        }
        stats := stats[ref.resourceType := soFar.(misses := soFar.misses + 1)];
      }
      FetchCounted(counted, live, ref, now, stats);
      ScanHasEffect(live, event, sharp);
      HitIsServed(history, live, counted, sharp, ref, now);
      TracksStep(history, live, counted, sharp, event, Live(), stats, Sharp());
      history := history + [event];
    }

    /** The TTL a completed fetch is stored with: its own, its type's, or the default, as configured at that moment. */
    function EffectiveTtl(ref: Ref, ttlMs: Option<int>): int
      reads this`resourceTtls, this`defaultTtlMs
    {
      if ttlMs.Some? then ttlMs.value
      else if ref.resourceType in resourceTtls then resourceTtls[ref.resourceType]
      else defaultTtlMs
    }

    /** The continuation of a fetch that missed: the fetched value is stored and registered. */
    method CompleteFetch(ref: Ref, startedAt: int, value: V, ttlMs: Option<int>, tags: seq<string>,
        prefixTags: seq<string>)
      requires Valid() && KnownType(ref.resourceType)
      requires exists i :: 0 <= i < |history| && history[i] == Begin(ref, startedAt)
      modifies this`caches, this`tagIndex, this`prefixIndex, this`history
      ensures Valid()
      ensures history == old(history) + [Complete(ref, value, startedAt, EffectiveTtl(ref, ttlMs), tags, prefixTags)]
      ensures Live() == old(Live())[ref := Stored(history[|history| - 1])]
      ensures IsTtlOf(history[|history| - 1].ttl, ref.resourceType, ttlMs, resourceTtls, defaultTtlMs)
    {
      var ttl := EffectiveTtl(ref, ttlMs);
      ghost var event := Complete(ref, value, startedAt, ttl, tags, prefixTags);
      hide IndexesCover, SharpRefs, Tracks, Flatten, Next, HasSeparator, WellBehavedAt, Disturbs, AgreeOn, Effect;
      StoreEntry(ref, Entry(value, ExpiresAt(startedAt, ttl), tags, prefixTags));
      CompleteScan(old(Live()), event);
      ScanHasEffect(old(Live()), event, old(Sharp()));
      StoredSpares(old(Live()), event, old(Sharp()), Sharp());
      NothingCounted(stats, old(Live()), event);
      TracksStep(history, old(Live()), stats, old(Sharp()), event, Live(), stats, Sharp());
      history := history + [event];
    }

    method StoreEntry(ref: Ref, entry: Entry<V>)
      requires Indexed() && KnownType(ref.resourceType) && ref.resourceType in caches
      modifies this`caches, this`tagIndex, this`prefixIndex
      ensures Indexed() && Live() == old(Live())[ref := entry] && caches.Keys == old(caches).Keys
      ensures forall r | r in old(Sharp()) ::
                r in Sharp() <==> Spared(TagsOf(old(Live())), ref, entry.tags, r)
                                  && Spared(PrefixTagsOf(old(Live())), ref, entry.prefixTags, r)
    {
      hide IndexesCover, SharpRefs, HasSeparator, Flatten, Spared;
      FlattenWith(caches, ref, entry);
      caches := caches[ref.resourceType := caches[ref.resourceType][ref.key := entry]];
      IndexesHaveNoEmptyBucket(tagIndex, prefixIndex, old(Live()));
      var tags := Register(tagIndex, GetEntryId(ref), entry.tags);
      var prefixes := Register(prefixIndex, GetEntryId(ref), entry.prefixTags);
      StoringKeepsIndexes(tagIndex, prefixIndex, tags, prefixes, old(Live()), ref, entry);
      tagIndex, prefixIndex := tags, prefixes;
    }
  }

  /** The TTL of the call, or else that of its type, or else the default. */
  predicate IsTtlOf(ttl: int, resourceType: string, ttlMs: Option<int>, resourceTtls: map<string, int>,
      defaultTtlMs: int) {
    && (ttlMs.Some? ==> ttl == ttlMs.value)
    && (ttlMs.None? && resourceType in resourceTtls ==> ttl == resourceTtls[resourceType])
    && (ttlMs.None? && resourceType !in resourceTtls ==> ttl == defaultTtlMs)
  }

  lemma IndexesHaveNoEmptyBucket<V>(tagIndex: Index, prefixIndex: Index, live: map<Ref, Entry<V>>)
    requires IndexesCover(tagIndex, prefixIndex, live)
    ensures NoEmptyBucket(tagIndex) && NoEmptyBucket(prefixIndex)
  {
  }

  lemma BeginScan<V>(live: map<Ref, Entry<V>>, ref: Ref, now: int)
    ensures Next(live, Event<V>.Begin(ref, now)) == if IsHit(live, ref, now) then live else live - {ref}
    ensures ref !in live ==> live - {ref} == live
  {
  }

  lemma FetchCounted<V>(
    stats: map<string, Stats>, live: map<Ref, Entry<V>>, ref: Ref, now: int, stats': map<string, Stats>)
    requires var soFar := StatsAt(stats, ref.resourceType);
             stats' == stats[ref.resourceType := if IsHit(live, ref, now) then soFar.(hits := soFar.hits + 1)
                                                 else soFar.(misses := soFar.misses + 1)]
    ensures forall t :: StatsAt(stats', t) == CountFetch(StatsAt(stats, t), live, Event<V>.Begin(ref, now), t)
  {
  }

  lemma CompleteScan<V>(live: map<Ref, Entry<V>>, event: Event<V>)
    requires event.Complete?
    ensures Next(live, event) == live[event.ref := Stored(event)]
  {
  }

  lemma EntryScan<V>(live: map<Ref, Entry<V>>, ref: Ref)
    ensures Next(live, Event<V>.ByEntry(ref)) == live - {ref}
  {
  }

  lemma ClearScan<V>(live: map<Ref, Entry<V>>, stats: map<string, Stats>)
    ensures Next(live, Event<V>.ClearAll) == map[]
    ensures forall t :: StatsAt(map[], t) == CountFetch(StatsAt(stats, t), live, Event<V>.ClearAll, t)
  {
  }

  lemma TypeIsGone<V>(live: map<Ref, Entry<V>>, resourceType: string)
    ensures forall ref | ref in Next(live, Event<V>.ByType(resourceType)) ::
              ref in live && ref.resourceType != resourceType
  {
  }

  lemma NothingOfType<V>(caches: Store<V>, resourceType: string)
    requires resourceType !in caches
    ensures Next(Flatten(caches), Event<V>.ByType(resourceType)) == Flatten(caches)
  {
    forall ref | ref in Flatten(caches)
      ensures ref.resourceType != resourceType
    {
      FlattenAt(caches, ref);
    }
  }

  lemma EverythingOfType<V>(caches: Store<V>, resourceType: string, removed: set<Ref>)
    requires resourceType in caches
    requires removed == set key | key in caches[resourceType].Keys :: Ref(resourceType, key)
    ensures Flatten(caches) - removed == Next(Flatten(caches), Event<V>.ByType(resourceType))
  {
    forall ref | ref in Flatten(caches)
      ensures ref in removed <==> ref.resourceType == resourceType
    {
      FlattenAt(caches, ref);
    }
  }

  ghost function WithoutPrefixes<V>(live: map<Ref, Entry<V>>, prefixes: set<string>): map<Ref, Entry<V>> {
    map ref | ref in live && forall p | p in prefixes :: p !in live[ref].prefixTags :: live[ref]
  }

  lemma OnePrefixMore<V>(refs: iset<Ref>, sharp: iset<Ref>, live: map<Ref, Entry<V>>, prefixes: set<string>,
      now: map<Ref, Entry<V>>, p: string, after: map<Ref, Entry<V>>)
    requires AgreeOn(refs, now, WithoutPrefixes(live, prefixes))
    requires refs <= sharp && AgreeOn(sharp, after, Next(now, Event<V>.ByPrefix(p)))
    ensures AgreeOn(refs, after, WithoutPrefixes(live, prefixes + {p}))
  {
    forall ref | ref in refs
      ensures AgreeAt(after, WithoutPrefixes(live, prefixes + {p}), ref)
    {
      assert AgreeAt(now, WithoutPrefixes(live, prefixes), ref) && AgreeAt(after, Next(now, Event<V>.ByPrefix(p)), ref);
    }
  }

  /** Dropping the address's tag and then every covering prefix tag in the index is one scan by address. */
  lemma AddressScan<V>(refs: iset<Ref>, sharp: iset<Ref>, before: map<Ref, Entry<V>>, live: map<Ref, Entry<V>>,
      index: Index, dropped: set<string>, address: string, after: map<Ref, Entry<V>>)
    requires AgreeOn(refs, live, Next(before, Event<V>.ByTag(OscAddressTag(address))))
    requires refs <= sharp && AgreeOn(sharp, after, WithoutPrefixes(live, dropped))
    requires Covered(index, PrefixTagsOf(live)) && dropped == set p | p in index.Keys && Covers(p, address)
    ensures AgreeOn(refs, after, Next(before, Event<V>.ByAddress(address)))
  {
    forall ref, p | ref in live && p in live[ref].prefixTags && Covers(p, address)
      ensures p in dropped
    {
      assert GetEntryId(ref) in Bucket(index, p);
    }
    forall ref | ref in refs
      ensures AgreeAt(after, Next(before, Event<V>.ByAddress(address)), ref)
    {
      assert AgreeAt(live, Next(before, Event<V>.ByTag(OscAddressTag(address))), ref);
      assert AgreeAt(after, WithoutPrefixes(live, dropped), ref);
    }
  }

  /** What is left of live: nothing safe under a dropped prefix tag, and everything with the separator. */
  ghost predicate Survivors<V>(live: map<Ref, Entry<V>>, dropped: set<string>, now: map<Ref, Entry<V>>) {
    && (forall ref | ref in now :: ref in live && now[ref] == live[ref])
    && (forall ref, p | ref in now && !HasSeparator(ref.key) && p in dropped :: p !in live[ref].prefixTags)
    && (forall ref | ref in live && HasSeparator(ref.key) :: ref in now)
  }

  lemma NothingDropped<V>(live: map<Ref, Entry<V>>)
    ensures Survivors(live, {}, live) && WithoutPrefixes(live, {}) == live
  {
  }

  lemma SurvivorsStep<V>(live: map<Ref, Entry<V>>, dropped: set<string>, now: map<Ref, Entry<V>>, p: string,
      after: map<Ref, Entry<V>>)
    requires Survivors(live, dropped, now) && Effect(now, Event<V>.ByPrefix(p), after)
    ensures Survivors(live, dropped + {p}, after)
  {
  }

  lemma AddressHasEffect<V>(
    before: map<Ref, Entry<V>>, live: map<Ref, Entry<V>>, index: Index, dropped: set<string>, address: string,
    after: map<Ref, Entry<V>>)
    requires Effect(before, Event<V>.ByTag(OscAddressTag(address)), live) && Covered(index, PrefixTagsOf(live))
    requires dropped == set p | p in index.Keys && Covers(p, address)
    requires Survivors(live, dropped, after)
    ensures Effect(before, Event<V>.ByAddress(address), after)
  {
    forall ref, p | ref in live && p in live[ref].prefixTags && Covers(p, address)
      ensures p in dropped
    {
      assert GetEntryId(ref) in Bucket(index, p);
    }
  }

  /** An invalidation by tag, prefix or address removes exactly the entries it concerns whose keys are safe. */
  lemma EffectOfInvalidation<V>(live: map<Ref, Entry<V>>, event: Event<V>, live': map<Ref, Entry<V>>)
    requires Effect(live, event, live') && (event.ByTag? || event.ByPrefix? || event.ByAddress?)
    ensures forall ref | ref in live && Disturbs(event, ref, live[ref]) :: ref in live' <==> HasSeparator(ref.key)
    ensures event.ByTag? ==>
              forall ref | ref in live && event.tag in live[ref].tags :: ref in live' <==> HasSeparator(ref.key)
    ensures event.ByPrefix? ==>
              forall ref | ref in live && event.prefixTag in live[ref].prefixTags ::
                ref in live' <==> HasSeparator(ref.key)
  {
  }

  /** And only those: what it does not concern stays, if the history treats it well or its key is not safe. */
  lemma UnconcernedStay<V>(history: seq<Event<V>>, live: map<Ref, Entry<V>>, stats: map<string, Stats>,
      sharp: iset<Ref>, event: Event<V>, live': map<Ref, Entry<V>>)
    requires Tracks(history, live, stats, sharp) && Effect(live, event, live')
    requires AgreeOn(sharp, live', Next(live, event)) && (event.ByTag? || event.ByPrefix? || event.ByAddress?)
    ensures forall ref | ref in live && !Disturbs(event, ref, live[ref])
                         && (HasSeparator(ref.key) || WellBehavedAt(history, ref)) ::
              ref in live'
    ensures forall ref | ref in live' :: ref in live && live'[ref] == live[ref]
    ensures event.ByTag? ==>
              forall ref | ref in live && event.tag !in live[ref].tags
                           && (HasSeparator(ref.key) || WellBehavedAt(history, ref)) :: ref in live'
    ensures event.ByPrefix? ==>
              forall ref | ref in live && event.prefixTag !in live[ref].prefixTags
                           && (HasSeparator(ref.key) || WellBehavedAt(history, ref)) :: ref in live'
  {
    hide Accounted, CountsFollow, HasSeparator, WellBehavedAt, After;
    forall ref | ref in live && !Disturbs(event, ref, live[ref]) && !HasSeparator(ref.key)
                 && WellBehavedAt(history, ref)
      ensures ref in live'
    {
      assert ref in sharp && AgreeAt(live', Next(live, event), ref);
    }
  }

  /**
   A hit is what some completed fetch stored; and if the history treats the entry well, or its key holds the
   separator, every such fetch hits.
   */
  lemma HitIsServed<V>(
    history: seq<Event<V>>, live: map<Ref, Entry<V>>, stats: map<string, Stats>, sharp: iset<Ref>, ref: Ref, now: int)
    requires Tracks(history, live, stats, sharp)
    ensures IsHit(live, ref, now) ==> IsServedWith(history, ref, now, live[ref].value)
    ensures WellBehavedAt(history, ref) || HasSeparator(ref.key) ==>
              (IsHit(live, ref, now) <==> IsServed(history, ref, now))
  {
    hide Reaches, HasSeparator, WellBehavedAt, After, Serves;
    if IsHit(live, ref, now) {
      var i: nat :| StoredAndUnreached(history, i, ref, live[ref]);
      ServesIff(history, i, ref, now);
      assert Serves(history, i, ref, now);
    }
    if i: nat :| Serves(history, i, ref, now) && (WellBehavedAt(history, ref) || HasSeparator(ref.key)) {
      ServesIff(history, i, ref, now);
      if !HasSeparator(ref.key) {
        SafeMeansUndisturbed(history, i, ref, Stored(history[i]));
        UndisturbedEntryIsLive(history, i, ref, Stored(history[i]));
      }
    }
  }

  /**
   What a hit returns, in every interleaving: the value of the last fetch of the entry to complete, begun within
   its TTL, which no later event has expired or invalidated, but for what a separator in the key hides it from.
   */
  lemma ServedIsLastCompleted<V>(history: seq<Event<V>>, i: nat, ref: Ref, now: int)
    requires Serves(history, i, ref, now)
    ensures history[i].ref == ref && forall j | i < j < |history| && history[j].Complete? :: history[j].ref != ref
    ensures now < history[i].startedAt + (if history[i].ttl > 0 then history[i].ttl else 0)
    ensures !HasSeparator(ref.key) ==> forall j | i < j < |history| :: !Disturbs(history[j], ref, Stored(history[i]))
    ensures forall j | i < j < |history| && (history[j].ByType? || history[j].ByEntry? || history[j].ClearAll?) ::
              !Disturbs(history[j], ref, Stored(history[i]))
  {
    ServesIff(history, i, ref, now);
    forall j | i < j < |history| && history[j].Complete?
      ensures history[j].ref != ref
    {
      CompletionReaches(history[j], ref, Stored(history[i]));
    }
    hide HasSeparator;
  }

  /** For a safe key, reached means disturbed. */
  lemma SafeMeansUndisturbed<V>(history: seq<Event<V>>, i: nat, ref: Ref, entry: Entry<V>)
    requires !HasSeparator(ref.key)
    ensures StoredAndUnreached(history, i, ref, entry) <==> StoredAndUndisturbed(history, i, ref, entry)
  {
  }

  lemma HistoryStep<V>(history: seq<Event<V>>, event: Event<V>)
    ensures var longer := history + [event];
            && After(longer) == Next(After(history), event)
            && (forall t :: StatsAfter(longer, t) == CountFetch(StatsAfter(history, t), After(history), event, t))
            && (forall t :: BegunSinceClear(longer, t) ==
                  match event
                  case ClearAll => 0
                  case Begin(ref, _) => BegunSinceClear(history, t) + (if ref.resourceType == t then 1 else 0)
                  case _ => BegunSinceClear(history, t))
  {
    var longer := history + [event];
    assert longer[..|history|] == history;
    assert forall i | 0 <= i < |history| :: longer[i] == history[i] && longer[..i] == history[..i];
  }

  lemma StoredSpares<V>(live: map<Ref, Entry<V>>, event: Event<V>, sharp: iset<Ref>, sharp': iset<Ref>)
    requires event.Complete?
    requires forall r | r in sharp ::
               r in sharp' <==> Spared(TagsOf(live), event.ref, event.tags, r)
                                && Spared(PrefixTagsOf(live), event.ref, event.prefixTags, r)
    ensures forall r | r in sharp && Spares(live, event, r) :: r in sharp'
  {
  }

  /** Tags as in every caller: they depend on type and key alone. */
  ghost predicate TagsFollowEntry<V>(history: seq<Event<V>>, tagsOf: Ref -> seq<string>,
      prefixTagsOf: Ref -> seq<string>) {
    forall i | 0 <= i < |history| && history[i].Complete? ::
      history[i].tags == tagsOf(history[i].ref) && history[i].prefixTags == prefixTagsOf(history[i].ref)
  }

  /** Then an entry is treated well exactly when no other entry that has tags is cut to it. */
  lemma CallersAreWellBehavedAtIff<V>(
    history: seq<Event<V>>, tagsOf: Ref -> seq<string>, prefixTagsOf: Ref -> seq<string>, ref: Ref)
    requires TagsFollowEntry(history, tagsOf, prefixTagsOf)
    ensures WellBehavedAt(history, ref) <==>
              forall i | 0 <= i < |history| && history[i].Complete? && IsCutTo(history[i].ref, ref) ::
                tagsOf(history[i].ref) == [] && prefixTagsOf(history[i].ref) == []
  {
    forall i | 0 <= i < |history| && history[i].Complete?
      ensures Spares(After(history[..i]), history[i], ref) <==>
                (IsCutTo(history[i].ref, ref) ==>
                   tagsOf(history[i].ref) == [] && prefixTagsOf(history[i].ref) == [])
    {
      var before := history[..i];
      if history[i].ref == ref && ref in After(before) {
        var j := LiveEntryWasStored(before, ref);
        assert history[j] == before[j];
      }
    }
  }

  /**
   Between calls both indexes are a linear scan of the history for any entry it treats well: the id is filed under
   just the tags of the entry the scan holds, and under none if it holds none.
   */
  lemma IndexesAreTheScan<V>(cache: ResourceCache<V>, ref: Ref, tag: string)
    requires cache.Valid() && WellBehavedAt(cache.history, ref) && !HasSeparator(ref.key)
    requires KnownType(ref.resourceType)
    ensures var scan, id := After(cache.history), GetEntryId(ref);
            && (id in Bucket(cache.tagIndex, tag) <==> ref in scan && tag in scan[ref].tags)
            && (id in Bucket(cache.prefixIndex, tag) <==> ref in scan && tag in scan[ref].prefixTags)
  {
    hide HasSeparator, WellBehavedAt, GetEntryId, Accounted, CountsFollow, Flatten, SharpAt;
    KnownTypesHaveNoColon(ref.resourceType);
    IndexAgreesWithScan(cache.tagIndex, TagsOf(cache.Live()), ref, tag);
    IndexAgreesWithScan(cache.prefixIndex, PrefixTagsOf(cache.Live()), ref, tag);
  }

  lemma RemovedTogether<V>(live: map<Ref, Entry<V>>, removed: set<Ref>, ref: Ref)
    ensures live - removed - {ref} == live - (removed + {ref})
  {
  }

  lemma ParsedNone()
    ensures Parsed({}) == {}
  {
  }

  lemma ParsedWith(ids: set<string>, id: string)
    ensures Parsed(ids + {id}) == Parsed(ids) + (if ParseEntryId(id).Some? then {ParseEntryId(id).value} else {})
  {
  }

  lemma TagBucketIsScan<V>(tagIndex: Index, prefixIndex: Index, live: map<Ref, Entry<V>>, tag: string)
    requires IndexesCover(tagIndex, prefixIndex, live)
    ensures var after := live - Parsed(Bucket(tagIndex, tag));
            && Effect(live, Event<V>.ByTag(tag), after)
            && AgreeOn(SharpRefs(tagIndex, prefixIndex, live), after, Next(live, Event<V>.ByTag(tag)))
  {
    LiveTypesAreKnown(live);
    hide ParseEntryId, HasSeparator, SharpAt;
    forall ref: Ref
      ensures ref in live && tag in live[ref].tags && !HasSeparator(ref.key) ==> ref in Parsed(Bucket(tagIndex, tag))
      ensures ref in Parsed(Bucket(tagIndex, tag)) && SharpAt(tagIndex, TagsOf(live), ref) ==>
                ref in live && tag in live[ref].tags
      ensures HasSeparator(ref.key) ==> ref !in Parsed(Bucket(tagIndex, tag))
    {
      BucketIsScan(tagIndex, TagsOf(live), tag, ref);
      ParsedKeysAreSafe(Bucket(tagIndex, tag), ref);
    }
    hide Parsed;
    SharpKeysAreSafe(tagIndex, prefixIndex, live);
  }

  lemma SharpKeysAreSafe<V>(tagIndex: Index, prefixIndex: Index, live: map<Ref, Entry<V>>)
    ensures forall ref | ref in SharpRefs(tagIndex, prefixIndex, live) :: !HasSeparator(ref.key)
  {
  }

  lemma PrefixBucketIsScan<V>(tagIndex: Index, prefixIndex: Index, live: map<Ref, Entry<V>>, prefixTag: string)
    requires IndexesCover(tagIndex, prefixIndex, live)
    ensures var after := live - Parsed(Bucket(prefixIndex, prefixTag));
            && Effect(live, Event<V>.ByPrefix(prefixTag), after)
            && AgreeOn(SharpRefs(tagIndex, prefixIndex, live), after, Next(live, Event<V>.ByPrefix(prefixTag)))
  {
    LiveTypesAreKnown(live);
    hide ParseEntryId, HasSeparator, SharpAt;
    forall ref: Ref
      ensures ref in live && prefixTag in live[ref].prefixTags && !HasSeparator(ref.key) ==>
                ref in Parsed(Bucket(prefixIndex, prefixTag))
      ensures ref in Parsed(Bucket(prefixIndex, prefixTag)) && SharpAt(prefixIndex, PrefixTagsOf(live), ref) ==>
                ref in live && prefixTag in live[ref].prefixTags
      ensures HasSeparator(ref.key) ==> ref !in Parsed(Bucket(prefixIndex, prefixTag))
    {
      BucketIsScan(prefixIndex, PrefixTagsOf(live), prefixTag, ref);
      ParsedKeysAreSafe(Bucket(prefixIndex, prefixTag), ref);
    }
    hide Parsed;
    SharpKeysAreSafe(tagIndex, prefixIndex, live);
  }
}
