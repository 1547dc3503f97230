/**
 The cache keys that callers make, as keys of the cache: the key of one request is never what the id of another
 is cut to, unless an address holds a bar. So for callers whose addresses hold none a fetch hits whenever it may.
 */
module KeyCuts {
  import opened CacheKeyUnique
  import opened CacheKeys
  import opened EntryIds
  import opened Options
  import opened PlainCache
  import opened ResourceCaches
  import opened TagIndexes

  /** A request as callers make it, whose address and target hold no bar. */
  ghost predicate IsBarFree(p: CacheKeyParts) {
    IsRequest(p) && HasNoBar(p)
  }

  // ---------- No key of a bar-free request is cut to another ----------

  lemma RegroupKey(a: string, b: string, c: string, d: string, e: string, rest: string)
    ensures ((((a + ("|" + b)) + ("|" + c)) + ("|" + d)) + ("|" + e)) + rest
            == a + ("|" + (b + ("|" + (c + ("|" + (d + ("|" + (e + rest))))))))
  {
  }

  lemma PortHasNoBar(port: Option<string>)
    requires port.Some? ==> IsNumberText(port.value)
    ensures '|' !in OrDefault(port)
  {
  }

  /** A key read from its start: the three segments before the content, and then the content. */
  lemma KeyFromStart(lt: (string, string) -> bool, p: CacheKeyParts, rest: string)
    ensures CreateCacheKey(lt, p) + rest ==
            p.address + ("|" + (OrDefault(p.targetAddress) + ("|" + (OrDefault(p.targetPort)
            + ("|" + (PayloadText(lt, p) + ("|" + (ExtraText(lt, p) + rest))))))))
  {
    KeyText(lt, p);
    hide CreateCacheKey, PayloadText, ExtraText;
    RegroupKey(p.address, OrDefault(p.targetAddress), OrDefault(p.targetPort), PayloadText(lt, p), ExtraText(lt, p),
        rest);
  }

  /** One key goes on from where another ends only with nothing, if a colon would have to come first. */
  lemma KeysDoNotContinue(lt: (string, string) -> bool, p: CacheKeyParts, q: CacheKeyParts, rest: string)
    requires IsBarFree(p) && IsBarFree(q) && Boundary(rest)
    requires CreateCacheKey(lt, p) == CreateCacheKey(lt, q) + rest
    ensures rest == ""
  {
    hide CreateCacheKey, PayloadText, ExtraText;
    KeyFromStart(lt, p, "");
    KeyFromStart(lt, q, rest);
    assert CreateCacheKey(lt, p) + "" == CreateCacheKey(lt, p);
    PortHasNoBar(p.targetPort);
    PortHasNoBar(q.targetPort);
    var p3 := PayloadText(lt, p) + ("|" + (ExtraText(lt, p) + ""));
    var q3 := PayloadText(lt, q) + ("|" + (ExtraText(lt, q) + rest));
    var p2, q2 := OrDefault(p.targetPort) + ("|" + p3), OrDefault(q.targetPort) + ("|" + q3);
    FirstBar(p.address, q.address, OrDefault(p.targetAddress) + ("|" + p2), OrDefault(q.targetAddress) + ("|" + q2));
    FirstBar(OrDefault(p.targetAddress), OrDefault(q.targetAddress), p2, q2);
    FirstBar(OrDefault(p.targetPort), OrDefault(q.targetPort), p3, q3);
    ContentDoesNotContinue(lt, p, q, rest);
  }

  lemma ContentDoesNotContinue(lt: (string, string) -> bool, p: CacheKeyParts, q: CacheKeyParts, rest: string)
    requires IsRequest(p) && IsRequest(q) && Boundary(rest)
    requires PayloadText(lt, p) + ("|" + (ExtraText(lt, p) + ""))
             == PayloadText(lt, q) + ("|" + (ExtraText(lt, q) + rest))
    ensures rest == ""
  {
    hide Stringify, Sanitise, Sealed, IsClean;
    ContentIsSealed(lt, p);
    ContentIsSealed(lt, q);
    var x, y := "|" + (ExtraText(lt, p) + ""), "|" + (ExtraText(lt, q) + rest);
    ValueIsReadable(lt, Sanitise(PayloadOf(p)), Sanitise(PayloadOf(q)), x, y);
    assert x[1..] == ExtraText(lt, p) + "" && y[1..] == ExtraText(lt, q) + rest;
    ValueIsReadable(lt, Sanitise(ExtraOf(p)), Sanitise(ExtraOf(q)), "", rest);
  }

  /** The id of a bar-free request is not cut to the key of another. */
  lemma NoRequestIsCutToAnother(lt: (string, string) -> bool, p: CacheKeyParts, q: CacheKeyParts, a: Ref, b: Ref)
    requires IsBarFree(p) && IsBarFree(q) && ':' !in a.resourceType
    requires a.key == CreateCacheKey(lt, p) && b.key == CreateCacheKey(lt, q)
    ensures !IsCutTo(a, b)
  {
    hide CreateCacheKey, IsRequest, FirstPiece, HasSeparator, IsCutTo;
    IsCutToIff(a, b);
    if IsCutTo(a, b) {
      var rest := a.key[|b.key|..];
      assert a.key == b.key + rest && rest[0] == (b.key + "::")[|b.key|];
      KeysDoNotContinue(lt, p, q, rest);
    }
  }

  lemma {:induction false} NoSeparatorAtEnd(s: string)
    requires !HasSeparator(s) && (s != "" ==> s[|s| - 1] != ':')
    ensures !HasSeparator(s + ":")
  {
    if |s| >= 2 {
      assert (s + ":")[1..] == s[1..] + ":";
      NoSeparatorAtEnd(s[1..]);
    }
  }

  /** No printed value ends in a colon. */
  lemma TextEnd(lt: (string, string) -> bool, v: Json)
    requires IsClean(v)
    ensures Stringify(lt, v) != "" && Stringify(lt, v)[|Stringify(lt, v)| - 1] != ':'
  {
    if v.Num? {
      assert v.text[|v.text| - 1] in v.text;
    }
  }

  lemma KeyEnd(lt: (string, string) -> bool, q: CacheKeyParts)
    requires IsRequest(q)
    ensures var key := CreateCacheKey(lt, q); '|' in key && key[|key| - 1] != ':'
  {
    KeyText(lt, q);
    hide CreateCacheKey, Stringify, Sanitise, PayloadText;
    ContentIsSealed(lt, q);
    TextEnd(lt, Sanitise(ExtraOf(q)));
    var start, extra := (Route(q) + ("|" + OrDefault(q.targetPort))) + ("|" + PayloadText(lt, q)), ExtraText(lt, q);
    var key := start + ("|" + extra);
    assert key[|start|] == '|' && key[|key| - 1] == extra[|extra| - 1];
  }

  /** Without that condition it can be: any safe key is what the id of some request is cut to. */
  lemma AnyKeyCanBeCutTo(lt: (string, string) -> bool, q: CacheKeyParts, b: Ref) returns (p: CacheKeyParts)
    requires ':' !in b.resourceType && IsRequest(q) && b.key == CreateCacheKey(lt, q) && !HasSeparator(b.key)
    ensures IsRequest(p) && '|' in p.address && IsCutTo(Ref(b.resourceType, CreateCacheKey(lt, p)), b)
  {
    p := CacheKeyParts(b.key + "::", Undefined, None, None, Undefined);
    hide CreateCacheKey, FirstPiece, HasSeparator, IsCutTo, PayloadText, ExtraText;
    var a := Ref(b.resourceType, CreateCacheKey(lt, p));
    KeyFromStart(lt, p, "");
    assert a.key + "" == a.key;
    assert b.key + "::" <= a.key;
    KeyEnd(lt, q);
    NoSeparatorAtEnd(b.key);
    IsCutToIff(a, b);
  }

  // ---------- What this means for the cache ----------

  /** Every fetch that completed was keyed by a bar-free request. */
  ghost predicate KeyedByRequests<V>(history: seq<Event<V>>, lt: (string, string) -> bool) {
    forall i | 0 <= i < |history| && history[i].Complete? ::
      KnownType(history[i].ref.resourceType) && IsRequestKey(lt, history[i].ref.key)
  }

  ghost predicate IsRequestKey(lt: (string, string) -> bool, key: string) {
    exists p :: IsBarFree(p) && CreateCacheKey(lt, p) == key
  }

  /** As the callers use it, the history treats every request well. */
  lemma RequestsAreWellBehaved<V>(history: seq<Event<V>>, lt: (string, string) -> bool,
      tagsOf: Ref -> seq<string>, prefixTagsOf: Ref -> seq<string>, ref: Ref)
    requires KeyedByRequests(history, lt) && TagsFollowEntry(history, tagsOf, prefixTagsOf)
    requires IsRequestKey(lt, ref.key)
    ensures WellBehavedAt(history, ref)
  {
    hide CreateCacheKey, IsBarFree, IsCutTo, WellBehavedAt;
    forall i | 0 <= i < |history| && history[i].Complete?
      ensures !IsCutTo(history[i].ref, ref)
    {
      var p :| IsBarFree(p) && CreateCacheKey(lt, p) == history[i].ref.key;
      var q :| IsBarFree(q) && CreateCacheKey(lt, q) == ref.key;
      KnownTypesHaveNoColon(history[i].ref.resourceType);
      NoRequestIsCutToAnother(lt, p, q, history[i].ref, ref);
    }
    CallersAreWellBehavedAtIff(history, tagsOf, prefixTagsOf, ref);
  }

  /**
   Then a fetch hits exactly when a fetch of the entry that completed earlier may serve it, whatever its key; and
   an entry whose key is safe is live exactly when it is in the scan.
   */
  lemma RequestsAreServed<V>(history: seq<Event<V>>, lt: (string, string) -> bool,
      tagsOf: Ref -> seq<string>, prefixTagsOf: Ref -> seq<string>, ref: Ref, now: int,
      live: map<Ref, Entry<V>>, stats: map<string, Stats>, sharp: iset<Ref>)
    requires Tracks(history, live, stats, sharp)
    requires KeyedByRequests(history, lt) && TagsFollowEntry(history, tagsOf, prefixTagsOf)
    requires IsRequestKey(lt, ref.key)
    ensures IsHit(live, ref, now) <==> IsServed(history, ref, now)
    ensures !HasSeparator(ref.key) ==> AgreeAt(live, After(history), ref)
  {
    RequestsAreWellBehaved(history, lt, tagsOf, prefixTagsOf, ref);
    HitIsServed(history, live, stats, sharp, ref, now);
  }
}
