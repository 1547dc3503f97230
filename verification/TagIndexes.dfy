/**
 The entry ids of src/services/cache/index.ts, and the facts about one of its two indexes.
 */
module EntryIds {
  import opened Options
  import opened PlainCache

  const RESOURCE_TYPES := [
    "channels", "patch", "groups", "palettes", "presets", "macros", "snapshots", "curves", "effects",
    "pixelMaps", "magicSheets", "submasters", "cues", "cuelists", "queries", "fixtures", "session"]

  predicate HasSeparator(s: string) {
    |s| >= 2 && ((s[0] == ':' && s[1] == ':') || HasSeparator(s[1..]))
  }

  lemma {:induction false} HasSeparatorIff(s: string)
    ensures HasSeparator(s) <==> exists before, after :: s == before + "::" + after
  {
    if |s| >= 2 && s[0] == ':' && s[1] == ':' {
      assert s == "" + "::" + s[2..];
    } else if |s| >= 2 {
      HasSeparatorIff(s[1..]);
      if HasSeparator(s[1..]) {
        var before, after :| s[1..] == before + "::" + after;
        assert s == ([s[0]] + before) + "::" + after;
      }
      if before, after :| s == before + "::" + after {
        assert s[0] == (before + "::")[0] && s[1] == (before + "::")[1];
        assert s[1..] == before[1..] + "::" + after;
      }
    }
  }

  function GetEntryId(ref: Ref): string {
    ref.resourceType + "::" + ref.key
  }

  /** What precedes the first separator: the first piece of split('::'). */
  function FirstPiece(s: string): (piece: string)
    ensures |piece| <= |s|
    ensures HasSeparator(s) ==> |piece| + 2 <= |s|
  {
    if |s| < 2 then s
    else if s[0] == ':' && s[1] == ':' then ""
    else [s[0]] + FirstPiece(s[1..])
  }

  /** The first two pieces of split('::'); without a separator there is no second piece, hence no key. */
  function ParseEntryId(entryId: string): Option<Ref> {
    if HasSeparator(entryId) then
      var resourceType := FirstPiece(entryId);
      Some(Ref(resourceType, FirstPiece(entryId[|resourceType| + 2..])))
    else None
  }

  lemma {:induction false} FirstPieceIsSafe(s: string)
    ensures !HasSeparator(FirstPiece(s)) && (s != "" && FirstPiece(s) != "" ==> FirstPiece(s)[0] == s[0])
  {
    if |s| >= 2 && !(s[0] == ':' && s[1] == ':') {
      FirstPieceIsSafe(s[1..]);
      assert FirstPiece(s)[1..] == FirstPiece(s[1..]);
    }
  }

  lemma {:induction false} FirstPieceOfKey(key: string)
    ensures FirstPiece(key) == key <==> !HasSeparator(key)
  {
    if |key| >= 2 && !(key[0] == ':' && key[1] == ':') {
      FirstPieceOfKey(key[1..]);
      assert key == [key[0]] + key[1..];
    }
  }

  lemma {:induction false} FirstPieceOfId(resourceType: string, key: string)
    requires ':' !in resourceType
    ensures HasSeparator(resourceType + "::" + key) && FirstPiece(resourceType + "::" + key) == resourceType
  {
    var s := resourceType + "::" + key;
    if resourceType != "" {
      assert s[0] == resourceType[0] && resourceType[0] in resourceType;
      assert s[1..] == resourceType[1..] + "::" + key;
      FirstPieceOfId(resourceType[1..], key);
    }
  }

  /** An id parses back to its entry exactly when the key contains no "::". */
  lemma EntryIdRoundTrip(ref: Ref)
    requires ':' !in ref.resourceType
    ensures ParseEntryId(GetEntryId(ref)) == Some(ref) <==> !HasSeparator(ref.key)
  {
    FirstPieceOfId(ref.resourceType, ref.key);
    FirstPieceOfKey(ref.key);
    assert GetEntryId(ref)[|ref.resourceType| + 2..] == ref.key;
  }

  /** What precedes the first separator of a key is all that comes back. */
  lemma KeyIsCutAtSeparator(resourceType: string, before: string, after: string)
    requires ':' !in resourceType && ':' !in before
    ensures ParseEntryId(GetEntryId(Ref(resourceType, before + "::" + after))) == Some(Ref(resourceType, before))
  {
    var key := before + "::" + after;
    FirstPieceOfId(resourceType, key);
    FirstPieceOfId(before, after);
    hide FirstPiece, HasSeparator;
    assert GetEntryId(Ref(resourceType, key))[|resourceType| + 2..] == key;
  }

  /** The id of this entry parses to another one. */
  predicate IsCutTo(stored: Ref, ref: Ref) {
    stored != ref && ParseEntryId(GetEntryId(stored)) == Some(ref)
  }

  /** In terms of keys: the shorter one, which holds no separator even with a colon added, goes on with "::". */
  lemma IsCutToIff(stored: Ref, ref: Ref)
    requires ':' !in stored.resourceType
    ensures IsCutTo(stored, ref) <==>
              && stored.resourceType == ref.resourceType
              && ref.key + "::" <= stored.key && !HasSeparator(ref.key + ":")
  {
    FirstPieceOfId(stored.resourceType, stored.key);
    assert GetEntryId(stored)[|stored.resourceType| + 2..] == stored.key;
    FirstPieceIsCut(stored.key, ref.key);
  }

  lemma {:induction false} FirstPieceIsCut(key: string, piece: string)
    ensures FirstPiece(key) == piece && key != piece <==> piece + "::" <= key && !HasSeparator(piece + ":")
  {
    if |key| >= 2 && !(key[0] == ':' && key[1] == ':') && piece != "" {
      assert (piece + "::")[1..] == piece[1..] + "::" && (piece + ":")[1..] == piece[1..] + ":";
      FirstPieceIsCut(key[1..], piece[1..]);
    }
  }

  /** The key of a request sent to an IPv6 loopback target does not survive the round trip. */
  lemma LoopbackKeyIsLost()
    ensures ParseEntryId(GetEntryId(Ref("queries", "/q|::1|80|{}|null"))) == Some(Ref("queries", "/q|"))
  {
    hide ParseEntryId, GetEntryId;
    assert "/q|::1|80|{}|null" == "/q|" + "::" + "1|80|{}|null";
    KeyIsCutAtSeparator("queries", "/q|", "1|80|{}|null");
  }

  lemma CutIdIsForeign(stored: Ref, ref: Ref)
    requires ':' !in stored.resourceType && IsCutTo(stored, ref)
    ensures GetEntryId(stored) != GetEntryId(ref)
  {
    FirstPieceOfId(stored.resourceType, stored.key);
    if GetEntryId(stored) == GetEntryId(ref) {
      EntryIdsAreDistinct(stored, ref);
    }
  }

  /** Distinct entries never share an id. */
  lemma EntryIdsAreDistinct(a: Ref, b: Ref)
    requires ':' !in a.resourceType && ':' !in b.resourceType && GetEntryId(a) == GetEntryId(b)
    ensures a == b
  {
    FirstPieceOfId(a.resourceType, a.key);
    FirstPieceOfId(b.resourceType, b.key);
    assert GetEntryId(a)[|a.resourceType| + 2..] == a.key && GetEntryId(b)[|b.resourceType| + 2..] == b.key;
  }
}

/** The facts about one index (tags or prefix tags) over a set of live entries. */
module TagIndexes {
  import opened EntryIds
  import opened Options
  import opened PlainCache

  type Index = map<string, set<string>>

  function Bucket(index: Index, tag: string): set<string> {
    if tag in index then index[tag] else {}
  }

  /** The tags an index files an entry under. */
  type TagLists = map<Ref, seq<string>>

  ghost predicate KnownTypes(lists: TagLists) {
    forall ref | ref in lists :: ':' !in ref.resourceType
  }

  /** Every live entry is filed under each of its tags. */
  ghost predicate Covered(index: Index, lists: TagLists) {
    forall ref, tag | ref in lists && tag in lists[ref] :: GetEntryId(ref) in Bucket(index, tag)
  }

  /** The index is exact about ref: only its own id parses to it, and that is filed only where it carries the tag. */
  ghost predicate SharpAt(index: Index, lists: TagLists, ref: Ref) {
    && !HasSeparator(ref.key)
    && forall tag, id | id in Bucket(index, tag) && ParseEntryId(id) == Some(ref) ::
         id == GetEntryId(ref) && ref in lists && tag in lists[ref]
  }

  ghost predicate NoEmptyBucket(index: Index) {
    forall tag | tag in index :: index[tag] != {}
  }

  /** The index after one entry's id is filed under its tags. */
  ghost predicate Registered(index: Index, after: Index, id: string, tags: seq<string>) {
    forall tag :: Bucket(after, tag) == Bucket(index, tag) + (if tag in tags then {id} else {})
  }

  ghost predicate Deregistered(index: Index, after: Index, id: string, tags: seq<string>) {
    forall tag :: Bucket(after, tag) == Bucket(index, tag) - (if tag in tags then {id} else {})
  }

  method Register(index: Index, id: string, tags: seq<string>) returns (after: Index)
    requires NoEmptyBucket(index)
    ensures Registered(index, after, id, tags) && NoEmptyBucket(after)
  {
    after := index;
    for i := 0 to |tags|
      invariant Registered(index, after, id, tags[..i]) && NoEmptyBucket(after)
    {
      var tag := tags[i];
      after := after[tag := Bucket(after, tag) + {id}];
      assert tags[..i + 1] == tags[..i] + [tag];
    }
    assert tags[..|tags|] == tags;
  }

  method Deregister(index: Index, id: string, tags: seq<string>) returns (after: Index)
    requires NoEmptyBucket(index)
    ensures Deregistered(index, after, id, tags) && NoEmptyBucket(after)
  {
    after := index;
    for i := 0 to |tags|
      invariant Deregistered(index, after, id, tags[..i]) && NoEmptyBucket(after)
    {
      var tag := tags[i];
      if tag in after {
        var bucket := after[tag] - {id};
        after := if bucket == {} then after - {tag} else after[tag := bucket];
      }
      assert tags[..i + 1] == tags[..i] + [tag];
    }
    assert tags[..|tags|] == tags;
  }

  lemma RemovalKeepsCovered(index: Index, after: Index, lists: TagLists, ref: Ref)
    requires ref in lists && KnownTypes(lists) && Covered(index, lists)
    requires Deregistered(index, after, GetEntryId(ref), lists[ref])
    ensures Covered(after, lists - {ref})
  {
    forall other, tag | other in lists - {ref} && tag in lists[other]
      ensures GetEntryId(other) in Bucket(after, tag)
    {
      if GetEntryId(other) == GetEntryId(ref) {
        EntryIdsAreDistinct(other, ref);
      }
    }
  }

  lemma RemovalKeepsSharp(index: Index, after: Index, lists: TagLists, removed: Ref, ref: Ref)
    requires removed in lists && SharpAt(index, lists, ref)
    requires Deregistered(index, after, GetEntryId(removed), lists[removed])
    ensures SharpAt(after, lists - {removed}, ref)
  {
    forall tag, id | id in Bucket(after, tag) && ParseEntryId(id) == Some(ref)
      ensures id == GetEntryId(ref) && ref in lists - {removed} && tag in lists[ref]
    {
      assert id in Bucket(index, tag);
    }
  }

  lemma StoringKeepsCovered(index: Index, after: Index, lists: TagLists, ref: Ref, tags: seq<string>)
    requires Covered(index, lists) && Registered(index, after, GetEntryId(ref), tags)
    ensures Covered(after, lists[ref := tags])
  {
  }

  /** The new tags include those of the entry that is replaced, if there is one. */
  ghost predicate CarriesOver(lists: TagLists, ref: Ref, tags: seq<string>) {
    ref in lists ==> forall tag | tag in lists[ref] :: tag in tags
  }

  /** Storing this entry does not blur ref: it is not cut to ref under a tag, and if it is ref it drops no tag. */
  ghost predicate Spared(lists: TagLists, stored: Ref, tags: seq<string>, ref: Ref) {
    && (stored == ref ==> CarriesOver(lists, ref, tags))
    && (IsCutTo(stored, ref) ==> tags == [])
  }

  /**
   Storing keeps the index exact about ref exactly when it spares ref. Otherwise an id stays behind under a tag
   that the replaced entry had, or the id of another entry is taken for that of ref.
   */
  lemma StoringKeepsSharpIff(index: Index, after: Index, lists: TagLists, stored: Ref, tags: seq<string>, ref: Ref)
    requires Covered(index, lists) && SharpAt(index, lists, ref) && ':' !in stored.resourceType
    requires Registered(index, after, GetEntryId(stored), tags)
    ensures SharpAt(after, lists[stored := tags], ref) <==> Spared(lists, stored, tags, ref)
  {
    hide HasSeparator, ParseEntryId, GetEntryId;
    var own := GetEntryId(stored);
    if Spared(lists, stored, tags, ref) {
      forall tag, id | id in Bucket(after, tag) && ParseEntryId(id) == Some(ref)
        ensures id == GetEntryId(ref) && ref in lists[stored := tags] && tag in lists[stored := tags][ref]
      {
        assert id in Bucket(index, tag) || (id == own && tag in tags);
      }
    } else if stored == ref {
      var tag :| tag in lists[ref] && tag !in tags;
      EntryIdRoundTrip(ref);
      assert own in Bucket(after, tag);
    } else {
      assert tags[0] in tags && own in Bucket(after, tags[0]);
      CutIdIsForeign(stored, ref);
    }
  }

  /** The entries a set of ids parses to. */
  ghost function Parsed(ids: set<string>): set<Ref> {
    set id | id in ids && ParseEntryId(id).Some? :: ParseEntryId(id).value
  }

  /** No id parses to an entry whose key holds the separator. */
  lemma ParsedKeysAreSafe(ids: set<string>, ref: Ref)
    ensures ref in Parsed(ids) ==> !HasSeparator(ref.key)
  {
    if ref in Parsed(ids) {
      var id :| id in ids && ParseEntryId(id) == Some(ref);
      FirstPieceIsSafe(id[|FirstPiece(id)| + 2..]);
    }
  }

  /** An entry goes with the tags of any entry whose id is cut to it. */
  lemma CutEntryIsHit(index: Index, lists: TagLists, stored: Ref, ref: Ref, tag: string)
    requires Covered(index, lists) && stored in lists && tag in lists[stored] && IsCutTo(stored, ref)
    ensures ref in Parsed(Bucket(index, tag))
  {
    hide ParseEntryId, GetEntryId;
    assert GetEntryId(stored) in Bucket(index, tag);
  }

  /** Where the index is exact, an id is filed under a tag exactly when the entry is live and carries the tag. */
  lemma IndexAgreesWithScan(index: Index, lists: TagLists, ref: Ref, tag: string)
    requires Covered(index, lists) && SharpAt(index, lists, ref) && ':' !in ref.resourceType
    ensures GetEntryId(ref) in Bucket(index, tag) <==> ref in lists && tag in lists[ref]
  {
    EntryIdRoundTrip(ref);
  }

  /** The ids of a bucket never miss a safe entry that carries the tag; where the index is exact they hit no other. */
  lemma BucketIsScan(index: Index, lists: TagLists, tag: string, ref: Ref)
    requires Covered(index, lists) && KnownTypes(lists)
    ensures ref in lists && tag in lists[ref] && !HasSeparator(ref.key) ==> ref in Parsed(Bucket(index, tag))
    ensures SharpAt(index, lists, ref) && ref in Parsed(Bucket(index, tag)) ==> ref in lists && tag in lists[ref]
  {
    if ref in lists {
      EntryIdRoundTrip(ref);
    }
  }
}
