/**
 When the text of stableStringify is canonical, for a comparison under which different keys may tie:
 exactly when no object of the value holds two keys that tie.
 */
module CacheKeyOrder {
  import opened CacheKeys

  ghost predicate Tie(lt: (string, string) -> bool, a: string, b: string) {
    !lt(a, b) && !lt(b, a)
  }

  ghost predicate NoTies(lt: (string, string) -> bool, fields: seq<Field>) {
    forall i, j | 0 <= i < j < |fields| :: !Tie(lt, fields[i].key, fields[j].key)
  }

  /** No object at any depth holds two keys that tie. */
  ghost predicate Untied(lt: (string, string) -> bool, v: Json) {
    match v
    case Arr(items) => forall i | 0 <= i < |items| :: Untied(lt, items[i])
    case Obj(fields) => NoTies(lt, fields) && forall i | 0 <= i < |fields| :: Untied(lt, fields[i].value)
    case _ => true
  }

  // ---------- Sorting without ties ----------

  ghost predicate KeysSorted(lt: (string, string) -> bool, fields: seq<Field>) {
    forall i, j | 0 <= i < j < |fields| :: lt(fields[i].key, fields[j].key)
  }

  lemma {:induction false} InsertKeepsSorted(lt: (string, string) -> bool, fields: seq<Field>, f: Field)
    requires StrictWeakOrder(lt) && KeysSorted(lt, fields) && forall g | g in fields :: !Tie(lt, g.key, f.key)
    ensures KeysSorted(lt, Insert(lt, fields, f))
  {
    if fields == [] {
      assert Insert(lt, fields, f) == [f];
    } else {
      assert fields[0] in fields;
      if !lt(fields[0].key, f.key) {
        assert forall i | 0 < i < |fields| :: lt(fields[0].key, fields[i].key);
      } else {
        InsertKeepsSorted(lt, fields[1..], f);
        var rest := Insert(lt, fields[1..], f);
        forall g | g in rest
          ensures lt(fields[0].key, g.key)
        {
          if g != f {
            var i :| 0 <= i < |fields[1..]| && fields[1..][i] == g;
            assert g == fields[i + 1];
          }
        }
      }
    }
  }

  /** On keys that do not tie, the entries are printed in the order of the comparison. */
  lemma {:induction false} SortIsSorted(lt: (string, string) -> bool, fields: seq<Field>)
    requires StrictWeakOrder(lt) && NoTies(lt, fields)
    ensures KeysSorted(lt, Sort(lt, fields))
  {
    if fields == [] {
      assert Sort(lt, fields) == [];
    } else {
      SortIsSorted(lt, fields[1..]);
      forall g | g in Sort(lt, fields[1..])
        ensures !Tie(lt, g.key, fields[0].key)
      {
        var i :| 0 <= i < |fields[1..]| && fields[1..][i] == g;
        assert g == fields[i + 1];
      }
      InsertKeepsSorted(lt, Sort(lt, fields[1..]), fields[0]);
    }
  }

  ghost predicate HasKey(fields: seq<Field>, key: string) {
    exists i :: 0 <= i < |fields| && fields[i].key == key
  }

  lemma FirstKeyIsLeast(lt: (string, string) -> bool, xs: seq<Field>, ys: seq<Field>)
    requires StrictWeakOrder(lt) && KeysSorted(lt, xs) && KeysSorted(lt, ys)
    requires forall key :: HasKey(xs, key) <==> HasKey(ys, key)
    ensures xs == [] <==> ys == []
    ensures xs != [] ==> xs[0].key == ys[0].key
  {
    if xs != [] {
      assert HasKey(xs, xs[0].key);
    }
    if ys != [] {
      assert HasKey(ys, ys[0].key);
    }
    if xs != [] && ys != [] {
      var i :| 0 <= i < |ys| && ys[i].key == xs[0].key;
      var j :| 0 <= j < |xs| && xs[j].key == ys[0].key;
    }
  }

  /** Two sorted lists with the same keys have them in the same places. */
  lemma {:induction false} SortedKeysAgree(lt: (string, string) -> bool, xs: seq<Field>, ys: seq<Field>)
    requires StrictWeakOrder(lt) && KeysSorted(lt, xs) && KeysSorted(lt, ys)
    requires forall key :: HasKey(xs, key) <==> HasKey(ys, key)
    ensures |xs| == |ys| && forall i | 0 <= i < |xs| :: xs[i].key == ys[i].key
  {
    FirstKeyIsLeast(lt, xs, ys);
    if xs != [] {
      forall key
        ensures HasKey(xs[1..], key) <==> HasKey(ys[1..], key)
      {
        TailKeys(lt, xs, key);
        TailKeys(lt, ys, key);
      }
      SortedKeysAgree(lt, xs[1..], ys[1..]);
      assert xs == [xs[0]] + xs[1..] && ys == [ys[0]] + ys[1..];
    }
  }

  lemma TailKeys(lt: (string, string) -> bool, xs: seq<Field>, key: string)
    requires StrictWeakOrder(lt) && KeysSorted(lt, xs) && xs != []
    ensures HasKey(xs[1..], key) <==> HasKey(xs, key) && key != xs[0].key
  {
    if HasKey(xs, key) && key != xs[0].key {
      var i :| 0 <= i < |xs| && xs[i].key == key;
      assert xs[1..][i - 1].key == key;
    }
    if HasKey(xs[1..], key) {
      var i :| 0 <= i < |xs[1..]| && xs[1..][i].key == key;
      assert xs[i + 1].key == key;
    }
  }

  // ---------- Without ties the text is canonical ----------

  /** Objects that mean the same hold the same keys, so they have the same ties. */
  lemma SameKeysSameTies(lt: (string, string) -> bool, v: Json, w: Json)
    requires StrictWeakOrder(lt) && IsClean(v) && IsClean(w) && v.Obj? && w.Obj? && Meaning(v) == Meaning(w)
    requires NoTies(lt, v.fields)
    ensures NoTies(lt, w.fields)
  {
    forall i, j | 0 <= i < j < |w.fields|
      ensures !Tie(lt, w.fields[i].key, w.fields[j].key)
    {
      var a := KeyIsHeld(v, w, i);
      var b := KeyIsHeld(v, w, j);
    }
  }

  lemma KeyIsHeld(v: Json, w: Json, i: nat) returns (a: nat)
    requires IsClean(v) && IsClean(w) && v.Obj? && w.Obj? && Meaning(v) == Meaning(w) && i < |w.fields|
    ensures a < |v.fields| && v.fields[a].key == w.fields[i].key
  {
    assert w.fields[i] in w.fields;
    MeaningAt(w.fields, w.fields[i].key);
    MeaningAt(v.fields, w.fields[i].key);
    var f :| f in v.fields && f.key == w.fields[i].key;
    a :| 0 <= a < |v.fields| && v.fields[a] == f;
  }

  /** Without ties, equal values print the same text. */
  lemma {:induction false} SameMeaningSameText(lt: (string, string) -> bool, v: Json, w: Json)
    requires StrictWeakOrder(lt) && Untied(lt, v) && IsClean(v) && IsClean(w) && Meaning(v) == Meaning(w)
    ensures Stringify(lt, v) == Stringify(lt, w)
    decreases v, 1
  {
    if v.Arr? {
      CompositeText(lt, v);
      CompositeText(lt, w);
      assert |v.items| == |Meaning(v).items| == |w.items|;
      forall i | 0 <= i < |v.items|
        ensures Stringify(lt, v.items[i]) == Stringify(lt, w.items[i])
      {
        assert Meaning(v).items[i] == Meaning(w).items[i];
        SameMeaningSameText(lt, v.items[i], w.items[i]);
      }
      assert PartTexts(lt, false, AsParts(v.items)) == PartTexts(lt, false, AsParts(w.items));
    } else if v.Obj? {
      SameObjectSameText(lt, v, w);
    }
  }

  lemma {:induction false} SameObjectSameText(lt: (string, string) -> bool, v: Json, w: Json)
    requires StrictWeakOrder(lt) && Untied(lt, v) && IsClean(v) && IsClean(w) && v.Obj? && Meaning(v) == Meaning(w)
    ensures Stringify(lt, v) == Stringify(lt, w)
    decreases v, 0
  {
    var xs, ys := Sort(lt, v.fields), Sort(lt, w.fields);
    CompositeText(lt, v);
    CompositeText(lt, w);
    SameKeysSameTies(lt, v, w);
    SortedMeaning(lt, v);
    SortedMeaning(lt, w);
    SortedKeysAgree(lt, xs, ys);
    forall i | 0 <= i < |xs|
      ensures xs[i].key == ys[i].key && Stringify(lt, xs[i].value) == Stringify(lt, ys[i].value)
    {
      SameMeaningSameText(lt, xs[i].value, ys[i].value);
    }
    SameTextsPartwise(lt, xs, ys);
  }

  lemma SameTextsPartwise(lt: (string, string) -> bool, xs: seq<Field>, ys: seq<Field>)
    requires |xs| == |ys|
    requires forall i | 0 <= i < |xs| ::
               xs[i].key == ys[i].key && Stringify(lt, xs[i].value) == Stringify(lt, ys[i].value)
    ensures PartTexts(lt, true, xs) == PartTexts(lt, true, ys)
  {
  }

  /** The sorted entries of an object, related to the map it means. */
  lemma SortedMeaning(lt: (string, string) -> bool, v: Json)
    requires StrictWeakOrder(lt) && IsClean(v) && v.Obj? && NoTies(lt, v.fields)
    ensures var entries := Sort(lt, v.fields);
            && KeysSorted(lt, entries)
            && (forall key :: HasKey(entries, key) <==> key in Meaning(v).fields)
            && (forall i | 0 <= i < |entries| ::
                  && entries[i] in v.fields && IsClean(entries[i].value)
                  && entries[i].key in Meaning(v).fields
                  && Meaning(v).fields[entries[i].key] == Meaning(entries[i].value))
  {
    var entries := Sort(lt, v.fields);
    SortIsSorted(lt, v.fields);
    forall key
      ensures HasKey(entries, key) <==> key in Meaning(v).fields
    {
      MeaningAt(v.fields, key);
      if HasKey(entries, key) {
        var i :| 0 <= i < |entries| && entries[i].key == key;
        assert entries[i] in v.fields;
      }
      if f :| f in v.fields && f.key == key {
        assert f in entries;
      }
    }
    forall i | 0 <= i < |entries|
      ensures entries[i] in v.fields && IsClean(entries[i].value)
      ensures entries[i].key in Meaning(v).fields && Meaning(v).fields[entries[i].key] == Meaning(entries[i].value)
    {
      assert entries[i] in v.fields;
      MeaningAt(v.fields, entries[i].key);
    }
  }

  // ---------- With a tie it is not ----------

  /** The printed parts before and after part i, with the commas and the braces that join them. */
  lemma {:induction false} JoinAround(parts: seq<string>, i: nat, other: string) returns (before: string, after: string)
    requires i < |parts|
    ensures Join(parts, ",") == before + parts[i] + after && Join(parts[i := other], ",") == before + other + after
  {
    var changed := parts[i := other];
    if |parts| == 1 {
      before, after := "", "";
      assert "" + parts[0] + "" == parts[0] && "" + other + "" == other;
    } else if i == 0 {
      assert changed[1..] == parts[1..];
      before, after := "", "," + Join(parts[1..], ",");
      assert "" + parts[0] + after == parts[0] + "," + Join(parts[1..], ",");
      assert "" + other + after == other + "," + Join(parts[1..], ",");
    } else {
      assert changed[1..] == parts[1..][i - 1 := other];
      var b, a := JoinAround(parts[1..], i - 1, other);
      before, after := parts[0] + "," + b, a;
      assert parts[0] + "," + (b + parts[i] + a) == before + parts[i] + after;
      assert parts[0] + "," + (b + other + a) == before + other + after;
    }
  }

  lemma Cancel(before: string, s: string, t: string, after: string)
    requires before + s + after == before + t + after
    ensures s == t
  {
    assert (before + s + after)[|before|..|before| + |s|] == s;
    assert (before + t + after)[|before|..|before| + |t|] == t;
  }

  /** Printing one part differently makes the joined text different. */
  lemma ChangedPartShows(open: string, parts: seq<string>, i: nat, other: string, close: string)
    requires i < |parts| && parts[i] != other
    ensures open + Join(parts, ",") + close != open + Join(parts[i := other], ",") + close
  {
    if open + Join(parts, ",") + close == open + Join(parts[i := other], ",") + close {
      Cancel(open, Join(parts, ","), Join(parts[i := other], ","), close);
      var before, after := JoinAround(parts, i, other);
      Cancel(before, parts[i], other, after);
    }
  }

  /** How many leading entries are less than the key. */
  function Rank(lt: (string, string) -> bool, fields: seq<Field>, key: string): (n: nat)
    ensures n <= |fields|
  {
    if fields == [] || !lt(fields[0].key, key) then 0 else 1 + Rank(lt, fields[1..], key)
  }

  lemma {:induction false} InsertAtRank(lt: (string, string) -> bool, fields: seq<Field>, f: Field)
    ensures var n := Rank(lt, fields, f.key); Insert(lt, fields, f) == fields[..n] + [f] + fields[n..]
  {
    if fields != [] && lt(fields[0].key, f.key) {
      InsertAtRank(lt, fields[1..], f);
      var n := Rank(lt, fields[1..], f.key);
      assert [fields[0]] + (fields[1..][..n] + [f] + fields[1..][n..]) == fields[..n + 1] + [f] + fields[n + 1..];
    } else {
      assert fields[..0] + [f] + fields[0..] == [f] + fields;
    }
  }

  lemma {:induction false} TiedRank(lt: (string, string) -> bool, fields: seq<Field>, a: string, b: string)
    requires StrictWeakOrder(lt) && Tie(lt, a, b)
    ensures Rank(lt, fields, a) == Rank(lt, fields, b)
  {
    if fields != [] {
      TiedRank(lt, fields[1..], a, b);
    }
  }

  /** The rank does not change when an entry that is not less is put there. */
  lemma {:induction false} RankAfterInsert(lt: (string, string) -> bool, fields: seq<Field>, f: Field, key: string)
    requires !lt(f.key, key)
    ensures var n := Rank(lt, fields, key); Rank(lt, fields[..n] + [f] + fields[n..], key) == n
  {
    var n := Rank(lt, fields, key);
    var put := fields[..n] + [f] + fields[n..];
    if n == 0 {
      assert put[0] == f;
    } else {
      RankAfterInsert(lt, fields[1..], f, key);
      assert put[1..] == fields[1..][..n - 1] + [f] + fields[1..][n - 1..];
      assert put[0] == fields[0];
    }
  }

  /** Two entries that tie are printed in the order they stand in. */
  lemma TiedPairKeepsOrder(lt: (string, string) -> bool, f: Field, g: Field, others: seq<Field>)
    requires StrictWeakOrder(lt) && Tie(lt, f.key, g.key)
    ensures var n := Rank(lt, Sort(lt, others), f.key);
            && n < |Sort(lt, [f, g] + others)| && Sort(lt, [f, g] + others)[n] == f
            && n < |Sort(lt, [g, f] + others)| && Sort(lt, [g, f] + others)[n] == g
  {
    TiedPairFirst(lt, f, g, others);
    TiedPairFirst(lt, g, f, others);
    TiedRank(lt, Sort(lt, others), f.key, g.key);
  }

  lemma TiedPairFirst(lt: (string, string) -> bool, f: Field, g: Field, others: seq<Field>)
    requires StrictWeakOrder(lt) && Tie(lt, f.key, g.key)
    ensures var n := Rank(lt, Sort(lt, others), f.key);
            n < |Sort(lt, [f, g] + others)| && Sort(lt, [f, g] + others)[n] == f
  {
    var rest := Sort(lt, others);
    var n := Rank(lt, rest, f.key);
    assert ([f, g] + others)[1..] == [g] + others && ([g] + others)[1..] == others;
    TiedRank(lt, rest, f.key, g.key);
    InsertAtRank(lt, rest, g);
    RankAfterInsert(lt, rest, g, f.key);
    InsertAtRank(lt, Insert(lt, rest, g), f);
  }

  /** An object with two keys that tie: with the two swapped it means the same and prints differently. */
  lemma TiedKeysTwin(lt: (string, string) -> bool, v: Json) returns (w: Json)
    requires StrictWeakOrder(lt) && IsClean(v) && v.Obj? && !NoTies(lt, v.fields)
    ensures w.Obj? && IsClean(w) && Meaning(w) == Meaning(v) && Stringify(lt, w) != Stringify(lt, v)
  {
    var i, j :| 0 <= i < j < |v.fields| && Tie(lt, v.fields[i].key, v.fields[j].key);
    var f, g := v.fields[i], v.fields[j];
    var others := v.fields[..i] + v.fields[i + 1..j] + v.fields[j + 1..];
    var a, b := Obj([f, g] + others), Obj([g, f] + others);
    Rearranged(v, i, j, others, f, g);
    Rearranged(v, i, j, others, g, f);
    assert f.key != g.key;
    hide IsClean, Meaning, Stringify, StrictWeakOrder, Tie, Rank, Sort;
    if Stringify(lt, a) == Stringify(lt, b) {
      TiedPairKeepsOrder(lt, f, g, others);
      SameTextSameKeys(lt, a, b);
      assert false;
    }
    w := if Stringify(lt, a) != Stringify(lt, v) then a else b;
  }

  lemma Rearranged(v: Json, i: nat, j: nat, others: seq<Field>, first: Field, second: Field)
    requires IsClean(v) && v.Obj? && i < j < |v.fields|
    requires others == v.fields[..i] + v.fields[i + 1..j] + v.fields[j + 1..]
    requires (first == v.fields[i] && second == v.fields[j]) || (first == v.fields[j] && second == v.fields[i])
    ensures var w := Obj([first, second] + others); IsClean(w) && Meaning(w) == Meaning(v)
  {
    var fields := [first, second] + others;
    SameMembers(v.fields, i, j, others, first, second);
    SameFieldsSameMeaning(fields, v.fields);
    hide DistinctKeys, MeaningOfFields;
    assert forall k | 0 <= k < |fields| :: fields[k] in fields;
  }

  lemma SameMembers(all: seq<Field>, i: nat, j: nat, others: seq<Field>, first: Field, second: Field)
    requires DistinctKeys(all) && i < j < |all| && others == all[..i] + all[i + 1..j] + all[j + 1..]
    requires (first == all[i] && second == all[j]) || (first == all[j] && second == all[i])
    ensures DistinctKeys([first, second] + others)
    ensures forall f :: f in [first, second] + others <==> f in all
  {
    OthersAreTheRest(all, i, j, others);
    DistinctWithTwo(first, second, others);
    assert all[i] in all && all[j] in all;
    hide DistinctKeys;
    forall f
      ensures f in [first, second] + others <==> f == first || f == second || f in others
    {
    }
  }

  lemma DistinctWithTwo(first: Field, second: Field, others: seq<Field>)
    requires DistinctKeys(others) && first.key != second.key
    requires forall f | f in others :: f.key != first.key && f.key != second.key
    ensures DistinctKeys([first, second] + others)
  {
    assert forall k | 0 <= k < |others| :: others[k] in others;
  }

  lemma OthersAreTheRest(fields: seq<Field>, i: nat, j: nat, others: seq<Field>)
    requires DistinctKeys(fields) && i < j < |fields|
    requires others == fields[..i] + fields[i + 1..j] + fields[j + 1..]
    ensures DistinctKeys(others)
    ensures forall f | f in others :: f in fields && f.key != fields[i].key && f.key != fields[j].key
    ensures forall f | f in fields :: f == fields[i] || f == fields[j] || f in others
  {
    forall k | 0 <= k < |fields| && k != i && k != j
      ensures fields[k] in others
    {
      assert others[if k < i then k else if k < j then k - 1 else k - 2] == fields[k];
    }
  }

  lemma SameTextSameKeys(lt: (string, string) -> bool, v: Json, w: Json)
    requires IsClean(v) && IsClean(w) && v.Obj? && w.Obj? && Stringify(lt, v) == Stringify(lt, w)
    ensures |Sort(lt, v.fields)| == |Sort(lt, w.fields)|
    ensures forall n | 0 <= n < |Sort(lt, v.fields)| :: Sort(lt, v.fields)[n].key == Sort(lt, w.fields)[n].key
  {
    CompositeText(lt, v);
    CompositeText(lt, w);
    var xs, ys := Sort(lt, v.fields), Sort(lt, w.fields);
    var s, t := Join(PartTexts(lt, true, xs), ","), Join(PartTexts(lt, true, ys), ",");
    assert ['{'] + s + "}" + "" == ['{'] + t + "}" + "";
    OpenedIsReadable('{', s, t, "}", "", "");
    PartsAreReadable(lt, true, v, xs, ys, '}', "", "");
  }

  /** Replacing the value of one entry replaces it in place in the sorted list. */
  lemma {:induction false} InsertReplaced(
    lt: (string, string) -> bool, fields: seq<Field>, p: nat, value: Json, f: Field)
    returns (q: nat)
    requires p < |fields|
    ensures q < |fields| + 1 && Insert(lt, fields, f)[q] == fields[p]
    ensures Insert(lt, fields[p := Field(fields[p].key, value)], f)
            == Insert(lt, fields, f)[q := Field(fields[p].key, value)]
  {
    var changed := fields[p := Field(fields[p].key, value)];
    if !lt(fields[0].key, f.key) {
      q := p + 1;
    } else if p == 0 {
      assert changed[1..] == fields[1..];
      q := 0;
    } else {
      assert changed[1..] == fields[1..][p - 1 := Field(fields[p].key, value)];
      var r := InsertReplaced(lt, fields[1..], p - 1, value, f);
      q := r + 1;
    }
  }

  lemma {:induction false} SortReplaced(lt: (string, string) -> bool, fields: seq<Field>, i: nat, value: Json)
    returns (q: nat)
    requires i < |fields|
    ensures q < |fields| && Sort(lt, fields)[q] == fields[i]
    ensures Sort(lt, fields[i := Field(fields[i].key, value)]) == Sort(lt, fields)[q := Field(fields[i].key, value)]
  {
    var changed := fields[i := Field(fields[i].key, value)];
    if i == 0 {
      assert changed[1..] == fields[1..];
      InsertAtRank(lt, Sort(lt, fields[1..]), fields[0]);
      InsertAtRank(lt, Sort(lt, fields[1..]), changed[0]);
      q := Rank(lt, Sort(lt, fields[1..]), fields[0].key);
    } else {
      assert changed[1..] == fields[1..][i - 1 := Field(fields[i].key, value)];
      var p := SortReplaced(lt, fields[1..], i - 1, value);
      q := InsertReplaced(lt, Sort(lt, fields[1..]), p, value, fields[0]);
    }
  }

  lemma ItemTwin(lt: (string, string) -> bool, v: Json, i: nat, item: Json) returns (w: Json)
    requires v.Arr? && IsClean(v) && i < |v.items|
    requires IsClean(item) && Meaning(item) == Meaning(v.items[i]) && Stringify(lt, item) != Stringify(lt, v.items[i])
    ensures w.Arr? && IsClean(w) && Meaning(w) == Meaning(v) && Stringify(lt, w) != Stringify(lt, v)
  {
    w := Arr(v.items[i := item]);
    assert Meaning(w).items == Meaning(v).items;
    CompositeText(lt, v);
    CompositeText(lt, w);
    var texts := PartTexts(lt, false, AsParts(v.items));
    assert PartTexts(lt, false, AsParts(w.items)) == texts[i := Stringify(lt, item)];
    ChangedPartShows("[", texts, i, Stringify(lt, item), "]");
  }

  lemma {:induction false} MeaningReplaced(fields: seq<Field>, i: nat, value: Json)
    requires i < |fields| && Meaning(value) == Meaning(fields[i].value) &&
             (value.Undefined? <==> fields[i].value.Undefined?)
    ensures MeaningOfFields(fields[i := Field(fields[i].key, value)]) == MeaningOfFields(fields)
  {
    var n := |fields| - 1;
    var changed := fields[i := Field(fields[i].key, value)];
    if i == n {
      assert changed[..n] == fields[..n];
    } else {
      assert changed[..n] == fields[..n][i := Field(fields[i].key, value)];
      MeaningReplaced(fields[..n], i, value);
    }
  }

  lemma EntryTwin(lt: (string, string) -> bool, v: Json, i: nat, value: Json) returns (w: Json)
    requires v.Obj? && IsClean(v) && i < |v.fields|
    requires IsClean(value) && Meaning(value) == Meaning(v.fields[i].value)
    requires Stringify(lt, value) != Stringify(lt, v.fields[i].value)
    ensures w.Obj? && IsClean(w) && Meaning(w) == Meaning(v) && Stringify(lt, w) != Stringify(lt, v)
  {
    w := Obj(v.fields[i := Field(v.fields[i].key, value)]);
    MeaningReplaced(v.fields, i, value);
    hide Stringify, MeaningOfFields;
    ChangedEntryShows(lt, v.fields, i, value);
  }

  lemma ChangedEntryShows(lt: (string, string) -> bool, fields: seq<Field>, i: nat, value: Json)
    requires i < |fields| && Stringify(lt, value) != Stringify(lt, fields[i].value)
    ensures Stringify(lt, Obj(fields[i := Field(fields[i].key, value)])) != Stringify(lt, Obj(fields))
  {
    var f, g := fields[i], Field(fields[i].key, value);
    var q := SortReplaced(lt, fields, i, value);
    CompositeText(lt, Obj(fields));
    CompositeText(lt, Obj(fields[i := g]));
    hide Stringify, Sort;
    if PartText(lt, true, f) == PartText(lt, true, g) {
      Cancel(Quote(f.key) + ":", Stringify(lt, f.value), Stringify(lt, value), "");
    }
    var texts := PartTexts(lt, true, Sort(lt, fields));
    assert PartTexts(lt, true, Sort(lt, fields[i := g])) == texts[q := PartText(lt, true, g)];
    hide PartTexts, PartText;
    ChangedPartShows("{", texts, q, PartText(lt, true, g), "}");
  }

  /** A value with a tie somewhere has a twin that means the same and prints differently. */
  lemma {:induction false} TiedTwin(lt: (string, string) -> bool, v: Json) returns (w: Json)
    requires StrictWeakOrder(lt) && IsClean(v) && !Untied(lt, v)
    ensures (w.Arr? || w.Obj?) && IsClean(w) && Meaning(w) == Meaning(v) && Stringify(lt, w) != Stringify(lt, v)
  {
    if v.Arr? {
      var i :| 0 <= i < |v.items| && !Untied(lt, v.items[i]);
      var item := TiedTwin(lt, v.items[i]);
      w := ItemTwin(lt, v, i, item);
    } else if !NoTies(lt, v.fields) {
      w := TiedKeysTwin(lt, v);
    } else {
      var i :| 0 <= i < |v.fields| && !Untied(lt, v.fields[i].value);
      var value := TiedTwin(lt, v.fields[i].value);
      w := EntryTwin(lt, v, i, value);
    }
  }

  /** The printed text depends on the meaning alone exactly when no two keys of an object tie. */
  lemma TextIsCanonicalIff(lt: (string, string) -> bool, v: Json)
    requires StrictWeakOrder(lt) && IsClean(v)
    ensures Untied(lt, v) <==>
              forall w | IsClean(w) && Meaning(w) == Meaning(v) :: Stringify(lt, w) == Stringify(lt, v)
  {
    if Untied(lt, v) {
      forall w | IsClean(w) && Meaning(w) == Meaning(v)
        ensures Stringify(lt, w) == Stringify(lt, v)
      {
        SameMeaningSameText(lt, v, w);
      }
    } else {
      var w := TiedTwin(lt, v);
    }
  }
}
