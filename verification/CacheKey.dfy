/**
 Models sanitise, stableStringify and createCacheKey of src/services/cache/index.ts.

 A payload is a JSON value as JavaScript holds it (`Json`): object fields have an insertion order
 and may be undefined. `Meaning` is the reference: the value up to key order and undefined fields.
 The printer is shown to be readable in one way only.
 */
module CacheKeys {
  import opened Options

  /** A number is carried as the text JSON.stringify prints for it. */
  datatype Json =
    | Undefined
    | Null
    | Bool(flag: bool)
    | Num(text: string)
    | Str(s: string)
    | Arr(items: seq<Json>)
    | Obj(fields: seq<Field>)

  datatype Field = Field(key: string, value: Json)

  // ---------- What a value means ----------

  datatype Value =
    | VUndefined
    | VNull
    | VBool(flag: bool)
    | VNum(text: string)
    | VStr(s: string)
    | VArr(items: seq<Value>)
    | VObj(fields: map<string, Value>)

  ghost function Meaning(v: Json): Value
    decreases v, 0
  {
    match v
    case Undefined => VUndefined
    case Null => VNull
    case Bool(flag) => VBool(flag)
    case Num(text) => VNum(text)
    case Str(s) => VStr(s)
    case Arr(items) => VArr(seq(|items|, i requires 0 <= i < |items| => Meaning(items[i])))
    case Obj(fields) => VObj(MeaningOfFields(fields))
  }

  ghost function MeaningOfFields(fields: seq<Field>): map<string, Value>
    decreases fields, 0
  {
    if fields == [] then map[]
    else
      var last := fields[|fields| - 1];
      var rest := MeaningOfFields(fields[..|fields| - 1]);
      if last.value.Undefined? then rest else rest[last.key := Meaning(last.value)]
  }

  predicate IsNumberText(s: string) {
    s != "" && forall c | c in s :: IsNumberChar(c)
  }

  predicate IsNumberChar(c: char) {
    '0' <= c <= '9' || c in {'+', '-', '.', 'e'}
  }

  /** A JSON value, except that object fields may be undefined. Keys of an object are distinct. */
  ghost predicate IsJson(v: Json) {
    match v
    case Undefined => false
    case Num(text) => IsNumberText(text)
    case Arr(items) => forall i | 0 <= i < |items| :: IsJson(items[i])
    case Obj(fields) =>
      && DistinctKeys(fields)
      && forall i | 0 <= i < |fields| :: fields[i].value.Undefined? || IsJson(fields[i].value)
    case _ => true
  }

  ghost predicate DistinctKeys(fields: seq<Field>) {
    forall i, j | 0 <= i < j < |fields| :: fields[i].key != fields[j].key
  }

  /** A JSON value with no undefined field at any depth. */
  ghost predicate IsClean(v: Json) {
    match v
    case Undefined => false
    case Num(text) => IsNumberText(text)
    case Arr(items) => forall i | 0 <= i < |items| :: IsClean(items[i])
    case Obj(fields) => DistinctKeys(fields) && forall i | 0 <= i < |fields| :: IsClean(fields[i].value)
    case _ => true
  }

  lemma {:induction false} MeaningAt(fields: seq<Field>, key: string)
    requires DistinctKeys(fields)
    ensures key in MeaningOfFields(fields) <==> exists f :: f in fields && f.key == key && !f.value.Undefined?
    ensures forall f | f in fields && f.key == key && !f.value.Undefined? ::
              MeaningOfFields(fields)[key] == Meaning(f.value)
  {
    if fields != [] {
      var n := |fields| - 1;
      assert fields == fields[..n] + [fields[n]];
      MeaningAt(fields[..n], key);
    }
  }

  /** The meaning of an object does not depend on the order of its fields. */
  lemma SameFieldsSameMeaning(a: seq<Field>, b: seq<Field>)
    requires DistinctKeys(a) && DistinctKeys(b) && forall f :: f in a <==> f in b
    ensures MeaningOfFields(a) == MeaningOfFields(b)
  {
    forall key
      ensures key in MeaningOfFields(a) <==> key in MeaningOfFields(b)
      ensures key in MeaningOfFields(a) ==> MeaningOfFields(a)[key] == MeaningOfFields(b)[key]
    {
      MeaningAt(a, key);
      MeaningAt(b, key);
    }
  }

  // ---------- sanitise ----------

  function Sanitise(v: Json): Json
    decreases v, 0
  {
    match v
    case Arr(items) => Arr(seq(|items|, i requires 0 <= i < |items| => Sanitise(items[i])))
    case Obj(fields) => Obj(SanitiseFields(fields))
    case _ => v
  }

  function SanitiseFields(fields: seq<Field>): seq<Field>
    decreases fields, 0
  {
    if fields == [] then []
    else
      var last := fields[|fields| - 1];
      SanitiseFields(fields[..|fields| - 1])
      + (if last.value.Undefined? then [] else [Field(last.key, Sanitise(last.value))])
  }

  ghost function KeysOf(fields: seq<Field>): set<string> {
    set f | f in fields :: f.key
  }

  lemma DistinctAfterAppend(fields: seq<Field>, f: Field)
    requires DistinctKeys(fields) && f.key !in KeysOf(fields)
    ensures DistinctKeys(fields + [f])
    ensures KeysOf(fields + [f]) == KeysOf(fields) + {f.key}
  {
    assert forall i | 0 <= i < |fields| :: fields[i] in fields;
    assert forall g :: g in fields + [f] <==> g in fields || g == f;
  }

  lemma {:induction false} SanitiseKeepsKeysDistinct(fields: seq<Field>)
    requires DistinctKeys(fields)
    ensures DistinctKeys(SanitiseFields(fields)) && KeysOf(SanitiseFields(fields)) <= KeysOf(fields)
  {
    if fields != [] {
      var n := |fields| - 1;
      var before, last := fields[..n], fields[n];
      assert fields == before + [last];
      SanitiseKeepsKeysDistinct(before);
      assert last.key !in KeysOf(before);
      DistinctAfterAppend(before, last);
      if last.value.Undefined? {
        assert SanitiseFields(fields) == SanitiseFields(before);
      } else {
        DistinctAfterAppend(SanitiseFields(before), Field(last.key, Sanitise(last.value)));
      }
    }
  }

  lemma {:induction false} SanitiseKeepsMeaning(v: Json)
    requires IsJson(v)
    ensures IsClean(Sanitise(v)) && Meaning(Sanitise(v)) == Meaning(v)
    decreases v, 0
  {
    match v
    case Arr(items) =>
      forall i | 0 <= i < |items|
        ensures IsClean(Sanitise(items[i])) && Meaning(Sanitise(items[i])) == Meaning(items[i])
      {
        SanitiseKeepsMeaning(items[i]);
      }
    case Obj(fields) =>
      SanitiseKeepsKeysDistinct(fields);
      SanitiseFieldsKeepsMeaning(fields);
    case _ =>
  }

  lemma {:induction false} SanitiseFieldsKeepsMeaning(fields: seq<Field>)
    requires forall i | 0 <= i < |fields| :: fields[i].value.Undefined? || IsJson(fields[i].value)
    ensures forall i | 0 <= i < |SanitiseFields(fields)| :: IsClean(SanitiseFields(fields)[i].value)
    ensures MeaningOfFields(SanitiseFields(fields)) == MeaningOfFields(fields)
    decreases fields, 0
  {
    if fields != [] {
      var n := |fields| - 1;
      var before, last := SanitiseFields(fields[..n]), fields[n];
      SanitiseFieldsKeepsMeaning(fields[..n]);
      if !last.value.Undefined? {
        SanitiseKeepsMeaning(last.value);
      }
      hide Sanitise, IsJson;
      OneFieldMore(fields);
    }
  }

  lemma OneFieldMore(fields: seq<Field>)
    requires fields != []
    requires var last := fields[|fields| - 1].value;
             last.Undefined? || (IsClean(Sanitise(last)) && Meaning(Sanitise(last)) == Meaning(last))
    requires var before := SanitiseFields(fields[..|fields| - 1]);
             && MeaningOfFields(before) == MeaningOfFields(fields[..|fields| - 1])
             && forall i | 0 <= i < |before| :: IsClean(before[i].value)
    ensures forall i | 0 <= i < |SanitiseFields(fields)| :: IsClean(SanitiseFields(fields)[i].value)
    ensures MeaningOfFields(SanitiseFields(fields)) == MeaningOfFields(fields)
  {
    var n := |fields| - 1;
    var before, last := SanitiseFields(fields[..n]), fields[n];
    if last.value.Undefined? {
      assert SanitiseFields(fields) == before;
    } else {
      MeaningAfterAppend(before, Field(last.key, Sanitise(last.value)));
    }
    hide IsClean, Sanitise, Meaning;
  }

  lemma MeaningAfterAppend(fields: seq<Field>, f: Field)
    requires !f.value.Undefined?
    ensures MeaningOfFields(fields + [f]) == MeaningOfFields(fields)[f.key := Meaning(f.value)]
  {
    assert (fields + [f])[..|fields|] == fields;
  }

  // ---------- JSON.stringify of strings ----------

  function HexDigit(n: int): char
    requires 0 <= n < 16
  {
    "0123456789abcdef"[n]
  }

  /** One character inside a quoted string, as section 7 of RFC 8259 escapes it. */
  function Escape(c: char): (s: string)
    ensures s != "" && s[0] != '"'
  {
    var n := c as int;
    if c == '"' then "\\\""
    else if c == '\\' then "\\\\"
    else if n == 8 then "\\b"
    else if n == 9 then "\\t"
    else if n == 10 then "\\n"
    else if n == 12 then "\\f"
    else if n == 13 then "\\r"
    else if n < 32 then "\\u00" + [HexDigit(n / 16), HexDigit(n % 16)]
    else [c]
  }

  function EscapeAll(s: string): string {
    if s == "" then "" else Escape(s[0]) + EscapeAll(s[1..])
  }

  function Quote(s: string): string {
    "\"" + EscapeAll(s) + "\""
  }

  // ---------- stableStringify ----------

  function Join(parts: seq<string>, separator: string): string {
    if parts == [] then ""
    else if |parts| == 1 then parts[0]
    else parts[0] + separator + Join(parts[1..], separator)
  }

  /** What a comparison such as localeCompare promises: different strings may tie. */
  ghost predicate StrictWeakOrder(lt: (string, string) -> bool) {
    && (forall a :: !lt(a, a))
    && (forall a, b, c :: lt(a, b) && lt(b, c) ==> lt(a, c))
    && (forall a, b, c :: lt(a, c) ==> lt(a, b) || lt(b, c))
  }

  /** f goes before the first entry that is not less, so before those it ties with. */
  function Insert(lt: (string, string) -> bool, fields: seq<Field>, f: Field): (r: seq<Field>)
    ensures |r| == |fields| + 1 && forall g :: g in r <==> g in fields || g == f
  {
    if fields == [] then [f]
    else if !lt(fields[0].key, f.key) then [f] + fields
    else
      assert fields == [fields[0]] + fields[1..];
      [fields[0]] + Insert(lt, fields[1..], f)
  }

  /** The library's sort of the entries, which is stable: entries that tie keep their order. */
  function Sort(lt: (string, string) -> bool, fields: seq<Field>): (r: seq<Field>)
    ensures |r| == |fields| && forall g :: g in r <==> g in fields
  {
    if fields == [] then []
    else
      assert fields == [fields[0]] + fields[1..];
      Insert(lt, Sort(lt, fields[1..]), fields[0])
  }

  function Stringify(lt: (string, string) -> bool, v: Json): string {
    match v
    case Undefined => ""
    case Null => "null"
    case Bool(flag) => if flag then "true" else "false"
    case Num(text) => text
    case Str(s) => Quote(s)
    case Arr(items) => "[" + Join(seq(|items|, i requires 0 <= i < |items| => Stringify(lt, items[i])), ",") + "]"
    case Obj(fields) =>
      var entries := Sort(lt, fields);
      "{" + Join(seq(|entries|, i requires 0 <= i < |entries| =>
                   assert entries[i] in fields;
                   Quote(entries[i].key) + ":" + Stringify(lt, entries[i].value)), ",") + "}"
  }

  // ---------- createCacheKey ----------

  datatype CacheKeyParts = CacheKeyParts(
    address: string, payload: Json, targetAddress: Option<string>, targetPort: Option<string>, extra: Json)

  function PayloadOf(parts: CacheKeyParts): Json {
    if parts.payload.Undefined? || parts.payload.Null? then Obj([]) else parts.payload
  }

  function ExtraOf(parts: CacheKeyParts): Json {
    if parts.extra.Undefined? then Null else parts.extra
  }

  function OrDefault(segment: Option<string>): string {
    if segment.None? then "default" else segment.value
  }

  function CreateCacheKey(lt: (string, string) -> bool, parts: CacheKeyParts): string {
    Join([parts.address,
          OrDefault(parts.targetAddress),
          OrDefault(parts.targetPort),
          Stringify(lt, Sanitise(PayloadOf(parts))),
          Stringify(lt, Sanitise(ExtraOf(parts)))], "|")
  }

  /** The escapes of JSON.stringify: those of section 7 of RFC 8259 that have a letter, and \u00 with two digits. */
  lemma EscapesAsJson()
    ensures Escape('"') == "\\\"" && Escape('\\') == "\\\\" && Escape('\n') == "\\n" && Escape('\t') == "\\t"
    ensures Escape('\r') == "\\r" && Escape(8 as char) == "\\b" && Escape(12 as char) == "\\f"
    ensures Escape(1 as char) == "\\u0001" && Escape(31 as char) == "\\u001f"
    ensures Escape('/') == "/" && Escape('a') == "a"
  {
  }

  // ---------- An example ----------

  const EXAMPLE_LIST: Json := Arr([Num("1"), Null])

  /** {b: [1, null], c: undefined, a: "x"} */
  const EXAMPLE: Json := Obj([Field("b", EXAMPLE_LIST), Field("c", Undefined), Field("a", Str("x"))])

  lemma ExampleSanitised()
    ensures Sanitise(EXAMPLE) == Obj([Field("b", EXAMPLE_LIST), Field("a", Str("x"))])
  {
    var b, c, a := EXAMPLE.fields[0], EXAMPLE.fields[1], EXAMPLE.fields[2];
    assert Sanitise(EXAMPLE_LIST) == EXAMPLE_LIST;
    assert EXAMPLE.fields[..2] == [b, c] && [b, c][..1] == [b] && [b][..0] == [];
    assert SanitiseFields([b]) == [b];
    assert SanitiseFields([b, c]) == [b];
    assert EXAMPLE.fields == [b, c, a] && Sanitise(a.value) == a.value;
    assert SanitiseFields([b, c, a]) == [b] + [Field("a", Str("x"))];
  }

  lemma ExampleSorted(lt: (string, string) -> bool, a: Field, b: Field)
    requires lt(a.key, b.key)
    ensures Sort(lt, [b, a]) == [a, b]
  {
    assert [b, a][1..] == [a] && [a][1..] == [];
    assert Sort(lt, [a]) == [a];
    assert Insert(lt, [a], b) == [a] + Insert(lt, [], b);
  }

  lemma OneLetterQuoted(c: char)
    requires 'a' <= c <= 'z'
    ensures Quote([c]) == "\"" + [c] + "\""
  {
    assert EscapeAll([c]) == Escape(c) + EscapeAll("");
  }

  lemma JoinTwo(a: string, b: string, separator: string)
    ensures Join([a, b], separator) == a + separator + b
  {
    assert [a, b][1..] == [b];
  }

  lemma ExampleEntry(lt: (string, string) -> bool, c: char, v: Json, text: string)
    requires 'a' <= c <= 'z' && Stringify(lt, v) == text
    ensures PartText(lt, true, Field([c], v)) == "\"" + [c] + "\":" + text
  {
    OneLetterQuoted(c);
    hide Stringify, Quote;
    assert "\"" + [c] + "\"" + ":" == "\"" + [c] + "\":";
  }

  lemma ExampleListText(lt: (string, string) -> bool)
    ensures Stringify(lt, EXAMPLE_LIST) == "[" + "1" + "," + "null" + "]"
  {
    CompositeText(lt, EXAMPLE_LIST);
    assert PartTexts(lt, false, AsParts(EXAMPLE_LIST.items)) == ["1", "null"];
    JoinTwo("1", "null", ",");
  }

  lemma ExampleText(lt: (string, string) -> bool)
    requires lt("a", "b")
    ensures Stringify(lt, Obj([Field("b", EXAMPLE_LIST), Field("a", Str("x"))]))
            == "{" + ("\"" + "a" + "\":" + "\"x\"") + "," + ("\"" + "b" + "\":" + Stringify(lt, EXAMPLE_LIST)) + "}"
  {
    var b, a := Field("b", EXAMPLE_LIST), Field("a", Str("x"));
    CompositeText(lt, Obj([b, a]));
    ExampleSorted(lt, a, b);
    OneLetterQuoted('x');
    assert Stringify(lt, Str("x")) == "\"x\"";
    ExampleEntry(lt, 'a', Str("x"), "\"x\"");
    ExampleEntry(lt, 'b', EXAMPLE_LIST, Stringify(lt, EXAMPLE_LIST));
    hide Stringify, Sort, Quote, PartText;
    var one, two := PartText(lt, true, a), PartText(lt, true, b);
    assert PartTexts(lt, true, [a, b]) == [one, two];
    JoinTwo(one, two, ",");
  }

  /** Keys in order, no undefined field, and a default for what is missing. */
  lemma ExampleKey(lt: (string, string) -> bool)
    requires lt("a", "b")
    ensures var list := "[" + "1" + "," + "null" + "]";
            CreateCacheKey(lt, CacheKeyParts("/eos/get", EXAMPLE, None, Some("3032"), Undefined))
            == Join(["/eos/get", "default", "3032",
                     "{" + ("\"" + "a" + "\":" + "\"x\"") + "," + ("\"" + "b" + "\":" + list) + "}", "null"], "|")
  {
    ExampleSanitised();
    ExampleText(lt);
    ExampleListText(lt);
    assert Stringify(lt, Sanitise(Null)) == "null";
    hide Stringify, Sanitise, Join;
  }

  // ---------- Unique readability ----------

  /** Where a printed value may end: at the end of the text, or before a character that starts no value. */
  ghost predicate Boundary(rest: string) {
    rest == "" || rest[0] in {',', ']', '}', '|', ':'}
  }

  function HexValue(c: char): int {
    if '0' <= c <= '9' then c as int - '0' as int else c as int - 'a' as int + 10
  }

  /** The code of the character an escaped text starts with. */
  function Unescape(s: string): int
    requires s != "" && (s[0] == '\\' ==> |s| >= 2 && (s[1] == 'u' ==> |s| >= 6))
  {
    if s[0] != '\\' then s[0] as int
    else if s[1] == 'b' then 8
    else if s[1] == 't' then 9
    else if s[1] == 'n' then 10
    else if s[1] == 'f' then 12
    else if s[1] == 'r' then 13
    else if s[1] == 'u' then 16 * HexValue(s[4]) + HexValue(s[5])
    else s[1] as int
  }

  lemma UnescapeInvertsEscape(c: char, x: string)
    ensures var s := Escape(c) + x;
            && (s[0] == '\\' ==> |s| >= 2 && (s[1] == 'u' ==> |s| >= 6))
            && Unescape(s) == c as int
  {
    var e, s := Escape(c), Escape(c) + x;
    assert forall i | 0 <= i < |e| :: s[i] == e[i];
  }

  lemma EscapeIsReadable(c: char, d: char, x: string, y: string)
    requires Escape(c) + x == Escape(d) + y
    ensures c == d && x == y
  {
    UnescapeInvertsEscape(c, x);
    UnescapeInvertsEscape(d, y);
    assert c == d;
    assert (Escape(c) + x)[|Escape(c)|..] == x && (Escape(d) + y)[|Escape(d)|..] == y;
  }

  lemma {:induction false} EscapedIsReadable(a: string, b: string, x: string, y: string)
    requires EscapeAll(a) + "\"" + x == EscapeAll(b) + "\"" + y
    ensures a == b && x == y
  {
    var s, t := EscapeAll(a) + "\"" + x, EscapeAll(b) + "\"" + y;
    EscapedLead(a, x);
    EscapedLead(b, y);
    if a == "" {
      assert s[1..] == x && t[1..] == y;
    } else if b != "" {
      EscapeIsReadable(a[0], b[0], EscapeAll(a[1..]) + "\"" + x, EscapeAll(b[1..]) + "\"" + y);
      EscapedIsReadable(a[1..], b[1..], x, y);
    }
  }

  lemma EscapedLead(a: string, x: string)
    ensures (EscapeAll(a) + "\"" + x)[0] == '"' <==> a == ""
    ensures a != "" ==> EscapeAll(a) + "\"" + x == Escape(a[0]) + (EscapeAll(a[1..]) + "\"" + x)
  {
    if a != "" {
      var tail := EscapeAll(a[1..]);
      assert Escape(a[0]) + tail + "\"" + x == Escape(a[0]) + (tail + "\"" + x);
    }
  }

  lemma QuoteIsReadable(a: string, b: string, x: string, y: string)
    requires Quote(a) + x == Quote(b) + y
    ensures a == b && x == y
  {
    var s, t := Quote(a) + x, Quote(b) + y;
    assert s[1..] == EscapeAll(a) + "\"" + x && t[1..] == EscapeAll(b) + "\"" + y;
    EscapedIsReadable(a, b, x, y);
  }

  lemma {:induction false} NumberIsReadable(a: string, b: string, x: string, y: string)
    requires (forall c | c in a :: IsNumberChar(c)) && (forall c | c in b :: IsNumberChar(c))
    requires Boundary(x) && Boundary(y) && a + x == b + y
    ensures a == b && x == y
  {
    assert a == "" ==> a + x == x;
    assert b == "" ==> b + y == y;
    assert a != "" ==> (a + x)[0] == a[0] && a[0] in a;
    assert b != "" ==> (b + y)[0] == b[0] && b[0] in b;
    if a != "" && b != "" {
      assert (a + x)[1..] == a[1..] + x && (b + y)[1..] == b[1..] + y;
      NumberIsReadable(a[1..], b[1..], x, y);
    }
  }

  /** The first character of a printed value tells its constructor, and is never a boundary. */
  ghost predicate Leads(v: Json, c: char) {
    match v
    case Undefined => false
    case Null => c == 'n'
    case Bool(flag) => c == if flag then 't' else 'f'
    case Num(_) => IsNumberChar(c)
    case Str(_) => c == '"'
    case Arr(_) => c == '['
    case Obj(_) => c == '{'
  }

  lemma TextHasLead(lt: (string, string) -> bool, v: Json)
    requires IsClean(v)
    ensures Stringify(lt, v) != "" && Leads(v, Stringify(lt, v)[0])
  {
    if v.Num? {
      assert v.text[0] in v.text;
    }
  }

  lemma LeadTellsConstructor(v: Json, w: Json, c: char)
    requires Leads(v, c) && Leads(w, c)
    ensures (v.Null? <==> w.Null?) && (v.Bool? <==> w.Bool?) && (v.Bool? ==> v.flag == w.flag) && (v.Num? <==> w.Num?)
    ensures (v.Str? <==> w.Str?) && (v.Arr? <==> w.Arr?) && (v.Obj? <==> w.Obj?)
    ensures c !in {',', ']', '}', '|', ':'}
  {
  }

  /** The text of one array item, or, if keyed, of one object entry. */
  function PartText(lt: (string, string) -> bool, keyed: bool, f: Field): string {
    if keyed then Quote(f.key) + ":" + Stringify(lt, f.value) else Stringify(lt, f.value)
  }

  function PartTexts(lt: (string, string) -> bool, keyed: bool, parts: seq<Field>): seq<string> {
    seq(|parts|, i requires 0 <= i < |parts| => PartText(lt, keyed, parts[i]))
  }

  function AsParts(items: seq<Json>): seq<Field> {
    seq(|items|, i requires 0 <= i < |items| => Field("", items[i]))
  }

  lemma CompositeText(lt: (string, string) -> bool, v: Json)
    ensures v.Arr? ==> Stringify(lt, v) == "[" + Join(PartTexts(lt, false, AsParts(v.items)), ",") + "]"
    ensures v.Obj? ==> Stringify(lt, v) == "{" + Join(PartTexts(lt, true, Sort(lt, v.fields)), ",") + "}"
  {
    if v.Arr? {
      assert PartTexts(lt, false, AsParts(v.items))
             == seq(|v.items|, i requires 0 <= i < |v.items| => Stringify(lt, v.items[i]));
    }
    if v.Obj? {
      var entries := Sort(lt, v.fields);
      assert PartTexts(lt, true, entries)
          == seq(|entries|, i requires 0 <= i < |entries| => Quote(entries[i].key) + ":"
              + Stringify(lt, entries[i].value));
    }
  }

  /** What follows the first part of a joined list, up to and including the closing character. */
  function AfterFirst(lt: (string, string) -> bool, keyed: bool, parts: seq<Field>, close: char, rest: string): string
    requires parts != []
  {
    if |parts| == 1 then [close] + rest
    else "," + (Join(PartTexts(lt, keyed, parts[1..]), ",") + [close] + rest)
  }

  lemma JoinedParts(lt: (string, string) -> bool, keyed: bool, parts: seq<Field>, close: char, rest: string)
    requires parts != []
    ensures Join(PartTexts(lt, keyed, parts), ",") + [close] + rest
            == PartText(lt, keyed, parts[0]) + AfterFirst(lt, keyed, parts, close, rest)
  {
    var texts := PartTexts(lt, keyed, parts);
    assert texts[1..] == PartTexts(lt, keyed, parts[1..]);
    Regroup(texts[0], Join(texts[1..], ","), [close], rest);
  }

  lemma Regroup(head: string, tail: string, close: string, rest: string)
    ensures head + "," + tail + close + rest == head + ("," + (tail + close + rest))
    ensures head + close + rest == head + (close + rest)
  {
  }

  ghost predicate SameParts(keyed: bool, xs: seq<Field>, ys: seq<Field>) {
    && |xs| == |ys|
    && forall i | 0 <= i < |xs| :: Meaning(xs[i].value) == Meaning(ys[i].value) && (keyed ==> xs[i].key == ys[i].key)
  }

  lemma {:induction false} PartsAreReadable(
    lt: (string, string) -> bool, keyed: bool, owner: Json, xs: seq<Field>, ys: seq<Field>, close: char, x: string,
        y: string)
    requires forall f | f in xs :: f.value < owner && IsClean(f.value)
    requires forall f | f in ys :: IsClean(f.value)
    requires close in {']', '}'}
    requires Join(PartTexts(lt, keyed, xs), ",") + [close] + x == Join(PartTexts(lt, keyed, ys), ",") + [close] + y
    ensures SameParts(keyed, xs, ys) && x == y
    decreases owner, 0, |xs|
  {
    if xs == [] || ys == [] {
      EmptyListIsReadable(lt, keyed, xs, ys, close, x, y);
    } else {
      var rx, ry := AfterFirst(lt, keyed, xs, close, x), AfterFirst(lt, keyed, ys, close, y);
      JoinedParts(lt, keyed, xs, close, x);
      JoinedParts(lt, keyed, ys, close, y);
      PartIsReadable(lt, keyed, owner, xs[0], ys[0], rx, ry);
      AfterFirstIsReadable(lt, keyed, xs, ys, close, x, y);
      if |xs| > 1 {
        PartsAreReadable(lt, keyed, owner, xs[1..], ys[1..], close, x, y);
      }
      SamePartsCons(keyed, xs, ys);
    }
  }

  lemma SamePartsCons(keyed: bool, xs: seq<Field>, ys: seq<Field>)
    requires xs != [] && ys != [] && SameParts(keyed, xs[1..], ys[1..])
    requires Meaning(xs[0].value) == Meaning(ys[0].value) && (keyed ==> xs[0].key == ys[0].key)
    ensures SameParts(keyed, xs, ys)
  {
    assert xs == [xs[0]] + xs[1..] && ys == [ys[0]] + ys[1..];
  }

  lemma AfterFirstIsReadable(
    lt: (string, string) -> bool, keyed: bool, xs: seq<Field>, ys: seq<Field>, close: char, x: string, y: string)
    requires xs != [] && ys != [] && close in {']', '}'}
    requires AfterFirst(lt, keyed, xs, close, x) == AfterFirst(lt, keyed, ys, close, y)
    ensures |xs| == 1 <==> |ys| == 1
    ensures |xs| == 1 ==> x == y
    ensures |xs| > 1 ==>
              Join(PartTexts(lt, keyed, xs[1..]), ",") + [close] + x
                  == Join(PartTexts(lt, keyed, ys[1..]), ",") + [close] + y
  {
    var rx, ry := AfterFirst(lt, keyed, xs, close, x), AfterFirst(lt, keyed, ys, close, y);
    assert rx[0] == ry[0];
    assert rx[1..] == ry[1..];
  }

  lemma EmptyListIsReadable(
    lt: (string, string) -> bool, keyed: bool, xs: seq<Field>, ys: seq<Field>, close: char, x: string, y: string)
    requires (forall f | f in xs :: IsClean(f.value)) && (forall f | f in ys :: IsClean(f.value))
    requires close in {']', '}'} && (xs == [] || ys == [])
    requires Join(PartTexts(lt, keyed, xs), ",") + [close] + x == Join(PartTexts(lt, keyed, ys), ",") + [close] + y
    ensures xs == ys == [] && x == y
  {
    NonEmptyListLead(lt, keyed, xs, close, x);
    NonEmptyListLead(lt, keyed, ys, close, y);
    assert xs == [] ==> Join(PartTexts(lt, keyed, xs), ",") + [close] + x == [close] + x;
    assert ys == [] ==> Join(PartTexts(lt, keyed, ys), ",") + [close] + y == [close] + y;
    assert ([close] + x)[1..] == x && ([close] + y)[1..] == y;
  }

  lemma NonEmptyListLead(lt: (string, string) -> bool, keyed: bool, parts: seq<Field>, close: char, rest: string)
    requires forall f | f in parts :: IsClean(f.value)
    ensures parts != [] ==> (Join(PartTexts(lt, keyed, parts), ",") + [close] + rest)[0] !in {',', ']', '}', '|'}
  {
    if parts != [] {
      assert parts[0] in parts;
      PartLead(lt, keyed, parts[0]);
      JoinedParts(lt, keyed, parts, close, rest);
    }
  }

  lemma PartLead(lt: (string, string) -> bool, keyed: bool, f: Field)
    requires IsClean(f.value)
    ensures PartText(lt, keyed, f) != "" && PartText(lt, keyed, f)[0] !in {',', ']', '}', '|'}
  {
    TextHasLead(lt, f.value);
    LeadTellsConstructor(f.value, f.value, Stringify(lt, f.value)[0]);
  }

  lemma EntryIsReadable(k: string, l: string, s: string, t: string, x: string, y: string)
    requires Quote(k) + ":" + s + x == Quote(l) + ":" + t + y
    ensures k == l && s + x == t + y
  {
    var x', y' := ":" + (s + x), ":" + (t + y);
    assert Quote(k) + ":" + s + x == Quote(k) + x';
    assert Quote(l) + ":" + t + y == Quote(l) + y';
    QuoteIsReadable(k, l, x', y');
    assert x'[1..] == s + x && y'[1..] == t + y;
  }

  lemma {:induction false} PartIsReadable(
    lt: (string, string) -> bool, keyed: bool, owner: Json, f: Field, g: Field, x: string, y: string)
    requires f.value < owner && IsClean(f.value) && IsClean(g.value) && Boundary(x) && Boundary(y)
    requires PartText(lt, keyed, f) + x == PartText(lt, keyed, g) + y
    ensures Meaning(f.value) == Meaning(g.value) && (keyed ==> f.key == g.key) && x == y
    decreases owner, 0, 0
  {
    if keyed {
      EntryIsReadable(f.key, g.key, Stringify(lt, f.value), Stringify(lt, g.value), x, y);
    }
    ValueIsReadable(lt, f.value, g.value, x, y);
  }

  /** A printed value can be read back in one way only: it determines its meaning and where it ends. */
  lemma {:induction false} ValueIsReadable(lt: (string, string) -> bool, v: Json, w: Json, x: string, y: string)
    requires IsClean(v) && IsClean(w) && Boundary(x) && Boundary(y)
    requires Stringify(lt, v) + x == Stringify(lt, w) + y
    ensures Meaning(v) == Meaning(w) && x == y
    decreases v, 1, 0
  {
    var s, t := Stringify(lt, v), Stringify(lt, w);
    TextHasLead(lt, v);
    TextHasLead(lt, w);
    assert (s + x)[0] == s[0] && (t + y)[0] == t[0];
    LeadTellsConstructor(v, w, s[0]);
    if v.Num? {
      NumberIsReadable(v.text, w.text, x, y);
    } else if v.Str? {
      QuoteIsReadable(v.s, w.s, x, y);
    } else if v.Arr? {
      ArrayIsReadable(lt, v, w, x, y);
    } else if v.Obj? {
      ObjectIsReadable(lt, v, w, x, y);
    } else {
      assert s == t;
      assert (s + x)[|s|..] == x && (t + y)[|t|..] == y;
    }
  }

  lemma {:induction false} ArrayIsReadable(lt: (string, string) -> bool, v: Json, w: Json, x: string, y: string)
    requires v.Arr? && w.Arr? && IsClean(v) && IsClean(w)
    requires Stringify(lt, v) + x == Stringify(lt, w) + y
    ensures Meaning(v) == Meaning(w) && x == y
    decreases v, 0, |v.items| + 1
  {
    CompositeText(lt, v);
    CompositeText(lt, w);
    var xs, ys := AsParts(v.items), AsParts(w.items);
    OpenedIsReadable('[', Join(PartTexts(lt, false, xs), ","), Join(PartTexts(lt, false, ys), ","), "]", x, y);
    PartsAreReadable(lt, false, v, xs, ys, ']', x, y);
    assert Meaning(v).items == Meaning(w).items by {
      forall i | 0 <= i < |v.items|
        ensures Meaning(v.items[i]) == Meaning(w.items[i])
      {
        assert xs[i].value == v.items[i] && ys[i].value == w.items[i];
      }
    }
  }

  lemma {:induction false} ObjectIsReadable(lt: (string, string) -> bool, v: Json, w: Json, x: string, y: string)
    requires v.Obj? && w.Obj? && IsClean(v) && IsClean(w)
    requires Stringify(lt, v) + x == Stringify(lt, w) + y
    ensures Meaning(v) == Meaning(w) && x == y
    decreases v, 0, |v.fields| + 1
  {
    CompositeText(lt, v);
    CompositeText(lt, w);
    var xs, ys := Sort(lt, v.fields), Sort(lt, w.fields);
    OpenedIsReadable('{', Join(PartTexts(lt, true, xs), ","), Join(PartTexts(lt, true, ys), ","), "}", x, y);
    PartsAreReadable(lt, true, v, xs, ys, '}', x, y);
    SortKeepsMeaning(lt, v.fields);
    SortKeepsMeaning(lt, w.fields);
    SamePartsSameMeaning(xs, ys);
  }

  lemma OpenedIsReadable(open: char, a: string, b: string, close: string, x: string, y: string)
    requires [open] + a + close + x == [open] + b + close + y
    ensures a + close + x == b + close + y
  {
    assert ([open] + a + close + x)[1..] == a + close + x;
    assert ([open] + b + close + y)[1..] == b + close + y;
  }

  lemma SortKeepsMeaning(lt: (string, string) -> bool, fields: seq<Field>)
    requires DistinctKeys(fields)
    ensures MeaningOfFields(Sort(lt, fields)) == MeaningOfFields(fields)
  {
    SortKeepsDistinct(lt, fields);
    SameFieldsSameMeaning(Sort(lt, fields), fields);
  }

  lemma {:induction false} SamePartsSameMeaning(xs: seq<Field>, ys: seq<Field>)
    requires SameParts(true, xs, ys)
    requires forall i | 0 <= i < |xs| :: !xs[i].value.Undefined? && !ys[i].value.Undefined?
    ensures MeaningOfFields(xs) == MeaningOfFields(ys)
  {
    if xs != [] {
      SamePartsSameMeaning(xs[..|xs| - 1], ys[..|ys| - 1]);
    }
  }

  lemma {:induction false} InsertKeepsDistinct(lt: (string, string) -> bool, fields: seq<Field>, f: Field)
    requires DistinctKeys(fields) && forall g | g in fields :: g.key != f.key
    ensures DistinctKeys(Insert(lt, fields, f))
  {
    if fields != [] && lt(fields[0].key, f.key) {
      InsertKeepsDistinct(lt, fields[1..], f);
      var rest := Insert(lt, fields[1..], f);
      forall g | g in rest
        ensures g.key != fields[0].key
      {
        if g != f {
          var i :| 0 <= i < |fields[1..]| && fields[1..][i] == g;
        }
      }
    }
  }

  lemma {:induction false} SortKeepsDistinct(lt: (string, string) -> bool, fields: seq<Field>)
    requires DistinctKeys(fields)
    ensures DistinctKeys(Sort(lt, fields))
  {
    if fields != [] {
      SortKeepsDistinct(lt, fields[1..]);
      InsertKeepsDistinct(lt, Sort(lt, fields[1..]), fields[0]);
    }
  }
}
