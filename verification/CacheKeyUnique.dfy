/**
 Models createCacheKey of src/services/cache/index.ts: which requests share a cache key.

 The key is five segments joined by bars. The last three can be told apart whatever the addresses hold,
 because no printed value has a bar outside its quotes; the two addresses only as far as their join can.
 */
module CacheKeyUnique {
  import opened CacheKeyOrder
  import opened CacheKeys
  import opened Options

  // ---------- Reading a key from its end ----------

  datatype Quoting = Outside | Inside | Escaped | Broken

  /** One character of a text without bars or backslashes outside its quotes. */
  function ScanChar(state: Quoting, c: char): Quoting {
    match state
    case Outside => if c == '"' then Inside else if c in {'|', '\\'} then Broken else Outside
    case Inside => if c == '"' then Outside else if c == '\\' then Escaped else Inside
    case Escaped => if c == '|' then Broken else Inside
    case Broken => Broken
  }

  function Scan(state: Quoting, s: string): Quoting
    decreases |s|
  {
    if s == "" then state else Scan(ScanChar(state, s[0]), s[1..])
  }

  predicate Sealed(s: string) {
    Scan(Outside, s) == Outside
  }

  lemma {:induction false} ScanAppend(state: Quoting, a: string, b: string)
    ensures Scan(state, a + b) == Scan(Scan(state, a), b)
    decreases |a|
  {
    if a == "" {
      assert a + b == b;
    } else {
      assert (a + b)[1..] == a[1..] + b;
      ScanAppend(ScanChar(state, a[0]), a[1..], b);
    }
  }

  lemma {:induction false} BrokenStays(s: string)
    ensures Scan(Broken, s) == Broken
  {
    if s != "" {
      BrokenStays(s[1..]);
    }
  }

  /** Scanned from inside and from outside a quote, a text that breaks neither scan ends in opposite states. */
  lemma {:induction false} OppositeScans(s: string, outside: bool)
    requires Scan(if outside then Outside else Inside, s) != Broken &&
             Scan(if outside then Inside else Outside, s) != Broken
    ensures Scan(Outside, s) == Inside <==> Scan(Inside, s) == Outside
    ensures Scan(Outside, s) == Outside <==> Scan(Inside, s) == Inside
  {
    if s != "" {
      BrokenStays(s[1..]);
      OppositeScans(s[1..], if s[0] == '"' then !outside else outside);
    }
  }

  /** A sealed text preceded by a bar is no ending of a sealed text. */
  lemma NoSealedEnding(before: string, s: string)
    requires Sealed(s)
    ensures !Sealed(before + ("|" + s))
  {
    var state := Scan(Outside, before);
    ScanAppend(Outside, before, "|" + s);
    assert ("|" + s)[1..] == s;
    BrokenStays(s);
    if Sealed(before + ("|" + s)) {
      OppositeScans(s, true);
    }
  }

  /** The last segment of a key can be told from what precedes it, even if that holds bars and quotes. */
  lemma LastSegmentIsReadable(a: string, b: string, s: string, t: string)
    requires Sealed(s) && Sealed(t) && a + ("|" + s) == b + ("|" + t)
    ensures a == b && s == t
  {
    if |s| > |t| {
      ShorterIsEnding(b, a, t, s);
    } else if |s| < |t| {
      ShorterIsEnding(a, b, s, t);
    } else {
      var k, l := a + ("|" + s), b + ("|" + t);
      assert k[|a| + 1..] == s && l[|b| + 1..] == t;
      assert k[..|a|] == a && l[..|b|] == b;
    }
  }

  lemma ShorterIsEnding(a: string, b: string, s: string, t: string)
    requires |s| < |t| && a + ("|" + s) == b + ("|" + t)
    ensures !(Sealed(s) && Sealed(t))
  {
    var k := a + ("|" + s);
    var n := |t| - |s| - 1;
    assert t == k[|b| + 1..];
    assert s == k[|a| + 1..] == t[n + 1..];
    assert k[|a|] == '|' && t[n] == k[|b| + 1 + n];
    assert t == t[..n] + ("|" + s);
    if Sealed(s) {
      NoSealedEnding(t[..n], s);
    }
  }

  // ---------- Printed values are sealed ----------

  lemma SealedAppend(a: string, b: string)
    requires Sealed(a) && Sealed(b)
    ensures Sealed(a + b)
  {
    ScanAppend(Outside, a, b);
  }

  predicate IsPlain(c: char) {
    c != '"' && c != '|' && c != '\\'
  }

  lemma {:induction false} PlainIsSealed(s: string)
    requires forall c | c in s :: IsPlain(c)
    ensures Sealed(s)
  {
    if s != "" {
      assert s == [s[0]] + s[1..] && s[0] in s;
      PlainIsSealed(s[1..]);
    }
  }

  lemma {:induction false} PlainStaysInside(s: string)
    requires forall c | c in s :: IsPlain(c)
    ensures Scan(Inside, s) == Inside
  {
    if s != "" {
      assert s == [s[0]] + s[1..] && s[0] in s;
      PlainStaysInside(s[1..]);
    }
  }

  lemma EscapeStaysInside(c: char)
    ensures Scan(Inside, Escape(c)) == Inside
  {
    var e := Escape(c);
    if e[0] != '\\' {
      assert e == [c];
    } else {
      var n := c as int;
      var rest := if |e| == 2 then "" else "00" + [HexDigit(n / 16), HexDigit(n % 16)];
      assert e == ['\\'] + ([e[1]] + rest);
      EscapedPair(e[1], rest);
    }
  }

  lemma EscapedPair(c: char, rest: string)
    requires c != '|' && forall d | d in rest :: IsPlain(d)
    ensures Scan(Inside, ['\\'] + ([c] + rest)) == Inside
  {
    var s := ['\\'] + ([c] + rest);
    assert s[1..] == [c] + rest && s[1..][1..] == rest;
    PlainStaysInside(rest);
  }

  lemma {:induction false} EscapedStaysInside(s: string)
    ensures Scan(Inside, EscapeAll(s)) == Inside
  {
    if s != "" {
      EscapeStaysInside(s[0]);
      EscapedStaysInside(s[1..]);
      ScanAppend(Inside, Escape(s[0]), EscapeAll(s[1..]));
    }
  }

  lemma QuoteIsSealed(s: string)
    ensures Sealed(Quote(s))
  {
    EscapedStaysInside(s);
    ScanAppend(Inside, EscapeAll(s), "\"");
    assert Quote(s)[1..] == EscapeAll(s) + "\"";
    assert "\""[1..] == "";
  }

  lemma {:induction false} JoinIsSealed(parts: seq<string>)
    requires forall i | 0 <= i < |parts| :: Sealed(parts[i])
    ensures Sealed(Join(parts, ","))
  {
    if |parts| > 1 {
      JoinIsSealed(parts[1..]);
      PlainIsSealed(",");
      SealedAppend(parts[0], ",");
      SealedAppend(parts[0] + ",", Join(parts[1..], ","));
    }
  }

  lemma {:induction false} ValueIsSealed(lt: (string, string) -> bool, v: Json)
    requires IsClean(v)
    ensures Sealed(Stringify(lt, v))
    decreases v, 1
  {
    match v
    case Null => PlainIsSealed("null");
    case Bool(flag) => PlainIsSealed(if flag then "true" else "false");
    case Num(text) => PlainIsSealed(text);
    case Str(s) => QuoteIsSealed(s);
    case Arr(items) =>
      CompositeText(lt, v);
      PartsAreSealed(lt, false, v, AsParts(items), "[", "]");
    case Obj(fields) =>
      CompositeText(lt, v);
      PartsAreSealed(lt, true, v, Sort(lt, fields), "{", "}");
  }

  lemma {:induction false} PartsAreSealed(lt: (string, string) -> bool, keyed: bool, owner: Json, parts: seq<Field>,
      open: string, close: string)
    requires forall f | f in parts :: f.value < owner && IsClean(f.value)
    requires open in {"[", "{"} && close in {"]", "}"}
    ensures Sealed(open + Join(PartTexts(lt, keyed, parts), ",") + close)
    decreases owner, 0
  {
    forall i | 0 <= i < |parts|
      ensures Sealed(PartText(lt, keyed, parts[i]))
    {
      assert parts[i] in parts;
      ValueIsSealed(lt, parts[i].value);
      if keyed {
        EntryIsSealed(parts[i].key, Stringify(lt, parts[i].value));
      }
    }
    hide PartText;
    JoinIsSealed(PartTexts(lt, keyed, parts));
    PlainIsSealed(open);
    PlainIsSealed(close);
    SealedAppend(open, Join(PartTexts(lt, keyed, parts), ","));
    SealedAppend(open + Join(PartTexts(lt, keyed, parts), ","), close);
  }

  lemma EntryIsSealed(key: string, text: string)
    requires Sealed(text)
    ensures Sealed(Quote(key) + ":" + text)
  {
    QuoteIsSealed(key);
    PlainIsSealed(":");
    SealedAppend(Quote(key), ":");
    SealedAppend(Quote(key) + ":", text);
  }

  // ---------- Requests ----------

  /** A request as callers make it: JSON values and a numeric port; any text may be an address. */
  ghost predicate IsRequest(parts: CacheKeyParts) {
    && (parts.targetPort.Some? ==> IsNumberText(parts.targetPort.value))
    && (parts.payload.Undefined? || IsJson(parts.payload))
    && (parts.extra.Undefined? || IsJson(parts.extra))
  }

  /** Two requests ask for the same thing: payload and extra agree up to key order and undefined fields. */
  ghost predicate SameRequest(p: CacheKeyParts, q: CacheKeyParts) {
    && p.address == q.address
    && p.targetAddress == q.targetAddress
    && p.targetPort == q.targetPort
    && SameContent(p, q)
  }

  /** No payload and a null one count as the empty object, and no extra as null. */
  ghost predicate SameContent(p: CacheKeyParts, q: CacheKeyParts) {
    && PayloadMeaning(p.payload) == PayloadMeaning(q.payload)
    && (if p.extra.Undefined? then VNull else Meaning(p.extra))
       == (if q.extra.Undefined? then VNull else Meaning(q.extra))
  }

  ghost function PayloadMeaning(payload: Json): Value {
    if payload.Undefined? || payload.Null? then VObj(map[]) else Meaning(payload)
  }

  /** The address and the target as they stand in the key. */
  function Route(p: CacheKeyParts): string {
    p.address + ("|" + OrDefault(p.targetAddress))
  }

  function PayloadText(lt: (string, string) -> bool, p: CacheKeyParts): string {
    Stringify(lt, Sanitise(PayloadOf(p)))
  }

  function ExtraText(lt: (string, string) -> bool, p: CacheKeyParts): string {
    Stringify(lt, Sanitise(ExtraOf(p)))
  }

  /** No object of payload or extra holds two keys that tie. */
  ghost predicate ContentUntied(lt: (string, string) -> bool, p: CacheKeyParts) {
    Untied(lt, Sanitise(PayloadOf(p))) && Untied(lt, Sanitise(ExtraOf(p)))
  }

  lemma KeyText(lt: (string, string) -> bool, p: CacheKeyParts)
    ensures CreateCacheKey(lt, p)
            == ((Route(p) + ("|" + OrDefault(p.targetPort))) + ("|" + PayloadText(lt, p))) + ("|" + ExtraText(lt, p))
  {
    var payload, extra := PayloadText(lt, p), ExtraText(lt, p);
    var target, port := OrDefault(p.targetAddress), OrDefault(p.targetPort);
    assert CreateCacheKey(lt, p) == Join([p.address, target, port, payload, extra], "|");
    hide CreateCacheKey, PayloadText, ExtraText, Join;
    FiveSegments(p.address, target, port, payload, extra);
  }

  lemma FiveSegments(a: string, b: string, c: string, d: string, e: string)
    ensures Join([a, b, c, d, e], "|") == (((a + ("|" + b)) + ("|" + c)) + ("|" + d)) + ("|" + e)
  {
    assert [a, b, c, d, e][1..] == [b, c, d, e] && [b, c, d, e][1..] == [c, d, e] && [c, d, e][1..] == [d, e] &&
           [d, e][1..] == [e];
    assert Join([d, e], "|") == d + "|" + e;
    assert Join([c, d, e], "|") == c + "|" + (d + "|" + e);
    assert Join([b, c, d, e], "|") == b + "|" + (c + "|" + (d + "|" + e));
    assert Join([a, b, c, d, e], "|") == a + "|" + (b + "|" + (c + "|" + (d + "|" + e)));
  }

  lemma PortIsSealed(port: Option<string>)
    requires port.Some? ==> IsNumberText(port.value)
    ensures Sealed(OrDefault(port)) && (port.Some? ==> port.value != "default")
  {
    assert "default"[0] == 'd' && 'd' in "default";
    PlainIsSealed(OrDefault(port));
  }

  lemma ContentIsSealed(lt: (string, string) -> bool, p: CacheKeyParts)
    requires IsRequest(p)
    ensures IsClean(Sanitise(PayloadOf(p))) && Meaning(Sanitise(PayloadOf(p))) == Meaning(PayloadOf(p))
    ensures IsClean(Sanitise(ExtraOf(p))) && Meaning(Sanitise(ExtraOf(p))) == Meaning(ExtraOf(p))
    ensures Sealed(PayloadText(lt, p)) && Sealed(ExtraText(lt, p))
  {
    hide Stringify, Sanitise;
    SanitiseKeepsMeaning(PayloadOf(p));
    SanitiseKeepsMeaning(ExtraOf(p));
    ValueIsSealed(lt, Sanitise(PayloadOf(p)));
    ValueIsSealed(lt, Sanitise(ExtraOf(p)));
  }

  // ---------- Which requests share a key ----------

  /** Any two requests: their keys agree exactly when the five segments do, the two addresses taken together. */
  lemma KeysAgreeIff(lt: (string, string) -> bool, p: CacheKeyParts, q: CacheKeyParts)
    requires IsRequest(p) && IsRequest(q)
    ensures CreateCacheKey(lt, p) == CreateCacheKey(lt, q) <==>
              && Route(p) == Route(q) && p.targetPort == q.targetPort
              && PayloadText(lt, p) == PayloadText(lt, q) && ExtraText(lt, p) == ExtraText(lt, q)
  {
    hide Stringify, Sanitise, PayloadText, ExtraText, Route, Sealed, CreateCacheKey;
    KeyText(lt, p);
    KeyText(lt, q);
    if CreateCacheKey(lt, p) == CreateCacheKey(lt, q) {
      ContentIsSealed(lt, p);
      ContentIsSealed(lt, q);
      PortIsSealed(p.targetPort);
      PortIsSealed(q.targetPort);
      var p1, q1 := Route(p) + ("|" + OrDefault(p.targetPort)), Route(q) + ("|" + OrDefault(q.targetPort));
      LastSegmentIsReadable(p1 + ("|" + PayloadText(lt, p)), q1 + ("|" + PayloadText(lt, q)), ExtraText(lt, p),
          ExtraText(lt, q));
      LastSegmentIsReadable(p1, q1, PayloadText(lt, p), PayloadText(lt, q));
      LastSegmentIsReadable(Route(p), Route(q), OrDefault(p.targetPort), OrDefault(q.targetPort));
    }
  }

  /** Equal texts mean equal content, and the other way round if no keys tie. */
  lemma ContentAgrees(lt: (string, string) -> bool, p: CacheKeyParts, q: CacheKeyParts)
    requires IsRequest(p) && IsRequest(q)
    ensures PayloadText(lt, p) == PayloadText(lt, q) && ExtraText(lt, p) == ExtraText(lt, q) ==> SameContent(p, q)
    ensures StrictWeakOrder(lt) && ContentUntied(lt, p) && SameContent(p, q) ==>
              PayloadText(lt, p) == PayloadText(lt, q) && ExtraText(lt, p) == ExtraText(lt, q)
  {
    hide Stringify, Sanitise, Sealed, Untied, StrictWeakOrder, IsClean;
    ContentIsSealed(lt, p);
    ContentIsSealed(lt, q);
    if PayloadText(lt, p) == PayloadText(lt, q) && ExtraText(lt, p) == ExtraText(lt, q) {
      ValueIsReadable(lt, Sanitise(PayloadOf(p)), Sanitise(PayloadOf(q)), "", "");
      ValueIsReadable(lt, Sanitise(ExtraOf(p)), Sanitise(ExtraOf(q)), "", "");
    }
    if StrictWeakOrder(lt) && ContentUntied(lt, p) && SameContent(p, q) {
      SameMeaningSameText(lt, Sanitise(PayloadOf(p)), Sanitise(PayloadOf(q)));
      SameMeaningSameText(lt, Sanitise(ExtraOf(p)), Sanitise(ExtraOf(q)));
    }
  }

  /** Neither the address nor the target, if there is one, holds a bar. */
  predicate HasNoBar(p: CacheKeyParts) {
    '|' !in p.address && '|' !in OrDefault(p.targetAddress)
  }

  /** In addition, the target does not read as a missing one does. */
  predicate IsPlainlyAddressed(p: CacheKeyParts) {
    HasNoBar(p) && OrDefault(p.targetAddress) != "default"
  }

  /** The address is the same, and the target is, where a missing one counts as `default`. */
  predicate SameEndpoint(p: CacheKeyParts, q: CacheKeyParts) {
    p.address == q.address && OrDefault(p.targetAddress) == OrDefault(q.targetAddress)
  }

  predicate AddressTold(p: CacheKeyParts, q: CacheKeyParts) {
    p.address == q.address && p.targetAddress == q.targetAddress
  }

  lemma OneBar(a: string, b: string, i: nat)
    requires '|' !in a && '|' !in b && i < |a| + 1 + |b|
    ensures (a + ("|" + b))[i] == '|' <==> i == |a|
  {
    var k := a + ("|" + b);
    assert i < |a| ==> k[i] == a[i] && a[i] in a;
    assert i > |a| ==> k[i] == b[i - |a| - 1] && b[i - |a| - 1] in b;
  }

  /** Texts that agree and hold a bar hold their first bar in the same place. */
  lemma FirstBar(a: string, b: string, x: string, y: string)
    requires '|' !in a && '|' !in b && a + ("|" + x) == b + ("|" + y)
    ensures a == b && x == y
  {
    var s, t := a + ("|" + x), b + ("|" + y);
    assert s[|a|] == '|' && t[|b|] == '|';
    assert s[..|a|] == a && t[..|b|] == b && s[|a| + 1..] == x && t[|b| + 1..] == y;
  }

  /** A route without further bars can be split at its bar. */
  lemma RouteIsReadable(p: CacheKeyParts, q: CacheKeyParts)
    requires HasNoBar(p) && Route(p) == Route(q)
    ensures SameEndpoint(p, q)
  {
    var k, n := Route(q), |q.address|;
    assert k[n] == '|';
    OneBar(p.address, OrDefault(p.targetAddress), n);
    forall i | 0 <= i < n
      ensures q.address[i] != '|'
    {
      assert k[i] == q.address[i];
      OneBar(p.address, OrDefault(p.targetAddress), i);
    }
    FirstBar(p.address, q.address, OrDefault(p.targetAddress), OrDefault(q.targetAddress));
  }

  lemma Regroup3(a: string, b: string, c: string)
    ensures (a + ("|" + b)) + ("|" + c) == a + ("|" + (b + ("|" + c)))
  {
  }

  lemma CutAtBar(s: string) returns (before: string, after: string)
    requires '|' in s
    ensures s == before + ("|" + after)
  {
    var n :| 0 <= n < |s| && s[n] == '|';
    before, after := s[..n], s[n + 1..];
  }

  /** Any other request shares its route with one that is addressed differently. */
  lemma OtherRoute(p: CacheKeyParts) returns (q: CacheKeyParts)
    requires !IsPlainlyAddressed(p)
    ensures Route(q) == Route(p) && !AddressTold(p, q)
    ensures q.payload == p.payload && q.extra == p.extra && q.targetPort == p.targetPort
  {
    var target := OrDefault(p.targetAddress);
    if '|' in p.address {
      var before, after := CutAtBar(p.address);
      q := p.(address := before, targetAddress := Some(after + ("|" + target)));
      Regroup3(before, after, target);
    } else if '|' in target {
      var before, after := CutAtBar(target);
      q := p.(address := p.address + ("|" + before), targetAddress := Some(after));
      Regroup3(p.address, before, after);
    } else {
      q := p.(targetAddress := if p.targetAddress.None? then Some("default") else None);
    }
  }

  /** A request shares its key with no other request exactly when it is plainly addressed. */
  lemma KeyIsUniqueIff(lt: (string, string) -> bool, p: CacheKeyParts)
    requires IsRequest(p)
    ensures IsPlainlyAddressed(p) <==>
              forall q | IsRequest(q) && CreateCacheKey(lt, q) == CreateCacheKey(lt, p) :: SameRequest(p, q)
  {
    hide CreateCacheKey, PayloadText, ExtraText, Route;
    if IsPlainlyAddressed(p) {
      hide IsPlainlyAddressed;
      forall q | IsRequest(q) && CreateCacheKey(lt, q) == CreateCacheKey(lt, p)
        ensures SameRequest(p, q)
      {
        KeysAgreeIff(lt, p, q);
        RouteIsReadable(p, q);
        ContentAgrees(lt, p, q);
      }
    } else {
      var q := OtherRoute(p);
      SameContentSameText(lt, p, q);
      KeysAgreeIff(lt, p, q);
    }
  }

  lemma SameContentSameText(lt: (string, string) -> bool, p: CacheKeyParts, q: CacheKeyParts)
    requires q.payload == p.payload && q.extra == p.extra
    ensures PayloadText(lt, p) == PayloadText(lt, q) && ExtraText(lt, p) == ExtraText(lt, q)
  {
  }

  /** A request gets one key however it is written exactly when no object in it holds two keys that tie. */
  lemma KeyIsCanonicalIff(lt: (string, string) -> bool, p: CacheKeyParts)
    requires StrictWeakOrder(lt) && IsRequest(p)
    ensures ContentUntied(lt, p) <==>
              forall q | IsRequest(q) && SameRequest(p, q) :: CreateCacheKey(lt, q) == CreateCacheKey(lt, p)
  {
    hide CreateCacheKey, PayloadText, ExtraText, StrictWeakOrder;
    if ContentUntied(lt, p) {
      forall q | IsRequest(q) && SameRequest(p, q)
        ensures CreateCacheKey(lt, q) == CreateCacheKey(lt, p)
      {
        KeysAgreeIff(lt, p, q);
        ContentAgrees(lt, p, q);
      }
    } else {
      var q := OtherText(lt, p);
      KeysAgreeIff(lt, p, q);
    }
  }

  lemma OtherText(lt: (string, string) -> bool, p: CacheKeyParts) returns (q: CacheKeyParts)
    requires StrictWeakOrder(lt) && IsRequest(p) && !ContentUntied(lt, p)
    ensures IsRequest(q) && SameRequest(p, q)
    ensures PayloadText(lt, q) != PayloadText(lt, p) || ExtraText(lt, q) != ExtraText(lt, p)
  {
    hide StrictWeakOrder, Stringify, Sanitise, Untied;
    ContentIsSealed(lt, p);
    if !Untied(lt, Sanitise(PayloadOf(p))) {
      var w := TiedTwin(lt, Sanitise(PayloadOf(p)));
      CleanIsSanitised(w);
      q := p.(payload := w);
    } else {
      var w := TiedTwin(lt, Sanitise(ExtraOf(p)));
      CleanIsSanitised(w);
      q := p.(extra := w);
    }
  }

  lemma {:induction false} CleanIsSanitised(v: Json)
    requires IsClean(v)
    ensures Sanitise(v) == v && IsJson(v)
    decreases v, 0
  {
    match v
    case Arr(items) =>
      forall i | 0 <= i < |items|
        ensures Sanitise(items[i]) == items[i] && IsJson(items[i])
      {
        CleanIsSanitised(items[i]);
      }
    case Obj(fields) =>
      CleanFieldsAreSanitised(fields);
    case _ =>
  }

  lemma {:induction false} CleanFieldsAreSanitised(fields: seq<Field>)
    requires forall i | 0 <= i < |fields| :: IsClean(fields[i].value)
    ensures SanitiseFields(fields) == fields
    ensures forall i | 0 <= i < |fields| :: IsJson(fields[i].value)
    decreases fields, 0
  {
    if fields != [] {
      var n := |fields| - 1;
      CleanFieldsAreSanitised(fields[..n]);
      CleanIsSanitised(fields[n].value);
      assert fields == fields[..n] + [fields[n]];
    }
  }

  /**
   The key of a request without bars and ties tells exactly what is asked for: another request has it if and only
   if it goes to the same endpoint and its payload and extra mean the same.
   */
  lemma CacheKeyIsCanonical(lt: (string, string) -> bool, p: CacheKeyParts, q: CacheKeyParts)
    requires StrictWeakOrder(lt) && IsRequest(p) && IsRequest(q) && HasNoBar(p) && ContentUntied(lt, p)
    ensures CreateCacheKey(lt, p) == CreateCacheKey(lt, q) <==>
              SameEndpoint(p, q) && p.targetPort == q.targetPort && SameContent(p, q)
  {
    KeysAgreeIff(lt, p, q);
    ContentAgrees(lt, p, q);
    hide CreateCacheKey, PayloadText, ExtraText, HasNoBar, StrictWeakOrder;
    if Route(p) == Route(q) {
      RouteIsReadable(p, q);
    }
  }

  /** So two requests that do not spell the missing target out share a key only if they are the same request. */
  lemma UnspelledKeyIsCanonical(lt: (string, string) -> bool, p: CacheKeyParts, q: CacheKeyParts)
    requires StrictWeakOrder(lt) && IsRequest(p) && IsRequest(q) && HasNoBar(p) && ContentUntied(lt, p)
    requires p.targetAddress != Some("default") && q.targetAddress != Some("default")
    ensures CreateCacheKey(lt, p) == CreateCacheKey(lt, q) <==> SameRequest(p, q)
  {
    CacheKeyIsCanonical(lt, p, q);
    hide CreateCacheKey, ContentUntied, StrictWeakOrder, SameContent;
  }
}
