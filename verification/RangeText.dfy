/**
 Models normaliseRangeString, parseIntegerToken, parseNumberRangeString and isNumberRangeStringValid
 of src/utils/validators.ts. Every regular-expression replacement is a function over the text.
 */
module RangeText {
  import opened Options

  /** The numbers from lo to hi. */
  datatype Interval = Interval(lo: int, hi: int)

  // ---------- Character classes ----------

  /** What \s and trim() treat as white space. */
  predicate IsSpace(c: char) {
    var n := c as int;
    n == 0x20 || 9 <= n <= 13 || n == 0xA0 || n == 0x1680 || 0x2000 <= n <= 0x200A || n == 0x2028 || n == 0x2029
    || n == 0x202F || n == 0x205F || n == 0x3000 || n == 0xFEFF
  }

  predicate IsDigit(c: char) {
    '0' <= c <= '9'
  }

  predicate IsWordChar(c: char) {
    IsDigit(c) || 'a' <= c <= 'z' || 'A' <= c <= 'Z' || c == '_'
  }

  function LowerChar(c: char): char {
    if 'A' <= c <= 'Z' then (c as int + 32) as char else c
  }

  function Lower(s: string): string {
    seq(|s|, i requires 0 <= i < |s| => LowerChar(s[i]))
  }

  predicate AllDigits(s: string) {
    forall c | c in s :: IsDigit(c)
  }

  predicate AllSpaces(s: string) {
    forall c | c in s :: IsSpace(c)
  }

  // ---------- The replacements of normaliseRangeString ----------

  /** Typographic dashes become hyphens. */
  function PlainDashes(s: string): string {
    seq(|s|, i requires 0 <= i < |s| => if s[i] as int in {0x2013, 0x2014, 0x2212} then '-' else s[i])
  }

  /** How many characters of s belong to the word it starts with. */
  function WordLength(s: string): (n: nat)
    ensures n <= |s| && (s != "" && IsWordChar(s[0]) ==> n > 0)
  {
    if s == "" || !IsWordChar(s[0]) then 0 else 1 + WordLength(s[1..])
  }

  /** Whole words from the list, in any case, are replaced. */
  function ReplaceWords(s: string, words: set<string>, replacement: string): string
    decreases |s|
  {
    if s == "" then ""
    else if !IsWordChar(s[0]) then [s[0]] + ReplaceWords(s[1..], words, replacement)
    else
      var n := WordLength(s);
      (if Lower(s[..n]) in words then replacement else s[..n]) + ReplaceWords(s[n..], words, replacement)
  }

  const RANGE_WORDS: set<string> := {"thru", "through", "to", "jusqua", "a"}

  /** The two spellings of the range mark that span two words; the length of the match, or 0. */
  function SpelledOutMark(s: string): (n: nat)
    ensures n <= |s|
  {
    var n := WordLength(s);
    if n < |s| && ((Lower(s[..n]) == "jusqu" && s[n] == '\'') || (Lower(s[..n]) == "jusque" && s[n] == ' ')) then
      var m := WordLength(s[n + 1..]);
      if Lower(s[n + 1..][..m]) == "a" then n + 1 + m else 0
    else 0
  }

  function ReplaceRangeMarks(s: string): string
    decreases |s|
  {
    if s == "" then ""
    else if !IsWordChar(s[0]) then [s[0]] + ReplaceRangeMarks(s[1..])
    else if SpelledOutMark(s) > 0 then "-" + ReplaceRangeMarks(s[SpelledOutMark(s)..])
    else
      var n := WordLength(s);
      (if Lower(s[..n]) in RANGE_WORDS then "-" else s[..n]) + ReplaceRangeMarks(s[n..])
  }

  predicate IsListSeparator(c: char) {
    c in {';', '|', '/', '+'} || c as int == 0xFF0B
  }

  function SkipListSeparators(s: string): (r: string)
    ensures |r| <= |s|
  {
    if s != "" && IsListSeparator(s[0]) then SkipListSeparators(s[1..]) else s
  }

  /** Each run of list separators becomes one comma. */
  function CommasForSeparators(s: string): string
    decreases |s|
  {
    if s == "" then ""
    else if IsListSeparator(s[0]) then "," + CommasForSeparators(SkipListSeparators(s[1..]))
    else [s[0]] + CommasForSeparators(s[1..])
  }

  function SkipSpaces(s: string): (r: string)
    ensures |r| <= |s| && (r != "" ==> !IsSpace(r[0]))
  {
    if s != "" && IsSpace(s[0]) then SkipSpaces(s[1..]) else s
  }

  /** White space around every occurrence of mark disappears. */
  function TightenAround(s: string, mark: char): string
    decreases |s|
  {
    if s == "" then ""
    else if s[0] == mark then [mark] + TightenAround(SkipSpaces(s[1..]), mark)
    else if IsSpace(s[0]) && SkipSpaces(s) != "" && SkipSpaces(s)[0] == mark then
      assert |SkipSpaces(s)| == |SkipSpaces(s[1..])| < |s|;
      TightenAround(SkipSpaces(s), mark)
    else [s[0]] + TightenAround(s[1..], mark)
  }

  function CollapseSpaces(s: string): string
    decreases |s|
  {
    if s == "" then ""
    else if IsSpace(s[0]) then " " + CollapseSpaces(SkipSpaces(s))
    else [s[0]] + CollapseSpaces(s[1..])
  }

  function TrimEnd(s: string): string {
    if s != "" && IsSpace(s[|s| - 1]) then TrimEnd(s[..|s| - 1]) else s
  }

  function Trim(s: string): string {
    TrimEnd(SkipSpaces(s))
  }

  function NormaliseRangeString(input: string): string {
    Trim(CollapseSpaces(TightenAround(TightenAround(CommasForSeparators(
      ReplaceWords(ReplaceRangeMarks(PlainDashes(input)), {"et", "and", "with"}, ",")), ','), '-')))
  }

  const DEFAULT_ALIAS_TOKENS: set<string> :=
    {"chan", "channel", "channels", "ch", "cue", "cues", "list", "cuelist", "palette", "preset", "address",
        "addresses", "addr"}

  function StripRangeAliases(input: string): string {
    ReplaceWords(NormaliseRangeString(input), DEFAULT_ALIAS_TOKENS, " ")
  }

  function Split(s: string, mark: char): (parts: seq<string>)
    ensures parts != []
  {
    if s == "" then [""]
    else
      var rest := Split(s[1..], mark);
      if s[0] == mark then [""] + rest else [[s[0]] + rest[0]] + rest[1..]
  }

  function TrimmedParts(parts: seq<string>): seq<string> {
    if parts == [] then []
    else (if Trim(parts[0]) == "" then [] else [Trim(parts[0])]) + TrimmedParts(parts[1..])
  }

  /** The comma-separated parts both the parser and the validator look at. */
  function Parts(input: string): seq<string> {
    TrimmedParts(Split(StripRangeAliases(input), ','))
  }

  // ---------- Reading one part ----------

  function DigitsToNat(s: string): nat
    requires AllDigits(s)
  {
    if s == "" then 0
    else
      assert s[|s| - 1] in s;
      DigitsToNat(s[..|s| - 1]) * 10 + (s[|s| - 1] as int - '0' as int)
  }

  predicate IsSignedNumber(s: string, signs: set<char>) {
    (AllDigits(s) && s != "") || (|s| > 1 && s[0] in signs && AllDigits(s[1..]))
  }

  /** parseIntegerToken; the token is a signed decimal number, or nothing. */
  function ParseIntegerToken(token: string): Option<int> {
    var cleaned := Trim(token);
    if !IsSignedNumber(cleaned, {'+', '-'}) then None
    else if AllDigits(cleaned) then Some(DigitsToNat(cleaned))
    else if cleaned[0] == '-' then Some(0 - DigitsToNat(cleaned[1..]))
    else Some(DigitsToNat(cleaned[1..]))
  }

  function DigitCount(s: string): (n: nat)
    ensures n <= |s| && AllDigits(s[..n]) && (n < |s| ==> !IsDigit(s[n]))
  {
    if s == "" || !IsDigit(s[0]) then 0
    else
      var n := 1 + DigitCount(s[1..]);
      assert s[..n] == [s[0]] + s[1..][..n - 1];
      n
  }

  /** The length of the signed number s starts with, or 0. */
  function NumberLength(s: string): (n: nat)
    ensures n <= |s| && (n > 0 ==> IsSignedNumber(s[..n], {'-'}))
  {
    if s != "" && s[0] == '-' then
      var n := DigitCount(s[1..]);
      assert s[..n + 1][1..] == s[1..][..n];
      if n > 0 then n + 1 else 0
    else DigitCount(s)
  }

  /** The two numbers of a part of the form number - number. */
  function MatchRange(part: string): Option<(string, string)> {
    var n := NumberLength(part);
    var afterFirst := SkipSpaces(part[n..]);
    if n == 0 || afterFirst == "" || afterFirst[0] != '-' then None
    else
      var second := SkipSpaces(afterFirst[1..]);
      if second == "" || NumberLength(second) != |second| then None else Some((part[..n], second))
  }

  /** What a part denotes: a range in either order, a single number, or nothing. */
  function ReadPart(part: string): (r: Option<Interval>)
    ensures r.Some? ==> r.value.lo <= r.value.hi
  {
    var matched := MatchRange(part);
    if matched.Some? then
      var start, end := ParseIntegerToken(matched.value.0), ParseIntegerToken(matched.value.1);
      if start.None? || end.None? then None
      else if start.value <= end.value then Some(Interval(start.value, end.value))
      else Some(Interval(end.value, start.value))
    else
      var value := ParseIntegerToken(part);
      if value.None? then None else Some(Interval(value.value, value.value))
  }

  // ---------- The parser and the validator ----------

  ghost predicate Increasing(values: seq<int>) {
    forall i, j | 0 <= i < j < |values| :: values[i] < values[j]
  }

  ghost predicate Denotes(part: string, v: int) {
    ReadPart(part).Some? && ReadPart(part).value.lo <= v <= ReadPart(part).value.hi
  }

  ghost predicate InUnion(parts: seq<string>, v: int) {
    exists part :: part in parts && Denotes(part, v)
  }

  /** v is in some part, and within the bounds. */
  ghost predicate InClippedUnion(parts: seq<string>, min: int, max: int, v: int) {
    min <= v <= max && exists part :: part in parts && Denotes(part, v)
  }

  function InsertSorted(values: seq<int>, v: int): seq<int> {
    if values == [] then [v]
    else if v < values[0] then [v] + values
    else [values[0]] + InsertSorted(values[1..], v)
  }

  predicate Distinct(values: seq<int>) {
    forall i, j | 0 <= i < j < |values| :: values[i] != values[j]
  }

  /** sort((a, b) => a - b) on the distinct numbers of a set. */
  function SortDistinct(values: seq<int>): seq<int> {
    if values == [] then [] else InsertSorted(SortDistinct(values[1..]), values[0])
  }

  lemma {:induction false} InsertKeepsMembers(values: seq<int>, v: int)
    ensures forall x :: x in InsertSorted(values, v) <==> x in values || x == v
  {
    if values != [] {
      assert values == [values[0]] + values[1..];
      InsertKeepsMembers(values[1..], v);
    }
  }

  lemma {:induction false} InsertKeepsIncreasing(values: seq<int>, v: int)
    requires Increasing(values) && v !in values
    ensures Increasing(InsertSorted(values, v))
  {
    if values != [] && values[0] <= v {
      InsertKeepsIncreasing(values[1..], v);
      InsertKeepsMembers(values[1..], v);
      IncreasingCons(values[0], InsertSorted(values[1..], v));
    }
  }

  lemma IncreasingCons(first: int, rest: seq<int>)
    requires Increasing(rest) && forall x | x in rest :: first < x
    ensures Increasing([first] + rest)
  {
    assert forall j | 0 <= j < |rest| :: rest[j] in rest;
  }

  lemma {:induction false} SortDistinctSorts(values: seq<int>)
    requires Distinct(values)
    ensures Increasing(SortDistinct(values))
    ensures forall x :: x in SortDistinct(values) <==> x in values
  {
    if values != [] {
      assert values == [values[0]] + values[1..];
      SortDistinctSorts(values[1..]);
      InsertKeepsMembers(SortDistinct(values[1..]), values[0]);
      InsertKeepsIncreasing(SortDistinct(values[1..]), values[0]);
    }
  }

  method ParseNumberRangeString(input: string, min: int, max: int) returns (numbers: seq<int>)
    ensures Increasing(numbers)
    ensures forall v :: v in numbers <==> InClippedUnion(Parts(input), min, max, v)
    ensures IsNumberRangeStringValid(input, min, max) ==>
              numbers != [] && forall v :: v in numbers <==> InUnion(Parts(input), v)
  {
    hide Parts, ReadPart, IsNumberRangeStringValid, InUnion;
    var parts := Parts(input);
    var result: seq<int> := [];
    for k := 0 to |parts|
      invariant Distinct(result)
      invariant forall v :: v in result <==> InClippedUnion(parts[..k], min, max, v)
    {
      ghost var before := result;
      var part := parts[k];
      OnePartMore(parts, k, min, max);
      var read := ReadPart(part);
      if read.Some? {
        for value := read.value.lo to read.value.hi + 1
          invariant Distinct(result)
          invariant forall v :: v in result <==> v in before || (min <= v <= max && read.value.lo <= v < value)
        {
          if min <= value <= max && value !in result {
            result := result + [value];
          }
        }
      }
      assert forall v :: v in result <==> v in before || (min <= v <= max && Denotes(part, v));
    }
    assert parts[..|parts|] == parts;
    SortDistinctSorts(result);
    numbers := SortDistinct(result);
    if IsNumberRangeStringValid(input, min, max) {
      ValidMeansExact(input, min, max);
    }
  }

  lemma OnePartMore(parts: seq<string>, k: nat, min: int, max: int)
    requires k < |parts|
    ensures forall v :: InClippedUnion(parts[..k + 1], min, max, v)
                        <==> InClippedUnion(parts[..k], min, max, v) || (min <= v <= max && Denotes(parts[k], v))
  {
    hide Denotes;
    assert parts[..k + 1] == parts[..k] + [parts[k]];
  }

  predicate PartIsValid(part: string, min: int, max: int) {
    ReadPart(part).Some? && min <= ReadPart(part).value.lo && ReadPart(part).value.hi <= max
  }

  predicate IsNumberRangeStringValid(input: string, min: int, max: int) {
    Parts(input) != [] && forall part | part in Parts(input) :: PartIsValid(part, min, max)
  }

  /** An accepted text denotes a non-empty set, none of which is clipped. */
  lemma ValidMeansExact(input: string, min: int, max: int)
    requires IsNumberRangeStringValid(input, min, max)
    ensures exists v :: InClippedUnion(Parts(input), min, max, v)
    ensures forall v :: InClippedUnion(Parts(input), min, max, v) <==> InUnion(Parts(input), v)
  {
    hide Parts, ReadPart;
    var part := Parts(input)[0];
    assert part in Parts(input) && PartIsValid(part, min, max);
    assert Denotes(part, ReadPart(part).value.lo);
    assert InClippedUnion(Parts(input), min, max, ReadPart(part).value.lo);
  }

  /** The validator accepts exactly the texts with a part, all of whose parts are read and none clipped. */
  lemma ValidIff(input: string, min: int, max: int)
    ensures IsNumberRangeStringValid(input, min, max) <==>
              && Parts(input) != []
              && (forall part | part in Parts(input) :: ReadPart(part).Some?)
              && (forall v | InUnion(Parts(input), v) :: InClippedUnion(Parts(input), min, max, v))
  {
    hide Parts, ReadPart;
    if IsNumberRangeStringValid(input, min, max) {
      ValidMeansExact(input, min, max);
    } else if Parts(input) != [] && forall part | part in Parts(input) :: ReadPart(part).Some? {
      var part :| part in Parts(input) && !PartIsValid(part, min, max);
      var v := if ReadPart(part).value.lo < min then ReadPart(part).value.lo else ReadPart(part).value.hi;
      assert Denotes(part, v);
      assert InUnion(Parts(input), v);
    }
  }

  // ---------- The range pattern ----------

  /** The pattern of a range: a number, a hyphen with optional white space around it, a number. */
  ghost predicate IsRangeOf(part: string, first: string, gap: string, gap': string, second: string) {
    && part == first + gap + "-" + gap' + second
    && IsSignedNumber(first, {'-'}) && IsSignedNumber(second, {'-'}) && AllSpaces(gap) && AllSpaces(gap')
  }

  lemma {:induction false} DigitCountOf(digits: string, rest: string)
    requires AllDigits(digits) && (rest != "" ==> !IsDigit(rest[0]))
    ensures DigitCount(digits + rest) == |digits|
  {
    if digits == "" {
      assert digits + rest == rest;
    } else {
      assert (digits + rest)[1..] == digits[1..] + rest;
      assert digits[0] in digits;
      DigitCountOf(digits[1..], rest);
    }
  }

  lemma NumberLengthOf(number: string, rest: string)
    requires IsSignedNumber(number, {'-'}) && (rest != "" ==> !IsDigit(rest[0]))
    ensures NumberLength(number + rest) == |number|
  {
    if AllDigits(number) {
      assert number[0] in number;
      DigitCountOf(number, rest);
    } else {
      assert (number + rest)[1..] == number[1..] + rest;
      DigitCountOf(number[1..], rest);
    }
  }

  lemma {:induction false} SkipSpacesOf(spaces: string, rest: string)
    requires AllSpaces(spaces) && (rest != "" ==> !IsSpace(rest[0]))
    ensures SkipSpaces(spaces + rest) == rest
  {
    if spaces == "" {
      assert spaces + rest == rest;
    } else {
      assert (spaces + rest)[1..] == spaces[1..] + rest;
      assert spaces[0] in spaces;
      SkipSpacesOf(spaces[1..], rest);
    }
  }

  lemma {:induction false} SkippedSpaces(s: string) returns (spaces: string)
    ensures AllSpaces(spaces) && s == spaces + SkipSpaces(s)
  {
    if s != "" && IsSpace(s[0]) {
      var rest := SkippedSpaces(s[1..]);
      assert s == [s[0]] + s[1..];
      spaces := [s[0]] + rest;
      assert spaces + SkipSpaces(s) == [s[0]] + (rest + SkipSpaces(s[1..]));
    } else {
      spaces := "";
    }
  }

  /** The scanner finds a range exactly where the pattern matches, and then the only way it matches. */
  lemma MatchRangeIff(part: string, first: string, second: string)
    ensures MatchRange(part) == Some((first, second)) <==> exists gap, gap' :: IsRangeOf(part, first, gap, gap', second)
  {
    if MatchRange(part) == Some((first, second)) {
      var gap, gap' := ScannedIsPattern(part, first, second);
    }
    hide IsRangeOf, MatchRange;
    if gap, gap' :| IsRangeOf(part, first, gap, gap', second) {
      PatternIsScanned(part, first, gap, gap', second);
    }
  }

  lemma ScannedIsPattern(part: string, first: string, second: string) returns (gap: string, gap': string)
    requires MatchRange(part) == Some((first, second))
    ensures IsRangeOf(part, first, gap, gap', second)
  {
    var n := NumberLength(part);
    gap := SkippedSpaces(part[n..]);
    gap' := SkippedSpaces(SkipSpaces(part[n..])[1..]);
    assert second[..|second|] == second;
    hide NumberLength, SkipSpaces, IsSignedNumber, AllSpaces;
    var rest := SkipSpaces(part[n..]);
    Glue(part, n, gap, rest, gap', second);
  }

  lemma Glue(part: string, n: nat, gap: string, rest: string, gap': string, second: string)
    requires n <= |part| && part[n..] == gap + rest && rest != "" && rest[0] == '-' && rest[1..] == gap' + second
    ensures part == part[..n] + gap + "-" + gap' + second
  {
    assert part == part[..n] + part[n..] && rest == "-" + rest[1..];
  }

  lemma PatternIsScanned(part: string, first: string, gap: string, gap': string, second: string)
    requires IsRangeOf(part, first, gap, gap', second)
    ensures MatchRange(part) == Some((first, second))
  {
    var tail := gap + ("-" + (gap' + second));
    assert part == first + tail;
    assert gap != "" ==> tail[0] == gap[0] && gap[0] in gap;
    NumberLengthOf(first, tail);
    assert part[|first|..] == tail && part[..|first|] == first;
    SkipSpacesOf(gap, "-" + (gap' + second));
    assert ("-" + (gap' + second))[1..] == gap' + second;
    assert second[0] in second;
    SkipSpacesOf(gap', second);
    assert second + "" == second;
    NumberLengthOf(second, "");
  }

  /** The characters of a number are digits, but for a leading minus sign. */
  lemma NumberChars(s: string)
    requires IsSignedNumber(s, {'-'})
    ensures s != "" && forall c | c in s :: IsDigit(c) || c == '-'
  {
    if !AllDigits(s) {
      assert s == [s[0]] + s[1..];
    }
  }

  lemma {:induction false} SpacelessIsTrimmed(s: string)
    requires forall c | c in s :: !IsSpace(c)
    ensures SkipSpaces(s) == s && TrimEnd(s) == s && Trim(s) == s
  {
    if s != "" {
      assert s[0] in s && s[|s| - 1] in s;
    }
  }

  // ---------- What a part denotes ----------

  /** The integer a signed number stands for. */
  function ValueOf(number: string): int
    requires IsSignedNumber(number, {'+', '-'})
  {
    if AllDigits(number) then DigitsToNat(number)
    else if number[0] == '-' then 0 - DigitsToNat(number[1..])
    else DigitsToNat(number[1..])
  }

  lemma NumberIsRead(number: string)
    requires IsSignedNumber(number, {'-'})
    ensures ParseIntegerToken(number) == Some(ValueOf(number))
  {
    NumberChars(number);
    SpacelessIsTrimmed(number);
  }

  ghost predicate IsRangeFrom(part: string, first: string, second: string) {
    exists gap, gap' :: IsRangeOf(part, first, gap, gap', second)
  }

  /** The two numbers in ascending order. */
  ghost predicate Spans(first: string, second: string, range: Interval) {
    && IsSignedNumber(first, {'-'}) && IsSignedNumber(second, {'-'})
    && range == if ValueOf(first) <= ValueOf(second) then Interval(ValueOf(first), ValueOf(second))
                else Interval(ValueOf(second), ValueOf(first))
  }

  /**
   A part denotes a range exactly when it is two numbers with a hyphen between, in either order, or, if it is no
   such pair, a single signed number.
   */
  lemma ReadPartIff(part: string, range: Interval)
    ensures ReadPart(part) == Some(range) <==>
              || (exists first, second :: IsRangeFrom(part, first, second) && Spans(first, second, range))
              || ((forall first, second :: !IsRangeFrom(part, first, second)) && IsSignedNumber(Trim(part), {'+', '-'})
                  && range == Interval(ValueOf(Trim(part)), ValueOf(Trim(part))))
  {
    hide Trim, DigitsToNat, MatchRange, IsRangeOf;
    forall first, second
      ensures MatchRange(part) == Some((first, second)) <==> IsRangeFrom(part, first, second)
    {
      MatchRangeIff(part, first, second);
    }
    if MatchRange(part).Some? {
      var first, second := MatchRange(part).value.0, MatchRange(part).value.1;
      RangeHasNumbers(part, first, second);
      NumberIsRead(first);
      NumberIsRead(second);
    }
  }

  lemma RangeHasNumbers(part: string, first: string, second: string)
    requires IsRangeFrom(part, first, second)
    ensures IsSignedNumber(first, {'-'}) && IsSignedNumber(second, {'-'})
  {
  }
}
