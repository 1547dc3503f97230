/**
 What a list of ranges in any of the accepted spellings is read as by parseNumberRangeString, and so what becomes of
 what buildChannelExpression prints. Each replacement of the normaliser only changes the marks between the numbers.
 */
module ChannelRoundTrip {
  import opened ChannelRanges
  import opened Options
  import opened RangeText

  // ---------- Numbers ----------

  predicate IsNumberText(s: string) {
    IsSignedNumber(s, {'-'})
  }

  lemma {:induction false} DigitsRoundTrip(n: nat)
    ensures DigitsToNat(NatToDigits(n)) == n
  {
    var s := NatToDigits(n);
    var last := ('0' as int + n % 10) as char;
    if n < 10 {
      assert s == [last] && s[..0] == "";
    } else {
      DigitsRoundTrip(n / 10);
      assert s[..|s| - 1] == NatToDigits(n / 10);
    }
  }

  // ---------- Decimal notation ----------

  function PowerOfTen(k: nat): (p: nat)
    ensures p > 0
  {
    if k == 0 then 1 else 10 * PowerOfTen(k - 1)
  }

  /** The printed digits of n from the right are those of weight 1, 10, 100 and so on, with no zero in front. */
  lemma {:induction false} DigitAt(n: nat, k: nat)
    ensures var s := NatToDigits(n);
            && (k < |s| ==> s[|s| - 1 - k] as int == '0' as int + n / PowerOfTen(k) % 10)
            && (n > 0 ==> s[0] != '0') && (n == 0 ==> s == "0")
  {
    var s := NatToDigits(n);
    if n >= 10 {
      DigitAt(n / 10, if k == 0 then 0 else k - 1);
      assert s == NatToDigits(n / 10) + [('0' as int + n % 10) as char];
      if k > 0 {
        DividedTwice(n, PowerOfTen(k - 1));
      }
    }
  }

  lemma DividedTwice(n: nat, d: nat)
    requires d > 0
    ensures n / 10 / d == n / (10 * d)
  {
    var q, r := n / 10 / d, n / 10 % d;
    assert n / 10 == d * q + r;
    var rest := 10 * r + n % 10;
    assert n == 10 * d * q + rest && 0 <= rest < 10 * d by {
      assert 10 * (d * q) == 10 * d * q;
    }
    Quotient(n, 10 * d, q, rest);
  }

  lemma Quotient(n: nat, d: nat, q: nat, r: nat)
    requires d > 0 && n == d * q + r && r < d
    ensures n / d == q
  {
    var q', r' := n / d, n % d;
    assert n == d * q' + r';
    OneMoreTime(d, q, q');
    OneMoreTime(d, q', q);
  }

  lemma OneMoreTime(d: nat, a: nat, b: nat)
    ensures a < b ==> d * a + d <= d * b
  {
    if a < b {
      var more: nat := b - a - 1;
      assert d * b == d * a + d + d * more;
    }
  }

  /** And read digits have these weights: the first of k + 1 digits counts 10 to the power of k. */
  lemma {:induction false} FirstDigitCounts(s: string)
    requires s != "" && AllDigits(s)
    ensures AllDigits(s[1..]) && IsDigit(s[0])
    ensures DigitsToNat(s) == (s[0] as int - '0' as int) * PowerOfTen(|s| - 1) + DigitsToNat(s[1..])
  {
    assert s[0] in s && s == [s[0]] + s[1..];
    var n := |s| - 1;
    if n > 0 {
      var front := s[..n];
      assert s == front + [s[n]];
      FirstDigitCounts(front);
      assert front[1..] == s[1..][..n - 1] && s[1..][n - 1] == s[n];
      TenTimes(s[0] as int - '0' as int, PowerOfTen(n - 1));
    } else {
      assert s[..0] == "" && s[1..] == "";
    }
  }

  lemma TenTimes(d: nat, p: nat)
    ensures (d * p) * 10 == d * (10 * p)
  {
  }

  lemma IntTextIsNumber(n: int)
    ensures IsNumberText(IntToString(n)) && IntToString(n) != ""
  {
    if n < 0 {
      assert IntToString(n)[1..] == NatToDigits(-n);
    }
  }

  lemma IntRoundTrip(n: int)
    ensures ParseIntegerToken(IntToString(n)) == Some(n)
  {
    var s := IntToString(n);
    IntTextIsNumber(n);
    NumberChars(s);
    SpacelessIsTrimmed(s);
    DigitsRoundTrip(if n < 0 then -n else n);
    if n < 0 {
      assert s[1..] == NatToDigits(-n);
      assert s[0] in s && !IsDigit(s[0]);
    }
  }

  // ---------- A replacement that leaves numbers alone ----------

  /** Text after a number that does not continue it. */
  predicate Stops(rest: string) {
    rest == "" || (!IsWordChar(rest[0]) && rest[0] != '\'')
  }

  /** Before the given number and rest, f only turns thru into thru' and sep into sep'. */
  ghost predicate RewritesAt(f: string -> string, thru: string, sep: string, thru': string, sep': string,
                             number: string, rest: string) {
    && f(number + rest) == number + f(rest)
    && f(thru + (number + rest)) == thru' + f(number + rest)
    && f(sep + (number + rest)) == sep' + f(number + rest)
  }

  /** f keeps numbers and turns the separators thru and sep into thru' and sep'. */
  ghost predicate Rewrites(f: string -> string, thru: string, sep: string, thru': string, sep': string) {
    && f("") == ""
    && forall number, rest | IsNumberText(number) && Stops(rest) :: RewritesAt(f, thru, sep, thru', sep', number, rest)
  }

  /** What follows the first number of an expression, and what follows its first range. */
  function AfterRange(ranges: seq<Interval>, thru: string, sep: string): string
    requires ranges != []
  {
    if |ranges| == 1 then "" else sep + ExpressionOf(ranges[1..], thru, sep)
  }

  function AfterNumber(ranges: seq<Interval>, thru: string, sep: string): string
    requires ranges != []
  {
    if ranges[0].lo == ranges[0].hi then AfterRange(ranges, thru, sep)
    else thru + (IntToString(ranges[0].hi) + AfterRange(ranges, thru, sep))
  }

  lemma ExpressionShape(ranges: seq<Interval>, thru: string, sep: string)
    requires ranges != []
    ensures ExpressionOf(ranges, thru, sep) == IntToString(ranges[0].lo) + AfterNumber(ranges, thru, sep)
  {
    var a, b, rest := IntToString(ranges[0].lo), IntToString(ranges[0].hi), AfterRange(ranges, thru, sep);
    hide IntToString;
    assert ExpressionOf(ranges, thru, sep) == RangeTextOf(ranges[0], thru) + rest;
    hide ExpressionOf, AfterRange;
    if ranges[0].lo != ranges[0].hi {
      Reassociate(a, thru, b, rest);
    }
  }

  lemma Reassociate(a: string, b: string, c: string, d: string)
    ensures ((a + b) + c) + d == a + (b + (c + d))
  {
  }

  predicate Separators(thru: string, sep: string) {
    thru != "" && sep != "" && Stops(thru) && Stops(sep)
  }

  lemma {:induction false} RewritesExpression(f: string -> string, ranges: seq<Interval>,
                                              thru: string, sep: string, thru': string, sep': string)
    requires Rewrites(f, thru, sep, thru', sep') && Separators(thru, sep)
    ensures f(ExpressionOf(ranges, thru, sep)) == ExpressionOf(ranges, thru', sep')
    decreases |ranges|, 1
  {
    if ranges == [] {
      assert ExpressionOf(ranges, thru, sep) == "";
    } else {
      hide IntToString, ExpressionOf, IsNumberText, Stops, AfterRange, RewritesAt;
      ExpressionShape(ranges, thru, sep);
      ExpressionShape(ranges, thru', sep');
      RewritesAfterRange(f, ranges, thru, sep, thru', sep');
      IntTextIsNumber(ranges[0].lo);
      var lo, after := IntToString(ranges[0].lo), AfterNumber(ranges, thru, sep);
      assert RewritesAt(f, thru, sep, thru', sep', lo, after);
      NumberIsKept(f, thru, sep, thru', sep', lo, after);
      if ranges[0].lo != ranges[0].hi {
        IntTextIsNumber(ranges[0].hi);
        var hi, rest := IntToString(ranges[0].hi), AfterRange(ranges, thru, sep);
        assert RewritesAt(f, thru, sep, thru', sep', hi, rest);
        NumberIsKept(f, thru, sep, thru', sep', hi, rest);
      }
    }
  }

  lemma NumberIsKept(f: string -> string, thru: string, sep: string, thru': string, sep': string,
                     number: string, rest: string)
    requires RewritesAt(f, thru, sep, thru', sep', number, rest)
    ensures f(number + rest) == number + f(rest)
    ensures f(thru + (number + rest)) == thru' + (number + f(rest))
    ensures f(sep + (number + rest)) == sep' + f(number + rest)
  {
  }

  lemma StopsAppend(separator: string, rest: string)
    requires separator != "" && Stops(separator)
    ensures Stops(separator + rest)
  {
  }

  lemma {:induction false} RewritesAfterRange(f: string -> string, ranges: seq<Interval>,
                                              thru: string, sep: string, thru': string, sep': string)
    requires ranges != [] && Rewrites(f, thru, sep, thru', sep') && Separators(thru, sep)
    ensures Stops(AfterRange(ranges, thru, sep)) && Stops(AfterNumber(ranges, thru, sep))
    ensures f(AfterRange(ranges, thru, sep)) == AfterRange(ranges, thru', sep')
    decreases |ranges|, 0
  {
    hide IntToString, ExpressionOf, IsNumberText, RewritesAt;
    if |ranges| > 1 {
      hide Stops;
      var next := ranges[1..];
      RewritesExpression(f, next, thru, sep, thru', sep');
      ExpressionShape(next, thru, sep);
      IntTextIsNumber(next[0].lo);
      RewritesAfterRange(f, next, thru, sep, thru', sep');
      var lo, after := IntToString(next[0].lo), AfterNumber(next, thru, sep);
      assert RewritesAt(f, thru, sep, thru', sep', lo, after);
      NumberIsKept(f, thru, sep, thru', sep', lo, after);
      StopsAppend(sep, ExpressionOf(next, thru, sep));
    }
    StopsAppend(thru, IntToString(ranges[0].hi) + AfterRange(ranges, thru, sep));
  }

  // ---------- Text a replacement leaves alone ----------

  /** f keeps this character, whatever follows it. */
  ghost predicate CharStays(f: string -> string, c: char) {
    forall tail :: f([c] + tail) == [c] + f(tail)
  }

  lemma {:induction false} TextStays(f: string -> string, prefix: string, rest: string)
    requires forall c | c in prefix :: CharStays(f, c)
    ensures f(prefix + rest) == prefix + f(rest)
  {
    if prefix == "" {
      assert prefix + rest == rest;
      assert prefix + f(rest) == f(rest);
    } else {
      var c, others := prefix[0], prefix[1..];
      assert prefix == [c] + others;
      assert CharStays(f, c);
      TextStays(f, others, rest);
      Associate([c], others, rest);
      Associate([c], others, f(rest));
      assert f([c] + (others + rest)) == [c] + f(others + rest);
    }
  }

  lemma Associate(a: string, b: string, c: string)
    ensures (a + b) + c == a + (b + c)
  {
  }

  // ---------- Words ----------

  predicate NoWordChars(s: string) {
    forall c | c in s :: !IsWordChar(c)
  }

  lemma {:induction false} WordLengthOf(word: string, rest: string)
    requires (forall c | c in word :: IsWordChar(c)) && (rest != "" ==> !IsWordChar(rest[0]))
    ensures WordLength(word + rest) == |word|
  {
    if word == "" {
      assert word + rest == rest;
    } else {
      assert (word + rest)[1..] == word[1..] + rest;
      assert word[0] in word;
      WordLengthOf(word[1..], rest);
    }
  }

  lemma NonWordsStay(prefix: string, rest: string, words: set<string>, replacement: string)
    requires NoWordChars(prefix)
    ensures ReplaceWords(prefix + rest, words, replacement) == prefix + ReplaceWords(rest, words, replacement)
  {
    var f := s => ReplaceWords(s, words, replacement);
    forall c | c in prefix
      ensures CharStays(f, c)
    {
      forall tail
        ensures f([c] + tail) == [c] + f(tail)
      {
        assert ([c] + tail)[1..] == tail;
      }
    }
    hide ReplaceWords;
    TextStays(f, prefix, rest);
  }

  /** No word of the list starts with a digit. */
  ghost predicate WordsProper(words: set<string>) {
    forall w | w in words :: w != "" && !IsDigit(w[0])
  }

  lemma DigitsStay(digits: string, rest: string, words: set<string>, replacement: string)
    requires AllDigits(digits) && digits != "" && Stops(rest) && WordsProper(words)
    ensures ReplaceWords(digits + rest, words, replacement) == digits + ReplaceWords(rest, words, replacement)
  {
    hide AllDigits;
    DigitsAreAWord(digits, rest);
    hide Stops, Lower, WordLength, LowerChar;
    assert (digits + rest)[..|digits|] == digits && (digits + rest)[|digits|..] == rest;
    assert Lower(digits) !in words by {
      assert IsDigit(Lower(digits)[0]);
    }
  }

  lemma DigitsAreAWord(digits: string, rest: string)
    requires AllDigits(digits) && digits != "" && Stops(rest)
    ensures IsWordChar((digits + rest)[0]) && WordLength(digits + rest) == |digits|
    ensures |Lower(digits)| == |digits| && IsDigit(Lower(digits)[0])
  {
    assert digits[0] in digits;
    WordLengthOf(digits, rest);
  }

  /** The sign of a number, and its digits. */
  lemma SignAndDigits(number: string) returns (sign: string, digits: string)
    requires IsNumberText(number)
    ensures number == sign + digits && AllDigits(digits) && digits != "" && (sign == "" || sign == "-")
  {
    if AllDigits(number) {
      sign, digits := "", number;
    } else {
      sign, digits := "-", number[1..];
    }
  }

  lemma WordStage(words: set<string>, replacement: string, thru: string, sep: string)
    requires WordsProper(words) && NoWordChars(thru) && NoWordChars(sep)
    ensures Rewrites(s => ReplaceWords(s, words, replacement), thru, sep, thru, sep)
  {
    forall number, rest | IsNumberText(number) && Stops(rest)
      ensures RewritesAt(s => ReplaceWords(s, words, replacement), thru, sep, thru, sep, number, rest)
    {
      hide ReplaceWords, Stops, WordsProper;
      var sign, digits := SignAndDigits(number);
      DigitsStay(digits, rest, words, replacement);
      NonWordsStay(sign, digits + rest, words, replacement);
      Associate(sign, digits, rest);
      Associate(sign, digits, ReplaceWords(rest, words, replacement));
      NonWordsStay(thru, number + rest, words, replacement);
      NonWordsStay(sep, number + rest, words, replacement);
    }
  }

  // ---------- The accepted spellings ----------

  /** The words that stand between the ends of a range, in any case. */
  predicate IsRangeWord(word: string) {
    Lower(word) in {"thru", "through", "to", "jusqua", "a", "jusqu'a", "jusque a"}
  }

  /** The words that stand between the entries of a list, in any case. */
  predicate IsListWord(word: string) {
    Lower(word) in {"et", "and", "with"}
  }

  /** A hyphen, an en dash, an em dash or a minus sign. */
  predicate IsDash(c: char) {
    c == '-' || c as int in {0x2013, 0x2014, 0x2212}
  }

  /** One or more of the separators that are no comma, the last one a full-width plus sign. */
  predicate IsSeparatorRun(s: string) {
    s != "" && forall c | c in s :: c in {';', '|', '/', '+'} || c as int == 0xFF0B
  }

  /** A mark and the white space around it. */
  datatype Spaced = Spaced(before: string, mark: string, after: string)

  function TextOf(m: Spaced): string {
    m.before + (m.mark + m.after)
  }

  /** Only white space around the mark; a word needs some on either side. */
  predicate IsSpaced(m: Spaced, isWord: bool) {
    AllSpaces(m.before) && AllSpaces(m.after) && (isWord ==> m.before != "" && m.after != "")
  }

  predicate IsDashMark(m: Spaced) {
    |m.mark| == 1 && IsDash(m.mark[0]) && IsSpaced(m, false)
  }

  /** Between the ends of a range stands a dash, or a word. */
  predicate IsRangeMark(m: Spaced) {
    IsDashMark(m) || (IsRangeWord(m.mark) && IsSpaced(m, true))
  }

  /** Between the entries of a list stands a comma, some other separators, or a word. */
  predicate IsListMark(m: Spaced) {
    || ((m.mark == "," || IsSeparatorRun(m.mark)) && IsSpaced(m, false))
    || (IsListWord(m.mark) && IsSpaced(m, true))
  }

  lemma SpacesAreNoMarks(s: string)
    requires AllSpaces(s)
    ensures NoWordChars(s) && forall c | c in s :: !IsListSeparator(c) && !IsDash(c) && c != ',' && c != '\''
  {
  }

  /** A word reads the same in lower case, and all of its characters are ASCII if those are. */
  lemma LowerAt(word: string, i: nat)
    requires i < |word|
    ensures |Lower(word)| == |word| && Lower(word)[i] == LowerChar(word[i])
    ensures IsWordChar(word[i]) <==> IsWordChar(Lower(word)[i])
    ensures Lower(word)[i] as int < 0x80 <==> word[i] as int < 0x80
    ensures Lower(word)[i] == '\'' <==> word[i] == '\''
    ensures Lower(word)[i] == ' ' <==> word[i] == ' '
  {
  }

  lemma MarksStop(m: Spaced)
    requires IsRangeMark(m) || IsListMark(m)
    ensures TextOf(m) != "" && Stops(TextOf(m))
  {
    SpacesAreNoMarks(m.before);
    assert m.before != "" ==> TextOf(m)[0] == m.before[0] && m.before[0] in m.before;
    assert m.before == "" ==> TextOf(m) == m.mark + m.after;
    if m.before == "" && m.mark != "" {
      assert TextOf(m)[0] == m.mark[0] && m.mark[0] in m.mark;
    }
  }

  /** A stage does with a mark and its white space what it does with the three pieces. */
  lemma MarkStage(f: string -> string, m: Spaced, mark': string, rest: string)
    requires f(m.before + (m.mark + (m.after + rest))) == m.before + f(m.mark + (m.after + rest))
    requires f(m.mark + (m.after + rest)) == mark' + f(m.after + rest)
    requires f(m.after + rest) == m.after + f(rest)
    ensures f(TextOf(m) + rest) == TextOf(m.(mark := mark')) + f(rest)
  {
    assert TextOf(m) + rest == m.before + (m.mark + (m.after + rest));
    assert TextOf(m.(mark := mark')) + f(rest) == m.before + (mark' + (m.after + f(rest)));
  }

  // ---------- Dashes ----------

  function Dashed(m: Spaced): Spaced {
    if IsDashMark(m) then m.(mark := "-") else m
  }

  lemma DashesAppend(a: string, b: string)
    ensures PlainDashes(a + b) == PlainDashes(a) + PlainDashes(b)
  {
  }

  lemma UndashedStays(s: string)
    requires forall c | c in s :: !IsDash(c) || c == '-'
    ensures PlainDashes(s) == s
  {
    assert forall i | 0 <= i < |s| :: s[i] in s;
  }

  lemma WordsAreAscii(word: string)
    requires IsRangeWord(word) || IsListWord(word)
    ensures forall c | c in word :: c as int < 0x80
  {
    forall i | 0 <= i < |word|
      ensures word[i] as int < 0x80
    {
      LowerAt(word, i);
      assert Lower(word)[i] in Lower(word);
    }
  }

  lemma DashedMark(m: Spaced)
    requires IsRangeMark(m) || IsListMark(m)
    ensures PlainDashes(TextOf(m)) == TextOf(Dashed(m))
  {
    SpacesAreNoMarks(m.before);
    SpacesAreNoMarks(m.after);
    DashesAppend(m.before, m.mark + m.after);
    DashesAppend(m.mark, m.after);
    UndashedStays(m.before);
    UndashedStays(m.after);
    if IsDashMark(m) {
      assert PlainDashes(m.mark) == "-";
    } else {
      if IsRangeWord(m.mark) || IsListWord(m.mark) {
        WordsAreAscii(m.mark);
      }
      UndashedStays(m.mark);
    }
  }

  lemma DashStage(thru: Spaced, sep: Spaced)
    requires IsRangeMark(thru) && IsListMark(sep)
    ensures Rewrites(PlainDashes, TextOf(thru), TextOf(sep), TextOf(Dashed(thru)), TextOf(sep))
  {
    DashedMark(thru);
    DashedMark(sep);
    assert Dashed(sep) == sep by {
      ListMarksAreNoDashes(sep);
    }
    hide TextOf, Dashed;
    forall number, rest | IsNumberText(number) && Stops(rest)
      ensures RewritesAt(PlainDashes, TextOf(thru), TextOf(sep), TextOf(Dashed(thru)), TextOf(sep), number, rest)
    {
      NumberChars(number);
      UndashedStays(number);
      DashesAppend(number, rest);
      DashesAppend(TextOf(thru), number + rest);
      DashesAppend(TextOf(sep), number + rest);
    }
  }

  lemma ListMarksAreNoDashes(m: Spaced)
    requires IsListMark(m)
    ensures !IsDashMark(m)
  {
    if |m.mark| == 1 {
      assert m.mark[0] in m.mark;
      LowerAt(m.mark, 0);
    }
  }

  // ---------- Range marks ----------

  /** A range mark whose dash is a hyphen. */
  predicate IsPlainMark(m: Spaced) {
    (m.mark == "-" && IsSpaced(m, false)) || (IsRangeWord(m.mark) && IsSpaced(m, true))
  }

  lemma NonMarksStay(prefix: string, rest: string)
    requires NoWordChars(prefix)
    ensures ReplaceRangeMarks(prefix + rest) == prefix + ReplaceRangeMarks(rest)
  {
    forall c | c in prefix
      ensures CharStays(ReplaceRangeMarks, c)
    {
      forall tail
        ensures ReplaceRangeMarks([c] + tail) == [c] + ReplaceRangeMarks(tail)
      {
        assert ([c] + tail)[1..] == tail;
      }
    }
    hide ReplaceRangeMarks;
    TextStays(ReplaceRangeMarks, prefix, rest);
  }

  lemma DigitsAreNoMark(digits: string, rest: string)
    requires AllDigits(digits) && digits != "" && Stops(rest)
    ensures ReplaceRangeMarks(digits + rest) == digits + ReplaceRangeMarks(rest)
  {
    hide AllDigits;
    DigitsAreAWord(digits, rest);
    hide Stops, Lower, WordLength;
    assert (digits + rest)[..|digits|] == digits && (digits + rest)[|digits|..] == rest;
    assert Lower(digits) !in RANGE_WORDS && Lower(digits) != "jusqu" && Lower(digits) != "jusque";
  }

  /** The characters of a word whose lower case consists of word characters. */
  lemma IsOneWord(word: string, rest: string)
    requires word != "" && (forall c | c in Lower(word) :: IsWordChar(c)) && (rest != "" ==> !IsWordChar(rest[0]))
    ensures WordLength(word + rest) == |word| && IsWordChar((word + rest)[0])
    ensures (word + rest)[..|word|] == word && (word + rest)[|word|..] == rest
  {
    forall i | 0 <= i < |word|
      ensures IsWordChar(word[i])
    {
      LowerAt(word, i);
      assert Lower(word)[i] in Lower(word);
    }
    WordLengthOf(word, rest);
  }

  lemma OneWordMark(word: string, rest: string)
    requires Lower(word) in {"thru", "through", "to", "jusqua", "a"} && rest != "" && !IsWordChar(rest[0])
    ensures ReplaceRangeMarks(word + rest) == "-" + ReplaceRangeMarks(rest)
  {
    assert |Lower(word)| == |word|;
    IsOneWord(word, rest);
    hide WordLength, Lower, IsWordChar;
    assert SpelledOutMark(word + rest) == 0;
    hide SpelledOutMark;
  }

  /** A mark of two words: what precedes the apostrophe or space, that character, and the letter a. */
  lemma TwoWords(word: string) returns (stem: string, gap: char, last: string)
    requires Lower(word) in {"jusqu'a", "jusque a"}
    ensures word == stem + ([gap] + last) && !IsWordChar(gap) && Lower(last) == "a"
    ensures (Lower(stem) == "jusqu" && gap == '\'') || (Lower(stem) == "jusque" && gap == ' ')
  {
    assert |Lower(word)| == |word|;
    var k := |word| - 2;
    stem, gap, last := word[..k], word[k], word[k + 1..];
    LowerAt(word, k);
    assert Lower(stem) == Lower(word)[..k] && Lower(last) == Lower(word)[k + 1..];
    hide Lower;
    assert Lower(word) == "jusqu'a" ==> k == 5 && "jusqu'a"[..5] == "jusqu" && "jusqu'a"[6..] == "a";
    assert Lower(word) == "jusque a" ==> k == 6 && "jusque a"[..6] == "jusque" && "jusque a"[7..] == "a";
  }

  lemma StemIsOneWord(stem: string)
    requires Lower(stem) in {"jusqu", "jusque", "a"}
    ensures stem != "" && forall c | c in Lower(stem) :: IsWordChar(c)
  {
    assert |Lower(stem)| == |stem|;
  }

  lemma TwoWordMark(word: string, rest: string)
    requires Lower(word) in {"jusqu'a", "jusque a"} && rest != "" && !IsWordChar(rest[0])
    ensures ReplaceRangeMarks(word + rest) == "-" + ReplaceRangeMarks(rest)
  {
    var stem, gap, last := TwoWords(word);
    TwoWordsAreSpelledOut(stem, gap, last, rest);
    hide Lower, IsWordChar, WordLength, SpelledOutMark;
    assert word + rest == stem + ([gap] + (last + rest)) && |word| == |stem| + 1 + |last|;
    assert (word + rest)[|word|..] == rest;
  }

  lemma TwoWordsAreSpelledOut(stem: string, gap: char, last: string, rest: string)
    requires !IsWordChar(gap) && Lower(last) == "a" && rest != "" && !IsWordChar(rest[0])
    requires (Lower(stem) == "jusqu" && gap == '\'') || (Lower(stem) == "jusque" && gap == ' ')
    ensures var text := stem + ([gap] + (last + rest));
            && SpelledOutMark(text) == |stem| + 1 + |last| && text != "" && IsWordChar(text[0])
  {
    var tail := [gap] + (last + rest);
    var text := stem + tail;
    StemIsOneWord(stem);
    StemIsOneWord(last);
    hide Lower, IsWordChar;
    IsOneWord(stem, tail);
    IsOneWord(last, rest);
    hide WordLength;
    assert text[|stem|] == gap && text[|stem| + 1..] == last + rest;
  }

  lemma RangeWordIsReplaced(word: string, rest: string)
    requires IsRangeWord(word) && rest != "" && !IsWordChar(rest[0])
    ensures ReplaceRangeMarks(word + rest) == "-" + ReplaceRangeMarks(rest)
  {
    if Lower(word) in {"jusqu'a", "jusque a"} {
      TwoWordMark(word, rest);
    } else {
      OneWordMark(word, rest);
    }
  }

  lemma ListWordIsNoMark(word: string, rest: string)
    requires IsListWord(word) && rest != "" && !IsWordChar(rest[0])
    ensures ReplaceRangeMarks(word + rest) == word + ReplaceRangeMarks(rest)
  {
    assert |Lower(word)| == |word| <= 4;
    IsOneWord(word, rest);
    ListWordsAreNoRangeWords(word);
    hide WordLength, Lower, IsWordChar, IsListWord;
    assert SpelledOutMark(word + rest) == 0;
    hide SpelledOutMark;
  }

  lemma ListWordsAreNoRangeWords(word: string)
    requires IsListWord(word)
    ensures Lower(word) !in RANGE_WORDS && Lower(word) != "jusqu" && Lower(word) != "jusque"
  {
    hide Lower;
    assert "et"[0] == 'e' && "and"[1] == 'n' && "with"[0] == 'w';
  }

  lemma SpaceFirst(spaces: string, rest: string)
    requires AllSpaces(spaces) && spaces != ""
    ensures spaces + rest != "" && !IsWordChar((spaces + rest)[0]) && !IsListSeparator((spaces + rest)[0])
  {
    assert spaces[0] in spaces;
    SpacesAreNoMarks(spaces);
  }

  lemma RangeMarkIsReplaced(m: Spaced, rest: string)
    requires IsPlainMark(m)
    ensures ReplaceRangeMarks(TextOf(m) + rest) == TextOf(m.(mark := "-")) + ReplaceRangeMarks(rest)
  {
    hide ReplaceRangeMarks;
    SpacesAreNoMarks(m.before);
    SpacesAreNoMarks(m.after);
    NonMarksStay(m.before, m.mark + (m.after + rest));
    NonMarksStay(m.after, rest);
    if m.mark == "-" {
      NonMarksStay(m.mark, m.after + rest);
    } else {
      SpaceFirst(m.after, rest);
      RangeWordIsReplaced(m.mark, m.after + rest);
    }
    MarkStage(ReplaceRangeMarks, m, "-", rest);
  }

  lemma ListMarkIsNoRangeMark(m: Spaced, rest: string)
    requires IsListMark(m)
    ensures ReplaceRangeMarks(TextOf(m) + rest) == TextOf(m) + ReplaceRangeMarks(rest)
  {
    hide ReplaceRangeMarks;
    SpacesAreNoMarks(m.before);
    SpacesAreNoMarks(m.after);
    NonMarksStay(m.before, m.mark + (m.after + rest));
    NonMarksStay(m.after, rest);
    if IsListWord(m.mark) && IsSpaced(m, true) {
      SpaceFirst(m.after, rest);
      ListWordIsNoMark(m.mark, m.after + rest);
    } else {
      NonMarksStay(m.mark, m.after + rest);
    }
    MarkStage(ReplaceRangeMarks, m, m.mark, rest);
  }

  lemma RangeMarkStage(thru: Spaced, sep: Spaced)
    requires IsPlainMark(thru) && IsListMark(sep)
    ensures Rewrites(ReplaceRangeMarks, TextOf(thru), TextOf(sep), TextOf(thru.(mark := "-")), TextOf(sep))
  {
    assert ReplaceRangeMarks("") == "";
    hide ReplaceRangeMarks, TextOf, IsPlainMark, IsListMark;
    forall number, rest | IsNumberText(number) && Stops(rest)
      ensures RewritesAt(ReplaceRangeMarks, TextOf(thru), TextOf(sep), TextOf(thru.(mark := "-")), TextOf(sep), number,
                         rest)
    {
      hide Stops;
      var sign, digits := SignAndDigits(number);
      DigitsAreNoMark(digits, rest);
      NonMarksStay(sign, digits + rest);
      Associate(sign, digits, rest);
      Associate(sign, digits, ReplaceRangeMarks(rest));
      RangeMarkIsReplaced(thru, number + rest);
      ListMarkIsNoRangeMark(sep, number + rest);
    }
  }

  // ---------- List words ----------

  function WithoutWord(m: Spaced): Spaced {
    if IsListWord(m.mark) then m.(mark := ",") else m
  }

  lemma ListWordIsReplaced(word: string, rest: string)
    requires IsListWord(word) && rest != "" && !IsWordChar(rest[0])
    ensures ReplaceWords(word + rest, {"et", "and", "with"}, ",")
            == "," + ReplaceWords(rest, {"et", "and", "with"}, ",")
  {
    assert |Lower(word)| == |word|;
    IsOneWord(word, rest);
    hide WordLength, Lower, IsWordChar;
  }

  lemma ListMarkLosesWord(m: Spaced, rest: string)
    requires IsListMark(m)
    ensures ReplaceWords(TextOf(m) + rest, {"et", "and", "with"}, ",")
            == TextOf(WithoutWord(m)) + ReplaceWords(rest, {"et", "and", "with"}, ",")
  {
    hide ReplaceWords;
    var words := {"et", "and", "with"};
    SpacesAreNoMarks(m.before);
    SpacesAreNoMarks(m.after);
    NonWordsStay(m.before, m.mark + (m.after + rest), words, ",");
    NonWordsStay(m.after, rest, words, ",");
    if IsListWord(m.mark) {
      ListWordsAreSpaced(m);
      SpaceFirst(m.after, rest);
      ListWordIsReplaced(m.mark, m.after + rest);
    } else {
      NonWordsStay(m.mark, m.after + rest, words, ",");
    }
    MarkStage(s => ReplaceWords(s, words, ","), m, WithoutWord(m).mark, rest);
  }

  lemma ListWordsAreSpaced(m: Spaced)
    requires IsListMark(m) && IsListWord(m.mark)
    ensures IsSpaced(m, true)
  {
    assert |Lower(m.mark)| == |m.mark|;
    LowerAt(m.mark, 0);
    assert m.mark[0] in m.mark;
  }

  lemma ListWordStage(thru: Spaced, sep: Spaced)
    requires IsSpaced(thru, false) && thru.mark == "-" && IsListMark(sep)
    ensures Rewrites(s => ReplaceWords(s, {"et", "and", "with"}, ","), TextOf(thru), TextOf(sep), TextOf(thru),
                     TextOf(WithoutWord(sep)))
  {
    var words := {"et", "and", "with"};
    SpacesAreNoMarks(thru.before);
    SpacesAreNoMarks(thru.after);
    assert NoWordChars(TextOf(thru));
    hide ReplaceWords, TextOf, IsListMark, WithoutWord, NoWordChars;
    forall number, rest | IsNumberText(number) && Stops(rest)
      ensures RewritesAt(s => ReplaceWords(s, words, ","), TextOf(thru), TextOf(sep), TextOf(thru),
                         TextOf(WithoutWord(sep)), number, rest)
    {
      NumberIsNoListWord(number, rest);
      NonWordsStay(TextOf(thru), number + rest, words, ",");
      ListMarkLosesWord(sep, number + rest);
    }
  }

  lemma NumberIsNoListWord(number: string, rest: string)
    requires IsNumberText(number) && Stops(rest)
    ensures ReplaceWords(number + rest, {"et", "and", "with"}, ",")
            == number + ReplaceWords(rest, {"et", "and", "with"}, ",")
  {
    WordStage({"et", "and", "with"}, ",", "", "");
    hide ReplaceWords, IsNumberText, Stops;
    assert RewritesAt(s => ReplaceWords(s, {"et", "and", "with"}, ","), "", "", "", "", number, rest);
  }

  // ---------- List separators ----------

  /** A list mark whose word is a comma. */
  predicate IsSeparator(m: Spaced) {
    (m.mark == "," || IsSeparatorRun(m.mark)) && IsSpaced(m, false)
  }

  lemma NonSeparatorsStay(prefix: string, rest: string)
    requires forall c | c in prefix :: !IsListSeparator(c)
    ensures CommasForSeparators(prefix + rest) == prefix + CommasForSeparators(rest)
  {
    forall c | c in prefix
      ensures CharStays(CommasForSeparators, c)
    {
      forall tail
        ensures CommasForSeparators([c] + tail) == [c] + CommasForSeparators(tail)
      {
        assert ([c] + tail)[1..] == tail;
      }
    }
    hide CommasForSeparators;
    TextStays(CommasForSeparators, prefix, rest);
  }

  lemma {:induction false} SkipSeparatorsOf(run: string, rest: string)
    requires (forall c | c in run :: IsListSeparator(c)) && (rest != "" ==> !IsListSeparator(rest[0]))
    ensures SkipListSeparators(run + rest) == rest
  {
    if run == "" {
      assert run + rest == rest;
    } else {
      assert run[0] in run && (run + rest)[1..] == run[1..] + rest;
      SkipSeparatorsOf(run[1..], rest);
    }
  }

  lemma RunIsReplaced(run: string, rest: string)
    requires IsSeparatorRun(run) && (rest != "" ==> !IsListSeparator(rest[0]))
    ensures CommasForSeparators(run + rest) == "," + CommasForSeparators(rest)
  {
    assert run == [run[0]] + run[1..] && (run + rest)[1..] == run[1..] + rest;
    forall c | c in run[1..]
      ensures IsListSeparator(c)
    {
      assert c in run;
    }
    SkipSeparatorsOf(run[1..], rest);
    assert run[0] in run && (run + rest)[0] == run[0];
    assert IsListSeparator((run + rest)[0]);
  }

  lemma SeparatorIsReplaced(m: Spaced, rest: string)
    requires IsSeparator(m) && rest != "" && !IsListSeparator(rest[0])
    ensures CommasForSeparators(TextOf(m) + rest) == TextOf(m.(mark := ",")) + CommasForSeparators(rest)
  {
    hide CommasForSeparators;
    SpacesAreNoMarks(m.before);
    SpacesAreNoMarks(m.after);
    NonSeparatorsStay(m.before, m.mark + (m.after + rest));
    NonSeparatorsStay(m.after, rest);
    if m.mark == "," {
      NonSeparatorsStay(m.mark, m.after + rest);
    } else {
      assert m.after == "" ==> m.after + rest == rest;
      if m.after != "" {
        SpaceFirst(m.after, rest);
      }
      RunIsReplaced(m.mark, m.after + rest);
    }
    MarkStage(CommasForSeparators, m, ",", rest);
  }

  lemma SeparatorStage(thru: Spaced, sep: Spaced)
    requires IsSpaced(thru, false) && thru.mark == "-" && IsSeparator(sep)
    ensures Rewrites(CommasForSeparators, TextOf(thru), TextOf(sep), TextOf(thru), TextOf(sep.(mark := ",")))
  {
    SpacesAreNoMarks(thru.before);
    SpacesAreNoMarks(thru.after);
    assert forall c | c in TextOf(thru) :: !IsListSeparator(c);
    hide CommasForSeparators, TextOf, IsSeparator;
    forall number, rest | IsNumberText(number) && Stops(rest)
      ensures RewritesAt(CommasForSeparators, TextOf(thru), TextOf(sep), TextOf(thru), TextOf(sep.(mark := ",")),
                         number, rest)
    {
      NumberChars(number);
      assert number[0] in number;
      NonSeparatorsStay(number, rest);
      NonSeparatorsStay(TextOf(thru), number + rest);
      SeparatorIsReplaced(sep, number + rest);
    }
  }

  // ---------- White space ----------

  lemma SolidTextStays(prefix: string, rest: string, mark: char)
    requires forall c | c in prefix :: !IsSpace(c) && c != mark
    ensures TightenAround(prefix + rest, mark) == prefix + TightenAround(rest, mark)
  {
    var f := s => TightenAround(s, mark);
    forall c | c in prefix
      ensures CharStays(f, c)
    {
      forall tail
        ensures f([c] + tail) == [c] + f(tail)
      {
        assert ([c] + tail)[1..] == tail;
      }
    }
    hide TightenAround;
    TextStays(f, prefix, rest);
  }

  /** A mark loses the white space on both sides. */
  lemma MarkIsTightened(before: string, mark: char, after: string, rest: string)
    requires AllSpaces(before) && AllSpaces(after) && !IsSpace(mark) && rest != "" && !IsSpace(rest[0])
    ensures TightenAround(before + ([mark] + (after + rest)), mark) == [mark] + TightenAround(rest, mark)
  {
    var text := [mark] + (after + rest);
    assert text[1..] == after + rest;
    SkipSpacesOf(after, rest);
    if before != "" {
      assert before[0] in before;
      SkipSpacesOf(before, text);
    } else {
      assert before + text == text;
    }
  }

  /** White space that touches no mark stays. */
  lemma {:induction false} SpacesStay(spaces: string, rest: string, mark: char)
    requires AllSpaces(spaces) && rest != "" && !IsSpace(rest[0]) && rest[0] != mark && !IsSpace(mark)
    ensures TightenAround(spaces + rest, mark) == spaces + TightenAround(rest, mark)
  {
    hide TightenAround, IsSpace;
    if spaces == "" {
      assert spaces + rest == rest;
    } else {
      assert spaces[0] in spaces && (spaces + rest)[1..] == spaces[1..] + rest;
      SpacesStay(spaces[1..], rest, mark);
      SkipSpacesOf(spaces, rest);
      OneSpaceStays(spaces + rest, mark);
      assert [spaces[0]] + (spaces[1..] + TightenAround(rest, mark)) == spaces + TightenAround(rest, mark);
    }
  }

  lemma OneSpaceStays(text: string, mark: char)
    requires text != "" && IsSpace(text[0]) && !IsSpace(mark)
    requires SkipSpaces(text) != "" && SkipSpaces(text)[0] != mark
    ensures TightenAround(text, mark) == [text[0]] + TightenAround(text[1..], mark)
  {
    hide IsSpace, SkipSpaces;
  }

  /** White space around a hyphen is none of a comma's business. */
  lemma HyphenKeepsSpaces(thru: Spaced, text: string)
    requires IsSpaced(thru, false) && thru.mark == "-" && text != "" && !IsSpace(text[0]) && text[0] != ','
    ensures TightenAround(TextOf(thru) + text, ',') == TextOf(thru) + TightenAround(text, ',')
  {
    hide TightenAround;
    SpacesStay(thru.before, thru.mark + (thru.after + text), ',');
    SolidTextStays(thru.mark, thru.after + text, ',');
    SpacesStay(thru.after, text, ',');
    MarkStage(s => TightenAround(s, ','), thru, "-", text);
  }

  /** A mark of one character loses the white space on both sides. */
  lemma SpacedMarkIsTightened(m: Spaced, mark: char, text: string)
    requires IsSpaced(m, false) && m.mark == [mark] && !IsSpace(mark) && text != "" && !IsSpace(text[0])
    ensures TightenAround(TextOf(m) + text, mark) == [mark] + TightenAround(text, mark)
  {
    hide TightenAround;
    assert TextOf(m) + text == m.before + ([mark] + (m.after + text));
    MarkIsTightened(m.before, mark, m.after, text);
  }

  lemma CommaStage(thru: Spaced, sep: Spaced)
    requires IsSpaced(thru, false) && thru.mark == "-" && IsSpaced(sep, false) && sep.mark == ","
    ensures Rewrites(s => TightenAround(s, ','), TextOf(thru), TextOf(sep), TextOf(thru), ",")
  {
    assert TightenAround("", ',') == "";
    hide TightenAround, TextOf, IsSpaced;
    forall number, rest | IsNumberText(number) && Stops(rest)
      ensures RewritesAt(s => TightenAround(s, ','), TextOf(thru), TextOf(sep), TextOf(thru), ",", number, rest)
    {
      NumberChars(number);
      assert number[0] in number;
      hide IsNumberText, Stops;
      SolidTextStays(number, rest, ',');
      SpacedMarkIsTightened(sep, ',', number + rest);
      HyphenKeepsSpaces(thru, number + rest);
    }
  }

  lemma HyphenStage(thru: Spaced)
    requires IsSpaced(thru, false) && thru.mark == "-"
    ensures Rewrites(s => TightenAround(s, '-'), TextOf(thru), ",", "-", ",")
  {
    hide TextOf, IsSpaced;
    forall number, rest | IsNumberText(number) && Stops(rest)
      ensures RewritesAt(s => TightenAround(s, '-'), TextOf(thru), ",", "-", ",", number, rest)
    {
      NumberChars(number);
      assert number[0] in number;
      SignIsTight(number, rest);
      hide TightenAround;
      SpacedMarkIsTightened(thru, '-', number + rest);
      SolidTextStays(",", number + rest, '-');
    }
  }

  lemma SignIsTight(number: string, rest: string)
    requires IsNumberText(number)
    ensures TightenAround(number + rest, '-') == number + TightenAround(rest, '-')
  {
    hide TightenAround;
    var sign, digits := SignAndDigits(number);
    assert digits[0] in digits;
    SolidTextStays(digits, rest, '-');
    hide IsNumberText, AllDigits;
    if sign == "-" {
      MarkIsTightened("", '-', "", digits + rest);
      EmptyAround("-", digits + rest);
      Associate("-", digits, rest);
      Associate("-", digits, TightenAround(rest, '-'));
    } else {
      assert number == digits;
    }
  }

  lemma EmptyAround(a: string, b: string)
    ensures "" + (a + ("" + b)) == a + b
  {
  }

  lemma {:induction false} SpacelessIsCollapsed(s: string)
    requires forall c | c in s :: !IsSpace(c)
    ensures CollapseSpaces(s) == s
  {
    if s != "" {
      assert s[0] in s;
      SpacelessIsCollapsed(s[1..]);
    }
  }

  // ---------- The whole normaliser ----------

  lemma RangeTextChars(range: Interval)
    ensures RangeTextOf(range, "-") != "" && forall c | c in RangeTextOf(range, "-") :: IsDigit(c) || c == '-'
  {
    IntTextIsNumber(range.lo);
    IntTextIsNumber(range.hi);
    NumberChars(IntToString(range.lo));
    NumberChars(IntToString(range.hi));
  }

  lemma {:induction false} ExpressionIsSolid(ranges: seq<Interval>)
    ensures forall c | c in ExpressionOf(ranges, "-", ",") :: IsDigit(c) || c == '-' || c == ','
  {
    if ranges != [] {
      RangeTextChars(ranges[0]);
      hide RangeTextOf;
      if |ranges| > 1 {
        ExpressionIsSolid(ranges[1..]);
      }
    }
  }

  /** Whatever the marks and the white space around them, the normaliser leaves hyphens and commas. */
  lemma NormaliserRewrites(ranges: seq<Interval>, thru: Spaced, sep: Spaced)
    requires IsRangeMark(thru) && IsListMark(sep)
    ensures NormaliseRangeString(ExpressionOf(ranges, TextOf(thru), TextOf(sep))) == ExpressionOf(ranges, "-", ",")
    ensures StripRangeAliases(ExpressionOf(ranges, TextOf(thru), TextOf(sep))) == ExpressionOf(ranges, "-", ",")
  {
    WordStage(DEFAULT_ALIAS_TOKENS, " ", "-", ",");
    WordsAreNormalised(ranges, thru, sep);
    MarksAreSimple(thru, sep);
    var hyphen, comma := thru.(mark := "-"), WithoutWord(sep);
    hide ExpressionOf, ReplaceRangeMarks, PlainDashes, ReplaceWords, CommasForSeparators, TightenAround, Rewrites,
        IsRangeMark, IsListMark, TextOf, WithoutWord, IsSeparator, IsSpaced;
    SpacesAreNormalised(ranges, hyphen, comma);
    RewritesExpression(s => ReplaceWords(s, DEFAULT_ALIAS_TOKENS, " "), ranges, "-", ",", "-", ",");
    ExpressionIsSolid(ranges);
    SpacelessIsCollapsed(ExpressionOf(ranges, "-", ","));
    SpacelessIsTrimmed(ExpressionOf(ranges, "-", ","));
  }

  lemma MarksAreSimple(thru: Spaced, sep: Spaced)
    requires IsRangeMark(thru) && IsListMark(sep)
    ensures IsSpaced(thru, false) && IsSpaced(thru.(mark := "-"), false)
    ensures IsSeparator(WithoutWord(sep))
  {
  }

  lemma DashedIsPlain(m: Spaced)
    requires IsRangeMark(m)
    ensures IsPlainMark(Dashed(m)) && Dashed(m).(mark := "-") == m.(mark := "-")
  {
  }

  lemma WordsAreNormalised(ranges: seq<Interval>, thru: Spaced, sep: Spaced)
    requires IsRangeMark(thru) && IsListMark(sep)
    ensures ReplaceWords(ReplaceRangeMarks(PlainDashes(ExpressionOf(ranges, TextOf(thru), TextOf(sep)))),
            {"et", "and", "with"}, ",")
            == ExpressionOf(ranges, TextOf(thru.(mark := "-")), TextOf(WithoutWord(sep)))
  {
    var hyphen := thru.(mark := "-");
    DashStage(thru, sep);
    DashedIsPlain(thru);
    RangeMarkStage(Dashed(thru), sep);
    MarksAreSimple(thru, sep);
    ListWordStage(hyphen, sep);
    MarksStop(thru);
    MarksStop(sep);
    PlainMarksStop(Dashed(thru));
    PlainMarksStop(hyphen);
    hide ExpressionOf, ReplaceRangeMarks, PlainDashes, ReplaceWords, Rewrites, TextOf, WithoutWord, Dashed, Stops;
    RewritesExpression(PlainDashes, ranges, TextOf(thru), TextOf(sep), TextOf(Dashed(thru)), TextOf(sep));
    RewritesExpression(ReplaceRangeMarks, ranges, TextOf(Dashed(thru)), TextOf(sep), TextOf(hyphen), TextOf(sep));
    RewritesExpression(s => ReplaceWords(s, {"et", "and", "with"}, ","), ranges, TextOf(hyphen), TextOf(sep),
        TextOf(hyphen), TextOf(WithoutWord(sep)));
  }

  lemma PlainMarksStop(m: Spaced)
    requires IsPlainMark(m)
    ensures TextOf(m) != "" && Stops(TextOf(m))
  {
    MarksStop(m);
  }

  lemma SpacesAreNormalised(ranges: seq<Interval>, thru: Spaced, sep: Spaced)
    requires IsSpaced(thru, false) && thru.mark == "-" && IsSeparator(sep)
    ensures CommasForSeparators(ExpressionOf(ranges, TextOf(thru), TextOf(sep)))
            == ExpressionOf(ranges, TextOf(thru), TextOf(sep.(mark := ",")))
    ensures TightenAround(CommasForSeparators(ExpressionOf(ranges, TextOf(thru), TextOf(sep))), ',')
            == ExpressionOf(ranges, TextOf(thru), ",")
    ensures TightenAround(TightenAround(CommasForSeparators(ExpressionOf(ranges, TextOf(thru), TextOf(sep))), ','), '-')
            == ExpressionOf(ranges, "-", ",")
  {
    var comma := sep.(mark := ",");
    SeparatorStage(thru, sep);
    CommaStage(thru, comma);
    HyphenStage(thru);
    PlainMarksStop(thru);
    MarksStop(sep);
    MarksStop(comma);
    hide ExpressionOf, CommasForSeparators, TightenAround, Rewrites, TextOf, Stops;
    RewritesExpression(CommasForSeparators, ranges, TextOf(thru), TextOf(sep), TextOf(thru), TextOf(comma));
    RewritesExpression(s => TightenAround(s, ','), ranges, TextOf(thru), TextOf(comma), TextOf(thru), ",");
    assert Stops(",");
    RewritesExpression(s => TightenAround(s, '-'), ranges, TextOf(thru), ",", "-", ",");
  }

  // ---------- The parts ----------

  function PiecesOf(ranges: seq<Interval>): seq<string> {
    seq(|ranges|, i requires 0 <= i < |ranges| => RangeTextOf(ranges[i], "-"))
  }

  lemma {:induction false} SplitPiece(piece: string, rest: string, mark: char)
    requires mark !in piece
    ensures Split(piece, mark) == [piece]
    ensures Split(piece + ([mark] + rest), mark) == [piece] + Split(rest, mark)
  {
    var text := [mark] + rest;
    if piece == "" {
      assert piece + text == text && text[1..] == rest;
    } else {
      SplitPiece(piece[1..], rest, mark);
      assert (piece + text)[1..] == piece[1..] + text;
      assert piece == [piece[0]] + piece[1..];
    }
  }

  lemma {:induction false} PiecesSplit(ranges: seq<Interval>)
    requires ranges != []
    ensures Split(ExpressionOf(ranges, "-", ","), ',') == PiecesOf(ranges)
    ensures TrimmedParts(PiecesOf(ranges)) == PiecesOf(ranges)
  {
    RangeTextChars(ranges[0]);
    var piece := RangeTextOf(ranges[0], "-");
    SpacelessIsTrimmed(piece);
    hide RangeTextOf, Split, Trim;
    assert PiecesOf(ranges) == [piece] + PiecesOf(ranges[1..]);
    if |ranges| == 1 {
      SplitPiece(piece, "", ',');
      assert PiecesOf(ranges[1..]) == [];
    } else {
      PiecesSplit(ranges[1..]);
      SplitPiece(piece, ExpressionOf(ranges[1..], "-", ","), ',');
    }
  }

  /** However they are spelled, the parser sees exactly the ranges. */
  lemma SpelledParts(ranges: seq<Interval>, thru: Spaced, sep: Spaced)
    requires IsRangeMark(thru) && IsListMark(sep)
    ensures Parts(ExpressionOf(ranges, TextOf(thru), TextOf(sep))) == PiecesOf(ranges)
  {
    NormaliserRewrites(ranges, thru, sep);
    assert ranges == [] ==> ExpressionOf(ranges, "-", ",") == "";
    hide NormaliseRangeString, StripRangeAliases, ExpressionOf;
    if ranges == [] {
      assert Split("", ',') == [""];
      assert TrimmedParts([""]) == [];
    } else {
      PiecesSplit(ranges);
    }
  }

  /** In particular those that are printed. */
  lemma PrintedParts(values: seq<int>)
    ensures Parts(BuildChannelExpression(values)) == PiecesOf(Runs(values))
  {
    var thru, sep := Spaced(" ", "Thru", " "), Spaced(" ", "+", " ");
    PrintedMarks();
    hide IsRangeMark, IsListMark, TextOf, Parts, Runs, ExpressionOf;
    SpelledParts(Runs(values), thru, sep);
  }

  lemma PrintedMarks()
    ensures IsRangeMark(Spaced(" ", "Thru", " ")) && TextOf(Spaced(" ", "Thru", " ")) == " Thru "
    ensures IsListMark(Spaced(" ", "+", " ")) && TextOf(Spaced(" ", "+", " ")) == " + "
  {
    assert Lower("Thru") == "thru";
  }

  /** A printed range is read back as itself. */
  lemma RangeRoundTrip(range: Interval)
    requires range.lo <= range.hi
    ensures ReadPart(RangeTextOf(range, "-")) == Some(range)
  {
    var lo, hi := IntToString(range.lo), IntToString(range.hi);
    IntTextIsNumber(range.lo);
    IntTextIsNumber(range.hi);
    IntRoundTrip(range.lo);
    IntRoundTrip(range.hi);
    hide IntToString, ParseIntegerToken, IsNumberText;
    if range.lo < range.hi {
      assert lo + "-" + hi == lo + "" + "-" + "" + hi;
      assert IsRangeOf(lo + "-" + hi, lo, "", "", hi);
      PatternIsScanned(lo + "-" + hi, lo, "", "", hi);
    } else {
      NumberLengthOf(lo, "");
      assert lo + "" == lo && lo[|lo|..] == "";
    }
  }

  /** What the parser reads is in one of the ranges, and the other way round. */
  lemma SpelledUnion(ranges: seq<Interval>, thru: Spaced, sep: Spaced, v: int)
    requires IsRangeMark(thru) && IsListMark(sep) && forall i | 0 <= i < |ranges| :: ranges[i].lo <= ranges[i].hi
    ensures InUnion(Parts(ExpressionOf(ranges, TextOf(thru), TextOf(sep))), v) <==>
              exists i :: 0 <= i < |ranges| && ranges[i].lo <= v <= ranges[i].hi
  {
    SpelledParts(ranges, thru, sep);
    hide Parts, ExpressionOf, IsRangeMark, IsListMark, TextOf;
    PiecesDenote(ranges, v);
  }

  lemma PiecesDenote(ranges: seq<Interval>, v: int)
    requires forall i | 0 <= i < |ranges| :: ranges[i].lo <= ranges[i].hi
    ensures InUnion(PiecesOf(ranges), v) <==> exists i :: 0 <= i < |ranges| && ranges[i].lo <= v <= ranges[i].hi
  {
    hide ReadPart, RangeTextOf;
    var pieces := PiecesOf(ranges);
    forall i | 0 <= i < |ranges|
      ensures Denotes(pieces[i], v) <==> ranges[i].lo <= v <= ranges[i].hi
    {
      RangeRoundTrip(ranges[i]);
    }
    if i :| 0 <= i < |ranges| && ranges[i].lo <= v <= ranges[i].hi {
      assert pieces[i] in pieces && Denotes(pieces[i], v);
    }
  }

  lemma PrintedUnion(values: seq<int>, v: int)
    requires Increasing(values)
    ensures InUnion(Parts(BuildChannelExpression(values)), v) <==> v in values
  {
    hide Parts, BuildChannelExpression, Runs, ReadPart, RangeTextOf;
    PrintedParts(values);
    RunsCoverExactly(values, v);
    RunsAreSeparated(values);
    PiecesDenote(Runs(values), v);
  }

  lemma {:induction false} IncreasingIsUnique(a: seq<int>, b: seq<int>)
    requires Increasing(a) && Increasing(b) && forall v :: v in a <==> v in b
    ensures a == b
  {
    assert a != [] ==> a[0] in a && a[0] in b;
    assert b != [] ==> b[0] in b && b[0] in a;
    if a != [] {
      FirstIsLeast(a, b[0]);
      FirstIsLeast(b, a[0]);
      forall v
        ensures v in a[1..] <==> v in b[1..]
      {
        InTail(a, v);
        InTail(b, v);
      }
      IncreasingIsUnique(a[1..], b[1..]);
      assert a == [a[0]] + a[1..] && b == [b[0]] + b[1..];
    }
  }

  lemma FirstIsLeast(a: seq<int>, v: int)
    requires Increasing(a) && v in a
    ensures a[0] <= v
  {
  }

  lemma InTail(a: seq<int>, v: int)
    requires Increasing(a) && a != []
    ensures v in a[1..] <==> v in a && v != a[0]
  {
    assert a == [a[0]] + a[1..];
    assert forall i | 0 <= i < |a[1..]| :: a[1..][i] == a[i + 1];
  }

  /**
   Printing a sorted list and parsing it gives the numbers within the bounds, so the list itself exactly
   when none is out of bounds; and the validator accepts the text exactly for such a list, if not empty.
   */
  lemma ExpressionRoundTrip(values: seq<int>, numbers: seq<int>, min: int, max: int)
    requires Increasing(values) && Increasing(numbers)
    requires forall v :: v in numbers <==> InClippedUnion(Parts(BuildChannelExpression(values)), min, max, v)
    ensures forall v :: v in numbers <==> v in values && min <= v <= max
    ensures numbers == values <==> forall v | v in values :: min <= v <= max
    ensures IsNumberRangeStringValid(BuildChannelExpression(values), min, max) <==>
              values != [] && forall v | v in values :: min <= v <= max
  {
    hide Parts, BuildChannelExpression, ReadPart, IsNumberRangeStringValid, Increasing;
    forall v
      ensures v in numbers <==> v in values && min <= v <= max
    {
      PrintedUnion(values, v);
    }
    if forall v | v in values :: min <= v <= max {
      IncreasingIsUnique(values, numbers);
    }
    PrintedIsValid(values, min, max);
  }

  lemma PrintedIsValid(values: seq<int>, min: int, max: int)
    requires Increasing(values)
    ensures IsNumberRangeStringValid(BuildChannelExpression(values), min, max) <==>
              values != [] && forall v | v in values :: min <= v <= max
  {
    hide *;
    var text := BuildChannelExpression(values);
    ValidIff(text, min, max);
    PrintedAreRead(values);
    forall v
      ensures InUnion(Parts(text), v) <==> v in values
      ensures InClippedUnion(Parts(text), min, max, v) <==> InUnion(Parts(text), v) && min <= v <= max
    {
      PrintedUnion(values, v);
      Clipped(Parts(text), min, max, v);
    }
  }

  lemma PrintedAreRead(values: seq<int>)
    requires Increasing(values)
    ensures Parts(BuildChannelExpression(values)) == [] <==> values == []
    ensures forall part | part in Parts(BuildChannelExpression(values)) :: ReadPart(part).Some?
  {
    hide Parts, BuildChannelExpression, ReadPart, Runs, RangeTextOf, Increasing;
    PrintedParts(values);
    RunsAreSeparated(values);
    forall part | part in PiecesOf(Runs(values))
      ensures ReadPart(part).Some?
    {
      var i :| 0 <= i < |Runs(values)| && part == RangeTextOf(Runs(values)[i], "-");
      RangeRoundTrip(Runs(values)[i]);
    }
  }

  lemma Clipped(parts: seq<string>, min: int, max: int, v: int)
    ensures InClippedUnion(parts, min, max, v) <==> InUnion(parts, v) && min <= v <= max
  {
  }
}
