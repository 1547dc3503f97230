/**
 The alias words that parseNumberRangeString of src/utils/validators.ts strips by default: a list of ranges may follow
 one of them, as in `Chan 1 Thru 3`, in any spelling of its marks, and is read as without it.
 */
module RangeAliases {
  import opened ChannelRanges
  import opened ChannelRoundTrip
  import opened Options
  import opened RangeText

  /** The words that may precede a list of ranges, in any case. */
  predicate IsAlias(word: string) {
    Lower(word) in {"chan", "channel", "channels", "ch", "cue", "cues", "list", "cuelist", "palette", "preset",
                    "address", "addresses", "addr"}
  }

  /** A text that starts with a number, as every list of ranges does. */
  ghost predicate StartsWithNumber(text: string) {
    exists number, rest :: IsNumberText(number) && Stops(rest) && text == number + rest
  }

  lemma ListStartsWithNumber(ranges: seq<Interval>, thru: string, sep: string)
    requires ranges != [] && Separators(thru, sep)
    ensures StartsWithNumber(ExpressionOf(ranges, thru, sep))
  {
    ExpressionShape(ranges, thru, sep);
    IntTextIsNumber(ranges[0].lo);
    AfterNumberStops(ranges, thru, sep);
  }

  lemma AfterNumberStops(ranges: seq<Interval>, thru: string, sep: string)
    requires ranges != [] && Separators(thru, sep)
    ensures Stops(AfterNumber(ranges, thru, sep))
  {
    if |ranges| > 1 {
      StopsAppend(sep, ExpressionOf(ranges[1..], thru, sep));
    }
    StopsAppend(thru, IntToString(ranges[0].hi) + AfterRange(ranges, thru, sep));
  }

  lemma FirstOfNumber(text: string)
    requires StartsWithNumber(text)
    ensures text != "" && (IsDigit(text[0]) || text[0] == '-') && !IsSpace(text[0]) && !IsListSeparator(text[0])
  {
    var number, rest :| IsNumberText(number) && Stops(rest) && text == number + rest;
    NumberChars(number);
    assert number[0] in number;
  }

  // ---------- The alias, stage by stage ----------

  /** The characters of an alias are letters. */
  lemma AliasChars(word: string)
    requires IsAlias(word)
    ensures word != "" && forall c | c in Lower(word) :: IsWordChar(c)
    ensures forall c | c in word :: c as int < 0x80 && IsWordChar(c) && !IsSpace(c) && !IsListSeparator(c)
    ensures forall c | c in word :: c != ',' && c != '-' && !IsDash(c)
    ensures Lower(word) !in RANGE_WORDS && Lower(word) !in {"jusqu", "jusque", "et", "and", "with"}
  {
    forall i | 0 <= i < |word|
      ensures IsWordChar(word[i]) && word[i] as int < 0x80
    {
      LowerAt(word, i);
      assert Lower(word)[i] in Lower(word);
    }
    assert |Lower(word)| == |word| >= 2;
    NoMarkWord(Lower(word));
    assert forall c | c in word :: IsWordChar(c) ==> c != ',' && c != '-' && !IsSpace(c) && !IsListSeparator(c);
  }

  lemma NoMarkWord(word: string)
    requires word in {"chan", "channel", "channels", "ch", "cue", "cues", "list", "cuelist", "palette", "preset",
                      "address", "addresses", "addr"}
    ensures word !in {"thru", "through", "to", "jusqua", "a", "jusqu", "jusque", "et", "and", "with"}
  {
    assert |word| >= 2 && word[0] in {'c', 'l', 'p', 'a'};
    assert word[0] == 'a' ==> |word| >= 4;
  }

  lemma AliasIsNoMark(word: string, rest: string)
    requires IsAlias(word) && rest != "" && !IsWordChar(rest[0])
    ensures ReplaceRangeMarks(word + rest) == word + ReplaceRangeMarks(rest)
  {
    AliasChars(word);
    IsOneWord(word, rest);
    hide WordLength, Lower, IsWordChar, IsAlias;
    assert SpelledOutMark(word + rest) == 0;
    hide SpelledOutMark;
  }

  lemma AliasAsWord(word: string, rest: string, words: set<string>, replacement: string)
    requires IsAlias(word) && rest != "" && !IsWordChar(rest[0])
    ensures ReplaceWords(word + rest, words, replacement) ==
            (if Lower(word) in words then replacement else word) + ReplaceWords(rest, words, replacement)
  {
    AliasChars(word);
    IsOneWord(word, rest);
    hide WordLength, Lower, IsWordChar, IsAlias;
  }

  /** After the words have been replaced the alias and the white space behind it are still there. */
  lemma AliasKeepsWords(word: string, gap: string, text: string)
    requires IsAlias(word) && AllSpaces(gap) && gap != ""
    ensures ReplaceWords(ReplaceRangeMarks(PlainDashes(word + (gap + text))), {"et", "and", "with"}, ",")
            == word + (gap + ReplaceWords(ReplaceRangeMarks(PlainDashes(text)), {"et", "and", "with"}, ","))
  {
    AliasChars(word);
    SpacesAreNoMarks(gap);
    UndashedStays(word);
    UndashedStays(gap);
    DashesAppend(word, gap + text);
    DashesAppend(gap, text);
    hide PlainDashes, IsAlias;
    AliasKeepsMarks(word, gap, PlainDashes(text));
    AliasKeepsList(word, gap, ReplaceRangeMarks(PlainDashes(text)));
  }

  lemma AliasKeepsMarks(word: string, gap: string, text: string)
    requires IsAlias(word) && AllSpaces(gap) && gap != ""
    ensures ReplaceRangeMarks(word + (gap + text)) == word + (gap + ReplaceRangeMarks(text))
  {
    SpaceFirst(gap, text);
    SpacesAreNoMarks(gap);
    hide ReplaceRangeMarks;
    AliasIsNoMark(word, gap + text);
    NonMarksStay(gap, text);
  }

  lemma AliasKeepsList(word: string, gap: string, text: string)
    requires IsAlias(word) && AllSpaces(gap) && gap != ""
    ensures ReplaceWords(word + (gap + text), {"et", "and", "with"}, ",")
            == word + (gap + ReplaceWords(text, {"et", "and", "with"}, ","))
  {
    SpaceFirst(gap, text);
    SpacesAreNoMarks(gap);
    AliasChars(word);
    hide ReplaceWords, IsAlias;
    AliasAsWord(word, gap + text, {"et", "and", "with"}, ",");
    NonWordsStay(gap, text, {"et", "and", "with"}, ",");
  }

  /** After the white space has been dealt with at most the white space behind the alias is gone. */
  lemma AliasKeepsSpaces(word: string, gap: string, text: string) returns (gap': string)
    requires IsAlias(word) && AllSpaces(gap) && gap != "" && StartsWithNumber(text)
    requires StartsWithNumber(CommasForSeparators(text))
    requires StartsWithNumber(TightenAround(CommasForSeparators(text), ','))
    ensures AllSpaces(gap') && (gap' == "" ==> TightenAround(CommasForSeparators(text), ',')[0] == '-')
    ensures TightenAround(TightenAround(CommasForSeparators(word + (gap + text)), ','), '-')
            == word + (gap' + TightenAround(TightenAround(CommasForSeparators(text), ','), '-'))
  {
    AliasChars(word);
    SpacesAreNoMarks(gap);
    FirstOfNumber(text);
    hide TightenAround, CommasForSeparators, IsAlias;
    NonSeparatorsStay(word, gap + text);
    NonSeparatorsStay(gap, text);
    var commas := CommasForSeparators(text);
    FirstOfNumber(commas);
    SolidTextStays(word, gap + commas, ',');
    SpacesStay(gap, commas, ',');
    var tight := TightenAround(commas, ',');
    FirstOfNumber(tight);
    SolidTextStays(word, gap + tight, '-');
    gap' := GapBeforeNumber(gap, tight);
  }

  lemma GapBeforeNumber(gap: string, text: string) returns (gap': string)
    requires AllSpaces(gap) && gap != "" && StartsWithNumber(text)
    ensures text != "" && (gap' == "" ==> text[0] == '-')
    ensures AllSpaces(gap') && TightenAround(gap + text, '-') == gap' + TightenAround(text, '-')
  {
    FirstOfNumber(text);
    if text[0] == '-' {
      gap' := "";
      var number, rest :| IsNumberText(number) && Stops(rest) && text == number + rest;
      NumberChars(number);
      assert number[0] == '-' && number[0] in number;
      var digits := number[1..];
      assert text == "-" + (digits + rest) && digits[0] in digits;
      MarkIsTightened(gap, '-', "", digits + rest);
      MarkIsTightened("", '-', "", digits + rest);
      EmptyAround("-", digits + rest);
      hide TightenAround;
      assert gap + (['-'] + ("" + (digits + rest))) == gap + text;
      assert "" + TightenAround(text, '-') == TightenAround(text, '-');
    } else {
      gap' := gap;
      SpacesStay(gap, text, '-');
    }
  }

  // ---------- The alias goes ----------

  lemma {:induction false} SolidIsCollapsed(solid: string, rest: string)
    requires forall c | c in solid :: !IsSpace(c)
    ensures CollapseSpaces(solid + rest) == solid + CollapseSpaces(rest)
  {
    if solid == "" {
      assert solid + rest == rest;
    } else {
      assert solid[0] in solid && (solid + rest)[1..] == solid[1..] + rest;
      SolidIsCollapsed(solid[1..], rest);
    }
  }

  lemma GapIsCollapsed(gap: string, solid: string)
    requires AllSpaces(gap) && solid != "" && forall c | c in solid :: !IsSpace(c)
    ensures CollapseSpaces(gap + solid) == (if gap == "" then "" else " ") + solid
  {
    SpacelessIsCollapsed(solid);
    if gap == "" {
      assert gap + solid == solid;
    } else {
      assert gap[0] in gap && solid[0] in solid;
      SkipSpacesOf(gap, solid);
    }
  }

  lemma TrimmedAlready(s: string)
    requires s != "" && !IsSpace(s[0]) && !IsSpace(s[|s| - 1])
    ensures Trim(s) == s
  {
  }

  /** What is left of an alias and the white space behind it is one space or two. */
  lemma AliasGoes(word: string, gap: string, solid: string) returns (spaces: string)
    requires solid != "" && (gap == "" ==> solid[0] == '-')
    requires IsAlias(word) && AllSpaces(gap) && forall c | c in solid :: !IsSpace(c)
    requires ReplaceWords(solid, DEFAULT_ALIAS_TOKENS, " ") == solid
    ensures AllSpaces(spaces) && ',' !in spaces
    ensures ReplaceWords(Trim(CollapseSpaces(word + (gap + solid))), DEFAULT_ALIAS_TOKENS, " ") == spaces + solid
  {
    var g := if gap == "" then "" else " ";
    AliasIsTrimmed(word, gap, g, solid);
    AliasIsAToken(word);
    assert g == "" ==> g + solid == solid;
    hide ReplaceWords, Trim, CollapseSpaces, IsAlias;
    AliasAsWord(word, g + solid, DEFAULT_ALIAS_TOKENS, " ");
    NonWordsStay(g, solid, DEFAULT_ALIAS_TOKENS, " ");
    spaces := " " + g;
    assert " " + (g + solid) == spaces + solid;
  }

  lemma AliasIsTrimmed(word: string, gap: string, g: string, solid: string)
    requires IsAlias(word) && AllSpaces(gap) && g == (if gap == "" then "" else " ")
    requires solid != "" && forall c | c in solid :: !IsSpace(c)
    ensures Trim(CollapseSpaces(word + (gap + solid))) == word + (g + solid)
  {
    AliasChars(word);
    SolidIsCollapsed(word, gap + solid);
    GapIsCollapsed(gap, solid);
    hide CollapseSpaces, IsAlias, Trim, IsSpace;
    var text, n := word + (g + solid), |solid| - 1;
    assert text[0] == word[0] && word[0] in word;
    assert text[|text| - 1] == solid[n] && solid[n] in solid;
    TrimmedAlready(text);
  }

  lemma AliasIsAToken(word: string)
    requires IsAlias(word)
    ensures Lower(word) in DEFAULT_ALIAS_TOKENS
  {
    hide Lower;
  }

  // ---------- The parts ----------

  lemma {:induction false} SplitAfter(prefix: string, s: string, mark: char)
    requires mark !in prefix
    ensures Split(prefix + s, mark) == [prefix + Split(s, mark)[0]] + Split(s, mark)[1..]
  {
    if prefix == "" {
      assert prefix + s == s;
      assert prefix + Split(s, mark)[0] == Split(s, mark)[0];
    } else {
      assert (prefix + s)[1..] == prefix[1..] + s && prefix[0] in prefix;
      SplitAfter(prefix[1..], s, mark);
      assert [prefix[0]] + (prefix[1..] + Split(s, mark)[0]) == prefix + Split(s, mark)[0];
    }
  }

  lemma SpacesBeforePart(spaces: string, solid: string)
    requires AllSpaces(spaces) && solid != "" && forall c | c in solid :: !IsSpace(c)
    ensures Trim(spaces + solid) == Trim(solid)
  {
    assert solid[0] in solid;
    SkipSpacesOf(spaces, solid);
  }

  /** A list of ranges behind an alias has the parts it has without. */
  lemma AliasIsSkipped(word: string, gap: string, ranges: seq<Interval>, thru: Spaced, sep: Spaced)
    requires IsAlias(word) && AllSpaces(gap) && gap != "" && ranges != []
    requires IsRangeMark(thru) && IsListMark(sep)
    ensures Parts(word + (gap + ExpressionOf(ranges, TextOf(thru), TextOf(sep)))) == PiecesOf(ranges)
  {
    var spaces := AliasIsStripped(word, gap, ranges, thru, sep);
    var solid := ExpressionOf(ranges, "-", ",");
    hide StripRangeAliases, ExpressionOf, IsAlias, IsRangeMark, IsListMark;
    PiecesSplit(ranges);
    SplitAfter(spaces, solid, ',');
    RangeTextChars(ranges[0]);
    var pieces := PiecesOf(ranges);
    SpacesBeforePart(spaces, pieces[0]);
    hide Split, Trim, RangeTextOf;
    assert ([spaces + pieces[0]] + pieces[1..])[1..] == pieces[1..];
  }

  lemma AliasIsStripped(word: string, gap: string, ranges: seq<Interval>, thru: Spaced, sep: Spaced)
    returns (spaces: string)
    requires IsAlias(word) && AllSpaces(gap) && gap != "" && ranges != []
    requires IsRangeMark(thru) && IsListMark(sep)
    ensures AllSpaces(spaces) && ',' !in spaces
    ensures StripRangeAliases(word + (gap + ExpressionOf(ranges, TextOf(thru), TextOf(sep))))
            == spaces + ExpressionOf(ranges, "-", ",")
  {
    var hyphen, mark := thru.(mark := "-"), WithoutWord(sep);
    var solid, text := ExpressionOf(ranges, "-", ","), ExpressionOf(ranges, TextOf(hyphen), TextOf(mark));
    WordsAreNormalised(ranges, thru, sep);
    AliasKeepsWords(word, gap, ExpressionOf(ranges, TextOf(thru), TextOf(sep)));
    var gap' := ListKeepsAlias(word, gap, ranges, thru, sep);
    SolidList(ranges);
    hide *;
    spaces := AliasGoes(word, gap', solid);
    NormaliserOf(word, gap, gap', ExpressionOf(ranges, TextOf(thru), TextOf(sep)), text, solid);
  }

  /** The stages of the normaliser put together. */
  lemma NormaliserOf(word: string, gap: string, gap': string, input: string, text: string, solid: string)
    requires ReplaceWords(ReplaceRangeMarks(PlainDashes(word + (gap + input))), {"et", "and", "with"}, ",")
             == word + (gap + text)
    requires TightenAround(TightenAround(CommasForSeparators(word + (gap + text)), ','), '-') == word + (gap' + solid)
    ensures StripRangeAliases(word + (gap + input))
            == ReplaceWords(Trim(CollapseSpaces(word + (gap' + solid))), DEFAULT_ALIAS_TOKENS, " ")
  {
    hide ReplaceWords, ReplaceRangeMarks, PlainDashes, TightenAround, CommasForSeparators, Trim, CollapseSpaces;
  }

  /** A list with simple marks and no white space. */
  lemma SolidList(ranges: seq<Interval>)
    requires ranges != []
    ensures var solid := ExpressionOf(ranges, "-", ",");
            && solid != "" && (forall c | c in solid :: !IsSpace(c))
            && ReplaceWords(solid, DEFAULT_ALIAS_TOKENS, " ") == solid
  {
    assert Stops(",") && Stops("-");
    WordStage(DEFAULT_ALIAS_TOKENS, " ", "-", ",");
    ExpressionIsSolid(ranges);
    ListStartsWithNumber(ranges, "-", ",");
    FirstOfNumber(ExpressionOf(ranges, "-", ","));
    hide ExpressionOf, ReplaceWords, Rewrites, Stops;
    RewritesExpression(s => ReplaceWords(s, DEFAULT_ALIAS_TOKENS, " "), ranges, "-", ",", "-", ",");
  }

  lemma ListKeepsAlias(word: string, gap: string, ranges: seq<Interval>, thru: Spaced, sep: Spaced)
    returns (gap': string)
    requires IsAlias(word) && AllSpaces(gap) && gap != "" && ranges != []
    requires IsRangeMark(thru) && IsListMark(sep)
    ensures var text := ExpressionOf(ranges, TextOf(thru.(mark := "-")), TextOf(WithoutWord(sep)));
            var solid := ExpressionOf(ranges, "-", ",");
            && AllSpaces(gap') && solid != "" && (gap' == "" ==> solid[0] == '-')
            && TightenAround(TightenAround(CommasForSeparators(word + (gap + text)), ','), '-') == word + (gap' + solid)
  {
    var hyphen, mark := thru.(mark := "-"), WithoutWord(sep);
    MarksAreSimple(thru, sep);
    PlainMarksStop(hyphen);
    MarksStop(mark);
    MarksStop(mark.(mark := ","));
    assert Stops(",");
    SpacesAreNormalised(ranges, hyphen, mark);
    hide ExpressionOf, CommasForSeparators, TightenAround, IsRangeMark, IsListMark, TextOf, WithoutWord, IsSeparator,
        IsSpaced, Stops, IsAlias;
    ListStartsWithNumber(ranges, TextOf(hyphen), TextOf(mark));
    ListStartsWithNumber(ranges, TextOf(hyphen), TextOf(mark.(mark := ",")));
    ListStartsWithNumber(ranges, TextOf(hyphen), ",");
    gap' := AliasKeepsSpaces(word, gap, ExpressionOf(ranges, TextOf(hyphen), TextOf(mark)));
    SameFirst(ranges, TextOf(hyphen), ",", "-", ",");
  }

  /** Lists of the same ranges start with the same character. */
  lemma SameFirst(ranges: seq<Interval>, thru: string, sep: string, thru': string, sep': string)
    requires ranges != []
    ensures ExpressionOf(ranges, thru, sep) != "" && ExpressionOf(ranges, thru', sep') != ""
    ensures ExpressionOf(ranges, thru, sep)[0] == ExpressionOf(ranges, thru', sep')[0]
  {
    ExpressionShape(ranges, thru, sep);
    ExpressionShape(ranges, thru', sep');
    IntTextIsNumber(ranges[0].lo);
  }
}
