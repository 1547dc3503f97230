/**
 Models normaliseChannels, formatRangeList and buildChannelExpression of src/tools/channels/index.ts,
 and their round trip through the parser of module RangeText.
 */
module ChannelRanges {
  import opened RangeText

  // ---------- normaliseChannels ----------

  function Dedup(values: seq<int>): seq<int> {
    if values == [] then []
    else
      var before, last := Dedup(values[..|values| - 1]), values[|values| - 1];
      if last in before then before else before + [last]
  }

  /** Math.trunc: the nearest integer on the side of zero. */
  function Trunc(x: real): (n: int)
    ensures x >= 0.0 ==> n as real <= x < n as real + 1.0
    ensures x <= 0.0 ==> n as real - 1.0 < x <= n as real
  {
    if x >= 0.0 then x.Floor else -(-x).Floor
  }

  function Truncated(values: seq<real>): seq<int> {
    seq(|values|, i requires 0 <= i < |values| => Trunc(values[i]))
  }

  function NormaliseChannels(values: seq<real>): seq<int> {
    SortDistinct(Dedup(Truncated(values)))
  }

  lemma {:induction false} DedupKeepsMembers(values: seq<int>)
    ensures Distinct(Dedup(values)) && forall v :: v in Dedup(values) <==> v in values
  {
    if values != [] {
      var n := |values| - 1;
      DedupKeepsMembers(values[..n]);
      assert values == values[..n] + [values[n]];
    }
  }

  /** The strictly increasing list of what the channels truncate to. */
  lemma NormalisedChannels(values: seq<real>)
    ensures Increasing(NormaliseChannels(values))
    ensures forall v :: v in NormaliseChannels(values) <==> exists x :: x in values && Trunc(x) == v
  {
    DedupKeepsMembers(Truncated(values));
    SortDistinctSorts(Dedup(Truncated(values)));
    hide Trunc;
    forall v
      ensures v in Truncated(values) <==> exists x :: x in values && Trunc(x) == v
    {
      if x :| x in values && Trunc(x) == v {
        var i :| 0 <= i < |values| && values[i] == x;
        assert Truncated(values)[i] == v;
      }
    }
  }

  // ---------- formatRangeList ----------

  /** The runs of consecutive values: each value extends the last run or starts a new one. */
  function Runs(values: seq<int>): (runs: seq<Interval>)
    ensures values != [] ==> runs != [] && runs[|runs| - 1].hi == values[|values| - 1]
    ensures values == [] ==> runs == []
  {
    if values == [] then []
    else
      var n := |values| - 1;
      var before, v := Runs(values[..n]), values[n];
      if before != [] && v == before[|before| - 1].hi + 1
      then before[..|before| - 1] + [Interval(before[|before| - 1].lo, v)]
      else before + [Interval(v, v)]
  }

  method FormatRangeList(values: seq<int>) returns (ranges: seq<Interval>)
    ensures ranges == Runs(values)
  {
    if |values| == 0 {
      return [];
    }
    ranges := [];
    var start, previous := values[0], values[0];
    var index := 1;
    assert values[..1][..0] == [];
    while index <= |values|
      invariant 1 <= index <= |values| + 1
      invariant index <= |values| ==>
                  previous == values[index - 1] && ranges + [Interval(start, previous)] == Runs(values[..index])
      invariant index == |values| + 1 ==> ranges == Runs(values)
    {
      assert index < |values| ==> values[..index + 1][..index] == values[..index];
      assert index == |values| ==> values[..index] == values;
      if index < |values| && values[index] == previous + 1 {
        previous := values[index];
      } else {
        ranges := ranges + [Interval(start, previous)];
        if index < |values| {
          start, previous := values[index], values[index];
        }
      }
      index := index + 1;
    }
  }

  ghost predicate Covers(ranges: seq<Interval>, v: int) {
    exists i :: 0 <= i < |ranges| && ranges[i].lo <= v <= ranges[i].hi
  }

  /** The ranges are in order, and a value is missing between any two of them. */
  ghost predicate Separated(ranges: seq<Interval>) {
    && (forall i | 0 <= i < |ranges| :: ranges[i].lo <= ranges[i].hi)
    && (forall i, j | 0 <= i < j < |ranges| :: ranges[i].hi + 1 < ranges[j].lo)
  }

  lemma {:induction false} RunsAreSeparated(values: seq<int>)
    requires Increasing(values)
    ensures Separated(Runs(values))
  {
    if values != [] {
      var n := |values| - 1;
      var before, v := Runs(values[..n]), values[n];
      RunsAreSeparated(values[..n]);
      if before != [] {
        assert before[|before| - 1].hi == values[n - 1] < v;
      }
      hide Increasing;
      OneValueKeepsSeparated(before, v);
    }
  }

  /** A value beyond the last run extends it or starts a new one. */
  lemma OneValueKeepsSeparated(before: seq<Interval>, v: int)
    requires Separated(before) && (before != [] ==> before[|before| - 1].hi < v)
    ensures before != [] && v == before[|before| - 1].hi + 1 ==>
              Separated(before[..|before| - 1] + [Interval(before[|before| - 1].lo, v)])
    ensures before == [] || v != before[|before| - 1].hi + 1 ==> Separated(before + [Interval(v, v)])
  {
  }

  lemma {:induction false} RunsCoverExactly(values: seq<int>, v: int)
    requires Increasing(values)
    ensures Covers(Runs(values), v) <==> v in values
  {
    if values != [] {
      hide Covers, Separated, Runs;
      var n := |values| - 1;
      RunsCoverExactly(values[..n], v);
      OneValueMore(values, v);
      assert values == values[..n] + [values[n]];
    } else {
      assert Runs(values) == [];
    }
  }

  lemma OneValueMore(values: seq<int>, v: int)
    requires values != [] && Increasing(values)
    ensures Covers(Runs(values), v) <==> Covers(Runs(values[..|values| - 1]), v) || v == values[|values| - 1]
  {
    hide Covers, Separated;
    var n := |values| - 1;
    var before, last := Runs(values[..n]), values[n];
    RunsAreSeparated(values[..n]);
    if before != [] && last == before[|before| - 1].hi + 1 {
      ExtendedCover(before, last, v);
    } else {
      AppendedCover(before, last, v);
    }
  }

  lemma ExtendedCover(before: seq<Interval>, last: int, v: int)
    requires before != [] && last == before[|before| - 1].hi + 1 && Separated(before)
    ensures Covers(before[..|before| - 1] + [Interval(before[|before| - 1].lo, last)], v) <==>
            Covers(before, v) || v == last
  {
    var m := |before| - 1;
    var after := before[..m] + [Interval(before[m].lo, last)];
    if i :| 0 <= i < |before| && before[i].lo <= v <= before[i].hi {
      assert after[i].lo <= v <= after[i].hi;
    }
    assert v == last ==> after[m].lo <= v <= after[m].hi;
    if i :| 0 <= i < |after| && after[i].lo <= v <= after[i].hi && v != last {
      assert before[i].lo <= v <= before[i].hi;
    }
  }

  lemma AppendedCover(before: seq<Interval>, last: int, v: int)
    ensures Covers(before + [Interval(last, last)], v) <==> Covers(before, v) || v == last
  {
    var after := before + [Interval(last, last)];
    if i :| 0 <= i < |before| && before[i].lo <= v <= before[i].hi {
      assert after[i].lo <= v <= after[i].hi;
    }
    assert after[|before|].lo == after[|before|].hi == last;
    if i :| 0 <= i < |after| && after[i].lo <= v <= after[i].hi && v != last {
      assert before[i].lo <= v <= before[i].hi;
    }
  }

  ghost predicate HasStart(ranges: seq<Interval>, v: int) {
    exists j :: 0 <= j < |ranges| && ranges[j].lo == v
  }

  lemma NothingBeforeARun(runs: seq<Interval>, i: nat)
    requires Separated(runs) && i < |runs|
    ensures !Covers(runs, runs[i].lo - 1) && Covers(runs, runs[i].lo)
  {
    assert runs[i].lo <= runs[i].lo <= runs[i].hi;
  }

  /** In any exact cover, the start of a run is the start of some interval. */
  lemma RunStartIsStart(values: seq<int>, other: seq<Interval>, i: nat)
    requires Increasing(values) && i < |Runs(values)|
    requires forall v :: Covers(other, v) <==> v in values
    ensures HasStart(other, Runs(values)[i].lo)
  {
    var v := Runs(values)[i].lo;
    RunsAreSeparated(values);
    NothingBeforeARun(Runs(values), i);
    RunsCoverExactly(values, v);
    RunsCoverExactly(values, v - 1);
    assert Covers(other, v) && !Covers(other, v - 1);
    var j :| 0 <= j < |other| && other[j].lo <= v <= other[j].hi;
    OutsideEvery(other, j, v - 1);
  }

  lemma OutsideEvery(ranges: seq<Interval>, j: nat, v: int)
    requires j < |ranges| && !Covers(ranges, v)
    ensures v < ranges[j].lo || ranges[j].hi < v
  {
  }

  /** No list of intervals covering exactly the same values is shorter. */
  lemma RunsAreMinimal(values: seq<int>, other: seq<Interval>)
    requires Increasing(values) && forall v :: Covers(other, v) <==> v in values
    ensures |Runs(values)| <= |other|
  {
    var runs := Runs(values);
    RunsAreSeparated(values);
    forall i | 0 <= i < |runs|
      ensures HasStart(other, runs[i].lo)
    {
      RunStartIsStart(values, other, i);
    }
    DistinctStarts(runs, other, |runs|);
  }

  lemma {:induction false} DistinctStarts(runs: seq<Interval>, other: seq<Interval>, n: nat)
    requires n <= |runs| && Separated(runs)
    requires forall i | 0 <= i < n :: HasStart(other, runs[i].lo)
    ensures n <= |other|
    decreases |other|
  {
    if n > 0 {
      assert HasStart(other, runs[n - 1].lo);
      var last :| 0 <= last < |other| && other[last].lo == runs[n - 1].lo;
      var fewer := other[..last] + other[last + 1..];
      forall i | 0 <= i < n - 1
        ensures HasStart(fewer, runs[i].lo)
      {
        var j :| 0 <= j < |other| && other[j].lo == runs[i].lo;
        assert fewer[if j < last then j else j - 1].lo == runs[i].lo;
      }
      DistinctStarts(runs, fewer, n - 1);
    }
  }

  // ---------- buildChannelExpression ----------

  function NatToDigits(n: nat): (s: string)
    ensures s != "" && AllDigits(s)
  {
    var last := ('0' as int + n % 10) as char;
    if n < 10 then [last] else NatToDigits(n / 10) + [last]
  }

  /** String(n) of an integer. */
  function IntToString(n: int): string {
    if n < 0 then "-" + NatToDigits(-n) else NatToDigits(n)
  }

  /** One range, with the given text between its ends. */
  function RangeTextOf(range: Interval, thru: string): string {
    if range.lo == range.hi then IntToString(range.lo) else IntToString(range.lo) + thru + IntToString(range.hi)
  }

  /** The ranges joined by a separator. */
  function ExpressionOf(ranges: seq<Interval>, thru: string, separator: string): string {
    if ranges == [] then ""
    else if |ranges| == 1 then RangeTextOf(ranges[0], thru)
    else RangeTextOf(ranges[0], thru) + (separator + ExpressionOf(ranges[1..], thru, separator))
  }

  function BuildChannelExpression(values: seq<int>): string {
    ExpressionOf(Runs(values), " Thru ", " + ")
  }
}
