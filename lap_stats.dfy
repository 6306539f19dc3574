/**
 * Laps and splits of the stopwatch. A lap is the elapsed time at the moment LAP
 * was pressed; a split is the time since the previous lap (the first split is
 * the first lap). Best, worst and average are taken over the splits and are
 * `null` (here `None`) when there are none.
 */
module LapStats {
  import opened Options

  /** Laps never go backwards (two laps within one 10 ms tick are equal). */
  predicate Ascending(laps: seq<int>) {
    forall i, j :: 0 <= i < j < |laps| ==> laps[i] <= laps[j]
  }

  /** Laps that could have been taken by a stopwatch now showing `time`. */
  predicate LapsUpTo(laps: seq<int>, time: int) {
    Ascending(laps) && forall i :: 0 <= i < |laps| ==> laps[i] <= time
  }

  /** The split times recomputed from laps, as loading a saved workout does. */
  function Splits(laps: seq<int>): (splits: seq<int>)
    ensures |splits| == |laps|
  {
    seq(|laps|, i requires 0 <= i < |laps| => if i == 0 then laps[0] else laps[i] - laps[i - 1])
  }

  /** The split that capturing a lap at `time` adds: time since the last lap, or `time` for the first. */
  function NextSplit(laps: seq<int>, time: int): int {
    if |laps| > 0 then time - laps[|laps| - 1] else time
  }

  /** The lap times rebuilt from splits by accumulation: the inverse of `Splits`. */
  function RunningTotals(splits: seq<int>): (laps: seq<int>)
    ensures |laps| == |splits|
  {
    if splits == [] then []
    else
      var front := RunningTotals(splits[..|splits| - 1]);
      front + [(if front == [] then 0 else front[|front| - 1]) + splits[|splits| - 1]]
  }

  /** `splits.reduce((a, b) => a + b, 0)`. */
  function Sum(s: seq<int>): int {
    if s == [] then 0 else Sum(s[..|s| - 1]) + s[|s| - 1]
  }

  /**
   * Capturing laps one at a time and appending each `NextSplit` builds exactly
   * the splits that `Splits` recomputes from the finished lap list.
   */
  lemma SplitsAppend(laps: seq<int>, time: int)
    ensures Splits(laps + [time]) == Splits(laps) + [NextSplit(laps, time)]
  {
  }

  /** Accumulating the splits gives the laps back. */
  lemma {:induction false} RunningTotalsOfSplits(laps: seq<int>)
    ensures RunningTotals(Splits(laps)) == laps
  {
    if laps != [] {
      var front := laps[..|laps| - 1];
      assert laps == front + [laps[|laps| - 1]];
      SplitsAppend(front, laps[|laps| - 1]);
      assert Splits(laps)[..|laps| - 1] == Splits(front);
      RunningTotalsOfSplits(front);
    }
  }

  /** Splitting the accumulated totals gives the splits back. */
  lemma {:induction false} SplitsOfRunningTotals(splits: seq<int>)
    ensures Splits(RunningTotals(splits)) == splits
  {
    if splits != [] {
      var front := splits[..|splits| - 1];
      var totals := RunningTotals(front);
      SplitsOfRunningTotals(front);
      SplitsAppend(totals, RunningTotals(splits)[|splits| - 1]);
      assert RunningTotals(splits) == totals + [RunningTotals(splits)[|splits| - 1]];
      assert splits == front + [splits[|splits| - 1]];
    }
  }

  /** The splits add up to the last lap (the sum telescopes). */
  lemma {:induction false} SumOfSplits(laps: seq<int>)
    ensures Sum(Splits(laps)) == if laps == [] then 0 else laps[|laps| - 1]
  {
    if laps != [] {
      var front := laps[..|laps| - 1];
      assert laps == front + [laps[|laps| - 1]];
      SplitsAppend(front, laps[|laps| - 1]);
      assert Splits(laps)[..|laps| - 1] == Splits(front);
      SumOfSplits(front);
    }
  }

  /** Non-negative laps are in order exactly when every split is non-negative. */
  lemma {:induction false} AscendingIffSplitsNonNegative(laps: seq<nat>)
    ensures Ascending(laps) <==> forall i :: 0 <= i < |laps| ==> Splits(laps)[i] >= 0
  {
    if forall i :: 0 <= i < |laps| ==> Splits(laps)[i] >= 0 {
      forall i, j | 0 <= i < j < |laps|
        ensures laps[i] <= laps[j]
      {
        StepsAscend(laps, i, j);
      }
    }
  }

  lemma {:induction false} StepsAscend(laps: seq<int>, i: nat, j: nat)
    requires i <= j < |laps|
    requires forall k :: 0 < k < |laps| ==> Splits(laps)[k] >= 0
    ensures laps[i] <= laps[j]
    decreases j - i
  {
    if i < j {
      assert Splits(laps)[i + 1] >= 0;
      StepsAscend(laps, i + 1, j);
    }
  }

  /** `Math.min(...s)`. */
  function Minimum(s: seq<int>): (m: int)
    requires |s| > 0
    ensures exists i :: 0 <= i < |s| && s[i] == m
    ensures forall i :: 0 <= i < |s| ==> m <= s[i]
  {
    if |s| == 1 then s[0]
    else
      var m := Minimum(s[..|s| - 1]);
      if s[|s| - 1] < m then s[|s| - 1] else m
  }

  /** `Math.max(...s)`. */
  function Maximum(s: seq<int>): (m: int)
    requires |s| > 0
    ensures exists i :: 0 <= i < |s| && s[i] == m
    ensures forall i :: 0 <= i < |s| ==> s[i] <= m
  {
    if |s| == 1 then s[0]
    else
      var m := Maximum(s[..|s| - 1]);
      if s[|s| - 1] > m then s[|s| - 1] else m
  }

  /** The fastest split, `null` when there are no splits. */
  function BestLap(splits: seq<int>): (best: Option<int>)
    ensures best.None? <==> splits == []
    ensures best.Some? ==> exists i :: 0 <= i < |splits| && splits[i] == best.value
    ensures best.Some? ==> forall i :: 0 <= i < |splits| ==> best.value <= splits[i]
  {
    if |splits| == 0 then None else Some(Minimum(splits))
  }

  /** The slowest split, `null` when there are no splits. */
  function WorstLap(splits: seq<int>): (worst: Option<int>)
    ensures worst.None? <==> splits == []
    ensures worst.Some? ==> exists i :: 0 <= i < |splits| && splits[i] == worst.value
    ensures worst.Some? ==> forall i :: 0 <= i < |splits| ==> splits[i] <= worst.value
  {
    if |splits| == 0 then None else Some(Maximum(splits))
  }

  /** An exact quotient `total / count`, kept unreduced. */
  datatype Ratio = Ratio(total: int, count: nat)

  /** The mean split as an exact fraction, `null` when there are no splits. */
  function AverageLap(splits: seq<int>): (average: Option<Ratio>)
    ensures average.None? <==> splits == []
    ensures average.Some? ==> average.value.count == |splits| > 0
  {
    if |splits| == 0 then None else Some(Ratio(Sum(splits), |splits|))
  }

  /** The mean of the splits recomputed from laps is the last lap over the number of laps. */
  lemma AverageOfRecomputedSplits(laps: seq<int>)
    requires laps != []
    ensures AverageLap(Splits(laps)) == Some(Ratio(laps[|laps| - 1], |laps|))
  {
    SumOfSplits(laps);
  }

  /** The mean lies between the best and the worst split. */
  lemma {:induction false} AverageBetweenBestAndWorst(splits: seq<int>)
    requires splits != []
    ensures BestLap(splits).value * AverageLap(splits).value.count <= AverageLap(splits).value.total
    ensures AverageLap(splits).value.total <= WorstLap(splits).value * AverageLap(splits).value.count
  {
    SumBounds(splits, Minimum(splits), Maximum(splits));
  }

  lemma {:induction false} SumBounds(s: seq<int>, lo: int, hi: int)
    requires forall i :: 0 <= i < |s| ==> lo <= s[i] <= hi
    ensures lo * |s| <= Sum(s) <= hi * |s|
  {
    if s != [] {
      SumBounds(s[..|s| - 1], lo, hi);
    }
  }

  /** The lap list marks a lap best when its split equals the best split. */
  function IsBestLap(splits: seq<int>, i: nat): (marked: bool)
    requires i < |splits|
    ensures marked <==> forall j :: 0 <= j < |splits| ==> splits[i] <= splits[j]
  {
    Some(splits[i]) == BestLap(splits)
  }

  /** The lap list marks a lap worst when its split equals the worst split. */
  function IsWorstLap(splits: seq<int>, i: nat): (marked: bool)
    requires i < |splits|
    ensures marked <==> forall j :: 0 <= j < |splits| ==> splits[j] <= splits[i]
  {
    Some(splits[i]) == WorstLap(splits)
  }

  /** Every lap tied with a marked lap is marked too, and some lap is marked. */
  lemma TiedLapsAllMarked(splits: seq<int>, i: nat, j: nat)
    requires i < |splits| && j < |splits| && splits[i] == splits[j]
    ensures IsBestLap(splits, i) == IsBestLap(splits, j)
    ensures IsWorstLap(splits, i) == IsWorstLap(splits, j)
    ensures exists k :: 0 <= k < |splits| && IsBestLap(splits, k)
    ensures exists k :: 0 <= k < |splits| && IsWorstLap(splits, k)
  {
    var b :| 0 <= b < |splits| && splits[b] == BestLap(splits).value;
    assert IsBestLap(splits, b);
    var w :| 0 <= w < |splits| && splits[w] == WorstLap(splits).value;
    assert IsWorstLap(splits, w);
  }
}
