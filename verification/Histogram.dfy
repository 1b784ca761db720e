// Statistics of the width profile: count, mean, nearest-rank 95th percentile
// and maximum, computed from the histogram without expanding it.

module Histogram {
  import opened Basics

  const U128_LIMIT: nat := 0x1_0000_0000_0000_0000_0000_0000_0000_0000

  datatype Entry = Entry(width: nat, count: nat)

  // `weightedSum` over `sampleCount` is the mean.
  datatype Statistics = Statistics(sampleCount: nat, weightedSum: nat, nearestRankP95: nat, maximum: nat)

  datatype ProfileError =
    | EmptyHistogram
    | NotSortedAndAdmitted
    | SampleCountOverflow
    | WeightedSumOverflow
    | PercentileTargetOverflow

  datatype ProfileResult = Profile(statistics: Statistics) | Rejected(error: ProfileError)

  // ---------------------------------------------------- the expanded sample

  function Repeat(width: nat, count: nat): (s: seq<nat>)
    ensures |s| == count && forall i | 0 <= i < count :: s[i] == width
  {
    seq(count, _ => width)
  }

  // The sample the histogram summarises, in ascending order.
  function Expand(h: seq<Entry>): seq<nat> {
    if h == [] then []
    else
      var last := h[|h| - 1];
      Expand(h[..|h| - 1]) + Repeat(last.width, last.count)
  }

  function Sum(s: seq<nat>): nat {
    if s == [] then 0 else Sum(s[..|s| - 1]) + s[|s| - 1]
  }

  // The rank ceil(95 N / 100), counted from one.
  function P95Rank(n: nat): nat {
    (95 * n + 99) / 100
  }

  predicate Admitted(h: seq<Entry>) {
    && (forall i | 0 <= i < |h| :: 1 <= h[i].width <= 64 && h[i].count > 0)
    && forall i, j | 0 <= i < j < |h| :: h[i].width < h[j].width
  }

  lemma {:induction false} RepeatOneMore(s: seq<nat>, width: nat, count: nat)
    requires count > 0
    ensures s + Repeat(width, count) == s + Repeat(width, count - 1) + [width]
  {
  }

  lemma {:induction false} SumOfRepeat(s: seq<nat>, width: nat, count: nat)
    ensures Sum(s + Repeat(width, count)) == Sum(s) + width * count
  {
    if count == 0 {
      assert s + Repeat(width, count) == s;
    } else {
      RepeatOneMore(s, width, count);
      SumOfRepeat(s, width, count - 1);
      SumAppend(s + Repeat(width, count - 1), width);
      assert width * count == width * (count - 1) + width;
    }
  }

  lemma {:induction false} SumAppend(s: seq<nat>, x: nat)
    ensures Sum(s + [x]) == Sum(s) + x
  {
    assert (s + [x])[..|s|] == s;
  }

  lemma {:induction false} ExpandStep(h: seq<Entry>, n: nat)
    requires n < |h|
    ensures Expand(h[..n + 1]) == Expand(h[..n]) + Repeat(h[n].width, h[n].count)
    ensures Sum(Expand(h[..n + 1])) == Sum(Expand(h[..n])) + h[n].width * h[n].count
  {
    assert h[..n + 1][..n] == h[..n];
    SumOfRepeat(Expand(h[..n]), h[n].width, h[n].count);
  }

  lemma {:induction false} ExpandGrows(h: seq<Entry>, n: nat)
    requires n <= |h|
    ensures Expand(h[..n]) <= Expand(h)
    decreases |h| - n
  {
    if n == |h| {
      assert h[..n] == h;
    } else {
      ExpandStep(h, n);
      ExpandGrows(h, n + 1);
    }
  }

  // The expanded sample is ascending, so its elements are order statistics.
  lemma {:induction false} ExpandIsSorted(h: seq<Entry>)
    requires Admitted(h)
    ensures forall i, j | 0 <= i < j < |Expand(h)| :: Expand(h)[i] <= Expand(h)[j]
    ensures h != [] ==> forall i | 0 <= i < |Expand(h)| :: Expand(h)[i] <= h[|h| - 1].width
  {
    if h != [] {
      var last := h[|h| - 1];
      var prefix := h[..|h| - 1];
      ExpandIsSorted(prefix);
      forall i | 0 <= i < |Expand(prefix)| ensures Expand(prefix)[i] <= last.width {
        assert prefix != [] && Expand(prefix)[i] <= prefix[|prefix| - 1].width;
      }
    }
  }

  lemma {:induction false} ScaleDown(a: nat, b: nat, c: nat)
    requires a <= b
    ensures a * c <= b * c
  {
  }

  // The weighted sum stays far below 2^128 while the count fits 64 bits.
  lemma {:induction false} SumIsBounded(h: seq<Entry>, n: nat)
    requires Admitted(h) && n <= |h|
    ensures Sum(Expand(h[..n])) <= 64 * |Expand(h[..n])|
  {
    if n > 0 {
      SumIsBounded(h, n - 1);
      ExpandStep(h, n - 1);
      ScaleDown(h[n - 1].width, 64, h[n - 1].count);
    }
  }

  // The sample holds each width as often as its entry says, and no other.
  lemma {:induction false} ExpandHolds(h: seq<Entry>, width: nat)
    requires Admitted(h)
    ensures forall k | 0 <= k < |h| && h[k].width == width :: multiset(Expand(h))[width] == h[k].count
    ensures width in Expand(h) ==> exists k :: 0 <= k < |h| && h[k].width == width
  {
    if h != [] {
      var front, last := h[..|h| - 1], h[|h| - 1];
      AdmittedPrefix(h, |h| - 1);
      ExpandHolds(front, width);
      RepeatHolds(last.width, last.count, width);
      assert multiset(Expand(h)) == multiset(Expand(front)) + multiset(Repeat(last.width, last.count));
      assert width in Expand(h) ==> width in multiset(Expand(h));
      assert width in multiset(Expand(front)) ==> width in Expand(front);
      assert forall k | 0 <= k < |front| :: front[k] == h[k];
    }
  }

  lemma {:induction false} RepeatHolds(width: nat, count: nat, x: nat)
    ensures multiset(Repeat(width, count))[x] == if x == width then count else 0
  {
    if count == 0 {
      assert Repeat(width, 0) == [];
    } else {
      RepeatHolds(width, count - 1, x);
      assert Repeat(width, count) == Repeat(width, count - 1) + [width];
    }
  }

  // ------------------------------------------------------------ order statistics

  // At least 95 per cent of the sample are at most x, but fewer are below it.
  ghost predicate IsP95(sample: seq<nat>, x: nat) {
    && 100 * |set i | 0 <= i < |sample| && sample[i] <= x| >= 95 * |sample|
    && 100 * |set i | 0 <= i < |sample| && sample[i] < x| < 95 * |sample|
  }

  lemma {:induction false} P95IsUnique(sample: seq<nat>, x: nat, y: nat)
    requires IsP95(sample, x) && IsP95(sample, y)
    ensures x == y
  {
    if x < y {
      P95IsNotBelow(sample, x, y);
    } else if y < x {
      P95IsNotBelow(sample, y, x);
    }
  }

  lemma {:induction false} P95IsNotBelow(sample: seq<nat>, x: nat, y: nat)
    requires IsP95(sample, x) && x < y
    ensures !IsP95(sample, y)
  {
    var atMostX := set i | 0 <= i < |sample| && sample[i] <= x;
    var belowY := set i | 0 <= i < |sample| && sample[i] < y;
    SubsetSize(atMostX, belowY);
  }

  lemma {:induction false} RankIsLeast(n: nat)
    requires n > 0
    ensures 0 < P95Rank(n) <= n && 100 * (P95Rank(n) - 1) < 95 * n <= 100 * P95Rank(n)
  {
  }

  // In an ascending sample the element at the rank is the percentile.
  lemma {:induction false} RankIsP95(sample: seq<nat>, rank: nat)
    requires 0 < rank <= |sample| && 100 * (rank - 1) < 95 * |sample| <= 100 * rank
    requires forall i, j | 0 <= i < j < |sample| :: sample[i] <= sample[j]
    ensures IsP95(sample, sample[rank - 1])
  {
    var x := sample[rank - 1];
    var atMost := set i | 0 <= i < |sample| && sample[i] <= x;
    var below := set i | 0 <= i < |sample| && sample[i] < x;
    SubsetSize(Range(0, rank), atMost);
    SubsetSize(below, Range(0, rank - 1));
  }

  ghost predicate IsMaximum(sample: seq<nat>, x: nat) {
    x in sample && forall i | 0 <= i < |sample| :: sample[i] <= x
  }

  // ------------------------------------------------------------ statistics

  datatype TotalsResult = Totals(sampleCount: nat, weightedSum: nat) | NoTotals(error: ProfileError)

  lemma {:induction false} AdmitOne(h: seq<Entry>, n: nat)
    requires n < |h| && Admitted(h[..n])
    ensures Admitted(h[..n + 1]) <==>
            h[n].width > (if n == 0 then 0 else h[n - 1].width) && 1 <= h[n].width <= 64 && h[n].count > 0
  {
    var next := h[..n + 1];
    assert next == h[..n] + [h[n]];
    assert n > 0 ==> next[n - 1] == h[n - 1] == h[..n][n - 1];
    assert next[n] == h[n];
  }

  lemma {:induction false} AdmittedPrefix(h: seq<Entry>, n: nat)
    requires n <= |h| && Admitted(h)
    ensures Admitted(h[..n])
  {
  }

  method AddUp(h: seq<Entry>) returns (r: TotalsResult)
    ensures r.Totals? <==> Admitted(h) && |Expand(h)| < U64_LIMIT
    ensures r.Totals? ==> r.sampleCount == |Expand(h)| && r.weightedSum == Sum(Expand(h))
    ensures r.NoTotals? ==> r.error == NotSortedAndAdmitted || r.error == SampleCountOverflow
  {
    var previousWidth, sampleCount, weightedSum := 0, 0, 0;
    assert h[..|h|] == h;
    for n := 0 to |h|
      invariant Admitted(h[..n])
      invariant previousWidth == if n == 0 then 0 else h[n - 1].width
      invariant sampleCount == |Expand(h[..n])| < U64_LIMIT
      invariant weightedSum == Sum(Expand(h[..n]))
    {
      var entry := h[n];
      AdmitOne(h, n);
      if entry.width <= previousWidth || !(1 <= entry.width <= 64) || entry.count == 0 {
        if Admitted(h) {
          AdmittedPrefix(h, n + 1);
        }
        return NoTotals(NotSortedAndAdmitted);
      }
      previousWidth := entry.width;
      ExpandStep(h, n);
      if sampleCount + entry.count >= U64_LIMIT {
        ExpandGrows(h, n + 1);
        return NoTotals(SampleCountOverflow);
      }
      sampleCount := sampleCount + entry.count;
      SumIsBounded(h[..n + 1], n + 1);
      assert h[..n + 1][..n + 1] == h[..n + 1];
      if weightedSum + entry.width * entry.count >= U128_LIMIT {
        return NoTotals(WeightedSumOverflow);
      }
      weightedSum := weightedSum + entry.width * entry.count;
    }
    return Totals(sampleCount, weightedSum);
  }

  // Accepts exactly the admitted histograms whose percentile target fits 64
  // bits, and then reports the statistics of the expanded sample. The
  // weighted-sum overflow branch is never taken.
  method ProfileStatistics(h: seq<Entry>) returns (r: ProfileResult)
    ensures r.Profile? <==> h != [] && Admitted(h) && 95 * |Expand(h)| + 99 < U64_LIMIT
    ensures r != Rejected(WeightedSumOverflow)
    ensures r.Profile? ==>
              var sample := Expand(h);
              && r.statistics.sampleCount == |sample| > 0
              && r.statistics.weightedSum == Sum(sample)
              && IsP95(sample, r.statistics.nearestRankP95)
              && IsMaximum(sample, r.statistics.maximum)
  {
    if h == [] {
      return Rejected(EmptyHistogram);
    }
    var totals := AddUp(h);
    if totals.NoTotals? {
      return Rejected(totals.error);
    }
    if 95 * totals.sampleCount + 99 >= U64_LIMIT {
      return Rejected(PercentileTargetOverflow);
    }
    LastIsMaximum(h);
    ExpandIsSorted(h);
    RankIsLeast(totals.sampleCount);
    RankIsP95(Expand(h), P95Rank(totals.sampleCount));
    var p95 := FindRank(h, P95Rank(totals.sampleCount));
    return Profile(Statistics(totals.sampleCount, totals.weightedSum, p95, h[|h| - 1].width));
  }

  lemma {:induction false} LastIsMaximum(h: seq<Entry>)
    requires h != [] && Admitted(h)
    ensures Expand(h) != [] && IsMaximum(Expand(h), h[|h| - 1].width)
  {
    ExpandIsSorted(h);
    assert Expand(h)[|Expand(h)| - 1] in Expand(h);
    ExpandStep(h, |h| - 1);
    assert h[..|h| - 1 + 1] == h;
  }

  // The running sum at entry n is at most the sample count.
  lemma {:induction false} RunningSumFits(h: seq<Entry>, n: nat)
    requires n < |h| && |Expand(h)| < U64_LIMIT
    ensures |Expand(h[..n])| + h[n].count == |Expand(h[..n + 1])| < U64_LIMIT
  {
    ExpandStep(h, n);
    ExpandGrows(h, n + 1);
  }

  // The loop over cumulative counts. It always finds a width, and the unchecked
  // 64-bit addition cannot wrap.
  method FindRank(h: seq<Entry>, target: nat) returns (width: nat)
    requires 0 < target <= |Expand(h)| < U64_LIMIT
    ensures width == Expand(h)[target - 1]
  {
    var cumulative := 0;
    width := 0;
    assert h[..|h|] == h;
    for n := 0 to |h|
      invariant cumulative == |Expand(h[..n])| < target
    {
      RunningSumFits(h, n);
      ExpandStep(h, n);
      ExpandGrows(h, n + 1);
      assert cumulative + h[n].count < U64_LIMIT;
      cumulative := cumulative + h[n].count;
      if cumulative >= target {
        width := h[n].width;
        assert Expand(h[..n + 1])[target - 1] == width;
        break;
      }
    }
  }
}
