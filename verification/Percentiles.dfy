/** Percentile breakpoints and scores (internal/search/percentiles.go). Floats are exact reals. */
module Percentiles {
  import opened Sorting

  // ---- Breakpoints ----

  predicate AtMost(x: real, y: real) {
    x <= y
  }

  /** Linear interpolation at a fractional position. */
  function AtRank(sorted: seq<real>, rank: real): real
    requires sorted != [] && 0.0 <= rank
  {
    var lo := rank.Floor;
    if lo + 1 >= |sorted| then sorted[|sorted| - 1]
    else Mix(sorted[lo], sorted[lo + 1], rank - lo as real)
  }

  function Mix(x: real, y: real, frac: real): real {
    x * (1.0 - frac) + y * frac
  }

  function Rank(p: real, n: nat): real {
    p * (n - 1) as real
  }

  function InterpolatedPercentile(sorted: seq<real>, p: real): real
    requires 0.0 <= p
  {
    if sorted == [] then 0.0
    else if |sorted| == 1 then sorted[0]
    else AtRank(sorted, Rank(p, |sorted|))
  }

  function Breakpoints(values: seq<real>): seq<real> {
    if values == [] then []
    else
      var sorted := Sort(AtMost, values);
      [InterpolatedPercentile(sorted, 0.25), InterpolatedPercentile(sorted, 0.50),
       InterpolatedPercentile(sorted, 0.75), InterpolatedPercentile(sorted, 0.90)]
  }

  lemma RealsArePreordered()
    ensures TotalPreorder(AtMost)
  {
  }

  lemma MixFrom(x: real, y: real, frac: real, step: real)
    requires step == y - x
    ensures Mix(x, y, frac) == x + step * frac
  {
  }

  lemma StepsAdd(step: real, f: real, more: real)
    requires 0.0 <= step && 0.0 <= more
    ensures step * f <= step * (f + more) == step * f + step * more
  {
    assert step * more >= 0.0;
  }

  /** A mix lies between its ends and grows with the fraction. */
  lemma Blend(x: real, y: real, f: real, g: real)
    requires x <= y && 0.0 <= f <= g <= 1.0
    ensures x <= Mix(x, y, f) <= Mix(x, y, g) <= y
  {
    var step := y - x;
    MixFrom(x, y, f, step);
    MixFrom(x, y, g, step);
    StepsAdd(step, 0.0, f);
    StepsAdd(step, f, g - f);
    StepsAdd(step, g, 1.0 - g);
    assert f + (g - f) == g && g + (1.0 - g) == 1.0;
  }

  lemma RankGrows(p: real, q: real, n: nat)
    requires 0.0 <= p <= q && n > 0
    ensures 0.0 <= Rank(p, n) <= Rank(q, n)
  {
    var m := (n - 1) as real;
    assert (q - p) * m >= 0.0 && p * m >= 0.0;
  }

  /** An interpolated value lies between its neighbours. */
  lemma AtRankBetween(sorted: seq<real>, rank: real)
    requires Sorted(AtMost, sorted) && sorted != [] && 0.0 <= rank
    ensures rank.Floor < |sorted| ==> sorted[rank.Floor] <= AtRank(sorted, rank)
    ensures AtRank(sorted, rank) <= sorted[if rank.Floor + 1 < |sorted| then rank.Floor + 1 else |sorted| - 1]
  {
    var lo := rank.Floor;
    if lo + 1 < |sorted| {
      assert AtMost(sorted[lo], sorted[lo + 1]);
      Blend(sorted[lo], sorted[lo + 1], rank - lo as real, rank - lo as real);
    } else {
      assert AtRank(sorted, rank) == sorted[|sorted| - 1];
    }
  }

  lemma AtRankGrows(sorted: seq<real>, r: real, s: real)
    requires Sorted(AtMost, sorted) && sorted != [] && 0.0 <= r <= s
    ensures AtRank(sorted, r) <= AtRank(sorted, s)
  {
    var i, j, n := r.Floor, s.Floor, |sorted|;
    if i < j {
      AtRankBetween(sorted, r);
      AtRankBetween(sorted, s);
      if j < n {
        assert i + 1 < j ==> AtMost(sorted[i + 1], sorted[j]);
      } else {
        assert i + 1 < n - 1 ==> AtMost(sorted[i + 1], sorted[n - 1]);
      }
    } else if i + 1 < n {
      assert AtMost(sorted[i], sorted[i + 1]);
      Blend(sorted[i], sorted[i + 1], r - i as real, s - i as real);
    }
  }

  /** A higher percentile is no smaller. */
  lemma PercentileGrows(sorted: seq<real>, p: real, q: real)
    requires Sorted(AtMost, sorted) && 0.0 <= p <= q
    ensures InterpolatedPercentile(sorted, p) <= InterpolatedPercentile(sorted, q)
  {
    if |sorted| > 1 {
      RankGrows(p, q, |sorted|);
      AtRankGrows(sorted, Rank(p, |sorted|), Rank(q, |sorted|));
    }
  }

  lemma PercentileInRange(sorted: seq<real>, p: real, min: real, max: real)
    requires sorted != [] && Sorted(AtMost, sorted) && 0.0 <= p
    requires forall i :: 0 <= i < |sorted| ==> min <= sorted[i] <= max
    ensures min <= InterpolatedPercentile(sorted, p) <= max
  {
    if |sorted| > 1 {
      RankGrows(p, p, |sorted|);
      AtRankBetween(sorted, Rank(p, |sorted|));
    }
  }

  predicate Ascending(b: seq<real>) {
    |b| == 4 && b[0] <= b[1] <= b[2] <= b[3]
  }

  /** Breakpoints of any values are four, ascending, and between the least and the greatest. */
  lemma BreakpointsAscend(values: seq<real>, min: real, max: real)
    requires values != [] && forall i :: 0 <= i < |values| ==> min <= values[i] <= max
    ensures Ascending(Breakpoints(values))
    ensures min <= Breakpoints(values)[0] && Breakpoints(values)[3] <= max
  {
    var sorted := Sort(AtMost, values);
    RealsArePreordered();
    SortSorts(AtMost, values);
    forall i | 0 <= i < |sorted| ensures min <= sorted[i] <= max {
      assert sorted[i] in multiset(sorted) && sorted[i] in multiset(values);
    }
    PercentileGrows(sorted, 0.25, 0.50);
    PercentileGrows(sorted, 0.50, 0.75);
    PercentileGrows(sorted, 0.75, 0.90);
    PercentileInRange(sorted, 0.25, min, max);
    PercentileInRange(sorted, 0.90, min, max);
  }

  // ---- Scores ----

  function PercentileScore(value: real, breakpoints: seq<real>): real {
    if |breakpoints| < 4 || value <= 0.0 then 0.0
    else
      var p25, p50, p75, p90 := breakpoints[0], breakpoints[1], breakpoints[2], breakpoints[3];
      if p90 == 0.0 then 0.0
      else if value <= p25 then
        if p25 == 0.0 then 0.0 else 0.25 * (value / p25)
      else if value <= p50 then
        var span := p50 - p25;
        if span == 0.0 then 0.50 else 0.25 + 0.25 * ((value - p25) / span)
      else if value <= p75 then
        var span := p75 - p50;
        if span == 0.0 then 0.75 else 0.50 + 0.25 * ((value - p50) / span)
      else if value <= p90 then
        var span := p90 - p75;
        if span == 0.0 then 0.90 else 0.75 + 0.15 * ((value - p75) / span)
      else
        var extra := (value - p90) / p90;
        0.90 + 0.10 * if extra > 1.0 then 1.0 else extra
  }

  lemma Ratio(x: real, y: real, d: real)
    requires 0.0 <= x <= y && 0.0 < d
    ensures 0.0 <= x / d <= y / d
    ensures y / d <= 1.0 <==> y <= d
    ensures y > 0.0 ==> y / d > 0.0
  {
    var p, q := x / d, y / d;
    assert p * d == x && q * d == y;
    assert (q - p) * d == y - x && (1.0 - q) * d == d - y;
    Sign(q - p, d);
    Sign(1.0 - q, d);
    Sign(p, d);
    Sign(q, d);
    Sign(q - 1.0, d);
    assert (q - 1.0) * d == y - d;
  }

  lemma Sign(x: real, d: real)
    requires d > 0.0
    ensures x * d >= 0.0 <==> x >= 0.0
    ensures x * d > 0.0 <==> x > 0.0
  {
  }

  predicate NonNegative(b: seq<real>) {
    Ascending(b) && 0.0 <= b[0]
  }

  predicate Usable(b: seq<real>) {
    NonNegative(b) && 0.0 < b[3]
  }

  /** Which band of the breakpoints a value falls in, and with it its score. Collapsed
      breakpoints are included: no value falls in a band of no width, so the branches for a
      span of zero are not taken. */
  lemma ScoreBands(value: real, b: seq<real>)
    requires Usable(b) && value > 0.0
    ensures var s := PercentileScore(value, b);
      && 0.0 < s <= 1.0
      && (s <= 0.25 <==> value <= b[0])
      && (s <= 0.50 <==> value <= b[1])
      && (s <= 0.75 <==> value <= b[2])
      && (s <= 0.90 <==> value <= b[3])
    ensures value <= b[0] ==> b[0] != 0.0
    ensures b[0] < value <= b[1] ==> b[1] - b[0] != 0.0
    ensures b[1] < value <= b[2] ==> b[2] - b[1] != 0.0
    ensures b[2] < value <= b[3] ==> b[3] - b[2] != 0.0
  {
    if value <= b[0] {
      Ratio(value, value, b[0]);
    } else if value <= b[1] {
      Ratio(value - b[0], value - b[0], b[1] - b[0]);
    } else if value <= b[2] {
      Ratio(value - b[1], value - b[1], b[2] - b[1]);
    } else if value <= b[3] {
      Ratio(value - b[2], value - b[2], b[3] - b[2]);
    } else {
      Ratio(value - b[3], value - b[3], b[3]);
    }
  }

  lemma ScoreGrowsInBand(v: real, w: real, b: seq<real>)
    requires Usable(b) && 0.0 < v <= w
    requires w <= b[0] || (b[0] < v && w <= b[1]) || (b[1] < v && w <= b[2]) || (b[2] < v && w <= b[3]) || b[3] < v
    ensures PercentileScore(v, b) <= PercentileScore(w, b)
  {
    if w <= b[0] {
      Ratio(v, w, b[0]);
    } else if b[0] < v && w <= b[1] {
      Ratio(v - b[0], w - b[0], b[1] - b[0]);
    } else if b[1] < v && w <= b[2] {
      Ratio(v - b[1], w - b[1], b[2] - b[1]);
    } else if b[2] < v && w <= b[3] {
      Ratio(v - b[2], w - b[2], b[3] - b[2]);
    } else {
      Ratio(v - b[3], w - b[3], b[3]);
    }
  }

  /** A larger value never scores lower. */
  lemma ScoreGrows(v: real, w: real, b: seq<real>)
    requires NonNegative(b) && v <= w
    ensures 0.0 <= PercentileScore(v, b) <= PercentileScore(w, b) <= 1.0
  {
    if b[3] > 0.0 && w > 0.0 {
      ScoreBands(w, b);
      if v > 0.0 {
        ScoreBands(v, b);
        if w <= b[0] || (b[0] < v && w <= b[1]) || (b[1] < v && w <= b[2]) || (b[2] < v && w <= b[3]) || b[3] < v {
          ScoreGrowsInBand(v, w, b);
        }
      }
    }
  }

  /** Over the breakpoints of any non-negative corpus, all-zero ones included. */
  lemma CorpusScoreGrows(values: seq<real>, v: real, w: real)
    requires values != [] && (forall i :: 0 <= i < |values| ==> values[i] >= 0.0) && v <= w
    ensures
      var b := Breakpoints(values);
      0.0 <= PercentileScore(v, b) <= PercentileScore(w, b) <= 1.0
  {
    BreakpointsAscend(values, 0.0, Greatest(values));
    ScoreGrows(v, w, Breakpoints(values));
  }

  // ---- Where the breakpoints lie ----

  /** At a whole rank the percentile is that order statistic; between ranks it moves linearly. */
  lemma PercentileIs(sorted: seq<real>, p: real, k: nat, frac: real)
    requires 0.0 <= frac < 1.0 && p * (|sorted| - 1) as real == k as real + frac && 0.0 <= p && k < |sorted|
    ensures frac == 0.0 ==> InterpolatedPercentile(sorted, p) == sorted[k]
    ensures k + 1 < |sorted| ==> InterpolatedPercentile(sorted, p) == sorted[k] + frac * (sorted[k + 1] - sorted[k])
  {
    var rank := p * (|sorted| - 1) as real;
    if |sorted| > 1 {
      assert rank.Floor == k;
      if k + 1 < |sorted| {
        MixFrom(sorted[k], sorted[k + 1], frac, sorted[k + 1] - sorted[k]);
      }
    }
  }

  function CountAtMost(values: seq<real>, limit: real): nat {
    if values == [] then 0
    else CountAtMost(values[1..], limit) + if values[0] <= limit then 1 else 0
  }

  lemma {:induction false} CountOfInsert(x: real, s: seq<real>, limit: real)
    ensures CountAtMost(Insert(AtMost, x, s), limit) == CountAtMost(s, limit) + if x <= limit then 1 else 0
  {
    if s == [] {
      assert [x][1..] == [] && Insert(AtMost, x, s) == [x];
    } else if x <= s[0] {
      assert ([x] + s)[1..] == s;
    } else {
      CountOfInsert(x, s[1..], limit);
      var rest := Insert(AtMost, x, s[1..]);
      assert ([s[0]] + rest)[1..] == rest;
    }
  }

  lemma {:induction false} CountOfSorted(values: seq<real>, limit: real)
    ensures CountAtMost(Sort(AtMost, values), limit) == CountAtMost(values, limit)
  {
    if values != [] {
      CountOfSorted(values[1..], limit);
      CountOfInsert(values[0], Sort(AtMost, values[1..]), limit);
    }
  }

  lemma {:induction false} CountBounds(s: seq<real>, limit: real, low: nat, high: nat)
    requires low <= high <= |s|
    requires forall i :: 0 <= i < low ==> s[i] <= limit
    requires forall i :: high <= i < |s| ==> s[i] > limit
    ensures low <= CountAtMost(s, limit) <= high
  {
    if s != [] {
      var tail := s[1..];
      CountBounds(tail, limit, if low > 0 then low - 1 else 0, if high > 0 then high - 1 else 0);
    }
  }

  /** Of n values, at least floor(p * (n - 1)) + 1 lie at or below their percentile p, and at most
      that many at or below any smaller number. */
  lemma PercentileCounts(values: seq<real>, p: real, limit: real)
    requires values != [] && 0.0 <= p <= 1.0
    ensures
      var at := InterpolatedPercentile(Sort(AtMost, values), p);
      var rank := Rank(p, |values|).Floor;
      if limit >= at then CountAtMost(values, limit) >= rank + 1 else CountAtMost(values, limit) <= rank + 1
  {
    var sorted, r := Sort(AtMost, values), Rank(p, |values|);
    CountOfSorted(values, limit);
    RankIsInside(p, |values|);
    AtRankIsPercentile(sorted, p);
    assert Sorted(AtMost, sorted) by {
      RealsArePreordered();
      SortSorts(AtMost, values);
    }
    SortedCounts(sorted, r, limit);
  }

  lemma SortedCounts(sorted: seq<real>, rank: real, limit: real)
    requires Sorted(AtMost, sorted) && 0.0 <= rank && 0 <= rank.Floor < |sorted|
    ensures if limit >= AtRank(sorted, rank) then CountAtMost(sorted, limit) >= rank.Floor + 1
      else CountAtMost(sorted, limit) <= rank.Floor + 1
  {
    AtRankBetween(sorted, rank);
    CountAround(sorted, rank.Floor, limit, AtRank(sorted, rank));
  }

  lemma RankIsInside(p: real, n: nat)
    requires 0.0 <= p <= 1.0 && n > 0
    ensures 0 <= Rank(p, n).Floor < n && 0.0 <= Rank(p, n)
  {
    RankGrows(p, 1.0, n);
    assert Rank(1.0, n) == (n - 1) as real;
  }

  lemma AtRankIsPercentile(sorted: seq<real>, p: real)
    requires sorted != [] && 0.0 <= p && 0.0 <= Rank(p, |sorted|)
    ensures InterpolatedPercentile(sorted, p) == AtRank(sorted, Rank(p, |sorted|))
  {
    if |sorted| == 1 {
      assert Rank(p, 1) == 0.0;
    }
  }

  lemma CountAround(sorted: seq<real>, k: int, limit: real, at: real)
    requires Sorted(AtMost, sorted) && 0 <= k < |sorted|
    requires sorted[k] <= at <= sorted[if k + 1 < |sorted| then k + 1 else |sorted| - 1]
    ensures limit >= at ==> CountAtMost(sorted, limit) >= k + 1
    ensures limit < at ==> CountAtMost(sorted, limit) <= k + 1
  {
    var n := |sorted|;
    if limit >= at {
      forall i | 0 <= i < k + 1 ensures sorted[i] <= limit {
        assert i < k ==> AtMost(sorted[i], sorted[k]);
      }
      CountBounds(sorted, limit, k + 1, n);
    } else {
      forall i | k + 1 <= i < n ensures sorted[i] > limit {
        assert i > k + 1 ==> AtMost(sorted[k + 1], sorted[i]);
      }
      CountBounds(sorted, limit, 0, k + 1);
    }
  }

  /** Of the values, at least `rank` + 1, whole, lie at or below `at`, and at most that many at or
      below any smaller number. */
  ghost predicate HoldsRank(values: seq<real>, at: real, rank: real) {
    forall limit: real :: if limit >= at then CountAtMost(values, limit) >= rank.Floor + 1
                          else CountAtMost(values, limit) <= rank.Floor + 1
  }

  lemma PercentileHoldsRank(values: seq<real>, p: real)
    requires values != [] && 0.0 <= p <= 1.0
    ensures HoldsRank(values, InterpolatedPercentile(Sort(AtMost, values), p), Rank(p, |values|))
  {
    forall limit: real
      ensures var at := InterpolatedPercentile(Sort(AtMost, values), p);
        if limit >= at then CountAtMost(values, limit) >= Rank(p, |values|).Floor + 1
        else CountAtMost(values, limit) <= Rank(p, |values|).Floor + 1
    {
      PercentileCounts(values, p, limit);
    }
  }

  /** The breakpoints are the quarter, half, three-quarter and nine-tenth percentiles. */
  lemma BreakpointsHoldRanks(values: seq<real>)
    requires values != []
    ensures
      var b, m := Breakpoints(values), (|values| - 1) as real;
      && |b| == 4
      && HoldsRank(values, b[0], m / 4.0) && HoldsRank(values, b[1], m / 2.0)
      && HoldsRank(values, b[2], 3.0 * m / 4.0) && HoldsRank(values, b[3], 9.0 * m / 10.0)
  {
    var n := |values|;
    PercentileHoldsRank(values, 0.25);
    PercentileHoldsRank(values, 0.50);
    PercentileHoldsRank(values, 0.75);
    PercentileHoldsRank(values, 0.90);
    var m := (n - 1) as real;
    assert Rank(0.25, n) == m / 4.0 && Rank(0.50, n) == m / 2.0 && Rank(0.75, n) == 3.0 * m / 4.0 && Rank(0.90, n) == 9.0 * m / 10.0;
  }

  // ---- The score within its bands ----

  /** The score between two breakpoints that hold the scores low and high. */
  predicate OnLine(value: real, score: real, x: real, y: real, low: real, high: real) {
    (score - low) * (y - x) == (high - low) * (value - x)
  }

  lemma OnLineOf(value: real, x: real, y: real, low: real, step: real)
    requires x < y
    ensures OnLine(value, low + step * ((value - x) / (y - x)), x, y, low, low + step)
  {
    var q := (value - x) / (y - x);
    assert q * (y - x) == value - x;
    assert (step * q) * (y - x) == step * (q * (y - x));
  }

  /** Within each band the score moves on the line between the scores of its ends: 0 at 0, then
      0.25, 0.50, 0.75 and 0.90 at the breakpoints, and 1 at twice the last one and beyond. */
  lemma ScoreIsLinear(value: real, b: seq<real>)
    requires Usable(b) && value > 0.0
    ensures
      var s := PercentileScore(value, b);
      && (value <= b[0] ==> OnLine(value, s, 0.0, b[0], 0.0, 0.25))
      && (b[0] < value <= b[1] ==> OnLine(value, s, b[0], b[1], 0.25, 0.50))
      && (b[1] < value <= b[2] ==> OnLine(value, s, b[1], b[2], 0.50, 0.75))
      && (b[2] < value <= b[3] ==> OnLine(value, s, b[2], b[3], 0.75, 0.90))
      && (b[3] < value <= b[3] + b[3] ==> OnLine(value, s, b[3], b[3] + b[3], 0.90, 1.0))
      && (b[3] + b[3] < value ==> s == 1.0)
  {
    if value <= b[0] {
      OnLineOf(value, 0.0, b[0], 0.0, 0.25);
    } else if value <= b[1] {
      OnLineOf(value, b[0], b[1], 0.25, 0.25);
    } else if value <= b[2] {
      OnLineOf(value, b[1], b[2], 0.50, 0.25);
    } else if value <= b[3] {
      OnLineOf(value, b[2], b[3], 0.75, 0.15);
    } else {
      Ratio(value - b[3], value - b[3], b[3]);
      if value <= b[3] + b[3] {
        OnLineOf(value, b[3], b[3] + b[3], 0.90, 0.10);
        assert b[3] + b[3] - b[3] == b[3];
      }
    }
  }

  function Greatest(values: seq<real>): (m: real)
    requires values != []
    ensures forall i :: 0 <= i < |values| ==> values[i] <= m
  {
    if |values| == 1 then values[0]
    else
      var m, k := Greatest(values[..|values| - 1]), values[|values| - 1];
      if k > m then k else m
  }
}
