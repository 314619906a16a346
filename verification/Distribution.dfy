/** Summaries of a distribution: quartiles, whiskers, outliers and a histogram
    (internal/httpapi/rich_observations.go:425-488), over real numbers. */
module Distribution {
  import opened Sorting

  const MAX_OUTLIERS := 128

  predicate RealLess(a: real, b: real) {
    a < b
  }

  ghost predicate Ascending(s: seq<real>) {
    forall i, j :: 0 <= i <= j < |s| ==> s[i] <= s[j]
  }

  lemma SortAscends(values: seq<real>)
    ensures Ascending(Sort(values, RealLess)) && |Sort(values, RealLess)| == |values|
  {
    SortSorts(values, RealLess);
    SortKeepsElements(values, RealLess);
    var s := Sort(values, RealLess);
    hide Sort;
    forall i, j | 0 <= i <= j < |s| ensures s[i] <= s[j] {
      if i < j {
        assert !RealLess(s[j], s[i]);
      }
    }
  }

  // ---------------------------------------------------------------- quantiles

  function Ceil(x: real): int {
    if x == x.Floor as real then x.Floor else x.Floor + 1
  }

  predicate IsPosition(s: seq<real>, x: real) {
    0.0 <= x <= (|s| - 1) as real
  }

  function Mix(a: real, b: real, t: real): real {
    a + (b - a) * t
  }

  /** A product, named so that proofs need not look into it. */
  function Times(a: real, b: real): real {
    a * b
  }

  lemma Scale(a: real, b: real, c: real)
    requires a <= b && 0.0 <= c
    ensures a * c <= b * c
  {
  }

  lemma MixIsMonotone(a: real, b: real, t: real, u: real)
    requires a <= b && 0.0 <= t <= u <= 1.0
    ensures a <= Mix(a, b, t) <= Mix(a, b, u) <= b
  {
    var d := b - a;
    Scale(0.0, t, d);
    Scale(t, u, d);
    Scale(u, 1.0, d);
    assert d * t == t * d && d * u == u * d && 1.0 * d == d;
    assert u * d <= d;
  }

  /** Linear interpolation between neighbours. */
  function At(s: seq<real>, x: real): real
    requires s != [] && IsPosition(s, x)
  {
    Mix(s[x.Floor], s[Ceil(x)], x - x.Floor as real)
  }

  function Quantile(s: seq<real>, p: real): real
    requires s != [] && 0.0 <= p <= 1.0
  {
    if |s| == 1 then s[0]
    else
      PositionOf(s, p);
      At(s, PositionFor(s, p))
  }

  function PositionFor(s: seq<real>, p: real): real {
    Times(p, (|s| - 1) as real)
  }

  lemma Positions(n: nat, p: real, q: real)
    requires 0.0 <= p <= q <= 1.0
    ensures 0.0 <= Times(p, n as real) <= Times(q, n as real) <= n as real
  {
  }

  lemma PositionOf(s: seq<real>, p: real)
    requires s != [] && 0.0 <= p <= 1.0
    ensures IsPosition(s, PositionFor(s, p))
  {
    hide Times;
    Positions(|s| - 1, p, p);
  }

  lemma PositionsOf(s: seq<real>, p: real, q: real)
    requires s != [] && 0.0 <= p <= q <= 1.0
    ensures IsPosition(s, PositionFor(s, p)) && IsPosition(s, PositionFor(s, q)) && PositionFor(s, p) <= PositionFor(s, q)
  {
    hide Times;
    Positions(|s| - 1, p, q);
  }

  /** An interpolated value lies between its neighbours. */
  lemma AtBetween(s: seq<real>, x: real)
    requires s != [] && IsPosition(s, x) && Ascending(s)
    ensures s[x.Floor] <= At(s, x) <= s[Ceil(x)]
  {
    var t := x - x.Floor as real;
    MixIsMonotone(s[x.Floor], s[Ceil(x)], t, t);
    hide Mix;
  }

  lemma FloorMonotone(x: real, y: real)
    requires x <= y
    ensures x.Floor <= y.Floor
    ensures x.Floor < y.Floor ==> Ceil(x) <= y.Floor
    ensures x.Floor == y.Floor ==> Ceil(x) <= Ceil(y)
  {
  }

  lemma AtMonotone(s: seq<real>, x: real, y: real)
    requires s != [] && IsPosition(s, x) && IsPosition(s, y) && x <= y && Ascending(s)
    ensures At(s, x) <= At(s, y)
  {
    FloorMonotone(x, y);
    AtBetween(s, x);
    AtBetween(s, y);
    hide Mix;
    if x.Floor == y.Floor {
      if x > x.Floor as real {
        MixIsMonotone(s[x.Floor], s[Ceil(x)], x - x.Floor as real, y - y.Floor as real);
      } else {
        AtWhole(s, x.Floor);
      }
    } else {
      assert s[Ceil(x)] <= s[y.Floor];
    }
  }

  lemma AtWhole(s: seq<real>, m: nat)
    requires m < |s|
    ensures At(s, m as real) == s[m]
  {
  }

  lemma {:induction false} QuantileMonotone(s: seq<real>, p: real, q: real)
    requires s != [] && Ascending(s) && 0.0 <= p <= q <= 1.0
    ensures s[0] <= Quantile(s, p) <= Quantile(s, q) <= s[|s| - 1]
  {
    if |s| > 1 {
      PositionsOf(s, p, q);
      hide PositionFor, At, Ascending;
      WithinEnds(s, PositionFor(s, p), PositionFor(s, q));
    }
  }

  lemma WithinEnds(s: seq<real>, x: real, y: real)
    requires s != [] && IsPosition(s, x) && IsPosition(s, y) && x <= y && Ascending(s)
    ensures s[0] <= At(s, x) <= At(s, y) <= s[|s| - 1]
  {
    AtMonotone(s, x, y);
    AtBetween(s, x);
    AtBetween(s, y);
    hide At;
  }

  // ---------------------------------------------------------------- whiskers and outliers

  datatype Summary = Summary(count: nat, min: real, q1: real, median: real, q3: real, max: real, mean: real,
                             whiskerLow: real, whiskerHigh: real, outliers: seq<real>)

  function LowFence(s: seq<real>): real
    requires s != []
  {
    Quantile(s, 0.25) - 1.5 * (Quantile(s, 0.75) - Quantile(s, 0.25))
  }

  function HighFence(s: seq<real>): real
    requires s != []
  {
    Quantile(s, 0.75) + 1.5 * (Quantile(s, 0.75) - Quantile(s, 0.25))
  }

  /** Some value lies between the fences. */
  lemma SomeValueInside(s: seq<real>) returns (m: nat)
    requires s != [] && Ascending(s)
    ensures m < |s| && LowFence(s) <= s[m] <= HighFence(s)
  {
    QuantileMonotone(s, 0.25, 0.75);
    if |s| == 1 {
      m := 0;
    } else if |s| == 2 {
      m := 0;
      TwoValues(s);
      hide Quantile, Ascending;
    } else {
      m := ValueBetweenQuartiles(s);
      hide Quantile, Ascending;
    }
  }

  lemma TwoValues(s: seq<real>)
    requires |s| == 2
    ensures Quantile(s, 0.25) == s[0] + (s[1] - s[0]) * 0.25
    ensures Quantile(s, 0.75) == s[0] + (s[1] - s[0]) * 0.75
  {
  }

  lemma ValueBetweenQuartiles(s: seq<real>) returns (m: nat)
    requires |s| >= 3 && Ascending(s)
    ensures m < |s| && Quantile(s, 0.25) <= s[m] <= Quantile(s, 0.75)
  {
    var x, y := PositionFor(s, 0.25), PositionFor(s, 0.75);
    PositionsOf(s, 0.25, 0.75);
    m := Ceil(x);
    assert x <= m as real <= y;
    AtMonotone(s, x, m as real);
    AtMonotone(s, m as real, y);
    AtWhole(s, m);
    hide At, Ascending, PositionFor;
  }

  function Outside(s: seq<real>, low: real, high: real): seq<real> {
    if s == [] then []
    else
      var before := Outside(s[..|s| - 1], low, high);
      var v := s[|s| - 1];
      if v < low || v > high then before + [v] else before
  }

  function First(s: seq<real>, n: nat): seq<real> {
    if |s| <= n then s else s[..n]
  }

  /** The outermost values between the fences. */
  ghost predicate Whiskers(s: seq<real>, low: real, high: real, whiskerLow: real, whiskerHigh: real) {
    && whiskerLow in s && whiskerHigh in s && low <= whiskerLow && whiskerHigh <= high
    && forall v :: v in s ==> (low <= v ==> whiskerLow <= v) && (v <= high ==> v <= whiskerHigh)
  }

  /** Beyond the whiskers and beyond the fences is the same, for the values themselves. */
  lemma {:induction false} OutliersAreBeyondFences(s: seq<real>, t: seq<real>, low: real, high: real, whiskerLow: real, whiskerHigh: real)
    requires Whiskers(t, low, high, whiskerLow, whiskerHigh) && forall v :: v in s ==> v in t
    ensures Outside(s, whiskerLow, whiskerHigh) == Outside(s, low, high)
    decreases |s|
  {
    if s != [] {
      assert s[|s| - 1] in s;
      assert forall v :: v in s[..|s| - 1] ==> v in s;
      OutliersAreBeyondFences(s[..|s| - 1], t, low, high, whiskerLow, whiskerHigh);
    }
  }

  function SumOf(s: seq<real>): real {
    if s == [] then 0.0 else SumOf(s[..|s| - 1]) + s[|s| - 1]
  }

  lemma {:induction false} SumBetween(s: seq<real>, low: real, high: real)
    requires forall i :: 0 <= i < |s| ==> low <= s[i] <= high
    ensures Times(low, |s| as real) <= SumOf(s) <= Times(high, |s| as real)
    decreases |s|
  {
    if s != [] {
      var n := |s| - 1;
      SumBetween(s[..n], low, high);
      OneMore(low, n);
      OneMore(high, n);
      hide Times;
    }
  }

  lemma OneMore(x: real, n: nat)
    ensures Times(x, (n + 1) as real) == Times(x, n as real) + x
  {
  }

  /** What the summary of the ascending values `s` is. */
  ghost predicate Summarises(s: seq<real>, r: Summary) {
    && s != [] && r.count == |s| && r.min == s[0] && r.max == s[|s| - 1]
    && r.q1 == Quantile(s, 0.25) && r.median == Quantile(s, 0.5) && r.q3 == Quantile(s, 0.75)
    && Times(r.mean, r.count as real) == SumOf(s)
    && Whiskers(s, LowFence(s), HighFence(s), r.whiskerLow, r.whiskerHigh)
    && r.outliers == First(Outside(s, r.whiskerLow, r.whiskerHigh), MAX_OUTLIERS)
  }

  /** The five numbers are in order, the mean is between the extremes, the whiskers do not
      cross, and the outliers are the first values beyond the fences. */
  lemma {:induction false} SummaryIsSound(s: seq<real>, r: Summary)
    requires Ascending(s) && Summarises(s, r)
    ensures r.min <= r.q1 <= r.median <= r.q3 <= r.max && r.min <= r.mean <= r.max
    ensures r.min <= r.whiskerLow <= r.whiskerHigh <= r.max
    ensures r.outliers == First(Outside(s, LowFence(s), HighFence(s)), MAX_OUTLIERS)
  {
    hide Quantile, SumOf, Outside, Times;
    QuantileMonotone(s, 0.25, 0.5);
    QuantileMonotone(s, 0.5, 0.75);
    SumBetween(s, s[0], s[|s| - 1]);
    MeanBetween(r.mean, r.count, s[0], s[|s| - 1]);
    var m := SomeValueInside(s);
    assert s[m] in s;
    OutliersAreBeyondFences(s, s, LowFence(s), HighFence(s), r.whiskerLow, r.whiskerHigh);
  }

  lemma MeanBetween(mean: real, count: nat, low: real, high: real)
    requires count > 0 && Times(low, count as real) <= Times(mean, count as real) <= Times(high, count as real)
    ensures low <= mean <= high
  {
  }

  lemma MeanIs(sum: real, count: nat)
    requires count > 0
    ensures Times(sum / count as real, count as real) == sum
  {
  }

  // ---------------------------------------------------------------- histogram

  datatype Bin = Bin(lower: real, upper: real, count: nat)

  /** The least number whose square is at least `n`, searched from `k`. */
  function CeilSqrt(n: nat, k: nat): (r: nat)
    requires k == 0 || (k - 1) * (k - 1) < n
    ensures r * r >= n && (r == 0 || (r - 1) * (r - 1) < n)
    decreases n - k
  {
    if k * k >= n then k else CeilSqrt(n, k + 1)
  }

  /** As many bins as asked for, or about the square root of the count. */
  function BinCount(requested: nat, count: nat): (n: nat)
    ensures n > 0
    ensures requested == 0 ==> 5 <= n <= 64
  {
    if requested > 0 then requested
    else
      var n := CeilSqrt(count, 0);
      if n < 5 then 5 else if n > 64 then 64 else n
  }

  function BinOf(v: real, min: real, span: real, n: nat): int
    requires span > 0.0 && n > 0
  {
    var i := ((v - min) / span * n as real).Floor;
    if i >= n then n - 1 else i
  }

  function Edge(i: int, w: real): real {
    i as real * w
  }

  function Lower(min: real, span: real, n: nat, i: int): real
    requires n > 0
  {
    min + Edge(i, span / n as real)
  }

  /** A value lies in its bin; only the greatest may sit on the upper edge of the last one. */
  lemma BinHolds(v: real, min: real, span: real, n: nat)
    requires span > 0.0 && n > 0 && min <= v <= min + span
    ensures var i := BinOf(v, min, span, n);
            && 0 <= i < n && Lower(min, span, n, i) <= v
            && (v < Lower(min, span, n, i + 1) || (i == n - 1 && v == min + span))
  {
    var w, t := span / n as real, (v - min) / span * n as real;
    BinWidth(v - min, span, n);
    InBin(t, w, n, v - min);
    hide BinOf, Edge;
    BinOfIs(v, min, span, n);
  }

  lemma BinWidth(d: real, span: real, n: nat)
    requires span > 0.0 && n > 0 && 0.0 <= d <= span
    ensures var w := span / n as real;
            var t := d / span * n as real;
            w > 0.0 && Edge(n, w) == span && t * w == d && t >= 0.0
  {
  }

  lemma Edges(i: int, t: real, w: real)
    requires w > 0.0
    ensures i as real <= t ==> Edge(i, w) <= t * w
    ensures t < i as real ==> t * w < Edge(i, w)
  {
  }

  lemma InBin(t: real, w: real, n: nat, d: real)
    requires w > 0.0 && n > 0 && t >= 0.0 && t * w == d && d <= Edge(n, w)
    ensures var i := if t.Floor >= n then n - 1 else t.Floor;
            && 0 <= i < n && Edge(i, w) <= d
            && (d < Edge(i + 1, w) || (i == n - 1 && d == Edge(n, w)))
  {
    hide Edge;
    Edges(n, t, w);
    Edges(n - 1, t, w);
    Edges(t.Floor, t, w);
    Edges(t.Floor + 1, t, w);
  }

  lemma BinOfIs(v: real, min: real, span: real, n: nat)
    requires span > 0.0 && n > 0
    ensures BinOf(v, min, span, n)
            == var t := (v - min) / span * n as real; if t.Floor >= n then n - 1 else t.Floor
  {
  }

  function CountIn(s: seq<real>, min: real, span: real, n: nat, i: int): nat
    requires span > 0.0 && n > 0
  {
    if s == [] then 0
    else CountIn(s[..|s| - 1], min, span, n, i) + (if BinOf(s[|s| - 1], min, span, n) == i then 1 else 0)
  }

  function CountUpTo(s: seq<real>, min: real, span: real, n: nat, k: nat): nat
    requires span > 0.0 && n > 0
  {
    if k == 0 then 0 else CountUpTo(s, min, span, n, k - 1) + CountIn(s, min, span, n, k - 1)
  }

  lemma {:induction false} CountUpToMore(s: seq<real>, v: real, min: real, span: real, n: nat, k: nat)
    requires span > 0.0 && n > 0 && BinOf(v, min, span, n) >= 0
    ensures CountUpTo(s + [v], min, span, n, k)
            == CountUpTo(s, min, span, n, k) + (if BinOf(v, min, span, n) < k then 1 else 0)
    decreases k
  {
    hide BinOf;
    if k > 0 {
      CountUpToMore(s, v, min, span, n, k - 1);
      assert (s + [v])[..|s|] == s;
    }
  }

  /** Every value is counted once. */
  lemma {:induction false} CountsAddUp(s: seq<real>, min: real, span: real, n: nat)
    requires span > 0.0 && n > 0 && forall v :: v in s ==> min <= v <= min + span
    ensures CountUpTo(s, min, span, n, n) == |s|
    decreases |s|
  {
    hide BinOf;
    if s == [] {
      NothingCounted(min, span, n, n);
    } else {
      var init, v := s[..|s| - 1], s[|s| - 1];
      assert s == init + [v];
      assert v in s && forall x :: x in init ==> x in s;
      BinHolds(v, min, span, n);
      CountsAddUp(init, min, span, n);
      CountUpToMore(init, v, min, span, n, n);
    }
  }

  lemma {:induction false} NothingCounted(min: real, span: real, n: nat, k: nat)
    requires span > 0.0 && n > 0
    ensures CountUpTo([], min, span, n, k) == 0
    decreases k
  {
    if k > 0 {
      NothingCounted(min, span, n, k - 1);
    }
  }

  function BinFor(s: seq<real>, span: real, n: nat, i: int): Bin
    requires s != [] && span > 0.0 && n > 0
  {
    Bin(Lower(s[0], span, n, i), Lower(s[0], span, n, i + 1), CountIn(s, s[0], span, n, i))
  }

  /** Bins of equal width from the least to the greatest value (of width 1 in all if they are
      equal), each with the number of values in it. */
  ghost predicate IsHistogram(s: seq<real>, span: real, bins: seq<Bin>) {
    && s != [] && bins != []
    && span == (if s[|s| - 1] == s[0] then 1.0 else s[|s| - 1] - s[0]) && span > 0.0
    && forall i :: 0 <= i < |bins| ==>
         bins[i] == BinFor(s, span, |bins|, i)
  }

  function Counted(bins: seq<Bin>): nat {
    if bins == [] then 0 else Counted(bins[..|bins| - 1]) + bins[|bins| - 1].count
  }

  lemma CountedMore(bins: seq<Bin>, b: Bin)
    ensures Counted(bins + [b]) == Counted(bins) + b.count
  {
  }

  lemma {:induction false} CountedUpTo(s: seq<real>, span: real, bins: seq<Bin>, k: nat)
    requires IsHistogram(s, span, bins) && k <= |bins|
    ensures Counted(bins[..k]) == CountUpTo(s, s[0], span, |bins|, k)
    decreases k
  {
    assert bins[..0] == [];
    if k > 0 {
      assert bins[k - 1] == BinFor(s, span, |bins|, k - 1);
      CountedUpTo(s, span, bins, k - 1);
      assert bins[..k] == bins[..k - 1] + [bins[k - 1]];
      CountedMore(bins[..k - 1], bins[k - 1]);
    }
  }

  /** The histogram counts every value exactly once, in a bin that contains it. */
  lemma {:induction false} HistogramIsSound(s: seq<real>, span: real, bins: seq<Bin>, v: real)
    requires Ascending(s) && IsHistogram(s, span, bins)
    ensures Counted(bins) == |s|
    ensures v in s ==>
              var i := BinOf(v, s[0], span, |bins|);
              0 <= i < |bins| && bins[i].lower <= v && (v < bins[i].upper || (i == |bins| - 1 && v == s[0] + span))
  {
    assert forall x :: x in s ==> s[0] <= x <= s[0] + span;
    assert bins[..|bins|] == bins;
    CountedUpTo(s, span, bins, |bins|);
    CountsAddUp(s, s[0], span, |bins|);
    hide CountIn, CountUpTo, Counted, BinOf, Lower;
    if v in s {
      BinHolds(v, s[0], span, |bins|);
    }
  }

  // ---------------------------------------------------------------- the program

  method FindWhiskers(s: seq<real>, low: real, high: real) returns (whiskerLow: real, whiskerHigh: real)
    requires s != [] && Ascending(s) && exists m :: 0 <= m < |s| && low <= s[m] <= high
    ensures Whiskers(s, low, high, whiskerLow, whiskerHigh)
  {
    whiskerLow, whiskerHigh := s[0], s[|s| - 1];
    var i := 0;
    while i < |s|
      invariant 0 <= i <= |s|
      invariant forall k :: 0 <= k < i ==> s[k] < low
    {
      if s[i] >= low {
        whiskerLow := s[i];
        break;
      }
      i := i + 1;
    }
    var j := |s| - 1;
    while j >= 0
      invariant -1 <= j < |s|
      invariant forall k :: j < k < |s| ==> s[k] > high
    {
      if s[j] <= high {
        whiskerHigh := s[j];
        break;
      }
      j := j - 1;
    }
  }

  method FindOutliers(s: seq<real>, low: real, high: real) returns (outliers: seq<real>)
    ensures outliers == First(Outside(s, low, high), MAX_OUTLIERS)
  {
    outliers := [];
    for i := 0 to |s|
      invariant outliers == First(Outside(s[..i], low, high), MAX_OUTLIERS)
    {
      assert s[..i + 1][..i] == s[..i];
      if (s[i] < low || s[i] > high) && |outliers| < MAX_OUTLIERS {
        outliers := outliers + [s[i]];
      }
    }
    assert s[..|s|] == s;
  }

  method Summarise(s: seq<real>) returns (r: Summary)
    requires s != [] && Ascending(s)
    ensures Summarises(s, r)
  {
    hide Quantile, Outside, Ascending, LowFence, HighFence, Whiskers, Times;
    var m := SomeValueInside(s);
    var sum := AddUp(s);
    var whiskerLow, whiskerHigh := FindWhiskers(s, LowFence(s), HighFence(s));
    var outliers := FindOutliers(s, whiskerLow, whiskerHigh);
    MeanIs(sum, |s|);
    r := Summary(|s|, s[0], Quantile(s, 0.25), Quantile(s, 0.5), Quantile(s, 0.75), s[|s| - 1], sum / |s| as real,
                 whiskerLow, whiskerHigh, outliers);
  }

  method AddUp(s: seq<real>) returns (sum: real)
    ensures sum == SumOf(s)
  {
    sum := 0.0;
    for i := 0 to |s|
      invariant sum == SumOf(s[..i])
    {
      assert s[..i + 1][..i] == s[..i];
      sum := sum + s[i];
    }
    assert s[..|s|] == s;
  }

  method Histogram(s: seq<real>, requested: nat) returns (bins: array<Bin>, span: real)
    requires s != [] && Ascending(s)
    ensures IsHistogram(s, span, bins[..]) && bins.Length == BinCount(requested, |s|)
  {
    var n := BinCount(requested, |s|);
    var min, max := s[0], s[|s| - 1];
    span := max - min;
    if span == 0.0 {
      span := 1.0;
    }
    var lower := seq(n, i requires 0 <= i < n => Bin(Lower(min, span, n, i), Lower(min, span, n, i + 1), 0));
    bins := new Bin[n](i requires 0 <= i < n => lower[i]);
    for k := 0 to |s|
      invariant forall i :: 0 <= i < n ==>
        bins[i] == Bin(Lower(min, span, n, i), Lower(min, span, n, i + 1), CountIn(s[..k], min, span, n, i))
    {
      hide BinOf, Lower;
      assert s[..k + 1][..k] == s[..k];
      BinHolds(s[k], min, span, n);
      var i := BinOf(s[k], min, span, n);
      bins[i] := bins[i].(count := bins[i].count + 1);
    }
    assert s[..|s|] == s;
  }

  /** The view of a published distribution: its values in order, summarised and counted. */
  method BuildView(values: seq<real>, requested: nat) returns (summary: Summary, bins: array<Bin>)
    requires values != []
    ensures Summarises(Sort(values, RealLess), summary)
    ensures bins.Length == BinCount(requested, |values|) && exists span :: IsHistogram(Sort(values, RealLess), span, bins[..])
  {
    SortAscends(values);
    var s := Sort(values, RealLess);
    hide Sort, Summarises, IsHistogram, Ascending;
    summary := Summarise(s);
    var span;
    bins, span := Histogram(s, requested);
  }

  // ---------------------------------------------------------------- in numbers

  /** With `p` of the way along the values at position `m` and a fraction `t`, the quantile divides the
      step from value `m` to the next in that proportion. */
  lemma QuantileIs(s: seq<real>, p: real, m: nat, t: real)
    requires m + 1 < |s| && 0.0 <= p <= 1.0 && 0.0 <= t < 1.0 && p * (|s| - 1) as real == m as real + t
    ensures Quantile(s, p) == s[m] + (s[m + 1] - s[m]) * t
  {
    var x := PositionFor(s, p);
    assert x == m as real + t;
    FloorIs(x, m, t);
    PositionOf(s, p);
    hide PositionFor;
    AtIs(s, x, m, t);
  }

  lemma FloorIs(x: real, m: nat, t: real)
    requires x == m as real + t && 0.0 <= t < 1.0
    ensures x.Floor == m && Ceil(x) == if t == 0.0 then m else m + 1
  {
  }

  lemma AtIs(s: seq<real>, x: real, m: nat, t: real)
    requires m + 1 < |s| && IsPosition(s, x) && x == m as real + t && x.Floor == m && Ceil(x) == (if t == 0.0 then m else m + 1)
    ensures At(s, x) == s[m] + (s[m + 1] - s[m]) * t
  {
    hide Ceil;
    if t == 0.0 {
      TimesNothing(s[m] - s[m], s[m + 1] - s[m]);
    }
  }

  lemma TimesNothing(a: real, b: real)
    ensures a * 0.0 == 0.0 && b * 0.0 == 0.0
  {
  }

  lemma {:induction false} OutsideAre(s: seq<real>, low: real, high: real, v: real)
    ensures multiset(Outside(s, low, high))[v] == if v < low || v > high then multiset(s)[v] else 0
    decreases |s|
  {
    if s != [] {
      var init, last := s[..|s| - 1], s[|s| - 1];
      OutsideAre(init, low, high, v);
      assert s == init + [last];
    }
  }

  /** A value of the sample, further from the quartiles than one and a half times their distance. */
  predicate IsFar(r: Summary, v: real) {
    v < r.q1 - 1.5 * (r.q3 - r.q1) || v > r.q3 + 1.5 * (r.q3 - r.q1)
  }

  /** The whiskers are the outermost values that are not far off, and the outliers are those that are,
      the first 128 of them if there are more. */
  lemma {:induction false} FarValues(s: seq<real>, r: Summary, v: real)
    requires Ascending(s) && Summarises(s, r)
    ensures r.whiskerLow in s && !IsFar(r, r.whiskerLow) && r.whiskerHigh in s && !IsFar(r, r.whiskerHigh)
    ensures v in s && !IsFar(r, v) ==> r.whiskerLow <= v <= r.whiskerHigh
    ensures v in r.outliers ==> v in s && IsFar(r, v)
    ensures |r.outliers| <= 128
    ensures |r.outliers| < 128 ==> multiset(r.outliers)[v] == if IsFar(r, v) then multiset(s)[v] else 0
  {
    SummaryIsSound(s, r);
    OutsideAre(s, LowFence(s), HighFence(s), v);
    hide Quantile, SumOf, Outside, Times, Ascending;
    var all := Outside(s, LowFence(s), HighFence(s));
    InMultiset(s, v);
    InMultiset(all, v);
    assert v in r.outliers ==> v in all;
  }

  /** Without a number asked for, the least one whose square is not below the count, but from 5 to 64. */
  lemma BinCountIs(requested: nat, count: nat)
    ensures var n := BinCount(requested, count);
            && (requested > 0 ==> n == requested)
            && (requested == 0 && count <= 25 ==> n == 5)
            && (requested == 0 && count > 63 * 63 ==> n == 64)
            && (requested == 0 && 25 < count <= 63 * 63 ==> (n - 1) * (n - 1) < count <= n * n)
  {
    var r := CeilSqrt(count, 0);
    hide CeilSqrt;
    if r <= 4 {
      SquareMonotone(r, 4);
    }
    if r > 64 {
      SquareMonotone(64, r - 1);
    }
    if r >= 6 {
      SquareMonotone(5, r - 1);
    }
    if r <= 63 {
      SquareMonotone(r, 63);
    }
    if r >= 64 {
      SquareMonotone(63, r - 1);
    }
  }

  lemma SquareMonotone(a: nat, b: nat)
    requires a <= b
    ensures a * a <= b * b
  {
  }

  /** The bins follow each other from the least to the greatest value in steps of the same width. */
  lemma BinsFollow(s: seq<real>, span: real, bins: seq<Bin>)
    requires IsHistogram(s, span, bins)
    ensures bins[0].lower == s[0] && bins[|bins| - 1].upper == s[0] + span
    ensures s[|s| - 1] != s[0] ==> s[0] + span == s[|s| - 1]
    ensures forall i :: 0 <= i < |bins| - 1 ==> bins[i].upper == bins[i + 1].lower
    ensures forall i :: 0 <= i < |bins| ==> bins[i].upper - bins[i].lower == span / |bins| as real
  {
    forall i | 0 <= i < |bins| ensures bins[i].upper - bins[i].lower == span / |bins| as real {
      assert bins[i] == BinFor(s, span, |bins|, i);
      EdgeStep(i, span / |bins| as real);
    }
    EdgeEnds(span, |bins|);
    hide Edge, CountIn;
  }

  lemma EdgeStep(i: int, w: real)
    ensures Edge(i + 1, w) - Edge(i, w) == w
  {
    assert (i + 1) as real == i as real + 1.0;
  }

  lemma EdgeEnds(span: real, n: nat)
    requires n > 0
    ensures Edge(0, span / n as real) == 0.0 && Edge(n, span / n as real) == span
  {
  }
}
