/** The interpolated percentile of the benchmark report, over the reals. */
module Percentile {

  predicate Ascending(s: seq<real>) {
    forall i, j :: 0 <= i <= j < |s| ==> s[i] <= s[j]
  }

  function InsertInto(s: seq<real>, x: real): seq<real> {
    if s == [] || x <= s[0] then [x] + s else [s[0]] + InsertInto(s[1..], x)
  }

  /** `sorted(values)`. */
  function Sort(s: seq<real>): seq<real> {
    if s == [] then [] else InsertInto(Sort(s[1..]), s[0])
  }

  lemma {:induction false} InsertIntoIsSorted(s: seq<real>, x: real)
    requires Ascending(s)
    ensures Ascending(InsertInto(s, x)) && multiset(InsertInto(s, x)) == multiset(s) + multiset{x}
  {
    if s != [] && x > s[0] {
      InsertIntoIsSorted(s[1..], x);
      var rest := InsertInto(s[1..], x);
      assert InsertInto(s, x) == [s[0]] + rest;
      assert s == [s[0]] + s[1..];
      hide InsertInto;
      SmallestFirst(s[0], s[1..], x, rest);
    }
  }

  lemma SmallestFirst(a: real, s: seq<real>, x: real, rest: seq<real>)
    requires Ascending([a] + s) && a < x && Ascending(rest) && multiset(rest) == multiset(s) + multiset{x}
    ensures Ascending([a] + rest)
  {
    forall i | 0 <= i < |rest| ensures a <= rest[i] {
      assert rest[i] in multiset(rest);
      if rest[i] != x {
        var j :| 0 <= j < |s| && s[j] == rest[i];
        assert ([a] + s)[0] <= ([a] + s)[j + 1];
      }
    }
  }

  lemma {:induction false} SortIsSorted(s: seq<real>)
    ensures Ascending(Sort(s)) && multiset(Sort(s)) == multiset(s) && |Sort(s)| == |s|
  {
    if s != [] {
      SortIsSorted(s[1..]);
      InsertIntoIsSorted(Sort(s[1..]), s[0]);
      assert s == [s[0]] + s[1..];
    }
    assert |multiset(Sort(s))| == |multiset(s)|;
  }

  /** The linear interpolation between neighbours at the fractional index `rank`. */
  function At(ordered: seq<real>, rank: real): real
    requires |ordered| >= 1 && 0.0 <= rank <= (|ordered| - 1) as real
  {
    var lower := rank.Floor;
    var upper := if lower + 1 < |ordered| then lower + 1 else |ordered| - 1;
    var weight := rank - lower as real;
    Mix(ordered[lower], ordered[upper], weight)
  }

  /** The point at `weight` on the way from one value to another. */
  function Mix(a: real, b: real, weight: real): real {
    a * (1.0 - weight) + b * weight
  }

  /** The fractional index of a percentile among `n` ordered samples. */
  function Rank(n: nat, p: real): (rank: real)
    requires n >= 1 && 0.0 <= p <= 1.0
    ensures 0.0 <= rank <= (n - 1) as real
  {
    (n - 1) as real * p
  }

  lemma RankIsMonotone(n: nat, p: real, q: real)
    requires n >= 1 && 0.0 <= p <= q <= 1.0
    ensures Rank(n, p) <= Rank(n, q)
  {
    var m, d := (n - 1) as real, q - p;
    assert m * d >= 0.0;
    assert m * q == m * p + m * d;
  }

  /** `_percentile`, once its samples are sorted. */
  function OfSorted(ordered: seq<real>, p: real): real
    requires ordered != [] && 0.0 <= p <= 1.0
  {
    if |ordered| == 1 then ordered[0] else At(ordered, Rank(|ordered|, p))
  }

  /** `_percentile`. */
  function Of(values: seq<real>, p: real): real
    requires 0.0 <= p <= 1.0
  {
    if values == [] then 0.0 else SortIsSorted(values); OfSorted(Sort(values), p)
  }

  function MedianOfSorted(ordered: seq<real>): real
    requires ordered != []
  {
    var n := |ordered|;
    if n % 2 == 1 then ordered[n / 2] else (ordered[n / 2 - 1] + ordered[n / 2]) / 2.0
  }

  /** `statistics.median`. */
  function Median(values: seq<real>): real
    requires values != []
  {
    SortIsSorted(values);
    MedianOfSorted(Sort(values))
  }

  lemma NotNegative(x: real, y: real)
    requires x >= 0.0 && y >= 0.0
    ensures x * y >= 0.0
  {
  }

  lemma Blend(a: real, b: real, w: real)
    requires a <= b && 0.0 <= w <= 1.0
    ensures a <= Mix(a, b, w) <= b
  {
    OnTheLine(a, b, w);
    assert Mix(a, b, w) == b - (b - a) * (1.0 - w);
    NotNegative(b - a, w);
    NotNegative(b - a, 1.0 - w);
  }

  lemma BlendMonotone(a: real, b: real, v: real, w: real)
    requires a <= b && v <= w
    ensures Mix(a, b, v) <= Mix(a, b, w)
  {
    OnTheLine(a, b, v);
    OnTheLine(a, b, w);
    NotNegative(b - a, w - v);
    assert (b - a) * w == (b - a) * v + (b - a) * (w - v);
  }

  /** The interpolated value lies between its two neighbours. */
  lemma AtIsBetween(ordered: seq<real>, rank: real)
    requires Ascending(ordered) && |ordered| >= 1 && 0.0 <= rank <= (|ordered| - 1) as real
    ensures var lower := rank.Floor;
            var upper := if lower + 1 < |ordered| then lower + 1 else |ordered| - 1;
            ordered[lower] <= At(ordered, rank) <= ordered[upper]
  {
    var lower := rank.Floor;
    var upper := if lower + 1 < |ordered| then lower + 1 else |ordered| - 1;
    hide Mix;
    Blend(ordered[lower], ordered[upper], rank - lower as real);
  }

  lemma AtIsMonotone(ordered: seq<real>, r: real, s: real)
    requires Ascending(ordered) && |ordered| >= 1 && 0.0 <= r <= s <= (|ordered| - 1) as real
    ensures At(ordered, r) <= At(ordered, s)
  {
    var n := |ordered|;
    if r.Floor == s.Floor {
      var lower := r.Floor;
      var upper := if lower + 1 < n then lower + 1 else n - 1;
      BlendMonotone(ordered[lower], ordered[upper], r - lower as real, s - lower as real);
    } else {
      AtIsBetween(ordered, r);
      AtIsBetween(ordered, s);
      assert r.Floor + 1 <= s.Floor;
    }
  }

  lemma SortKeepsBounds(values: seq<real>, low: real, high: real)
    requires forall i :: 0 <= i < |values| ==> low <= values[i] <= high
    ensures forall i :: 0 <= i < |Sort(values)| ==> low <= Sort(values)[i] <= high
  {
    SortIsSorted(values);
    hide Sort;
    var ordered := Sort(values);
    forall i | 0 <= i < |ordered| ensures low <= ordered[i] <= high {
      assert ordered[i] in multiset(ordered);
      assert ordered[i] in values;
    }
  }

  /** A percentile stays within any bounds that hold for all samples. */
  lemma PercentileIsBounded(values: seq<real>, p: real, low: real, high: real)
    requires values != [] && 0.0 <= p <= 1.0
    requires forall i :: 0 <= i < |values| ==> low <= values[i] <= high
    ensures low <= Of(values, p) <= high
  {
    SortIsSorted(values);
    SortKeepsBounds(values, low, high);
    hide Sort, At, Rank;
    var ordered := Sort(values);
    if |ordered| > 1 { AtIsBetween(ordered, Rank(|ordered|, p)); }
  }

  /** A percentile never falls when the percentage rises. */
  lemma PercentileIsMonotone(values: seq<real>, p: real, q: real)
    requires 0.0 <= p <= q <= 1.0
    ensures Of(values, p) <= Of(values, q)
  {
    if values != [] {
      SortIsSorted(values);
      hide Sort, At, Rank;
      var ordered := Sort(values);
      RankIsMonotone(|ordered|, p, q);
      AtIsMonotone(ordered, Rank(|ordered|, p), Rank(|ordered|, q));
    }
  }

  lemma HalfOfSortedIsMedian(ordered: seq<real>)
    requires ordered != []
    ensures OfSorted(ordered, 0.5) == MedianOfSorted(ordered)
  {
    var n := |ordered|;
    if n > 1 {
      var rank := Rank(n, 0.5);
      if n % 2 == 1 {
        assert rank == (n / 2) as real;
      } else {
        assert rank == (n / 2 - 1) as real + 0.5;
        assert rank.Floor == n / 2 - 1;
        var a, b := ordered[n / 2 - 1], ordered[n / 2];
        assert At(ordered, rank) == a * (1.0 - 0.5) + b * 0.5;
      }
    }
  }

  /** At one half the percentile is the median. */
  lemma PercentileAtHalfIsMedian(values: seq<real>)
    requires values != []
    ensures Of(values, 0.5) == Median(values)
  {
    SortIsSorted(values);
    HalfOfSortedIsMedian(Sort(values));
    hide Sort, OfSorted, MedianOfSorted;
  }

  /** The report's p50 never exceeds its p95. */
  lemma MedianIsAtMostP95(values: seq<real>)
    requires values != []
    ensures Median(values) <= Of(values, 0.95)
  {
    PercentileAtHalfIsMedian(values);
    PercentileIsMonotone(values, 0.5, 0.95);
  }

  /** A percentage lies in the step from one ordered sample to the next. */
  predicate InStep(n: nat, i: nat, p: real) {
    i + 1 < n && i as real <= (n - 1) as real * p <= (i + 1) as real
  }

  lemma Negative(m: real, x: real)
    requires m > 0.0 && x < 0.0
    ensures m * x < 0.0
  {
  }

  lemma StepIsWithinUnit(n: nat, i: nat, p: real)
    requires InStep(n, i, p)
    ensures 0.0 <= p <= 1.0
  {
    var m := (n - 1) as real;
    assert i as real >= 0.0;
    if p < 0.0 {
      Negative(m, p);
    } else if p > 1.0 {
      Negative(m, 1.0 - p);
    }
  }

  lemma RankIs(n: nat, p: real)
    requires n >= 1 && 0.0 <= p <= 1.0
    ensures Rank(n, p) == (n - 1) as real * p
  {
  }

  lemma AtIsLinear(s: seq<real>, i: nat, rank: real)
    requires i + 1 < |s| && i as real <= rank <= (i + 1) as real
    ensures 0.0 <= rank <= (|s| - 1) as real && At(s, rank) == s[i] + (s[i + 1] - s[i]) * (rank - i as real)
  {
    if rank == (i + 1) as real {
      assert rank.Floor == i + 1 && rank - (i + 1) as real == 0.0;
      OnTheLine(s[i], s[i + 1], 1.0);
    } else {
      assert rank.Floor == i;
      OnTheLine(s[i], s[i + 1], rank - i as real);
    }
  }

  lemma OnTheLine(a: real, b: real, w: real)
    ensures Mix(a, b, w) == a + (b - a) * w
  {
  }

  /**
   Between the i-th and the next ordered sample the percentile is the straight line through both: each sample is
   hit at its own share i / (n - 1), and there is nothing in between but the line.
   */
  lemma PercentileIsPiecewiseLinear(values: seq<real>, i: nat, p: real)
    requires InStep(|values|, i, p)
    ensures 0.0 <= p <= 1.0 && |Sort(values)| == |values|
    ensures var s, along := Sort(values), (|values| - 1) as real * p - i as real;
            Of(values, p) == s[i] + (s[i + 1] - s[i]) * along
  {
    hide Sort, At, Rank;
    StepIsWithinUnit(|values|, i, p);
    SortIsSorted(values);
    RankIs(|values|, p);
    AtIsLinear(Sort(values), i, Rank(|values|, p));
  }

  /** One sample is every percentile of itself; without samples the answer is zero. */
  lemma PercentileOfFew(values: seq<real>, p: real)
    requires |values| <= 1 && 0.0 <= p <= 1.0
    ensures Of(values, p) == if values == [] then 0.0 else values[0]
  {
    if values != [] {
      SortIsSorted(values);
      assert Sort(values)[0] in multiset(Sort(values));
    }
  }
}
