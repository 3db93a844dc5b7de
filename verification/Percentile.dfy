/** Latency percentiles (tools/run_step38_load_stress.py, `percentile` and `latency_summary`), over
    exact reals.  `round` stands for rounding to three digits: any monotone function. */
module Percentile {
  import opened Common
  import opened Sorting

  const ASCENDING: (real, real) -> bool := (a, b) => a <= b

  ghost predicate Monotone(round: real -> real) { forall x, y :: x <= y ==> round(x) <= round(y) }

  function Truncate(x: real): int { if x >= 0.0 then x.Floor else -((-x).Floor) }

  /** The value at a fractional position of a sorted list, interpolated between its neighbours. */
  function Interpolate(ordered: seq<real>, position: real): real
    requires ordered != [] && 0.0 <= position <= (|ordered| - 1) as real
  {
    var lower := Truncate(position);
    var upper := if lower + 1 < |ordered| - 1 then lower + 1 else |ordered| - 1;
    var fraction := position - lower as real;
    ordered[lower] + (ordered[upper] - ordered[lower]) * fraction
  }

  /** The fractional position of a quantile in a list whose last index is `n`. */
  function Position(n: nat, q: real): (p: real)
    requires 0.0 <= q <= 1.0
    ensures 0.0 <= p <= n as real
  {
    n as real * q
  }

  lemma RealOrder()
    ensures TotalOrder(ASCENDING)
  {}

  /** `sorted(values)`. */
  function Ordered(values: seq<real>): (r: seq<real>)
    ensures Sorted(ASCENDING, r) && multiset(r) == multiset(values) && |r| == |values|
  {
    RealOrder();
    SortSorts(ASCENDING, values);
    Sort(ASCENDING, values)
  }

  function AtQuantile(ordered: seq<real>, q: real): real
    requires ordered != [] && 0.0 <= q <= 1.0
  {
    if |ordered| == 1 then ordered[0]
    else
      Interpolate(ordered, Position(|ordered| - 1, q))
  }

  function Percentile(values: seq<real>, q: real, round: real -> real): Option<real>
    requires 0.0 <= q <= 1.0
  {
    if values == [] then None else Some(round(AtQuantile(Ordered(values), q)))
  }

  // ---------------------------------------------------------------- interpolation

  lemma Between(a: real, b: real, f: real, g: real)
    requires a <= b && 0.0 <= f <= g <= 1.0
    ensures a <= a + (b - a) * f <= a + (b - a) * g <= b
  {
    assert (b - a) * f >= 0.0;
    assert (b - a) * (g - f) >= 0.0;
    assert (b - a) * (1.0 - g) >= 0.0;
  }

  lemma InSegment(ordered: seq<real>, x: real)
    requires ordered != [] && Sorted(ASCENDING, ordered) && 0.0 <= x <= (|ordered| - 1) as real
    ensures var lower := Truncate(x);
            var upper := if lower + 1 < |ordered| - 1 then lower + 1 else |ordered| - 1;
            0 <= lower <= upper < |ordered| && ordered[lower] <= Interpolate(ordered, x) <= ordered[upper]
  {
    var lower := Truncate(x);
    var upper := if lower + 1 < |ordered| - 1 then lower + 1 else |ordered| - 1;
    assert lower as real <= x < lower as real + 1.0;
    assert lower <= |ordered| - 1;
    assert ASCENDING(ordered[lower], ordered[upper]);
    Between(ordered[lower], ordered[upper], x - lower as real, x - lower as real);
  }

  /** Interpolation is monotone across segments. */
  lemma InterpolateMonotone(ordered: seq<real>, x: real, y: real)
    requires ordered != [] && Sorted(ASCENDING, ordered) && 0.0 <= x <= y <= (|ordered| - 1) as real
    ensures Interpolate(ordered, x) <= Interpolate(ordered, y)
  {
    var i, j := Truncate(x), Truncate(y);
    InSegment(ordered, x);
    InSegment(ordered, y);
    if i == j {
      var upper := if i + 1 < |ordered| - 1 then i + 1 else |ordered| - 1;
      assert ASCENDING(ordered[i], ordered[upper]);
      Between(ordered[i], ordered[upper], x - i as real, y - i as real);
    } else {
      assert i + 1 <= j;
      assert ASCENDING(ordered[i + 1], ordered[j]);
    }
  }

  // ---------------------------------------------------------------- percentiles

  lemma InterpolateInRange(ordered: seq<real>, x: real)
    requires ordered != [] && Sorted(ASCENDING, ordered) && 0.0 <= x <= (|ordered| - 1) as real
    ensures ordered[0] <= Interpolate(ordered, x) <= ordered[|ordered| - 1]
  {
    InSegment(ordered, x);
    var lower, n := Truncate(x), |ordered| - 1;
    var upper := if lower + 1 < n then lower + 1 else n;
    assert ASCENDING(ordered[0], ordered[lower]) && ASCENDING(ordered[upper], ordered[n]);
  }

  lemma PositionMonotone(n: nat, p: real, q: real)
    requires 0.0 <= p <= q <= 1.0
    ensures Position(n, p) <= Position(n, q)
  {
    assert n as real * (q - p) >= 0.0;
  }

  lemma AtQuantileMonotone(ordered: seq<real>, p: real, q: real)
    requires ordered != [] && Sorted(ASCENDING, ordered) && 0.0 <= p <= q <= 1.0
    ensures ordered[0] <= AtQuantile(ordered, p) <= AtQuantile(ordered, q) <= ordered[|ordered| - 1]
  {
    if |ordered| > 1 {
      var x, y := Position(|ordered| - 1, p), Position(|ordered| - 1, q);
      PositionMonotone(|ordered| - 1, p, q);
      InterpolateMonotone(ordered, x, y);
      InterpolateInRange(ordered, x);
      InterpolateInRange(ordered, y);
    }
  }

  /** Raising the quantile never lowers the percentile, and every percentile lies between the
      rounded minimum and maximum. */
  lemma PercentileMonotone(values: seq<real>, p: real, q: real, round: real -> real)
    requires values != [] && 0.0 <= p <= q <= 1.0 && Monotone(round)
    ensures Percentile(values, p, round).value <= Percentile(values, q, round).value
    ensures exists low, high | low in values && high in values ::
              && (forall v | v in values :: low <= v <= high)
              && round(low) <= Percentile(values, p, round).value
              && Percentile(values, q, round).value <= round(high)
  {
    var ordered := Ordered(values);
    AtQuantileMonotone(ordered, p, q);
    Extremes(values, ordered);
    var low, high := ordered[0], ordered[|ordered| - 1];
    assert low in values && high in values;
    assert round(low) <= round(AtQuantile(ordered, p)) <= round(AtQuantile(ordered, q)) <= round(high);
  }

  lemma Extremes(values: seq<real>, ordered: seq<real>)
    requires ordered != [] && Sorted(ASCENDING, ordered) && multiset(values) == multiset(ordered)
    ensures ordered[0] in values && ordered[|ordered| - 1] in values
    ensures forall v | v in values :: ordered[0] <= v <= ordered[|ordered| - 1]
  {
    assert ordered[0] in multiset(values) && ordered[|ordered| - 1] in multiset(values);
    forall v | v in values ensures ordered[0] <= v <= ordered[|ordered| - 1] {
      assert v in multiset(ordered);
      var i :| 0 <= i < |ordered| && ordered[i] == v;
      assert ASCENDING(ordered[0], ordered[i]) && ASCENDING(ordered[i], ordered[|ordered| - 1]);
    }
  }

  /** The order in which latencies were recorded cannot be seen in a percentile. */
  lemma PercentileOrderFree(s: seq<real>, t: seq<real>, q: real, round: real -> real)
    requires 0.0 <= q <= 1.0 && multiset(s) == multiset(t)
    ensures Percentile(s, q, round) == Percentile(t, q, round)
  {
    assert |s| == |multiset(s)| == |multiset(t)| == |t|;
    RealOrder();
    SortedUnique(ASCENDING, Ordered(s), Ordered(t));
  }

  // ---------------------------------------------------------------- the summary

  datatype Summary = Summary(count: nat, p50: Option<real>, p90: Option<real>, p95: Option<real>, p99: Option<real>,
                             max: Option<real>)

  function Clean(values: seq<real>): seq<real> {
    if values == [] then [] else (if values[0] >= 0.0 then [values[0]] else []) + Clean(values[1..])
  }

  function Max(values: seq<real>): (m: real)
    requires values != []
    ensures m in values && forall v | v in values :: v <= m
  {
    if |values| == 1 then values[0]
    else
      var rest := Max(values[1..]);
      assert values == [values[0]] + values[1..];
      if values[0] >= rest then values[0] else rest
  }

  function LatencySummary(values: seq<real>, round: real -> real): Summary {
    var clean := Clean(values);
    Summary(|clean|, Percentile(clean, 0.50, round), Percentile(clean, 0.90, round), Percentile(clean, 0.95, round),
            Percentile(clean, 0.99, round), if clean == [] then None else Some(round(Max(clean))))
  }

  lemma {:induction false} CleanKeepsMembers(values: seq<real>)
    ensures forall v :: v in Clean(values) <==> v in values && v >= 0.0
  {
    if values != [] { CleanKeepsMembers(values[1..]); }
  }

  /** Every summary with a usable sample reports p50 <= p90 <= p95 <= p99 <= max; a summary without
      one reports nothing, and that happens exactly when every latency is negative. */
  lemma SummaryOrdered(values: seq<real>, round: real -> real)
    requires Monotone(round)
    ensures var s := LatencySummary(values, round);
            if exists v | v in values :: v >= 0.0 then
              && s.p50.Some? && s.p90.Some? && s.p95.Some? && s.p99.Some? && s.max.Some?
              && s.p50.value <= s.p90.value <= s.p95.value <= s.p99.value <= s.max.value
            else s == Summary(0, None, None, None, None, None)
  {
    var clean := Clean(values);
    CleanKeepsMembers(values);
    if clean != [] {
      PercentileMonotone(clean, 0.50, 0.90, round);
      PercentileMonotone(clean, 0.90, 0.95, round);
      PercentileMonotone(clean, 0.95, 0.99, round);
      assert clean[0] in values;
    }
  }

  // ---------------------------------------------------------------- exact values

  ghost predicate Arranges(ordered: seq<real>, values: seq<real>) {
    multiset(ordered) == multiset(values) && forall i, j | 0 <= i < j < |ordered| :: ordered[i] <= ordered[j]
  }

  lemma ArrangedIsOrdered(ordered: seq<real>, values: seq<real>)
    requires Arranges(ordered, values)
    ensures ordered == Ordered(values)
  {
    RealOrder();
    SortedUnique(ASCENDING, Ordered(values), ordered);
  }

  lemma QuantileInRange(n: nat, q: real)
    requires 0.0 <= q <= 1.0
    ensures 0.0 <= n as real * q <= n as real
  {
    assert n as real * q <= n as real * 1.0;
  }

  lemma InterpolateAt(ordered: seq<real>, k: nat, f: real)
    requires ordered != [] && 0.0 <= f < 1.0 && k as real + f <= (|ordered| - 1) as real
    ensures k < |ordered| && (f > 0.0 ==> k + 1 < |ordered|)
    ensures Interpolate(ordered, k as real + f)
         == if f == 0.0 then ordered[k] else ordered[k] + (ordered[k + 1] - ordered[k]) * f
  {
    assert Truncate(k as real + f) == k;
  }

  lemma AtPosition(ordered: seq<real>, q: real, k: nat, f: real)
    requires ordered != [] && 0.0 <= q <= 1.0 && 0.0 <= f < 1.0
    requires Position(|ordered| - 1, q) == k as real + f
    ensures k < |ordered| && (f > 0.0 ==> k + 1 < |ordered|)
    ensures AtQuantile(ordered, q) == if f == 0.0 then ordered[k] else ordered[k] + (ordered[k + 1] - ordered[k]) * f
  {
    InterpolateAt(ordered, k, f);
  }

  /** The percentile at position k + f of any sorted arrangement of the sample lies at the share f of the
      way from its k-th value to the next: a value of the sample at whole positions, their mean half way. */
  lemma PercentileExactly(values: seq<real>, ordered: seq<real>, q: real, k: nat, f: real, round: real -> real)
    requires values != [] && Arranges(ordered, values) && 0.0 <= q <= 1.0 && 0.0 <= f < 1.0
    requires (|values| - 1) as real * q == k as real + f
    ensures k < |ordered| == |values| && (f > 0.0 ==> k + 1 < |ordered|)
    ensures Percentile(values, q, round)
         == Some(round(if f == 0.0 then ordered[k] else ordered[k] + (ordered[k + 1] - ordered[k]) * f))
  {
    ArrangedIsOrdered(ordered, values);
    QuantileInRange(|values| - 1, q);
    AtPosition(ordered, q, k, f);
  }

  lemma AtHundredths(clean: seq<real>, ordered: seq<real>, m: nat, percent: nat, q: real, round: real -> real)
    requires |clean| == 100 * m + 1 && Arranges(ordered, clean) && percent <= 100 && q == percent as real / 100.0
    ensures |ordered| == |clean| && percent * m < |ordered|
    ensures Percentile(clean, q, round) == Some(round(ordered[percent * m]))
  {
    assert (100 * m) as real * q == (percent * m) as real + 0.0;
    PercentileExactly(clean, ordered, q, percent * m, 0.0, round);
  }

  lemma LargestIsLast(values: seq<real>, ordered: seq<real>)
    requires values != [] && Arranges(ordered, values)
    ensures ordered != [] && Max(values) == ordered[|ordered| - 1]
  {
    SameLength(ordered, values);
    var last := ordered[|ordered| - 1];
    assert last in multiset(values) by { assert last in ordered && last in multiset(ordered); }
    assert Max(values) in multiset(ordered) by { assert Max(values) in multiset(values); }
    var i :| 0 <= i < |ordered| && ordered[i] == Max(values);
    assert last in values && last <= Max(values);
    assert i < |ordered| - 1 ==> ordered[i] <= last;
  }

  /** The summary reports the quantiles 0.50, 0.90, 0.95 and 0.99: of 100 m + 1 usable latencies, the
      values number 50 m, 90 m, 95 m and 99 m in ascending order, and the largest. */
  lemma SummaryAtHundredths(values: seq<real>, ordered: seq<real>, m: nat, round: real -> real)
    requires |Clean(values)| == 100 * m + 1 && Arranges(ordered, Clean(values))
    ensures |ordered| == 100 * m + 1
    ensures LatencySummary(values, round)
         == Summary(100 * m + 1, Some(round(ordered[50 * m])), Some(round(ordered[90 * m])),
                    Some(round(ordered[95 * m])), Some(round(ordered[99 * m])), Some(round(ordered[100 * m])))
  {
    var clean := Clean(values);
    AtHundredths(clean, ordered, m, 50, 0.50, round);
    AtHundredths(clean, ordered, m, 90, 0.90, round);
    AtHundredths(clean, ordered, m, 95, 0.95, round);
    AtHundredths(clean, ordered, m, 99, 0.99, round);
    LargestIsLast(clean, ordered);
  }

  /** The usable latencies are the nonnegative ones, each as often as it was recorded. */
  lemma {:induction false} CleanExactly(values: seq<real>, v: real)
    ensures multiset(Clean(values))[v] == if v >= 0.0 then multiset(values)[v] else 0
  {
    if values != [] {
      CleanExactly(values[1..], v);
      assert values == [values[0]] + values[1..];
    }
  }
}
