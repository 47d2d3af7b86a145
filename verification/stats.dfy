/**
  The aggregates the views compute over rows: `d3.max`, `d3.min`,
  `d3.mean`, the "rows inside [lo, hi)" counts the histograms are made of,
  and the bin counts and edges of those histograms.
 */
module Stats {
  import opened Dataset

  // ---------------------------------------------------------------------
  // Maximum, minimum, mean
  // ---------------------------------------------------------------------

  /** `d3.max(rows, d => d[m])`; `None` (JavaScript `undefined`) for no rows. */
  function MaxOf(rows: seq<Row>, m: Metric): (r: Option<real>)
    ensures r.None? <==> rows == []
    ensures r.Some? ==> forall x :: x in rows ==> Value(x, m) <= r.value
    ensures r.Some? ==> exists x :: x in rows && Value(x, m) == r.value
  {
    if rows == [] then None
    else
      var rest := MaxOf(rows[1..], m);
      assert forall x :: x in rows ==> x == rows[0] || x in rows[1..];
      if rest.None? || Value(rows[0], m) >= rest.value then Some(Value(rows[0], m)) else rest
  }

  /** `d3.min(rows, d => d[m])`; `None` for no rows. */
  function MinOf(rows: seq<Row>, m: Metric): (r: Option<real>)
    ensures r.None? <==> rows == []
    ensures r.Some? ==> forall x :: x in rows ==> r.value <= Value(x, m)
    ensures r.Some? ==> exists x :: x in rows && Value(x, m) == r.value
  {
    if rows == [] then None
    else
      var rest := MinOf(rows[1..], m);
      assert forall x :: x in rows ==> x == rows[0] || x in rows[1..];
      if rest.None? || Value(rows[0], m) <= rest.value then Some(Value(rows[0], m)) else rest
  }

  function SumOf(rows: seq<Row>, m: Metric): real {
    if rows == [] then 0.0 else Value(rows[0], m) + SumOf(rows[1..], m)
  }

  /** `n` copies of `x` added up. */
  function Repeat(n: nat, x: real): real {
    if n == 0 then 0.0 else x + Repeat(n - 1, x)
  }

  lemma {:induction false} RepeatIsProduct(n: nat, x: real)
    ensures Repeat(n, x) == n as real * x
  {
    if n > 0 {
      RepeatIsProduct(n - 1, x);
      assert n as real * x == (n - 1) as real * x + x;
    }
  }

  lemma {:induction false} SumBounds(rows: seq<Row>, m: Metric, lo: real, hi: real)
    requires forall x :: x in rows ==> lo <= Value(x, m) <= hi
    ensures Repeat(|rows|, lo) <= SumOf(rows, m) <= Repeat(|rows|, hi)
  {
    if rows != [] {
      assert forall x :: x in rows[1..] ==> x in rows;
      SumBounds(rows[1..], m, lo, hi);
      assert rows[0] in rows;
    }
  }

  /** `d3.mean(rows, d => d[m])`; `None` for no rows. */
  function Mean(rows: seq<Row>, m: Metric): (r: Option<real>)
    ensures r.None? <==> rows == []
  {
    if rows == [] then None else Some(SumOf(rows, m) / |rows| as real)
  }

  /** The mean lies between the smallest and the largest value. */
  lemma MeanBetweenExtremes(rows: seq<Row>, m: Metric)
    requires rows != []
    ensures MinOf(rows, m).value <= Mean(rows, m).value <= MaxOf(rows, m).value
  {
    var lo, hi := MinOf(rows, m).value, MaxOf(rows, m).value;
    SumBounds(rows, m, lo, hi);
    AverageBetween(|rows|, SumOf(rows, m), lo, hi);
  }

  lemma AverageBetween(k: nat, t: real, lo: real, hi: real)
    requires k > 0 && Repeat(k, lo) <= t <= Repeat(k, hi)
    ensures lo <= t / k as real <= hi
  {
    RepeatIsProduct(k, lo);
    RepeatIsProduct(k, hi);
    MeanBetween(t, k as real, lo, hi);
  }

  lemma MeanBetween(s: real, n: real, lo: real, hi: real)
    requires n > 0.0 && n * lo <= s <= n * hi
    ensures lo <= s / n <= hi
  {
    var q := s / n;
    assert q * n == s;
    ScaleStrict(q, lo, n);
    ScaleStrict(hi, q, n);
  }

  // ---------------------------------------------------------------------
  // Counting rows inside a half-open interval
  // ---------------------------------------------------------------------

  /** `rows.filter(d => d[m] >= lo && d[m] < hi).length`. */
  function CountIn(rows: seq<Row>, m: Metric, lo: real, hi: real): (n: nat)
    ensures n <= |rows|
  {
    if rows == [] then 0
    else (if lo <= Value(rows[0], m) < hi then 1 else 0) + CountIn(rows[1..], m, lo, hi)
  }

  /** Adjacent intervals count disjoint sets of rows that together make up
      the rows of the joined interval. */
  lemma {:induction false} CountSplit(rows: seq<Row>, m: Metric, a: real, b: real, c: real)
    requires a <= b <= c
    ensures CountIn(rows, m, a, b) + CountIn(rows, m, b, c) == CountIn(rows, m, a, c)
  {
    if rows != [] {
      CountSplit(rows[1..], m, a, b, c);
    }
  }

  /** Counting inside a filtered subset never finds more than counting in
      the whole. */
  lemma {:induction false} CountSubset(rows: seq<Row>, p: Row -> bool, m: Metric, lo: real, hi: real)
    ensures CountIn(Filter(rows, p), m, lo, hi) <= CountIn(rows, m, lo, hi)
  {
    if rows != [] {
      CountSubset(rows[1..], p, m, lo, hi);
      if p(rows[0]) {
        var f := Filter(rows, p);
        assert f == [rows[0]] + Filter(rows[1..], p);
        assert f[0] == rows[0] && f[1..] == Filter(rows[1..], p);
      }
    }
  }

  /** An interval holding every row counts every row. */
  lemma {:induction false} CountAll(rows: seq<Row>, m: Metric, lo: real, hi: real)
    requires forall x :: x in rows ==> lo <= Value(x, m) < hi
    ensures CountIn(rows, m, lo, hi) == |rows|
  {
    if rows != [] {
      assert forall x :: x in rows[1..] ==> x in rows;
      CountAll(rows[1..], m, lo, hi);
      assert rows[0] in rows;
    }
  }

  /** An interval missing some row misses it in the count. */
  lemma {:induction false} CountMisses(rows: seq<Row>, m: Metric, lo: real, hi: real, x: Row)
    requires x in rows && !(lo <= Value(x, m) < hi)
    ensures CountIn(rows, m, lo, hi) < |rows|
  {
    if rows[0] != x {
      assert x in rows[1..];
      CountMisses(rows[1..], m, lo, hi, x);
    }
  }

  // ---------------------------------------------------------------------
  // Bin edges and bin counts
  // ---------------------------------------------------------------------

  /** The least integer not below `x`. */
  function Ceil(x: real): int {
    -((-x).Floor)
  }

  lemma CeilBelow(x: real, i: int)
    ensures i < Ceil(x) <==> (i as real) < x
  {
  }

  /** How many integers `i` the loop `for (let i = 0; i < maxVal; i++)`
      visits; a missing maximum compares false and stops it at once. */
  function UnitCount(maxVal: Option<real>): nat {
    if maxVal.None? || maxVal.value <= 0.0 then 0 else Ceil(maxVal.value)
  }

  /** The integers visited are exactly those in [0, maxVal). */
  lemma UnitCountExact(maxVal: Option<real>, i: int)
    requires 0 <= i
    ensures i < UnitCount(maxVal) <==> maxVal.Some? && (i as real) < maxVal.value
  {
    if maxVal.Some? && maxVal.value > 0.0 {
      CeilBelow(maxVal.value, i);
    }
  }

  /** The lower edge of bin `k` of a histogram starting at `start` with
      width `diff`. */
  function Edge(start: real, diff: real, k: nat): real {
    start + k as real * diff
  }

  /** How many edges the loop `for (i = start; i < maxVal; i = i + diff)`
      visits, with exact arithmetic. */
  function StepCount(start: real, diff: real, maxVal: real): nat
    requires diff > 0.0
  {
    if maxVal <= start then 0 else Ceil((maxVal - start) / diff)
  }

  /** The edges visited are exactly those below `maxVal`. */
  lemma StepCountExact(start: real, diff: real, maxVal: real, k: nat)
    requires diff > 0.0
    ensures k < StepCount(start, diff, maxVal) <==> Edge(start, diff, k) < maxVal
  {
    if maxVal > start {
      var q := (maxVal - start) / diff;
      assert StepCount(start, diff, maxVal) == Ceil(q);
      CeilBelow(q, k);
      assert q * diff == maxVal - start;
      ScaleStrict(k as real, q, diff);
      assert (k as real) < q <==> k as real * diff < maxVal - start;
      assert Edge(start, diff, k) < maxVal <==> k as real * diff < maxVal - start;
    } else {
      assert k as real * diff >= 0.0;
    }
  }

  lemma ScaleStrict(a: real, b: real, c: real)
    requires c > 0.0
    ensures a < b <==> a * c < b * c
  {
    if a < b {
      assert (b - a) * c > 0.0;
    } else {
      assert (a - b) * c >= 0.0;
    }
  }

  /** The reference definition of a histogram: the count of rows inside
      [edge k, edge k + diff) for each of the first `n` bins. */
  function BinCounts(rows: seq<Row>, m: Metric, start: real, diff: real, n: nat): (r: seq<nat>)
    ensures |r| == n
  {
    seq(n, k requires 0 <= k < n => CountIn(rows, m, Edge(start, diff, k), Edge(start, diff, k) + diff))
  }

  function Sum(s: seq<nat>): nat {
    if s == [] then 0 else Sum(s[..|s| - 1]) + s[|s| - 1]
  }

  /** Consecutive bins partition the interval they cover, so their counts
      add up to the count of that interval. */
  lemma {:induction false} BinsSum(rows: seq<Row>, m: Metric, start: real, diff: real, n: nat)
    requires diff >= 0.0
    ensures Sum(BinCounts(rows, m, start, diff, n)) == CountIn(rows, m, start, Edge(start, diff, n))
  {
    if n == 0 {
      assert BinCounts(rows, m, start, diff, 0) == [];
      assert CountIn(rows, m, start, start) == 0 by { EmptyInterval(rows, m, start); }
    } else {
      var b := BinCounts(rows, m, start, diff, n);
      var lo, hi := Edge(start, diff, n - 1), Edge(start, diff, n);
      assert b[..n - 1] == BinCounts(rows, m, start, diff, n - 1);
      assert Sum(b) == Sum(b[..n - 1]) + b[n - 1];
      BinsSum(rows, m, start, diff, n - 1);
      EdgeNext(start, diff, n - 1);
      EdgeMonotone(start, diff, 0, n - 1);
      assert b[n - 1] == CountIn(rows, m, lo, hi);
      CountSplit(rows, m, start, lo, hi);
    }
  }

  /** The next edge is one width further on. */
  lemma EdgeNext(start: real, diff: real, k: nat)
    ensures Edge(start, diff, k) + diff == Edge(start, diff, k + 1)
  {
  }

  /** Later edges lie no lower. */
  lemma EdgeMonotone(start: real, diff: real, a: nat, b: nat)
    requires diff >= 0.0 && a <= b
    ensures Edge(start, diff, a) <= Edge(start, diff, b)
  {
    assert (b - a) as real * diff >= 0.0;
  }

  lemma {:induction false} EmptyInterval(rows: seq<Row>, m: Metric, x: real)
    ensures CountIn(rows, m, x, x) == 0
  {
    if rows != [] {
      EmptyInterval(rows[1..], m, x);
    }
  }

  /** However many bins a histogram has, its counts never add up to more
      rows than it was given. */
  lemma BinsSumAtMostRows(rows: seq<Row>, m: Metric, start: real, diff: real, n: nat)
    requires diff >= 0.0
    ensures Sum(BinCounts(rows, m, start, diff, n)) <= |rows|
  {
    BinsSum(rows, m, start, diff, n);
  }

  /** Each bin of a filtered subset counts no more than the same bin of the
      whole. */
  lemma SubsetBinsBelow(rows: seq<Row>, p: Row -> bool, m: Metric, start: real, diff: real, n: nat)
    ensures forall k :: 0 <= k < n ==>
      BinCounts(Filter(rows, p), m, start, diff, n)[k] <= BinCounts(rows, m, start, diff, n)[k]
  {
    forall k | 0 <= k < n
      ensures BinCounts(Filter(rows, p), m, start, diff, n)[k] <= BinCounts(rows, m, start, diff, n)[k]
    {
      CountSubset(rows, p, m, Edge(start, diff, k), Edge(start, diff, k) + diff);
    }
  }

  /** The largest entry of a non-empty count series (`d3.max` of the
      counts); `None` for no bins. */
  function MaxCount(s: seq<nat>): (r: Option<nat>)
    ensures r.None? <==> s == []
    ensures r.Some? ==> forall i :: 0 <= i < |s| ==> s[i] <= r.value
    ensures r.Some? ==> exists i :: 0 <= i < |s| && s[i] == r.value
  {
    if s == [] then None
    else
      var rest := MaxCount(s[1..]);
      if rest.None? || s[0] >= rest.value then
        assert forall i :: 1 <= i < |s| ==> s[i] == s[1..][i - 1];
        Some(s[0])
      else
        assert forall i :: 1 <= i < |s| ==> s[i] == s[1..][i - 1];
        ghost var j :| 0 <= j < |s[1..]| && s[1..][j] == rest.value;
        assert s[j + 1] == rest.value;
        rest
  }
}
