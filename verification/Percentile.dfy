/** The nearest-rank percentile of the evaluation report, over exact rationals. */
module Percentile {
  import opened Sequences
  import opened Sorting

  predicate Less(a: real, b: real) {
    a < b
  }

  /** The smallest whole number that is at least `p` percent of `n`. */
  function NearestRank(p: nat, n: nat): (r: nat)
    ensures 100 * (r as int - 1) < p * n <= 100 * r
  {
    (p * n + 99) / 100
  }

  /** The position of that rank, counted from zero and kept inside the list. */
  function Index(p: nat, n: nat): (i: nat)
    requires n > 0
    ensures i < n
  {
    var rank := NearestRank(p, n);
    if rank == 0 then 0 else if rank > n then n - 1 else rank - 1
  }

  function Percentile(values: seq<real>, p: nat): real {
    var sorted := Sort(values, Less);
    if sorted == [] then 0.0 else sorted[Index(p, |sorted|)]
  }

  function Max(values: seq<real>): (m: real)
    requires values != []
    ensures m in values && forall v <- values :: v <= m
  {
    if |values| == 1 then values[0]
    else
      var front, last := Max(values[..|values| - 1]), values[|values| - 1];
      assert forall v :: v in values <==> v in values[..|values| - 1] || v == last;
      if front < last then last else front
  }

  lemma SortedValues(values: seq<real>)
    ensures var s := Sort(values, Less);
      multiset(s) == multiset(values) && |s| == |values| && forall i, j :: 0 <= i <= j < |s| ==> s[i] <= s[j]
  {
    SortContents(values, Less);
    SortSorts(values, Less);
  }

  lemma {:induction false} FilterAll<A(!new)>(p: A -> bool, s: seq<A>)
    requires forall x :: x in s ==> p(x)
    ensures Filter(p, s) == s
  {
    if s != [] {
      FilterAll(p, s[..|s| - 1]);
    }
  }

  /** A filter that a stretch of the sequence passes keeps at least that many elements. */
  lemma FilterStretch<A(!new)>(p: A -> bool, s: seq<A>, lo: nat, hi: nat)
    requires lo <= hi <= |s| && forall i :: lo <= i < hi ==> p(s[i])
    ensures |Filter(p, s)| >= hi - lo
  {
    assert s == s[..lo] + s[lo..hi] + s[hi..];
    FilterAppend(p, s[..lo] + s[lo..hi], s[hi..]);
    FilterAppend(p, s[..lo], s[lo..hi]);
    FilterAll(p, s[lo..hi]);
  }

  /**
   The percentile is one of the values; at least `ceil(p n / 100)` values are not above it, and
   at least `n + 1 - max(ceil(p n / 100), 1)` are not below it.
   */
  lemma PercentileIsNearestRank(values: seq<real>, p: nat)
    requires values != [] && p <= 100
    ensures var v := Percentile(values, p);
      && v in values
      && |Filter((x: real) => x <= v, values)| >= NearestRank(p, |values|)
      && |Filter((x: real) => x >= v, values)|
         + (if NearestRank(p, |values|) > 1 then NearestRank(p, |values|) else 1) >= |values| + 1
  {
    var s, n, v := Sort(values, Less), |values|, Percentile(values, p);
    SortedValues(values);
    RankFits(p, n);
    var i := Index(p, n);
    assert v == s[i] && s[i] in multiset(s);
    FilterStretch((x: real) => x <= v, s, 0, i + 1);
    FilterStretch((x: real) => x >= v, s, i, n);
    FilterSize((x: real) => x <= v, s, values);
    FilterSize((x: real) => x >= v, s, values);
  }

  lemma RankFits(p: nat, n: nat)
    requires p <= 100
    ensures NearestRank(p, n) <= n
  {
  }

  lemma PercentileIsMonotone(values: seq<real>, p: nat, q: nat)
    requires p <= q
    ensures Percentile(values, p) <= Percentile(values, q)
  {
    SortedValues(values);
    if values != [] {
      RankIsMonotone(p, q, |values|);
    }
  }

  lemma RankIsMonotone(p: nat, q: nat, n: nat)
    requires p <= q
    ensures NearestRank(p, n) <= NearestRank(q, n)
  {
    assert p * n <= q * n;
  }

  /** The three latency figures of a report are ordered. */
  lemma MedianTailMax(values: seq<real>)
    requires values != []
    ensures Percentile(values, 50) <= Percentile(values, 95) <= Max(values)
  {
    PercentileIsMonotone(values, 50, 95);
    PercentileIsNearestRank(values, 95);
  }
}
