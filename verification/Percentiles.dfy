/** `compute_percentiles`: sort the latencies in place and read off order statistics. */
module Percentiles {
  import opened Counting

  datatype Percentiles = Percentiles(p50: int, p99: int, p999: int, p9999: int, max: int)

  ghost predicate Sorted(s: seq<int>) {
    forall i, j :: 0 <= i < j < |s| ==> s[i] <= s[j]
  }

  function Below(bound: int): int -> bool {
    (v: int) => v < bound
  }

  /** How many entries are smaller than `bound`. */
  function CountBelow(s: seq<int>, bound: int): nat {
    Count(s, Below(bound))
  }

  /** The index a quantile `q` selects among `n` sorted values. */
  function Index(q: real, n: nat): (k: nat)
    requires n > 0 && q >= 0.0
    ensures k < n
  {
    var k := (q * n as real).Floor;
    if k < 0 then 0 else if k < n then k else n - 1
  }

  lemma FewBelow(s: seq<int>, k: nat)
    requires Sorted(s) && k < |s|
    ensures CountBelow(s, s[k]) <= k
  {
    var lo, hi := s[..k], s[k..];
    assert s == lo + hi;
    CountConcat(lo, hi, Below(s[k]));
    CountNone(hi, Below(s[k]));
    CountMonotone(lo, Below(s[k]), Below(s[k]));
  }

  lemma ManyNotAbove(s: seq<int>, k: nat)
    requires Sorted(s) && k < |s|
    ensures k < CountBelow(s, s[k] + 1)
  {
    var lo, hi := s[..k + 1], s[k + 1..];
    assert s == lo + hi;
    CountConcat(lo, hi, Below(s[k] + 1));
    CountAll(lo, Below(s[k] + 1));
  }

  /** `v` is the order statistic number `k` of `s`, in whatever order `s` lists its values. */
  ghost predicate IsRank(s: seq<int>, k: nat, v: int) {
    CountBelow(s, v) <= k < CountBelow(s, v + 1)
  }

  /** A rank has one value, and higher ranks have values at least as high. */
  lemma RankDetermines(s: seq<int>, j: nat, v: int, k: nat, w: int)
    requires IsRank(s, j, v) && IsRank(s, k, w) && j <= k
    ensures v <= w && (j == k ==> v == w)
  {
    if w < v {
      CountMonotone(s, Below(w + 1), Below(v));
    } else if j == k && v < w {
      CountMonotone(s, Below(v + 1), Below(w));
    }
  }

  /** `v` is the `q`-quantile of `s`: at most `q` times all entries lie below it, and more are not above it. */
  ghost predicate IsQuantile(s: seq<int>, q: real, v: int) {
    CountBelow(s, v) as real <= q * |s| as real < CountBelow(s, v + 1) as real
  }

  /** The rank the code reads off for `q` gives the quantile, for every `q` in 0..1. */
  lemma RankIsQuantile(s: seq<int>, q: real, v: int)
    requires s != [] && 0.0 <= q < 1.0 && IsRank(s, Index(q, |s|), v)
    ensures IsQuantile(s, q, v)
  {
    hide CountBelow;
    var x := q * |s| as real;
    ScaleMonotone(0.0, q, |s| as real);
    assert (1.0 - q) * |s| as real > 0.0;
    assert x < |s| as real;
    assert Index(q, |s|) == x.Floor;
    assert x < (x.Floor + 1) as real;
  }

  lemma FloorMonotone(x: real, y: real)
    requires x <= y
    ensures x.Floor <= y.Floor
  {
  }

  lemma ScaleMonotone(p: real, q: real, n: real)
    requires p <= q && n >= 0.0
    ensures p * n <= q * n
  {
    assert q * n - p * n == (q - p) * n;
  }

  lemma IndexMonotone(p: real, q: real, n: nat)
    requires n > 0 && 0.0 <= p <= q
    ensures Index(p, n) <= Index(q, n)
  {
    ScaleMonotone(p, q, n as real);
    FloorMonotone(p * n as real, q * n as real);
  }

  method SwapDown(a: array<int>, j: nat)
    requires 0 < j < a.Length
    modifies a
    ensures a[j - 1] == old(a[j]) && a[j] == old(a[j - 1])
    ensures forall i :: 0 <= i < a.Length && i != j && i != j - 1 ==> a[i] == old(a[i])
    ensures multiset(a[..]) == multiset(old(a[..]))
  {
    a[j - 1], a[j] := a[j], a[j - 1];
  }

  /** Moves entry `n` down to its place among the sorted entries before it. */
  method InsertDown(a: array<int>, n: nat)
    requires n < a.Length
    requires forall i, k :: 0 <= i < k < n ==> a[i] <= a[k]
    modifies a
    ensures forall i, k :: 0 <= i < k <= n ==> a[i] <= a[k]
    ensures multiset(a[..]) == multiset(old(a[..]))
  {
    var j := n;
    while j > 0 && a[j - 1] > a[j]
      invariant 0 <= j <= n
      invariant forall i, k :: 0 <= i < k <= n && k != j ==> a[i] <= a[k]
      invariant multiset(a[..]) == multiset(old(a[..]))
    {
      SwapDown(a, j);
      j := j - 1;
    }
  }

  /** Stands in for the library sort: any in-place sort has this contract. */
  method Sort(a: array<int>)
    modifies a
    ensures Sorted(a[..]) && multiset(a[..]) == multiset(old(a[..]))
  {
    for n := 0 to a.Length
      invariant forall i, k :: 0 <= i < k < n ==> a[i] <= a[k]
      invariant multiset(a[..]) == multiset(old(a[..]))
    {
      InsertDown(a, n);
    }
  }

  /**
   * Each reported value is the order statistic its quantile asks for among the latencies as they were recorded,
   * and the five values are ordered.
   */
  method ComputePercentiles(latencies: array<int>) returns (p: Percentiles)
    requires latencies.Length > 0
    modifies latencies
    ensures Sorted(latencies[..]) && multiset(latencies[..]) == multiset(old(latencies[..]))
    ensures IsRank(old(latencies[..]), Index(0.50, latencies.Length), p.p50)
    ensures IsRank(old(latencies[..]), Index(0.99, latencies.Length), p.p99)
    ensures IsRank(old(latencies[..]), Index(0.999, latencies.Length), p.p999)
    ensures IsRank(old(latencies[..]), Index(0.9999, latencies.Length), p.p9999)
    ensures IsRank(old(latencies[..]), latencies.Length - 1, p.max)
    ensures IsQuantile(old(latencies[..]), 0.50, p.p50) && IsQuantile(old(latencies[..]), 0.99, p.p99)
    ensures IsQuantile(old(latencies[..]), 0.999, p.p999) && IsQuantile(old(latencies[..]), 0.9999, p.p9999)
    ensures p.max in old(latencies[..]) && forall v :: v in old(latencies[..]) ==> v <= p.max
    ensures p.p50 <= p.p99 <= p.p999 <= p.p9999 <= p.max
  {
    hide CountBelow;
    ghost var was := latencies[..];
    Sort(latencies);
    var n := latencies.Length;
    var k50, k99, k999, k9999 := Index(0.50, n), Index(0.99, n), Index(0.999, n), Index(0.9999, n);
    p := Percentiles(latencies[k50], latencies[k99], latencies[k999], latencies[k9999], latencies[n - 1]);
    SortedRank(latencies[..], was, k50);
    SortedRank(latencies[..], was, k99);
    SortedRank(latencies[..], was, k999);
    SortedRank(latencies[..], was, k9999);
    SortedRank(latencies[..], was, n - 1);
    IndexMonotone(0.50, 0.99, n);
    IndexMonotone(0.99, 0.999, n);
    IndexMonotone(0.999, 0.9999, n);
    RankDetermines(was, k50, p.p50, k99, p.p99);
    RankDetermines(was, k99, p.p99, k999, p.p999);
    RankDetermines(was, k999, p.p999, k9999, p.p9999);
    RankDetermines(was, k9999, p.p9999, n - 1, p.max);
    RankIsQuantile(was, 0.50, p.p50);
    RankIsQuantile(was, 0.99, p.p99);
    RankIsQuantile(was, 0.999, p.p999);
    RankIsQuantile(was, 0.9999, p.p9999);
    LastIsMaximum(latencies[..], was);
  }

  lemma LastIsMaximum(s: seq<int>, was: seq<int>)
    requires Sorted(s) && multiset(s) == multiset(was) && s != []
    ensures s[|s| - 1] in was && forall v :: v in was ==> v <= s[|s| - 1]
  {
    assert s[|s| - 1] in multiset(was);
    forall v | v in was
      ensures v <= s[|s| - 1]
    {
      assert v in multiset(s);
    }
  }

  lemma SortedRank(s: seq<int>, was: seq<int>, k: nat)
    requires Sorted(s) && multiset(s) == multiset(was) && k < |s|
    ensures IsRank(was, k, s[k])
  {
    FewBelow(s, k);
    ManyNotAbove(s, k);
    CountByMultiset(s, was, Below(s[k]));
    CountByMultiset(s, was, Below(s[k] + 1));
  }
}
