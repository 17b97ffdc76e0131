/** What the memoised attribution conserves, and why its input's order and split over rings do not matter. */
module AttributionTheorems {
  import opened PerfRecord
  import opened Attribution
  import opened Counting

  // ------------------------------------------------------------ sums over a map

  ghost function Total<K(!new)>(m: map<K, nat>): nat {
    if m == map[] then 0 else var k :| k in m; m[k] + Total(m - {k})
  }

  /** Any key may be taken out first. */
  lemma {:induction false} TotalMinus<K(!new)>(m: map<K, nat>, k: K)
    requires k in m
    ensures Total(m) == m[k] + Total(m - {k})
    decreases |m|
  {
    var first :| first in m && Total(m) == m[first] + Total(m - {first});
    if first != k {
      TotalMinus(m - {first}, k);
      TotalMinus(m - {k}, first);
      assert m - {first} - {k} == m - {k} - {first};
    }
  }

  lemma TotalBump<K(!new)>(m: map<K, nat>, k: K)
    ensures Total(m[k := (if k in m then m[k] else 0) + 1]) == Total(m) + 1
  {
    var m' := m[k := (if k in m then m[k] else 0) + 1];
    TotalMinus(m', k);
    if k in m {
      TotalMinus(m, k);
      assert m' - {k} == m - {k};
    } else {
      assert m' - {k} == m;
    }
  }

  // --------------------------------------------------------------- conservation

  lemma {:induction false} BucketsPartition(samples: seq<Sample>, target: TextRange)
    ensures Count(samples, InText(target)) + Count(samples, InOtherUser(target))
          + Count(samples, InKernel()) + Count(samples, InNeitherHalf()) == |samples|
  {
    if samples != [] {
      BucketsPartition(samples[..|samples| - 1], target);
    }
  }

  lemma {:induction false} TargetSplits(samples: seq<Sample>, target: TextRange, resolve: Resolver)
    ensures Count(samples, Resolved(target, resolve, true)) + Count(samples, Resolved(target, resolve, false))
         == Count(samples, InText(target))
  {
    if samples != [] {
      TargetSplits(samples[..|samples| - 1], target, resolve);
    }
  }

  /** A table of the line counts, built sample by sample without a memo. */
  lemma {:induction false} SomeLines(samples: seq<Sample>, target: TextRange, resolve: Resolver)
    returns (lines: map<SourceLoc, nat>)
    ensures LinesRight(samples, target, resolve, lines)
    ensures Total(lines) == Count(samples, Resolved(target, resolve, true))
  {
    if samples == [] {
      lines := map[];
    } else {
      var before, s := samples[..|samples| - 1], samples[|samples| - 1];
      assert samples == before + [s];
      lines := SomeLines(before, target, resolve);
      CountOne(before, s, Resolved(target, resolve, true));
      if TextAddress(s.ip, target) && resolve(s.ip).Some? {
        LinesHit(before, s, target, resolve, lines, resolve(s.ip).value);
        TotalBump(lines, resolve(s.ip).value);
        lines := lines[resolve(s.ip).value := LineCount(lines, resolve(s.ip).value) + 1];
      } else {
        LinesMiss(before, s, target, resolve, lines);
      }
    }
  }

  lemma LinesDetermined(samples: seq<Sample>, target: TextRange, resolve: Resolver,
                        a: map<SourceLoc, nat>, b: map<SourceLoc, nat>)
    requires LinesRight(samples, target, resolve, a) && LinesRight(samples, target, resolve, b)
    ensures a == b
  {
    forall loc
      ensures loc in a <==> loc in b
      ensures loc in a ==> a[loc] == b[loc]
    {
      assert LineCount(a, loc) == LineCount(b, loc);
    }
  }

  /**
   * No sample is lost or counted twice: the buckets add up to all samples, resolved and unresolved to the target
   * bucket, and the line counts to the resolved ones.
   */
  lemma Conservation(samples: seq<Sample>, target: TextRange, resolve: Resolver, r: Result)
    requires Attributes(samples, target, resolve, r)
    ensures r.bucketCount[0] + r.bucketCount[1] + r.bucketCount[2] + r.bucketCount[3] == |samples|
    ensures r.attributed + r.unattributed == r.bucketCount[0]
    ensures Total(r.lineCounts) == r.attributed
  {
    BucketsPartition(samples, target);
    TargetSplits(samples, target, resolve);
    var lines := SomeLines(samples, target, resolve);
    LinesDetermined(samples, target, resolve, lines, r.lineCounts);
  }

  // ------------------------------------------------------------ order of samples

  lemma IpsByMultiset(a: seq<Sample>, b: seq<Sample>)
    requires multiset(a) == multiset(b)
    ensures Ips(a) == Ips(b) && (a == [] <==> b == [])
  {
    assert forall s :: s in a <==> s in multiset(a);
    assert forall s :: s in b <==> s in multiset(b);
    assert |multiset(a)| == |a| && |multiset(b)| == |b|;
  }

  lemma SameEmpty(a: seq<nat>, b: seq<nat>)
    requires forall x :: x in a <==> x in b
    ensures a == [] <==> b == []
  {
    if a != [] {
      assert a[0] in b;
    }
    if b != [] {
      assert b[0] in a;
    }
  }

  lemma {:induction false} StrictlySortedUnique(a: seq<nat>, b: seq<nat>)
    requires StrictlySorted(a) && StrictlySorted(b)
    requires forall x :: x in a <==> x in b
    ensures a == b
  {
    SameEmpty(a, b);
    if a != [] {
      LastIsGreatest(a, b);
      WithoutLast(a);
      WithoutLast(b);
      StrictlySortedUnique(a[..|a| - 1], b[..|b| - 1]);
    }
  }

  lemma WithoutLast(a: seq<nat>)
    requires a != [] && StrictlySorted(a)
    ensures var init := a[..|a| - 1];
      a == init + [a[|a| - 1]] && StrictlySorted(init) && forall x :: x in init <==> x in a && x != a[|a| - 1]
  {
    var init := a[..|a| - 1];
    assert a == init + [a[|a| - 1]];
    assert forall x :: x in a <==> x in init || x == a[|a| - 1];
  }

  lemma LastIsGreatest(a: seq<nat>, b: seq<nat>)
    requires a != [] && b != [] && StrictlySorted(a) && StrictlySorted(b)
    requires forall x :: x in a <==> x in b
    ensures a[|a| - 1] == b[|b| - 1]
  {
    assert a[|a| - 1] in b && b[|b| - 1] in a;
  }

  lemma CountsByMultiset(a: seq<Sample>, b: seq<Sample>, target: TextRange, resolve: Resolver, r: Result)
    requires multiset(a) == multiset(b)
    requires BucketsRight(b, target, r.bucketCount) && LinesRight(b, target, resolve, r.lineCounts)
    requires TotalsRight(b, target, resolve, r.attributed, r.unattributed)
    ensures BucketsRight(a, target, r.bucketCount) && LinesRight(a, target, resolve, r.lineCounts)
    ensures TotalsRight(a, target, resolve, r.attributed, r.unattributed)
  {
    CountByMultiset(a, b, InText(target));
    CountByMultiset(a, b, InOtherUser(target));
    CountByMultiset(a, b, InKernel());
    CountByMultiset(a, b, InNeitherHalf());
    forall loc
      ensures Count(a, AtLine(target, resolve, loc)) == Count(b, AtLine(target, resolve, loc))
    {
      CountByMultiset(a, b, AtLine(target, resolve, loc));
    }
    CountByMultiset(a, b, Resolved(target, resolve, true));
    CountByMultiset(a, b, Resolved(target, resolve, false));
  }

  /** The same samples in another order are attributed alike. */
  lemma AttributesByMultiset(a: seq<Sample>, b: seq<Sample>, target: TextRange, resolve: Resolver, r: Result)
    requires multiset(a) == multiset(b) && Attributes(b, target, resolve, r)
    ensures Attributes(a, target, resolve, r)
  {
    CountsByMultiset(a, b, target, resolve, r);
    IpsByMultiset(a, b);
  }

  lemma BucketsDetermined(samples: seq<Sample>, target: TextRange, a: seq<nat>, b: seq<nat>)
    requires BucketsRight(samples, target, a) && BucketsRight(samples, target, b)
    ensures a == b
  {
    assert a == [a[0], a[1], a[2], a[3]] && b == [b[0], b[1], b[2], b[3]];
  }

  lemma MemoDetermined(samples: seq<Sample>, target: TextRange, resolve: Resolver,
                       ok: map<nat, bool>, locs: map<nat, SourceLoc>, ok': map<nat, bool>, locs': map<nat, SourceLoc>)
    requires MemoRight(samples, target, resolve, ok, locs) && MemoRight(samples, target, resolve, ok', locs')
    ensures ok == ok' && locs == locs'
  {
    assert forall ip :: ip in locs ==> ip in locs' && Some(locs[ip]) == Some(locs'[ip]);
  }

  /**
   * The report is a function of the collection of samples: every field, the memo table included, is the same
   * in whatever order the samples come.
   */
  lemma OrderIrrelevant(a: seq<Sample>, b: seq<Sample>, target: TextRange, resolve: Resolver, r: Result, r': Result)
    requires multiset(a) == multiset(b)
    requires Attributes(a, target, resolve, r) && Attributes(b, target, resolve, r')
    ensures r == r'
  {
    AttributesByMultiset(a, b, target, resolve, r');
    BucketsDetermined(a, target, r.bucketCount, r'.bucketCount);
    LinesDetermined(a, target, resolve, r.lineCounts, r'.lineCounts);
    MemoDetermined(a, target, resolve, r.resolveOk, r.resolveLoc, r'.resolveOk, r'.resolveLoc);
    StrictlySortedUnique(r.kernelIps, r'.kernelIps);
    assert r.ipLo == r'.ipLo && r.ipHi == r'.ipHi;
  }

  // ------------------------------------------------------------ one ring per CPU

  /** The samples of all rings, one after the other. */
  function Combined(rings: seq<seq<Sample>>): seq<Sample> {
    if rings == [] then [] else Combined(rings[..|rings| - 1]) + rings[|rings| - 1]
  }

  function SumAt(results: seq<Result>, field: Result -> nat): nat {
    if results == [] then 0 else SumAt(results[..|results| - 1], field) + field(results[|results| - 1])
  }

  function LineField(loc: SourceLoc): Result -> nat {
    (r: Result) => LineCount(r.lineCounts, loc)
  }

  function BucketField(c: nat): Result -> nat {
    (r: Result) => if c < |r.bucketCount| then r.bucketCount[c] else 0
  }

  /** A field that counts samples adds up over the rings. */
  lemma {:induction false} CountsAddUp(rings: seq<seq<Sample>>, results: seq<Result>, field: Result -> nat,
                                       wanted: Sample -> bool)
    requires |rings| == |results|
    requires forall i :: 0 <= i < |rings| ==> field(results[i]) == Count(rings[i], wanted)
    ensures SumAt(results, field) == Count(Combined(rings), wanted)
  {
    if rings != [] {
      var n := |rings| - 1;
      CountsAddUp(rings[..n], results[..n], field, wanted);
      CountConcat(Combined(rings[..n]), rings[n], wanted);
    }
  }

  lemma BucketsAddUp(rings: seq<seq<Sample>>, results: seq<Result>, target: TextRange, whole: Result)
    requires |rings| == |results|
    requires forall i :: 0 <= i < |rings| ==> BucketsRight(rings[i], target, results[i].bucketCount)
    requires BucketsRight(Combined(rings), target, whole.bucketCount)
    ensures forall c :: 0 <= c < 4 ==> whole.bucketCount[c] == SumAt(results, BucketField(c))
  {
    hide SumAt, Combined, Count;
    CountsAddUp(rings, results, BucketField(0), InText(target));
    CountsAddUp(rings, results, BucketField(1), InOtherUser(target));
    CountsAddUp(rings, results, BucketField(2), InKernel());
    CountsAddUp(rings, results, BucketField(3), InNeitherHalf());
  }

  /** Attributing the combined samples gives the pointwise sums of what each ring alone gives. */
  lemma RingsAddUp(rings: seq<seq<Sample>>, results: seq<Result>, target: TextRange, resolve: Resolver, whole: Result)
    requires |rings| == |results|
    requires forall i :: 0 <= i < |rings| ==> Attributes(rings[i], target, resolve, results[i])
    requires Attributes(Combined(rings), target, resolve, whole)
    ensures forall loc :: LineCount(whole.lineCounts, loc) == SumAt(results, LineField(loc))
    ensures forall c :: 0 <= c < 4 ==> whole.bucketCount[c] == SumAt(results, BucketField(c))
    ensures whole.attributed == SumAt(results, (r: Result) => r.attributed)
    ensures whole.unattributed == SumAt(results, (r: Result) => r.unattributed)
  {
    hide SumAt, Combined, Count, BucketsRight, MemoRight, BoundsRight, KernelRight;
    forall loc
      ensures LineCount(whole.lineCounts, loc) == SumAt(results, LineField(loc))
    {
      CountsAddUp(rings, results, LineField(loc), AtLine(target, resolve, loc));
    }
    BucketsAddUp(rings, results, target, whole);
    CountsAddUp(rings, results, (r: Result) => r.attributed, Resolved(target, resolve, true));
    CountsAddUp(rings, results, (r: Result) => r.unattributed, Resolved(target, resolve, false));
  }
}
