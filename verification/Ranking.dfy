/** The concentration ranking: the support gate, the Wilson bound of every site, and the descending order. */
module Ranking {
  import opened Attribution
  import Wilson

  const MIN_ACCESS_SAMPLES: nat := 30
  const Z95: real := 1.96

  datatype Ranked = Ranked(site: SourceLoc, m: nat, n: nat, concentration: real, wilson: real)

  /** The square root the code calls. */
  ghost predicate IsSqrtFunction(sqrt: real -> real) {
    forall x: real :: x >= 0.0 ==> Wilson.IsSqrt(sqrt(x), x)
  }

  /** The bound of `m` misses in `n` accesses, before the period scale. */
  function WilsonOf(sqrt: real -> real): (nat, nat) -> real {
    (m: nat, n: nat) =>
      if n == 0 then 0.0
      else
        Wilson.LowerBound(m as real, n as real, Z95,
                          sqrt(Wilson.Max(0.0, Wilson.RawVariance(m as real, n as real, Z95))))
  }

  /** What is recorded for a site with enough access samples. */
  function Entry(site: SourceLoc, miss: map<SourceLoc, nat>, access: map<SourceLoc, nat>, scale: real,
                 bound: (nat, nat) -> real): Ranked
    requires LineCount(access, site) > 0
  {
    var m, n := LineCount(miss, site), LineCount(access, site);
    Ranked(site, m, n, m as real / n as real * scale, bound(m, n) * scale)
  }

  predicate Supported(site: SourceLoc, access: map<SourceLoc, nat>) {
    LineCount(access, site) >= 30
  }

  ghost predicate Descending(s: seq<Ranked>) {
    forall i, j :: 0 <= i < j < |s| ==> s[i].wilson >= s[j].wilson
  }

  /** Every entry is the one of its site, and a site has one entry when it is in `sites` with support, else none. */
  ghost predicate Lists(ranked: seq<Ranked>, sites: set<SourceLoc>, miss: map<SourceLoc, nat>,
                        access: map<SourceLoc, nat>, scale: real, bound: (nat, nat) -> real)
  {
    && (forall e :: e in ranked ==> Supported(e.site, access) && e == Entry(e.site, miss, access, scale, bound))
    && (forall site :: Supported(site, access) ==>
         multiset(ranked)[Entry(site, miss, access, scale, bound)] == if site in sites then 1 else 0)
  }

  ghost predicate Excludes(insufficient: seq<SourceLoc>, sites: set<SourceLoc>, access: map<SourceLoc, nat>) {
    forall site :: multiset(insufficient)[site] == if site in sites && !Supported(site, access) then 1 else 0
  }

  // ------------------------------------------------------------------ the pass

  lemma Inserted<T>(s: seq<T>, k: nat, e: T)
    requires k <= |s|
    ensures var t := s[..k] + [e] + s[k..];
      && multiset(t) == multiset(s) + multiset{e}
      && forall i :: 0 <= i < |t| ==> t[i] == if i < k then s[i] else if i == k then e else s[i - 1]
  {
    assert s == s[..k] + s[k..];
  }

  lemma InsertDescending(s: seq<Ranked>, k: nat, e: Ranked)
    requires Descending(s) && k <= |s| && (k < |s| ==> s[k].wilson < e.wilson)
    requires forall j :: 0 <= j < k ==> s[j].wilson >= e.wilson
    ensures Descending(s[..k] + [e] + s[k..]) && multiset(s[..k] + [e] + s[k..]) == multiset(s) + multiset{e}
  {
    Inserted(s, k, e);
  }

  method InsertOne(s: seq<Ranked>, e: Ranked) returns (t: seq<Ranked>)
    requires Descending(s)
    ensures Descending(t) && multiset(t) == multiset(s) + multiset{e} && |t| == |s| + 1
  {
    var k := 0;
    while k < |s| && s[k].wilson >= e.wilson
      invariant 0 <= k <= |s|
      invariant forall j :: 0 <= j < k ==> s[j].wilson >= e.wilson
    {
      k := k + 1;
    }
    InsertDescending(s, k, e);
    t := s[..k] + [e] + s[k..];
  }

  /** `std::sort` with the comparator of the code. */
  method SortDescending(entries: seq<Ranked>) returns (sorted: seq<Ranked>)
    ensures multiset(sorted) == multiset(entries) && |sorted| == |entries| && Descending(sorted)
  {
    sorted := [];
    for i := 0 to |entries|
      invariant multiset(sorted) == multiset(entries[..i]) && |sorted| == i && Descending(sorted)
    {
      assert entries[..i + 1] == entries[..i] + [entries[i]];
      sorted := InsertOne(sorted, entries[i]);
    }
    assert entries[..|entries|] == entries;
  }

  /** One turn of the loop over the sites. */
  lemma ListsOne(ranked: seq<Ranked>, sites: set<SourceLoc>, site: SourceLoc, miss: map<SourceLoc, nat>,
                 access: map<SourceLoc, nat>, scale: real, bound: (nat, nat) -> real)
    requires site !in sites && Lists(ranked, sites, miss, access, scale, bound)
    ensures Supported(site, access) ==>
      Lists(ranked + [Entry(site, miss, access, scale, bound)], sites + {site}, miss, access, scale, bound)
    ensures !Supported(site, access) ==> Lists(ranked, sites + {site}, miss, access, scale, bound)
  {
    if Supported(site, access) {
      var e := Entry(site, miss, access, scale, bound);
      assert forall e' :: e' in ranked + [e] <==> e' in ranked || e' == e;
    }
  }

  lemma SortedLists(ranked: seq<Ranked>, sorted: seq<Ranked>, sites: set<SourceLoc>, miss: map<SourceLoc, nat>,
                    access: map<SourceLoc, nat>, scale: real, bound: (nat, nat) -> real)
    requires multiset(sorted) == multiset(ranked) && Lists(ranked, sites, miss, access, scale, bound)
    ensures Lists(sorted, sites, miss, access, scale, bound)
  {
    assert forall e :: e in sorted <==> e in multiset(sorted);
    assert forall e :: e in ranked <==> e in multiset(ranked);
  }

  /** The support gate, for a site not placed yet. */
  method Place(site: SourceLoc, ranked: seq<Ranked>, insufficient: seq<SourceLoc>, ghost sites: set<SourceLoc>,
               miss: map<SourceLoc, nat>, access: map<SourceLoc, nat>, scale: real, bound: (nat, nat) -> real)
    returns (ranked': seq<Ranked>, insufficient': seq<SourceLoc>)
    requires site !in sites && Lists(ranked, sites, miss, access, scale, bound) && Excludes(insufficient, sites, access)
    ensures Lists(ranked', sites + {site}, miss, access, scale, bound)
    ensures Excludes(insufficient', sites + {site}, access)
    ensures |ranked'| + |insufficient'| == |ranked| + |insufficient| + 1
  {
    ListsOne(ranked, sites, site, miss, access, scale, bound);
    if LineCount(access, site) < MIN_ACCESS_SAMPLES {
      ranked', insufficient' := ranked, insufficient + [site];
    } else {
      ranked', insufficient' := ranked + [Entry(site, miss, access, scale, bound)], insufficient;
    }
  }

  /**
   * Each site with a miss or an access sample ends in exactly one of the two lists, once: ranked with its own
   * counts when it has at least 30 access samples, set aside when not. The ranked list descends by the bound.
   */
  method RankBy(miss: map<SourceLoc, nat>, access: map<SourceLoc, nat>, scale: real, bound: (nat, nat) -> real)
    returns (ranked: seq<Ranked>, insufficient: seq<SourceLoc>)
    ensures Lists(ranked, miss.Keys + access.Keys, miss, access, scale, bound) && Descending(ranked)
    ensures Excludes(insufficient, miss.Keys + access.Keys, access)
    ensures |ranked| + |insufficient| == |miss.Keys + access.Keys|
  {
    ranked, insufficient := [], [];
    var all := miss.Keys + access.Keys;
    var rest := all;
    while rest != {}
      invariant rest <= all
      invariant Lists(ranked, all - rest, miss, access, scale, bound)
      invariant Excludes(insufficient, all - rest, access)
      invariant |ranked| + |insufficient| + |rest| == |all|
    {
      var site :| site in rest;
      assert all - rest + {site} == all - (rest - {site});
      ranked, insufficient := Place(site, ranked, insufficient, all - rest, miss, access, scale, bound);
      rest := rest - {site};
    }
    assert all - rest == all;
    var sorted := SortDescending(ranked);
    SortedLists(ranked, sorted, all, miss, access, scale, bound);
    ranked := sorted;
  }

  // ------------------------------------------------------------------ theorems

  /** The counts alone decide which entries are ranked: two rankings differ at most in the order of equal bounds. */
  lemma EntriesDetermined(a: seq<Ranked>, b: seq<Ranked>, sites: set<SourceLoc>, miss: map<SourceLoc, nat>,
                          access: map<SourceLoc, nat>, scale: real, bound: (nat, nat) -> real)
    requires Lists(a, sites, miss, access, scale, bound) && Lists(b, sites, miss, access, scale, bound)
    ensures multiset(a) == multiset(b)
  {
    forall e: Ranked
      ensures multiset(a)[e] == multiset(b)[e]
    {
      assert e in a <==> e in multiset(a);
      assert e in b <==> e in multiset(b);
    }
  }

  lemma EntryAt(ranked: seq<Ranked>, sites: set<SourceLoc>, miss: map<SourceLoc, nat>, access: map<SourceLoc, nat>,
                scale: real, bound: (nat, nat) -> real, i: nat)
    returns (point: real)
    requires Lists(ranked, sites, miss, access, scale, bound) && i < |ranked|
    ensures ranked[i].n > 0 && ranked[i].wilson == bound(ranked[i].m, ranked[i].n) * scale
    ensures point == ranked[i].m as real / ranked[i].n as real && ranked[i].concentration == point * scale
  {
    assert ranked[i] in ranked;
    point := ranked[i].m as real / ranked[i].n as real;
  }

  /** `w` is the Wilson bound at 95 per cent: the least rate the score test accepts, or rejects by least. */
  ghost predicate IsBound95(m: nat, n: nat, w: real)
    requires n > 0
  {
    var p, a := m as real / n as real, 1.96 * 1.96 / n as real;
    if Wilson.RejectsAll(p, a) then Wilson.IsLeastRejected(p, a, w) else Wilson.IsLeastAccepted(p, a, w)
  }

  lemma WilsonMeaning(m: nat, n: nat, sqrt: real -> real, w: real)
    requires n > 0 && IsSqrtFunction(sqrt) && w == WilsonOf(sqrt)(m, n)
    ensures IsBound95(m, n, w)
  {
    WilsonCall(m, n, sqrt);
    var root := sqrt(Wilson.Max(0.0, Wilson.RawVariance(m as real, n as real, Z95)));
    Wilson.IsScoreBound(m as real, n as real, Z95, root);
  }

  /**
   * What a ranked entry says: its site has at least 30 access samples, the counts are the site's own, and both
   * figures are scaled by the ratio of the sampling periods, from the ratio of the counts and its 95 per cent bound.
   */
  lemma EntryMeaning(ranked: seq<Ranked>, sites: set<SourceLoc>, miss: map<SourceLoc, nat>,
                     access: map<SourceLoc, nat>, scale: real, sqrt: real -> real, bound: (nat, nat) -> real, i: nat)
    returns (w: real)
    requires Lists(ranked, sites, miss, access, scale, bound) && bound == WilsonOf(sqrt) && IsSqrtFunction(sqrt)
    requires i < |ranked|
    ensures ranked[i].n == LineCount(access, ranked[i].site) >= 30 && ranked[i].m == LineCount(miss, ranked[i].site)
    ensures ranked[i].concentration == ranked[i].m as real / ranked[i].n as real * scale
    ensures ranked[i].wilson == w * scale && IsBound95(ranked[i].m, ranked[i].n, w)
  {
    hide WilsonOf, IsBound95;
    assert ranked[i] in ranked;
    w := bound(ranked[i].m, ranked[i].n);
    WilsonMeaning(ranked[i].m, ranked[i].n, sqrt, w);
  }

  lemma WilsonCall(m: nat, n: nat, sqrt: real -> real)
    requires n > 0 && IsSqrtFunction(sqrt)
    ensures Wilson.ValidCall(m as real, n as real, Z95,
                             sqrt(Wilson.Max(0.0, Wilson.RawVariance(m as real, n as real, Z95))))
  {
    var x := Wilson.Max(0.0, Wilson.RawVariance(m as real, n as real, Z95));
    assert Wilson.IsSqrt(sqrt(x), x);
  }

  /** No ranked value exceeds the point estimate, and none is negative, even for more misses than accesses. */
  lemma NeverOverclaims(ranked: seq<Ranked>, sites: set<SourceLoc>, miss: map<SourceLoc, nat>,
                        access: map<SourceLoc, nat>, scale: real, sqrt: real -> real, bound: (nat, nat) -> real, i: nat)
    requires Lists(ranked, sites, miss, access, scale, bound) && bound == WilsonOf(sqrt) && IsSqrtFunction(sqrt)
    requires scale > 0.0 && i < |ranked|
    ensures 0.0 <= ranked[i].wilson <= ranked[i].concentration
  {
    var e := ranked[i];
    var point := EntryAt(ranked, sites, miss, access, scale, bound, i);
    BoundsScaled(e.m, e.n, scale, sqrt, bound, point, e.wilson, e.concentration);
  }

  lemma BoundInRange(m: nat, n: nat, sqrt: real -> real, bound: (nat, nat) -> real, point: real)
    requires n > 0 && bound == WilsonOf(sqrt) && IsSqrtFunction(sqrt) && point == m as real / n as real
    ensures 0.0 <= bound(m, n) <= point
  {
    WilsonCall(m, n, sqrt);
    var root := sqrt(Wilson.Max(0.0, Wilson.RawVariance(m as real, n as real, Z95)));
    Wilson.InRange(m as real, n as real, Z95, root);
  }

  lemma BoundsScaled(m: nat, n: nat, scale: real, sqrt: real -> real, bound: (nat, nat) -> real,
                     point: real, w: real, c: real)
    requires n > 0 && scale > 0.0 && bound == WilsonOf(sqrt) && IsSqrtFunction(sqrt) && point == m as real / n as real
    requires w == bound(m, n) * scale && c == point * scale
    ensures 0.0 <= w <= c
  {
    BoundInRange(m, n, sqrt, bound, point);
    ScaleBetween(bound(m, n), point, scale, w, c);
  }

  lemma ScaleOrder(x: real, y: real, scale: real)
    requires scale > 0.0
    ensures x < y <==> x * scale < y * scale
    ensures x <= y <==> x * scale <= y * scale
  {
    Wilson.Cancel(x, y, scale);
  }

  lemma ScaleBetween(x: real, y: real, scale: real, u: real, v: real)
    requires scale > 0.0 && 0.0 <= x <= y && u == x * scale && v == y * scale
    ensures 0.0 <= u <= v
  {
    ScaleOrder(0.0, x, scale);
    ScaleOrder(x, y, scale);
  }

  lemma MoreMissesBound(m: nat, m': nat, n: nat, sqrt: real -> real, bound: (nat, nat) -> real)
    requires n > 0 && m < m' && bound == WilsonOf(sqrt) && IsSqrtFunction(sqrt)
    ensures bound(m, n) < bound(m', n)
  {
    WilsonCall(m, n, sqrt);
    WilsonCall(m', n, sqrt);
    var root := sqrt(Wilson.Max(0.0, Wilson.RawVariance(m as real, n as real, Z95)));
    var root' := sqrt(Wilson.Max(0.0, Wilson.RawVariance(m' as real, n as real, Z95)));
    Wilson.IncreasesInMisses(m as real, m' as real, n as real, Z95, root, root');
  }

  lemma MoreMissesScaled(m: nat, m': nat, n: nat, scale: real, sqrt: real -> real, bound: (nat, nat) -> real,
                         w: real, w': real)
    requires n > 0 && m < m' && scale > 0.0 && bound == WilsonOf(sqrt) && IsSqrtFunction(sqrt)
    requires w == bound(m, n) * scale && w' == bound(m', n) * scale
    ensures w < w'
  {
    MoreMissesBound(m, m', n, sqrt, bound);
    ScaleOrder(bound(m, n), bound(m', n), scale);
  }

  lemma MoreEvidenceBound(m: nat, n: nat, k: nat, sqrt: real -> real, bound: (nat, nat) -> real)
    requires n > 0 && k > 0 && bound == WilsonOf(sqrt) && IsSqrtFunction(sqrt)
    ensures k * n > 0 && bound(m, n) <= bound(k * m, k * n)
  {
    var m', n' := k * m, k * n;
    assert n' > 0;
    WilsonCall(m, n, sqrt);
    WilsonCall(m', n', sqrt);
    var root := sqrt(Wilson.Max(0.0, Wilson.RawVariance(m as real, n as real, Z95)));
    var root' := sqrt(Wilson.Max(0.0, Wilson.RawVariance(m' as real, n' as real, Z95)));
    Wilson.MoreEvidence(m as real, n as real, k as real, m' as real, n' as real, Z95, root, root');
  }

  lemma MoreMissesAbove(ranked: seq<Ranked>, sites: set<SourceLoc>, miss: map<SourceLoc, nat>,
                        access: map<SourceLoc, nat>, scale: real, sqrt: real -> real, bound: (nat, nat) -> real,
                        i: nat, j: nat)
    requires Lists(ranked, sites, miss, access, scale, bound) && bound == WilsonOf(sqrt) && IsSqrtFunction(sqrt)
    requires scale > 0.0 && i < |ranked| && j < |ranked|
    requires ranked[i].n == ranked[j].n && ranked[i].m > ranked[j].m
    ensures ranked[i].wilson > ranked[j].wilson
  {
    var e, e' := ranked[i], ranked[j];
    var _ := EntryAt(ranked, sites, miss, access, scale, bound, i);
    var _ := EntryAt(ranked, sites, miss, access, scale, bound, j);
    MoreMissesScaled(e'.m, e.m, e.n, scale, sqrt, bound, e'.wilson, e.wilson);
  }

  /** Of two ranked sites with equally many accesses, the one with more misses comes first. */
  lemma MoreMissesFirst(ranked: seq<Ranked>, sites: set<SourceLoc>, miss: map<SourceLoc, nat>,
                        access: map<SourceLoc, nat>, scale: real, sqrt: real -> real, bound: (nat, nat) -> real,
                        i: nat, j: nat)
    requires Lists(ranked, sites, miss, access, scale, bound) && bound == WilsonOf(sqrt) && IsSqrtFunction(sqrt)
    requires Descending(ranked)
    requires scale > 0.0 && i < |ranked| && j < |ranked|
    requires ranked[i].n == ranked[j].n && ranked[i].m > ranked[j].m
    ensures i < j
  {
    MoreMissesAbove(ranked, sites, miss, access, scale, sqrt, bound, i, j);
  }

  /** With the same ratio, a site seen `k` times as often is never ranked strictly below. */
  lemma MoreEvidenceNotBelow(ranked: seq<Ranked>, sites: set<SourceLoc>, miss: map<SourceLoc, nat>,
                             access: map<SourceLoc, nat>, scale: real, sqrt: real -> real, bound: (nat, nat) -> real,
                             i: nat, j: nat, k: nat)
    requires Lists(ranked, sites, miss, access, scale, bound) && bound == WilsonOf(sqrt) && IsSqrtFunction(sqrt)
    requires scale > 0.0 && k > 0 && i < |ranked| && j < |ranked|
    requires ranked[i].m == k * ranked[j].m && ranked[i].n == k * ranked[j].n
    ensures ranked[i].wilson >= ranked[j].wilson
  {
    var e, e' := ranked[i], ranked[j];
    var _ := EntryAt(ranked, sites, miss, access, scale, bound, i);
    var _ := EntryAt(ranked, sites, miss, access, scale, bound, j);
    MoreEvidenceBound(e'.m, e'.n, k, sqrt, bound);
    ScaleOrder(bound(e'.m, e'.n), bound(e.m, e.n), scale);
  }

  /**
   * The sampling periods never change the order: if one site's bound is strictly above another's at one period
   * scale, it comes before the other in the ranking at any scale.
   */
  lemma ScaleKeepsOrder(a: seq<Ranked>, b: seq<Ranked>, sites: set<SourceLoc>, miss: map<SourceLoc, nat>,
                        access: map<SourceLoc, nat>, scale: real, scale': real, bound: (nat, nat) -> real,
                        i: nat, j: nat, k: nat, l: nat)
    requires scale > 0.0 && scale' > 0.0
    requires Lists(a, sites, miss, access, scale, bound)
    requires Lists(b, sites, miss, access, scale', bound) && Descending(b)
    requires i < |a| && j < |a| && k < |b| && l < |b|
    requires a[i].site == b[k].site && a[j].site == b[l].site && a[i].wilson > a[j].wilson
    ensures k < l
  {
    var _ := EntryAt(a, sites, miss, access, scale, bound, i);
    var _ := EntryAt(a, sites, miss, access, scale, bound, j);
    var _ := EntryAt(b, sites, miss, access, scale', bound, k);
    var _ := EntryAt(b, sites, miss, access, scale', bound, l);
    SameCounts(a, b, sites, miss, access, scale, scale', bound, i, k);
    SameCounts(a, b, sites, miss, access, scale, scale', bound, j, l);
    Rescale(bound(a[j].m, a[j].n), bound(a[i].m, a[i].n), scale, scale',
            a[j].wilson, a[i].wilson, b[l].wilson, b[k].wilson);
  }

  lemma SameCounts(a: seq<Ranked>, b: seq<Ranked>, sites: set<SourceLoc>, miss: map<SourceLoc, nat>,
                   access: map<SourceLoc, nat>, scale: real, scale': real, bound: (nat, nat) -> real, i: nat, k: nat)
    requires Lists(a, sites, miss, access, scale, bound) && Lists(b, sites, miss, access, scale', bound)
    requires i < |a| && k < |b| && a[i].site == b[k].site
    ensures a[i].m == b[k].m && a[i].n == b[k].n
  {
    assert a[i] in a && b[k] in b;
  }

  lemma Rescale(x: real, y: real, scale: real, scale': real, u: real, v: real, u': real, v': real)
    requires scale > 0.0 && scale' > 0.0
    requires u == x * scale && v == y * scale && u' == x * scale' && v' == y * scale' && u < v
    ensures u' < v'
  {
    ScaleOrder(x, y, scale);
    ScaleOrder(x, y, scale');
  }
}
