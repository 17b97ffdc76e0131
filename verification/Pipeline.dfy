/** From the bytes the kernel wrote, through drain and attribution, to the ranking. */
module Pipeline {
  import opened Words
  import opened PerfRecord
  import opened RingDrain
  import Protocol = RingProtocol
  import opened Attribution
  import opened Counting
  import opened AttributionTheorems
  import opened Ranking

  /** One per-CPU ring: its buffer before the run, the position it starts from, and one interleaving. */
  datatype RingRun = RingRun(data: seq<Byte>, base: nat, schedule: seq<Protocol.Choice>)

  /** The target has exited, so the kernel writes no more, and no drain is under way: what precedes the final drain. */
  ghost predicate Quiet(run: RingRun) {
    && run.data != [] && Protocol.Admissible(run.schedule)
    && Protocol.Run(run.data, run.base, run.schedule).dataHead < TWO_64
    && Protocol.Run(run.data, run.base, run.schedule).writer.Idle?
    && Protocol.Run(run.data, run.base, run.schedule).reader.Waiting?
  }

  ghost predicate AllQuiet(runs: seq<RingRun>) {
    forall i :: 0 <= i < |runs| ==> runs[i].data != [] && Quiet(runs[i])
  }

  /** Every record the kernel published over the whole run. */
  function Published(run: RingRun): seq<Record>
    requires run.data != []
  {
    Protocol.Run(run.data, run.base, run.schedule).published
  }

  /** What the reader has after the final drain. */
  function FinalSamples(run: RingRun): seq<Sample>
    requires run.data != []
  {
    var s := Protocol.Run(run.data, run.base, run.schedule);
    match DrainFrom(s.data, s.dataHead, s.tail, s.samples, s.hist)
    case Drained(_, samples, _) => samples
    case Halted(_) => []
  }

  /** The sample vectors of all rings of one event. */
  function FinalRings(runs: seq<RingRun>): (rings: seq<seq<Sample>>)
    requires forall i :: 0 <= i < |runs| ==> runs[i].data != []
    ensures |rings| == |runs|
  {
    seq(|runs|, i requires 0 <= i < |runs| => FinalSamples(runs[i]))
  }

  /** The SAMPLE records, type 9, of a log whose address has the property. */
  function Hits(log: seq<Record>, wanted: Sample -> bool): nat {
    if log == [] then 0
    else
      var r := log[|log| - 1];
      Hits(log[..|log| - 1], wanted) +
      if r.kind == 9 && |r.body| >= 24 && wanted(DecodeSample(r.body[..24])) then 1 else 0
  }

  function AllHits(runs: seq<RingRun>, wanted: Sample -> bool): nat
    requires forall i :: 0 <= i < |runs| ==> runs[i].data != []
  {
    if runs == [] then 0 else AllHits(runs[..|runs| - 1], wanted) + Hits(Published(runs[|runs| - 1]), wanted)
  }

  lemma {:induction false} HitsAreSamples(log: seq<Record>, wanted: Sample -> bool)
    requires Readable(log)
    ensures Count(Samples(log), wanted) == Hits(log, wanted)
  {
    if log != [] {
      var init, r := log[..|log| - 1], log[|log| - 1];
      HitsAreSamples(init, wanted);
      assert HasLayout(r);
      if r.kind == PERF_RECORD_SAMPLE {
        CountOne(Samples(init), DecodeSample(r.body[..SAMPLE_BODY]), wanted);
      } else {
        assert Samples(init) + [] == Samples(init);
      }
    }
  }

  lemma FinalCount(run: RingRun, wanted: Sample -> bool)
    requires Quiet(run)
    ensures Count(FinalSamples(run), wanted) == Hits(Published(run), wanted)
  {
    Protocol.FinalDrain(run.data, run.base, run.schedule);
    HitsAreSamples(Published(run), wanted);
  }

  lemma {:induction false} CombinedCount(runs: seq<RingRun>, wanted: Sample -> bool)
    requires AllQuiet(runs)
    ensures Count(Combined(FinalRings(runs)), wanted) == AllHits(runs, wanted)
  {
    if runs != [] {
      var n := |runs| - 1;
      CombinedCount(runs[..n], wanted);
      assert FinalRings(runs)[..n] == FinalRings(runs[..n]);
      CountConcat(Combined(FinalRings(runs[..n])), FinalSamples(runs[n]), wanted);
      FinalCount(runs[n], wanted);
    }
  }

  /**
   * Over any interleavings of any number of rings: the count of each source line is the number of SAMPLE records
   * the kernel published whose address resolves to it, and each bucket's the number that fall into it. Nothing
   * is lost between the kernel's bytes and the report, and nothing is counted twice.
   */
  lemma EveryRecordCounted(runs: seq<RingRun>, target: TextRange, resolve: Resolver, r: Result)
    requires AllQuiet(runs)
    requires Attributes(Combined(FinalRings(runs)), target, resolve, r)
    ensures forall loc :: LineCount(r.lineCounts, loc) == AllHits(runs, AtLine(target, resolve, loc))
    ensures |r.bucketCount| == 4
    ensures r.bucketCount[0] == AllHits(runs, InText(target)) && r.bucketCount[1] == AllHits(runs, InOtherUser(target))
    ensures r.bucketCount[2] == AllHits(runs, InKernel()) && r.bucketCount[3] == AllHits(runs, InNeitherHalf())
  {
    forall loc
      ensures LineCount(r.lineCounts, loc) == AllHits(runs, AtLine(target, resolve, loc))
    {
      CombinedCount(runs, AtLine(target, resolve, loc));
    }
    CombinedCount(runs, InText(target));
    CombinedCount(runs, InOtherUser(target));
    CombinedCount(runs, InKernel());
    CombinedCount(runs, InNeitherHalf());
  }

  /** The concatenation loop. */
  method Concatenate(rings: seq<seq<Sample>>) returns (samples: seq<Sample>)
    ensures samples == Combined(rings)
  {
    samples := [];
    for i := 0 to |rings|
      invariant samples == Combined(rings[..i])
    {
      assert rings[..i + 1][..i] == rings[..i];
      samples := samples + rings[i];
    }
    assert rings[..|rings|] == rings;
  }

  /** What follows the last drain: both events' rings concatenated and attributed, then the ranking of their lines. */
  method Report(missRings: seq<seq<Sample>>, accessRings: seq<seq<Sample>>, target: TextRange, resolve: Resolver,
                missPeriod: nat, accessPeriod: nat, sqrt: real -> real)
    returns (miss: Result, access: Result, ranked: seq<Ranked>, insufficient: seq<SourceLoc>)
    requires accessPeriod > 0
    ensures Attributes(Combined(missRings), target, resolve, miss)
    ensures Attributes(Combined(accessRings), target, resolve, access)
    ensures Lists(ranked, miss.lineCounts.Keys + access.lineCounts.Keys, miss.lineCounts, access.lineCounts,
                  missPeriod as real / accessPeriod as real, WilsonOf(sqrt))
    ensures Descending(ranked)
    ensures Excludes(insufficient, miss.lineCounts.Keys + access.lineCounts.Keys, access.lineCounts)
  {
    var missSamples := Concatenate(missRings);
    var accessSamples := Concatenate(accessRings);
    miss := ClassifyAndAttribute(missSamples, target, resolve);
    access := ClassifyAndAttribute(accessSamples, target, resolve);
    var scale := missPeriod as real / accessPeriod as real;
    ranked, insufficient := RankBy(miss.lineCounts, access.lineCounts, scale, WilsonOf(sqrt));
  }

  /** A site with enough access samples has a place in the ranking, with its own counts. */
  lemma PlaceOf(ranked: seq<Ranked>, miss: map<SourceLoc, nat>, access: map<SourceLoc, nat>, scale: real,
                bound: (nat, nat) -> real, site: SourceLoc)
    returns (i: nat)
    requires Lists(ranked, miss.Keys + access.Keys, miss, access, scale, bound) && Supported(site, access)
    ensures i < |ranked| && ranked[i].site == site
    ensures ranked[i].m == LineCount(miss, site) && ranked[i].n == LineCount(access, site)
  {
    var e := Entry(site, miss, access, scale, bound);
    assert site in access;
    assert e in multiset(ranked);
    i :| 0 <= i < |ranked| && ranked[i] == e;
  }

  /**
   * From records to ranking: of two lines with equally many access records, at least 30, the one for which the
   * kernel published more miss records is ranked first.
   */
  lemma HotterLineFirst(missRuns: seq<RingRun>, accessRuns: seq<RingRun>, target: TextRange, resolve: Resolver,
                        miss: Result, access: Result, scale: real, sqrt: real -> real, bound: (nat, nat) -> real,
                        ranked: seq<Ranked>, hot: SourceLoc, cold: SourceLoc)
    returns (i: nat, j: nat)
    requires AllQuiet(missRuns) && AllQuiet(accessRuns)
    requires Attributes(Combined(FinalRings(missRuns)), target, resolve, miss)
    requires Attributes(Combined(FinalRings(accessRuns)), target, resolve, access)
    requires Lists(ranked, miss.lineCounts.Keys + access.lineCounts.Keys, miss.lineCounts, access.lineCounts,
                   scale, bound)
    requires Descending(ranked) && bound == WilsonOf(sqrt) && IsSqrtFunction(sqrt) && scale > 0.0
    requires AllHits(accessRuns, AtLine(target, resolve, hot)) >= 30
    requires AllHits(accessRuns, AtLine(target, resolve, hot)) == AllHits(accessRuns, AtLine(target, resolve, cold))
    requires AllHits(missRuns, AtLine(target, resolve, hot)) > AllHits(missRuns, AtLine(target, resolve, cold))
    ensures i < j < |ranked| && ranked[i].site == hot && ranked[j].site == cold
  {
    EveryRecordCounted(missRuns, target, resolve, miss);
    EveryRecordCounted(accessRuns, target, resolve, access);
    i := PlaceOf(ranked, miss.lineCounts, access.lineCounts, scale, bound, hot);
    j := PlaceOf(ranked, miss.lineCounts, access.lineCounts, scale, bound, cold);
    MoreMissesFirst(ranked, miss.lineCounts.Keys + access.lineCounts.Keys, miss.lineCounts, access.lineCounts,
                    scale, sqrt, bound, i, j);
  }
}
