/** `classify` and `classify_and_attribute`: sampled addresses to buckets and source lines, with a memo table. */
module Attribution {
  import opened Counting
  import opened PerfRecord

  datatype Bucket = Target | OtherUser | Kernel | Unclassifiable

  /** The half-open range of the target's executable segments. */
  datatype TextRange = TextRange(lo: nat, hi: nat)

  datatype SourceLoc = SourceLoc(file: string, line: int)

  datatype Option<T> = None | Some(value: T)

  /** The debug-information lookup: any function of the address. */
  type Resolver = nat -> Option<SourceLoc>

  const KERNEL_HALF_START: nat := 0xffff_8000_0000_0000
  const USER_HALF_END: nat := 0x0000_8000_0000_0000

  function Classify(ip: nat, target: TextRange): Bucket {
    if ip >= KERNEL_HALF_START then Kernel
    else if ip >= USER_HALF_END then Unclassifiable
    else if target.lo <= ip < target.hi then Target
    else OtherUser
  }

  /** `static_cast<int>` of the bucket. */
  function Code(b: Bucket): (c: nat)
    ensures c < 4
  {
    match b
    case Target => 0
    case OtherUser => 1
    case Kernel => 2
    case Unclassifiable => 3
  }

  datatype Result = Result(
    bucketCount: seq<nat>, kernelIps: seq<nat>, lineCounts: map<SourceLoc, nat>, attributed: nat, unattributed: nat,
    ipLo: nat, ipHi: nat, resolveLoc: map<nat, SourceLoc>, resolveOk: map<nat, bool>)

  // --------------------------------------- the meaning: direct counts over address intervals

  /** An address of the user half inside the target's text range. */
  predicate TextAddress(ip: nat, target: TextRange) {
    ip < 0x0000_8000_0000_0000 && target.lo <= ip < target.hi
  }

  predicate KernelAddress(ip: nat) {
    ip >= 0xffff_8000_0000_0000
  }

  function InText(target: TextRange): Sample -> bool {
    (s: Sample) => TextAddress(s.ip, target)
  }

  function InOtherUser(target: TextRange): Sample -> bool {
    (s: Sample) => s.ip < 0x0000_8000_0000_0000 && !(target.lo <= s.ip < target.hi)
  }

  function InKernel(): Sample -> bool {
    (s: Sample) => KernelAddress(s.ip)
  }

  function InNeitherHalf(): Sample -> bool {
    (s: Sample) => 0x0000_8000_0000_0000 <= s.ip < 0xffff_8000_0000_0000
  }

  /** Text addresses that the resolver maps to `loc`: no memo table. */
  function AtLine(target: TextRange, resolve: Resolver, loc: SourceLoc): Sample -> bool {
    (s: Sample) => TextAddress(s.ip, target) && resolve(s.ip) == Some(loc)
  }

  function Resolved(target: TextRange, resolve: Resolver, ok: bool): Sample -> bool {
    (s: Sample) => TextAddress(s.ip, target) && resolve(s.ip).Some? == ok
  }

  function Ips(samples: seq<Sample>): set<nat> {
    set s | s in samples :: s.ip
  }

  function LineCount(lines: map<SourceLoc, nat>, loc: SourceLoc): nat {
    if loc in lines then lines[loc] else 0
  }

  ghost predicate BucketsRight(samples: seq<Sample>, target: TextRange, counts: seq<nat>) {
    && |counts| == 4
    && counts[0] == Count(samples, InText(target)) && counts[1] == Count(samples, InOtherUser(target))
    && counts[2] == Count(samples, InKernel()) && counts[3] == Count(samples, InNeitherHalf())
  }

  /** Each line has its count, and a line without samples has no entry. */
  ghost predicate LinesRight(samples: seq<Sample>, target: TextRange, resolve: Resolver, lines: map<SourceLoc, nat>) {
    && (forall loc :: LineCount(lines, loc) == Count(samples, AtLine(target, resolve, loc)))
    && (forall loc :: loc in lines ==> lines[loc] > 0)
  }

  ghost predicate TotalsRight(samples: seq<Sample>, target: TextRange, resolve: Resolver, yes: nat, no: nat) {
    && yes == Count(samples, Resolved(target, resolve, true))
    && no == Count(samples, Resolved(target, resolve, false))
  }

  ghost predicate MemoRight(samples: seq<Sample>, target: TextRange, resolve: Resolver,
                            ok: map<nat, bool>, locs: map<nat, SourceLoc>)
  {
    && (forall ip :: ip in ok <==> ip in Ips(samples) && TextAddress(ip, target))
    && (forall ip :: ip in ok ==> ok[ip] == resolve(ip).Some?)
    && (forall ip :: ip in locs <==> ip in ok && ok[ip])
    && (forall ip :: ip in locs ==> resolve(ip) == Some(locs[ip]))
  }

  /** The addresses' least and greatest, or zeros when there is none. */
  ghost predicate BoundsRight(samples: seq<Sample>, lo: nat, hi: nat) {
    if samples == [] then lo == hi == 0
    else lo in Ips(samples) && hi in Ips(samples) && forall ip :: ip in Ips(samples) ==> lo <= ip <= hi
  }

  ghost predicate StrictlySorted(s: seq<nat>) {
    forall i, j :: 0 <= i < j < |s| ==> s[i] < s[j]
  }

  ghost predicate KernelRight(samples: seq<Sample>, ips: seq<nat>) {
    forall ip :: ip in ips <==> ip in Ips(samples) && KernelAddress(ip)
  }

  /** Everything the pass reports, said without the pass. */
  ghost predicate Attributes(samples: seq<Sample>, target: TextRange, resolve: Resolver, r: Result) {
    && BucketsRight(samples, target, r.bucketCount)
    && LinesRight(samples, target, resolve, r.lineCounts)
    && TotalsRight(samples, target, resolve, r.attributed, r.unattributed)
    && MemoRight(samples, target, resolve, r.resolveOk, r.resolveLoc)
    && BoundsRight(samples, r.ipLo, r.ipHi)
    && KernelRight(samples, r.kernelIps) && StrictlySorted(r.kernelIps)
  }

  // ------------------------------------------------------- one more sample

  lemma IpsOne(samples: seq<Sample>, s: Sample)
    ensures Ips(samples + [s]) == Ips(samples) + {s.ip}
  {
    assert forall t :: t in samples + [s] <==> t in samples || t == s;
    assert s in samples + [s];
  }

  /** What the comparisons of `classify` decide. */
  lemma ClassifyMeaning(ip: nat, target: TextRange)
    ensures Classify(ip, target) == Target <==> TextAddress(ip, target)
    ensures Classify(ip, target) == OtherUser <==> ip < 0x0000_8000_0000_0000 && !(target.lo <= ip < target.hi)
    ensures Classify(ip, target) == Kernel <==> KernelAddress(ip)
    ensures Classify(ip, target) == Unclassifiable <==> 0x0000_8000_0000_0000 <= ip < 0xffff_8000_0000_0000
  {
  }

  lemma BucketsOne(samples: seq<Sample>, s: Sample, target: TextRange, counts: seq<nat>)
    requires BucketsRight(samples, target, counts)
    ensures var c := Code(Classify(s.ip, target)); BucketsRight(samples + [s], target, counts[c := counts[c] + 1])
  {
    ClassifyMeaning(s.ip, target);
    CountOne(samples, s, InText(target));
    CountOne(samples, s, InOtherUser(target));
    CountOne(samples, s, InKernel());
    CountOne(samples, s, InNeitherHalf());
  }

  lemma LinesHit(samples: seq<Sample>, s: Sample, target: TextRange, resolve: Resolver, lines: map<SourceLoc, nat>,
                 at: SourceLoc)
    requires LinesRight(samples, target, resolve, lines)
    requires TextAddress(s.ip, target) && resolve(s.ip) == Some(at)
    ensures LinesRight(samples + [s], target, resolve, lines[at := LineCount(lines, at) + 1])
  {
    forall loc
      ensures Count(samples + [s], AtLine(target, resolve, loc))
           == Count(samples, AtLine(target, resolve, loc)) + if loc == at then 1 else 0
    {
      CountOne(samples, s, AtLine(target, resolve, loc));
    }
  }

  lemma LinesMiss(samples: seq<Sample>, s: Sample, target: TextRange, resolve: Resolver, lines: map<SourceLoc, nat>)
    requires LinesRight(samples, target, resolve, lines)
    requires TextAddress(s.ip, target) ==> resolve(s.ip) == None
    ensures LinesRight(samples + [s], target, resolve, lines)
  {
    forall loc
      ensures Count(samples + [s], AtLine(target, resolve, loc)) == Count(samples, AtLine(target, resolve, loc))
    {
      CountOne(samples, s, AtLine(target, resolve, loc));
    }
  }

  lemma TotalsOne(samples: seq<Sample>, s: Sample, target: TextRange, resolve: Resolver, yes: nat, no: nat)
    requires TotalsRight(samples, target, resolve, yes, no)
    ensures var t, hit := TextAddress(s.ip, target), resolve(s.ip).Some?;
      TotalsRight(samples + [s], target, resolve, yes + if t && hit then 1 else 0, no + if t && !hit then 1 else 0)
  {
    CountOne(samples, s, Resolved(target, resolve, true));
    CountOne(samples, s, Resolved(target, resolve, false));
  }

  lemma MemoOne(samples: seq<Sample>, s: Sample, target: TextRange, resolve: Resolver,
                ok: map<nat, bool>, locs: map<nat, SourceLoc>)
    requires MemoRight(samples, target, resolve, ok, locs)
    ensures !TextAddress(s.ip, target) ==> MemoRight(samples + [s], target, resolve, ok, locs)
    ensures TextAddress(s.ip, target) ==>
      var hit := resolve(s.ip).Some?;
      MemoRight(samples + [s], target, resolve, ok[s.ip := hit],
                if hit then locs[s.ip := resolve(s.ip).value] else locs)
  {
    IpsOne(samples, s);
  }

  lemma BoundsOne(samples: seq<Sample>, s: Sample, lo: nat, hi: nat)
    requires if samples == [] then lo == hi == s.ip else BoundsRight(samples, lo, hi)
    ensures BoundsRight(samples + [s], if s.ip < lo then s.ip else lo, if s.ip > hi then s.ip else hi)
  {
    IpsOne(samples, s);
    if samples != [] {
      assert lo in Ips(samples);
    }
  }

  lemma KernelOne(samples: seq<Sample>, s: Sample, ips: seq<nat>)
    requires KernelRight(samples, ips)
    ensures KernelRight(samples + [s], if KernelAddress(s.ip) then ips + [s.ip] else ips)
  {
    IpsOne(samples, s);
    assert forall ip :: ip in ips + [s.ip] <==> ip in ips || ip == s.ip;
  }

  lemma InsertAt(s: seq<nat>, k: nat, v: nat)
    requires k <= |s|
    ensures forall x :: x in s[..k] + [v] + s[k..] <==> x in s || x == v
  {
    assert s == s[..k] + s[k..];
    assert forall x :: x in s <==> x in s[..k] || x in s[k..];
  }

  // ------------------------------------------------------------------ the pass

  /** `std::sort`, `std::unique` and `erase` on the kernel addresses: each address once, ascending. */
  method SortUnique(ips: seq<nat>) returns (sorted: seq<nat>)
    ensures StrictlySorted(sorted)
    ensures forall ip :: ip in sorted <==> ip in ips
  {
    sorted := [];
    for i := 0 to |ips|
      invariant StrictlySorted(sorted)
      invariant forall ip :: ip in sorted <==> ip in ips[..i]
    {
      var k := 0;
      while k < |sorted| && sorted[k] < ips[i]
        invariant 0 <= k <= |sorted|
        invariant forall j :: 0 <= j < k ==> sorted[j] < ips[i]
      {
        k := k + 1;
      }
      assert ips[..i + 1] == ips[..i] + [ips[i]];
      if k == |sorted| || sorted[k] != ips[i] {
        InsertAt(sorted, k, ips[i]);
        sorted := sorted[..k] + [ips[i]] + sorted[k..];
      }
    }
    assert ips[..|ips|] == ips;
  }

  /** The lookup through the memo table: resolve an address the first time only. */
  method Lookup(ip: nat, resolve: Resolver, ok: map<nat, bool>, locs: map<nat, SourceLoc>)
    returns (hit: bool, ok': map<nat, bool>, locs': map<nat, SourceLoc>)
    requires forall a :: a in ok ==> ok[a] == resolve(a).Some?
    requires forall a :: a in locs <==> a in ok && ok[a]
    requires forall a :: a in locs ==> resolve(a) == Some(locs[a])
    ensures hit == resolve(ip).Some?
    ensures ok' == ok[ip := hit]
    ensures locs' == if hit then locs[ip := resolve(ip).value] else locs
  {
    ok', locs' := ok, locs;
    if ip !in ok {
      var found := resolve(ip);
      hit := found.Some?;
      ok' := ok[ip := hit];
      if hit {
        locs' := locs[ip := found.value];
      }
    } else {
      hit := ok[ip];
      assert ok' == ok[ip := hit];
      if hit {
        assert locs' == locs[ip := resolve(ip).value];
      }
    }
  }

  /** The attribution fields, which only target samples touch. */
  datatype Attributed = Attributed(
    lineCounts: map<SourceLoc, nat>, yes: nat, no: nat, resolveLoc: map<nat, SourceLoc>, resolveOk: map<nat, bool>)

  ghost predicate AttributedRight(samples: seq<Sample>, target: TextRange, resolve: Resolver, a: Attributed) {
    && LinesRight(samples, target, resolve, a.lineCounts)
    && TotalsRight(samples, target, resolve, a.yes, a.no)
    && MemoRight(samples, target, resolve, a.resolveOk, a.resolveLoc)
  }

  /** The branch of the pass for one sample in the target. */
  method AttributeOne(ghost before: seq<Sample>, s: Sample, target: TextRange, resolve: Resolver, a: Attributed)
    returns (a': Attributed)
    requires AttributedRight(before, target, resolve, a) && TextAddress(s.ip, target)
    ensures AttributedRight(before + [s], target, resolve, a')
  {
    var hit, ok, locs := Lookup(s.ip, resolve, a.resolveOk, a.resolveLoc);
    MemoOne(before, s, target, resolve, a.resolveOk, a.resolveLoc);
    TotalsOne(before, s, target, resolve, a.yes, a.no);
    if hit {
      var loc := locs[s.ip];
      LinesHit(before, s, target, resolve, a.lineCounts, loc);
      a' := Attributed(a.lineCounts[loc := LineCount(a.lineCounts, loc) + 1], a.yes + 1, a.no, locs, ok);
    } else {
      LinesMiss(before, s, target, resolve, a.lineCounts);
      a' := Attributed(a.lineCounts, a.yes, a.no + 1, locs, ok);
    }
  }

  lemma AttributeNone(before: seq<Sample>, s: Sample, target: TextRange, resolve: Resolver, a: Attributed)
    requires AttributedRight(before, target, resolve, a) && !TextAddress(s.ip, target)
    ensures AttributedRight(before + [s], target, resolve, a)
  {
    MemoOne(before, s, target, resolve, a.resolveOk, a.resolveLoc);
    TotalsOne(before, s, target, resolve, a.yes, a.no);
    LinesMiss(before, s, target, resolve, a.lineCounts);
  }

  lemma SameKernel(samples: seq<Sample>, ips: seq<nat>, sorted: seq<nat>)
    requires KernelRight(samples, ips) && forall ip :: ip in sorted <==> ip in ips
    ensures KernelRight(samples, sorted)
  {
  }

  lemma NothingYet(target: TextRange, resolve: Resolver)
    ensures BucketsRight([], target, [0, 0, 0, 0]) && KernelRight([], []) && BoundsRight([], 0, 0)
    ensures AttributedRight([], target, resolve, Attributed(map[], 0, 0, map[], map[]))
  {
  }

  /** The memoised pass reports exactly the direct counts. */
  method ClassifyAndAttribute(samples: seq<Sample>, target: TextRange, resolve: Resolver) returns (r: Result)
    ensures Attributes(samples, target, resolve, r)
  {
    hide BucketsRight, LinesRight, TotalsRight, MemoRight, KernelRight, BoundsRight, Classify, Code, TextAddress;
    var bucketCount: seq<nat>, kernelIps: seq<nat>, ipLo: nat, ipHi: nat := [0, 0, 0, 0], [], 0, 0;
    var a := Attributed(map[], 0, 0, map[], map[]);
    if samples != [] {
      ipLo, ipHi := samples[0].ip, samples[0].ip;
    }
    NothingYet(target, resolve);
    assert samples[..0] == [];
    for i := 0 to |samples|
      invariant |bucketCount| == 4 && BucketsRight(samples[..i], target, bucketCount)
      invariant AttributedRight(samples[..i], target, resolve, a)
      invariant if i == 0 && samples != [] then ipLo == ipHi == samples[0].ip else BoundsRight(samples[..i], ipLo, ipHi)
      invariant KernelRight(samples[..i], kernelIps)
    {
      var s := samples[i];
      ghost var before := samples[..i];
      assert samples[..i + 1] == before + [s];
      BoundsOne(before, s, ipLo, ipHi);
      ipLo, ipHi := if s.ip < ipLo then s.ip else ipLo, if s.ip > ipHi then s.ip else ipHi;
      var b := Classify(s.ip, target);
      ClassifyMeaning(s.ip, target);
      BucketsOne(before, s, target, bucketCount);
      bucketCount := bucketCount[Code(b) := bucketCount[Code(b)] + 1];
      KernelOne(before, s, kernelIps);
      if b == Kernel {
        kernelIps := kernelIps + [s.ip];
      }
      if b == Target {
        a := AttributeOne(before, s, target, resolve, a);
      } else {
        AttributeNone(before, s, target, resolve, a);
      }
    }
    assert samples[..|samples|] == samples;
    var sorted := SortUnique(kernelIps);
    SameKernel(samples, kernelIps, sorted);
    kernelIps := sorted;
    r := Result(bucketCount, kernelIps, a.lineCounts, a.yes, a.no, ipLo, ipHi, a.resolveLoc, a.resolveOk);
  }
}
