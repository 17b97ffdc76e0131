/** What the queue drivers ask of a queue: capacity, the items each producer pushes, each consumer's count. */
module QueueJob {
  import opened Words
  import opened Sums

  /** Producer `p` pushes `lo, lo+1, ..., hi-1`. */
  datatype Range = Range(lo: nat, hi: nat)

  datatype Job = Job(logCapacity: nat, ranges: seq<Range>, quota: seq<nat>)

  /** `kCapacity`, a power of two. */
  function Capacity(job: Job): (r: nat)
    ensures r >= 1
  {
    Pow2(job.logCapacity)
  }

  function Total(job: Job): nat {
    if job.ranges == [] then 0 else job.ranges[|job.ranges| - 1].hi
  }

  /** The producers' ranges tile 0..Total, pops and pushes balance, and no 64-bit position can overflow. */
  ghost predicate Balanced(job: Job) {
    && (forall p :: 0 <= p < |job.ranges| ==> job.ranges[p].lo <= job.ranges[p].hi)
    && (job.ranges != [] ==> job.ranges[0].lo == 0)
    && (forall p :: 0 < p < |job.ranges| ==> job.ranges[p].lo == job.ranges[p - 1].hi)
    && Sum(job.quota) == Total(job)
    && Total(job) + Capacity(job) < TWO_63
  }

  /** A balanced job for a queue of at least two cells. */
  ghost predicate ValidJob(job: Job) {
    job.logCapacity >= 1 && Balanced(job)
  }

  predicate In(r: Range, v: nat) {
    r.lo <= v < r.hi
  }

  /** `pos & kMask`, the buffer index of a position. */
  function Slot(job: Job, pos: nat): (r: nat)
    ensures r < Capacity(job)
  {
    MaskIsRemainder(pos, job.logCapacity);
    BitAnd(pos, Capacity(job) - 1)
  }

  lemma SlotIsRemainder(job: Job, pos: nat)
    ensures Slot(job, pos) == pos % Capacity(job)
  {
    MaskIsRemainder(pos, job.logCapacity);
  }

  lemma SlotSmall(job: Job, pos: nat)
    requires pos < Capacity(job)
    ensures Slot(job, pos) == pos
  {
    hide Slot, Capacity;
    SlotIsRemainder(job, pos);
    RemainderUnique(pos, Capacity(job), 0, pos);
  }

  /** Positions one lap apart share a slot. */
  lemma SlotPeriodic(job: Job, pos: nat)
    ensures Slot(job, pos + Capacity(job)) == Slot(job, pos)
  {
    hide Slot, Capacity;
    var m := Capacity(job);
    SlotIsRemainder(job, pos);
    SlotIsRemainder(job, pos + m);
    var q := pos / m;
    assert (q + 1) * m == q * m + m;
    RemainderUnique(pos + m, m, q + 1, pos % m);
  }

  /** Distinct positions less than a lap apart have distinct slots. */
  lemma SlotInjective(job: Job, x: nat, y: nat)
    requires x < y < x + Capacity(job)
    ensures Slot(job, x) != Slot(job, y)
  {
    hide Slot, Capacity;
    SlotIsRemainder(job, x);
    SlotIsRemainder(job, y);
    RemaindersDiffer(x, y, Capacity(job));
  }

  /** Earlier producers own strictly smaller items. */
  lemma {:induction false} RangesOrdered(job: Job, p: nat, q: nat)
    requires Balanced(job) && p < q < |job.ranges|
    ensures job.ranges[p].hi <= job.ranges[q].lo
  {
    if p + 1 < q {
      RangesOrdered(job, p, q - 1);
    }
  }

  /** Every item has an owner among the first producers whose ranges reach past it. */
  lemma {:induction false} OwnerExists(job: Job, n: nat, v: nat) returns (p: nat)
    requires Balanced(job) && 0 < n <= |job.ranges| && v < job.ranges[n - 1].hi
    ensures p < n && In(job.ranges[p], v)
  {
    if v >= job.ranges[n - 1].lo {
      p := n - 1;
    } else {
      p := OwnerExists(job, n - 1, v);
    }
  }

  /** No item has two owners. */
  lemma OwnerUnique(job: Job, p: nat, q: nat, v: nat)
    requires ValidJob(job) && p < |job.ranges| && q < |job.ranges|
    requires In(job.ranges[p], v) && In(job.ranges[q], v)
    ensures p == q
  {
    if p < q {
      RangesOrdered(job, p, q);
    } else if q < p {
      RangesOrdered(job, q, p);
    }
  }

  function Slice(p: nat, size: nat): (r: Range)
    ensures r.lo == p * size && r.hi == (p + 1) * size
  {
    MulMonotone(0, p, size);
    MulMonotone(0, p + 1, size);
    Range(p * size, (p + 1) * size)
  }

  function Slices(n: nat, size: nat): (r: seq<Range>)
    ensures |r| == n && forall p :: 0 <= p < n ==> r[p] == Slice(p, size)
  {
    seq(n, p requires 0 <= p < n => Slice(p, size))
  }

  /** The even split of `main`: item and pop counts per thread are `total / threads`. */
  function EvenSplit(logCapacity: nat, total: nat, producers: nat, consumers: nat): Job
    requires producers > 0 && consumers > 0
  {
    var perProducer, perConsumer := total / producers, total / consumers;
    Job(logCapacity, Slices(producers, perProducer), seq(consumers, c => perConsumer))
  }

  lemma {:induction false} SumConstant(n: nat, v: nat)
    ensures Sum(seq(n, c => v)) == n * v
  {
    if n > 0 {
      assert seq(n, c => v)[..n - 1] == seq(n - 1, c => v);
      SumConstant(n - 1, v);
      assert n * v == (n - 1) * v + v;
    }
  }

  lemma SlicesTile(n: nat, size: nat)
    requires n > 0
    ensures forall p :: 0 <= p < n ==> Slices(n, size)[p].lo <= Slices(n, size)[p].hi
    ensures Slices(n, size)[0].lo == 0 && Slices(n, size)[n - 1].hi == n * size
    ensures forall p :: 0 < p < n ==> Slices(n, size)[p].lo == Slices(n, size)[p - 1].hi
  {
    forall p | 0 <= p < n
      ensures Slices(n, size)[p].lo <= Slices(n, size)[p].hi
    {
      MulMonotone(p, p + 1, size);
    }
  }

  /**
   * When both thread counts divide the total, the split is a valid job with the capacity given: producer `p` has the
   * items from `p * (total / producers)` on, `total / producers` of them, and each consumer pops `total / consumers`.
   */
  lemma EvenSplitValid(logCapacity: nat, total: nat, producers: nat, consumers: nat)
    requires producers > 0 && consumers > 0
    requires total % producers == 0 && total % consumers == 0
    requires logCapacity >= 1 && total + Pow2(logCapacity) < TWO_63
    ensures var job, each := EvenSplit(logCapacity, total, producers, consumers), total / producers;
      && ValidJob(job) && Total(job) == total && Capacity(job) == Pow2(logCapacity)
      && |job.ranges| == producers && |job.quota| == consumers
      && (forall p :: 0 <= p < producers ==> job.ranges[p].lo == p * each && job.ranges[p].hi == p * each + each)
      && (forall c :: 0 <= c < consumers ==> job.quota[c] == total / consumers)
  {
    hide Slices, Pow2;
    ExactQuotient(total, producers);
    ExactQuotient(total, consumers);
    SumConstant(consumers, total / consumers);
    SlicesTile(producers, total / producers);
  }

  lemma ExactQuotient(total: nat, parts: nat)
    requires parts > 0 && total % parts == 0
    ensures parts * (total / parts) == total
  {
  }
}
