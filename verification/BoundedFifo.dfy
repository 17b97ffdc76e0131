/** The abstract queue: a bounded first-in first-out buffer with atomic push and pop, and what it guarantees. */
module BoundedFifo {
  import opened Sums
  import opened QueueJob

  /**
   * `entered` lists every item ever pushed, in order; the first `left` of them have been popped.
   * `next[p]` is producer `p`'s next item, `taken[c]` what consumer `c` has popped, in order.
   */
  datatype Fifo = Fifo(entered: seq<nat>, left: nat, next: seq<nat>, taken: seq<seq<nat>>)

  datatype Event = Internal | Push(p: nat) | Pop(c: nat)

  function Contents(a: Fifo): seq<nat>
    requires a.left <= |a.entered|
  {
    a.entered[a.left..]
  }

  function Start(job: Job): Fifo {
    Fifo([], 0,
         seq(|job.ranges|, p requires 0 <= p < |job.ranges| => job.ranges[p].lo),
         seq(|job.quota|, c => []))
  }

  /** A push needs an item and room; a pop needs an unfilled quota and an item. */
  predicate Enabled(job: Job, a: Fifo, e: Event) {
    a.left <= |a.entered| &&
    match e
    case Internal => true
    case Push(p) => p < |job.ranges| && p < |a.next| && a.next[p] < job.ranges[p].hi && |Contents(a)| < Capacity(job)
    case Pop(c) => c < |job.quota| && c < |a.taken| && |a.taken[c]| < job.quota[c] && |Contents(a)| > 0
  }

  function Apply(job: Job, a: Fifo, e: Event): Fifo
    requires Enabled(job, a, e)
  {
    match e
    case Internal => a
    case Push(p) => a.(entered := a.entered + [a.next[p]], next := a.next[p := a.next[p] + 1])
    case Pop(c) => a.(left := a.left + 1, taken := a.taken[c := a.taken[c] + [Contents(a)[0]]])
  }

  function Flatten(xs: seq<seq<nat>>): seq<nat> {
    if xs == [] then [] else Flatten(xs[..|xs| - 1]) + xs[|xs| - 1]
  }

  function Interval(lo: nat, hi: nat): (s: seq<nat>)
    ensures |s| == if lo <= hi then hi - lo else 0
  {
    if lo <= hi then seq(hi - lo, i requires 0 <= i => lo + i) else []
  }

  /** The items each producer has pushed so far. */
  function Pushed(job: Job, next: seq<nat>): (s: seq<seq<nat>>)
    requires |next| == |job.ranges|
    ensures |s| == |next|
  {
    seq(|next|, p requires 0 <= p < |next| => Interval(job.ranges[p].lo, next[p]))
  }

  lemma PushedAdvance(job: Job, next: seq<nat>, p: nat)
    requires |next| == |job.ranges| && p < |next| && job.ranges[p].lo <= next[p]
    ensures Pushed(job, next[p := next[p] + 1]) == Pushed(job, next)[p := Pushed(job, next)[p] + [next[p]]]
  {
    var xs, ys := Pushed(job, next), Pushed(job, next[p := next[p] + 1]);
    assert ys[p] == xs[p] + [next[p]];
    assert ys == xs[p := ys[p]];
  }

  lemma {:induction false} FlattenAppend(xs: seq<seq<nat>>, i: nat, v: nat)
    requires i < |xs|
    ensures multiset(Flatten(xs[i := xs[i] + [v]])) == multiset(Flatten(xs)) + multiset{v}
    decreases |xs|
  {
    var n := |xs| - 1;
    var ys := xs[i := xs[i] + [v]];
    if i == n {
      assert ys[..n] == xs[..n];
    } else {
      assert ys[..n] == xs[..n][i := xs[..n][i] + [v]];
      FlattenAppend(xs[..n], i, v);
    }
  }

  function Lengths(xs: seq<seq<nat>>): (r: seq<int>)
    ensures |r| == |xs|
    ensures forall i :: 0 <= i < |xs| ==> r[i] == |xs[i]|
  {
    seq(|xs|, i requires 0 <= i < |xs| => |xs[i]|)
  }

  lemma {:induction false} FlattenLength(xs: seq<seq<nat>>)
    ensures |Flatten(xs)| == Sum(Lengths(xs))
  {
    if xs != [] {
      var n := |xs| - 1;
      assert Lengths(xs)[..n] == Lengths(xs[..n]);
      FlattenLength(xs[..n]);
    }
  }

  lemma {:induction false} FlattenEmpty(xs: seq<seq<nat>>)
    requires forall i :: 0 <= i < |xs| ==> xs[i] == []
    ensures Flatten(xs) == []
  {
    if xs != [] {
      FlattenEmpty(xs[..|xs| - 1]);
    }
  }

  function Ends(job: Job): (r: seq<nat>)
    ensures |r| == |job.ranges|
    ensures forall p :: 0 <= p < |r| ==> r[p] == job.ranges[p].hi
  {
    seq(|job.ranges|, p requires 0 <= p < |job.ranges| => job.ranges[p].hi)
  }

  /** When the first `n` producers have pushed their ranges, the pushed items are 0, 1, ... without a gap. */
  lemma {:induction false} FlattenRanges(job: Job, n: nat)
    requires Balanced(job) && n <= |job.ranges|
    ensures Flatten(Pushed(job, Ends(job))[..n]) == Upto(if n == 0 then 0 else job.ranges[n - 1].hi)
  {
    hide Capacity, Total;
    if n > 0 {
      var xs := Pushed(job, Ends(job));
      FlattenRanges(job, n - 1);
      assert xs[..n][..n - 1] == xs[..n - 1];
      assert xs[..n][n - 1] == Interval(job.ranges[n - 1].lo, job.ranges[n - 1].hi);
    }
  }

  ghost predicate FifoShaped(job: Job, a: Fifo) {
    && a.left <= |a.entered| <= a.left + Capacity(job)
    && |a.next| == |job.ranges| && |a.taken| == |job.quota|
    && (forall p :: 0 <= p < |a.next| ==> job.ranges[p].lo <= a.next[p] <= job.ranges[p].hi)
    && (forall c :: 0 <= c < |a.taken| ==> |a.taken[c]| <= job.quota[c])
  }

  /** Nothing is lost, duplicated or invented. */
  ghost predicate Conserved(job: Job, a: Fifo)
    requires FifoShaped(job, a)
  {
    && multiset(a.entered) == multiset(Flatten(Pushed(job, a.next)))
    && multiset(a.entered[..a.left]) == multiset(Flatten(a.taken))
  }

  /** The items of range `r` occur in `s` in strictly increasing order. */
  ghost predicate Increasing(r: Range, s: seq<nat>) {
    forall i, j | 0 <= i < j < |s| && In(r, s[i]) && In(r, s[j]) :: s[i] < s[j]
  }

  ghost predicate AllBelow(r: Range, s: seq<nat>, bound: nat) {
    forall i | 0 <= i < |s| && In(r, s[i]) :: s[i] < bound
  }

  /** One producer's items enter in increasing order, and each consumer takes them in that order. */
  ghost predicate OrderedFor(r: Range, next: nat, a: Fifo)
    requires a.left <= |a.entered|
  {
    && AllBelow(r, a.entered, next)
    && Increasing(r, a.entered)
    && (forall c :: 0 <= c < |a.taken| ==> Increasing(r, a.taken[c] + Contents(a)))
  }

  ghost predicate Ordered(job: Job, a: Fifo)
    requires FifoShaped(job, a)
  {
    forall p :: 0 <= p < |job.ranges| ==> OrderedFor(job.ranges[p], a.next[p], a)
  }

  ghost predicate FifoInv(job: Job, a: Fifo) {
    FifoShaped(job, a) && Conserved(job, a) && Ordered(job, a)
  }

  lemma StartInv(job: Job)
    requires ValidJob(job)
    ensures FifoInv(job, Start(job))
  {
    var a := Start(job);
    FlattenEmpty(Pushed(job, a.next));
    FlattenEmpty(a.taken);
  }

  lemma ApplyKeepsShape(job: Job, a: Fifo, e: Event)
    requires FifoShaped(job, a) && Enabled(job, a, e)
    ensures FifoShaped(job, Apply(job, a, e))
  {
  }

  lemma PushKeepsConserved(job: Job, a: Fifo, p: nat)
    requires FifoShaped(job, a) && Conserved(job, a) && Enabled(job, a, Push(p))
    requires FifoShaped(job, Apply(job, a, Push(p)))
    ensures Conserved(job, Apply(job, a, Push(p)))
  {
    var b := Apply(job, a, Push(p));
    var v, xs := a.next[p], Pushed(job, a.next);
    PushedAdvance(job, a.next, p);
    FlattenAppend(xs, p, v);
    assert Pushed(job, b.next) == xs[p := xs[p] + [v]];
    assert b.entered[..b.left] == a.entered[..a.left];
  }

  lemma PopKeepsConserved(job: Job, a: Fifo, c: nat)
    requires FifoShaped(job, a) && Conserved(job, a) && Enabled(job, a, Pop(c))
    requires FifoShaped(job, Apply(job, a, Pop(c)))
    ensures Conserved(job, Apply(job, a, Pop(c)))
  {
    var b := Apply(job, a, Pop(c));
    var v := a.entered[a.left];
    FlattenAppend(a.taken, c, v);
    assert b.entered[..b.left] == a.entered[..a.left] + [v];
  }

  lemma IncreasingAppend(r: Range, s: seq<nat>, v: nat)
    requires Increasing(r, s) && (In(r, v) ==> AllBelow(r, s, v))
    ensures Increasing(r, s + [v])
  {
  }

  /** Dropping one element keeps the order. */
  lemma IncreasingDrop(r: Range, x: seq<nat>, v: nat, y: seq<nat>)
    requires Increasing(r, x + [v] + y)
    ensures Increasing(r, x + y)
  {
    var s, t := x + [v] + y, x + y;
    forall i, j | 0 <= i < j < |t| && In(r, t[i]) && In(r, t[j])
      ensures t[i] < t[j]
    {
      var i', j' := if i < |x| then i else i + 1, if j < |x| then j else j + 1;
      assert s[i'] == t[i] && s[j'] == t[j];
    }
  }

  lemma {:induction false} FlattenMembers(xs: seq<seq<nat>>, c: nat, i: nat)
    requires c < |xs| && i < |xs[c]|
    ensures xs[c][i] in Flatten(xs)
    decreases |xs|
  {
    var n := |xs| - 1;
    if c < n {
      FlattenMembers(xs[..n], c, i);
    }
  }

  lemma TakenEntered(job: Job, a: Fifo, c: nat, i: nat)
    requires FifoShaped(job, a) && Conserved(job, a)
    requires c < |a.taken| && i < |a.taken[c]|
    ensures a.taken[c][i] in a.entered
  {
    FlattenMembers(a.taken, c, i);
    assert a.taken[c][i] in multiset(Flatten(a.taken));
    assert a.taken[c][i] in a.entered[..a.left];
  }

  /** Whatever a consumer took or the queue still holds has entered. */
  lemma WindowEntered(job: Job, a: Fifo, c: nat, i: nat)
    requires FifoShaped(job, a) && Conserved(job, a)
    requires c < |a.taken| && i < |a.taken[c] + Contents(a)|
    ensures (a.taken[c] + Contents(a))[i] in a.entered
  {
    if i < |a.taken[c]| {
      TakenEntered(job, a, c, i);
    } else {
      assert (a.taken[c] + Contents(a))[i] == a.entered[a.left + (i - |a.taken[c]|)];
    }
  }

  lemma PushKeepsOrdered(job: Job, a: Fifo, p: nat, q: nat)
    requires ValidJob(job) && FifoInv(job, a) && Enabled(job, a, Push(p)) && q < |job.ranges|
    ensures OrderedFor(job.ranges[q], Apply(job, a, Push(p)).next[q], Apply(job, a, Push(p)))
  {
    hide Conserved, Capacity;
    var b := Apply(job, a, Push(p));
    var r, v := job.ranges[q], a.next[p];
    if In(r, v) {
      OwnerUnique(job, p, q, v);
    }
    assert OrderedFor(r, a.next[q], a);
    IncreasingAppend(r, a.entered, v);
    forall c | 0 <= c < |b.taken|
      ensures Increasing(r, b.taken[c] + Contents(b))
    {
      var s := a.taken[c] + Contents(a);
      assert b.taken[c] + Contents(b) == s + [v];
      forall i | 0 <= i < |s|
        ensures s[i] in a.entered
      {
        WindowEntered(job, a, c, i);
      }
      IncreasingAppend(r, s, v);
    }
  }

  lemma PopKeepsOrdered(job: Job, a: Fifo, c: nat, q: nat)
    requires FifoInv(job, a) && Enabled(job, a, Pop(c)) && q < |job.ranges|
    ensures OrderedFor(job.ranges[q], Apply(job, a, Pop(c)).next[q], Apply(job, a, Pop(c)))
  {
    var b := Apply(job, a, Pop(c));
    var r, v := job.ranges[q], a.entered[a.left];
    assert OrderedFor(r, a.next[q], a);
    forall d | 0 <= d < |b.taken|
      ensures Increasing(r, b.taken[d] + Contents(b))
    {
      assert Increasing(r, a.taken[d] + Contents(a));
      assert Contents(a) == [v] + Contents(b);
      assert a.taken[d] + Contents(a) == a.taken[d] + [v] + Contents(b);
      if d != c {
        IncreasingDrop(r, a.taken[d], v, Contents(b));
      }
    }
  }

  /** Every event of the abstract queue keeps its invariant. */
  lemma ApplyKeepsInv(job: Job, a: Fifo, e: Event)
    requires ValidJob(job) && FifoInv(job, a) && Enabled(job, a, e)
    ensures FifoInv(job, Apply(job, a, e))
  {
    ApplyKeepsShape(job, a, e);
    match e
    case Internal =>
    case Push(p) =>
      PushKeepsConserved(job, a, p);
      forall q | 0 <= q < |job.ranges|
        ensures OrderedFor(job.ranges[q], Apply(job, a, e).next[q], Apply(job, a, e))
      {
        PushKeepsOrdered(job, a, p, q);
      }
    case Pop(c) =>
      PopKeepsConserved(job, a, c);
      forall q | 0 <= q < |job.ranges|
        ensures OrderedFor(job.ranges[q], Apply(job, a, e).next[q], Apply(job, a, e))
      {
        PopKeepsOrdered(job, a, c, q);
      }
  }

  /** How many items have entered and left, counted per thread. */
  lemma Counts(job: Job, a: Fifo)
    requires FifoInv(job, a)
    ensures |a.entered| == Sum(Lengths(Pushed(job, a.next)))
    ensures a.left == Sum(Lengths(a.taken))
  {
    FlattenLength(Pushed(job, a.next));
    FlattenLength(a.taken);
    assert |multiset(a.entered)| == |multiset(Flatten(Pushed(job, a.next)))|;
    assert |multiset(a.entered[..a.left])| == |multiset(Flatten(a.taken))|;
  }

  lemma SizesAtEnd(job: Job)
    requires Balanced(job)
    ensures Sum(Lengths(Pushed(job, Ends(job)))) == Total(job)
  {
    var ys := Pushed(job, Ends(job));
    FlattenRanges(job, |job.ranges|);
    assert ys[..|job.ranges|] == ys;
    FlattenLength(ys);
  }

  /** Never more than Total items enter; all have entered exactly when every producer is through. */
  lemma EnteredBound(job: Job, a: Fifo)
    requires ValidJob(job) && FifoInv(job, a)
    ensures a.left <= |a.entered| <= Total(job)
    ensures |a.entered| == Total(job) <==> a.next == Ends(job)
  {
    hide Conserved, Ordered, Capacity;
    var xs, ys := Lengths(Pushed(job, a.next)), Lengths(Pushed(job, Ends(job)));
    Counts(job, a);
    SizesAtEnd(job);
    SumMonotone(xs, ys);
    if xs == ys {
      forall p | 0 <= p < |a.next|
        ensures a.next[p] == job.ranges[p].hi
      {
        assert xs[p] == ys[p];
      }
    }
  }

  /** Never more than Total items leave; all have left exactly when every quota is met. */
  lemma LeftBound(job: Job, a: Fifo)
    requires ValidJob(job) && FifoInv(job, a)
    ensures a.left == Total(job) <==> Lengths(a.taken) == job.quota
  {
    Counts(job, a);
    SumMonotone(Lengths(a.taken), job.quota);
  }

  /** Once every quota is met, what the consumers took is exactly 0, 1, ..., Total-1, each item once. */
  lemma ExactlyOnce(job: Job, a: Fifo)
    requires ValidJob(job) && FifoInv(job, a)
    requires Lengths(a.taken) == job.quota
    ensures multiset(Flatten(a.taken)) == multiset(Upto(Total(job)))
    ensures Sum(Flatten(a.taken)) == Sum(Upto(Total(job)))
  {
    LeftBound(job, a);
    EnteredBound(job, a);
    assert a.entered[..a.left] == a.entered;
    FlattenRanges(job, |job.ranges|);
    assert Pushed(job, a.next)[..|job.ranges|] == Pushed(job, a.next);
    SumByMultiset(Flatten(a.taken), Upto(Total(job)));
  }
}
