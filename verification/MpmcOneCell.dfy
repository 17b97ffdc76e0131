/** The capacity the multi-producer queue needs, exactly, and what becomes of a queue with a single cell. */
module MpmcOneCell {
  import opened Words
  import opened Sums
  import opened QueueJob
  import opened MpmcQueue
  import opened BoundedFifo
  import opened MpmcInvariant
  import opened MpmcRefinement
  import opened MpmcProgress

  /** More items are in the queue than it has cells: an item has been overwritten before it was popped. */
  ghost predicate Overfull(job: Job, s: State) {
    s.queue.enqueuePos > s.queue.dequeuePos + Capacity(job)
  }

  // ------------------------------------------------- tickets are items, for any capacity

  /** The tickets each producer has claimed. */
  function Claims(job: Job, ps: seq<Producer>): (r: seq<int>)
    requires |ps| == |job.ranges|
    ensures |r| == |ps|
    ensures forall p :: 0 <= p < |r| ==> r[p] == ps[p].i - job.ranges[p].lo + Flag(ps[p].pc)
  {
    seq(|ps|, p requires 0 <= p < |ps| => ps[p].i - job.ranges[p].lo + Flag(ps[p].pc))
  }

  ghost predicate WithinRange(r: Range, t: Producer) {
    r.lo <= t.i <= r.hi && (t.pc != LoadPosition ==> t.i < r.hi)
  }

  ghost predicate Counted(job: Job, e: nat, ps: seq<Producer>) {
    && |ps| == |job.ranges|
    && (forall p :: 0 <= p < |ps| ==> WithinRange(job.ranges[p], ps[p]))
    && e == Sum(Claims(job, ps))
  }

  lemma ClaimsBound(job: Job, e: nat, ps: seq<Producer>)
    requires Balanced(job) && Counted(job, e, ps)
    ensures e <= Total(job)
    ensures forall p :: 0 <= p < |ps| && ps[p].pc == Exchange ==> e < Total(job)
  {
    var xs, ys := Claims(job, ps), Lengths(Pushed(job, Ends(job)));
    forall p | 0 <= p < |ps|
      ensures xs[p] <= ys[p] && (ps[p].pc == Exchange ==> xs[p] < ys[p])
    {
      assert WithinRange(job.ranges[p], ps[p]);
    }
    SizesAtEnd(job);
    SumMonotone(xs, ys);
  }

  /** One access moves the shared position by exactly what it adds to the thread's claims. */
  lemma AccessCounted(job: Job, q: Queue, r: Range, t: Producer, spurious: bool)
    requires Sized(job, q) && WithinRange(r, t) && (t.pc == Exchange ==> q.enqueuePos + 1 < TWO_63)
    ensures var (q', t') := ProducerStep(job, q, r.hi, t, spurious);
      WithinRange(r, t') && q'.enqueuePos - q.enqueuePos == t'.i + Flag(t'.pc) - (t.i + Flag(t.pc))
  {
  }

  /** The same on the sum over all producers. */
  lemma ClaimsCounted(job: Job, e: nat, ps: seq<Producer>, p: nat, e': nat, t': Producer)
    requires Counted(job, e, ps) && p < |ps| && WithinRange(job.ranges[p], t')
    requires e' - e == t'.i + Flag(t'.pc) - (ps[p].i + Flag(ps[p].pc))
    ensures Counted(job, e', ps[p := t'])
  {
    var xs, v := Claims(job, ps), t'.i - job.ranges[p].lo + Flag(t'.pc);
    SumUpdate(xs, p, v);
    assert Claims(job, ps[p := t']) == xs[p := v];
  }

  lemma StepCounted(job: Job, s: State, choice: Choice)
    requires Balanced(job) && Shaped(job, s) && Counted(job, s.queue.enqueuePos, s.producers)
    ensures Counted(job, Step(job, s, choice).queue.enqueuePos, Step(job, s, choice).producers)
  {
    hide Slot, Capacity, Sum;
    if choice.Produce? && choice.p < |s.producers| {
      var q, ps, p := s.queue, s.producers, choice.p;
      ClaimsBound(job, q.enqueuePos, ps);
      AccessCounted(job, q, job.ranges[p], ps[p], choice.spurious);
      var (q', t') := ProducerStep(job, q, job.ranges[p].hi, ps[p], choice.spurious);
      ClaimsCounted(job, q.enqueuePos, ps, p, q'.enqueuePos, t');
    }
  }

  lemma {:induction false} RunCounted(job: Job, schedule: seq<Choice>)
    requires Balanced(job)
    ensures Counted(job, Run(job, schedule).queue.enqueuePos, Run(job, schedule).producers)
  {
    if schedule == [] {
      NothingClaimed(job);
    } else {
      var before := schedule[..|schedule| - 1];
      RunCounted(job, before);
      StepCounted(job, Run(job, before), schedule[|schedule| - 1]);
    }
  }

  lemma NothingClaimed(job: Job)
    requires Balanced(job)
    ensures Counted(job, 0, Init(job).producers)
  {
    var xs := Claims(job, Init(job).producers);
    assert xs == seq(|xs|, p => 0);
    SumConstant(|xs|, 0);
  }

  // ---------------------------------------------------------------- two pushes into one cell

  /** One push by an idle producer into a one-cell queue that has published `e` items and popped none. */
  lemma OneCellPush(job: Job, schedule: seq<Choice>, p: nat) returns (longer: seq<Choice>)
    requires job.logCapacity == 0 && p < |job.ranges|
    requires var s := Run(job, schedule); var t := s.producers[p];
      t.pc == LoadPosition && t.i < job.ranges[p].hi && s.queue.enqueuePos + 1 < TWO_63 &&
      s.queue.buffer[0].sequence == s.queue.enqueuePos
    ensures var s, s' := Run(job, schedule), Run(job, longer);
      var e, i := s.queue.enqueuePos, s.producers[p].i;
      s' == s.(queue := Queue([Cell(e + 1, i)], e + 1, s.queue.dequeuePos),
               producers := s.producers[p := Producer(LoadPosition, i + 1, e)])
  {
    hide Run;
    var s := Run(job, schedule);
    assert Capacity(job) == 1 && Slot(job, s.queue.enqueuePos) == 0;
    IdlePush(job, s.queue, job.ranges[p].hi, s.producers[p]);
    RunSoloPush(job, schedule, p, 5);
    longer := schedule + Repeat(Produce(p, false), 5);
    assert s.queue.buffer[0 := Cell(s.queue.enqueuePos + 1, s.producers[p].i)]
        == [Cell(s.queue.enqueuePos + 1, s.producers[p].i)];
  }

  /** Items 0 and 1 pushed one after the other, by whoever owns them: item 1 is all that is left. */
  lemma TwoPushes(job: Job) returns (schedule: seq<Choice>)
    requires Balanced(job) && job.logCapacity == 0 && Total(job) >= 2
    ensures Run(job, schedule).queue == Queue([Cell(2, 1)], 2, 0)
    ensures forall p :: 0 <= p < |job.ranges| ==> Run(job, schedule).producers[p].pc == LoadPosition
    ensures Run(job, schedule).consumers == Init(job).consumers
  {
    hide Balanced, Slot;
    var first := OwnerExists(job, |job.ranges|, 0);
    var second := OwnerExists(job, |job.ranges|, 1);
    OwnersOfFirstTwo(job, first, second);
    assert Capacity(job) == 1;
    var one := OneCellPush(job, [], first);
    schedule := OneCellPush(job, one, second);
  }

  lemma OwnersOfFirstTwo(job: Job, first: nat, second: nat)
    requires Balanced(job) && first < |job.ranges| && second < |job.ranges|
    requires In(job.ranges[first], 0) && In(job.ranges[second], 1)
    ensures job.ranges[first].lo == 0 && (first != second ==> job.ranges[second].lo == 1)
  {
    if first < second {
      RangesOrdered(job, first, second);
    } else if second < first {
      RangesOrdered(job, second, first);
    }
  }

  // ------------------------------------------------------------------------ theorems

  /**
   * The capacity the protocol needs. For every balanced job, some interleaving puts more items into the queue than it
   * has cells if and only if there is a single cell and more than one item.
   */
  lemma OverfillsExactly(job: Job)
    requires Balanced(job)
    ensures (exists schedule :: Overfull(job, Run(job, schedule))) <==> job.logCapacity == 0 && Total(job) >= 2
  {
    if job.logCapacity == 0 && Total(job) >= 2 {
      var schedule := TwoPushes(job);
      assert Overfull(job, Run(job, schedule));
    } else {
      forall schedule
        ensures !Overfull(job, Run(job, schedule))
      {
        NeverOverfull(job, schedule);
      }
    }
  }

  lemma NeverOverfull(job: Job, schedule: seq<Choice>)
    requires Balanced(job) && (job.logCapacity >= 1 || Total(job) <= 1)
    ensures !Overfull(job, Run(job, schedule))
  {
    if job.logCapacity >= 1 {
      Refines(job, schedule);
    } else {
      RunCounted(job, schedule);
      ClaimsBound(job, Run(job, schedule).queue.enqueuePos, Run(job, schedule).producers);
    }
  }

  /** The sequence has passed what the consumer of ticket 0 waits for, and nobody will store it again. */
  ghost predicate PastFirst(job: Job, s: State) {
    && Shaped(job, s) && s.queue.dequeuePos == 0 && s.queue.enqueuePos >= 2
    && 2 <= s.queue.buffer[0].sequence < TWO_63
    && (forall p :: 0 <= p < |s.producers| && Holds(s.producers[p].pc) ==> 2 <= s.producers[p].pos < TWO_63 - 1)
    && (forall c :: 0 <= c < |s.consumers| ==>
         (s.consumers[c].pc == LoadPosition || s.consumers[c].pc == LoadSequence) && s.consumers[c].pos == 0)
  }

  lemma PastFirstStep(job: Job, s: State, choice: Choice)
    requires Balanced(job) && job.logCapacity == 0 && PastFirst(job, s) && s.queue.enqueuePos <= Total(job)
    requires Step(job, s, choice).queue.enqueuePos <= Total(job)
    ensures PastFirst(job, Step(job, s, choice))
  {
    assert Capacity(job) == 1;
    match choice
    case Produce(p, spurious) =>
      if p < |s.producers| {
        var t := s.producers[p];
        assert Slot(job, t.pos) == 0;
        assert Holds(t.pc) ==> 2 <= t.pos < TWO_63 - 1;
      }
    case Consume(c, spurious) =>
      if c < |s.consumers| {
        assert Slot(job, s.consumers[c].pos) == 0;
        assert SignedDiff(s.queue.buffer[0].sequence, 1) > 0;
      }
  }

  lemma {:induction false} PastFirstForEver(job: Job, schedule: seq<Choice>, rest: seq<Choice>)
    requires Balanced(job) && job.logCapacity == 0 && PastFirst(job, Run(job, schedule))
    ensures PastFirst(job, Run(job, schedule + rest))
    decreases |rest|
  {
    if rest == [] {
      assert schedule + rest == schedule;
    } else {
      var init, choice := rest[..|rest| - 1], rest[|rest| - 1];
      PastFirstForEver(job, schedule, init);
      assert schedule + rest == schedule + init + [choice];
      PastFirstOneMore(job, schedule + init, choice);
    }
  }

  lemma PastFirstOneMore(job: Job, schedule: seq<Choice>, choice: Choice)
    requires Balanced(job) && job.logCapacity == 0 && PastFirst(job, Run(job, schedule))
    ensures PastFirst(job, Run(job, schedule + [choice]))
  {
    RunOneMore(job, schedule, choice);
    TicketsBounded(job, schedule);
    TicketsBounded(job, schedule + [choice]);
    PastFirstStep(job, Run(job, schedule), choice);
  }

  lemma TicketsBounded(job: Job, schedule: seq<Choice>)
    requires Balanced(job)
    ensures Run(job, schedule).queue.enqueuePos <= Total(job)
  {
    RunCounted(job, schedule);
    ClaimsBound(job, Run(job, schedule).queue.enqueuePos, Run(job, schedule).producers);
  }

  /** However the run goes on, nothing is popped. */
  ghost predicate NeverPops(job: Job, schedule: seq<Choice>) {
    forall rest :: Run(job, schedule + rest).queue.dequeuePos == 0
  }

  /**
   * What becomes of an overfull queue: with one cell and at least two items there is an interleaving after which item
   * 0 is gone from the queue, and no consumer ever pops anything, however the run goes on.
   */
  lemma OneCellLosesItems(job: Job)
    requires Balanced(job) && job.logCapacity == 0 && Total(job) >= 2
    ensures exists schedule ::
      Run(job, schedule).queue == Queue([Cell(2, 1)], 2, 0) && NeverPops(job, schedule)
  {
    var schedule := TwoPushes(job);
    forall rest
      ensures Run(job, schedule + rest).queue.dequeuePos == 0
    {
      PastFirstForEver(job, schedule, rest);
    }
    assert NeverPops(job, schedule);
  }
}
