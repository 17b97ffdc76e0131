/** What the refinement means for the threads of the multi-producer multi-consumer queue. */
module MpmcTheorems {
  import opened Words
  import opened Sums
  import opened QueueJob
  import opened MpmcQueue
  import opened BoundedFifo
  import opened MpmcInvariant
  import opened MpmcRefinement

  // ------------------------------------------------------------- payload ownership

  lemma WritersApart(job: Job, s: State, p: nat, r: nat)
    requires ValidJob(job) && Inv(job, s) && p < |s.producers| && r < |s.producers| && p != r
    requires Holds(s.producers[p].pc) && Holds(s.producers[r].pc)
    ensures Slot(job, s.producers[p].pos) != Slot(job, s.producers[r].pos)
  {
    assert ProducerOk(job, s.queue, job.ranges[p], s.producers[p]);
    assert ProducerOk(job, s.queue, job.ranges[r], s.producers[r]);
    Apart(job, s.queue, s.producers[p].pos);
    assert Window(job, s.queue, s.producers[r].pos);
  }

  lemma WriterReaderApart(job: Job, s: State, p: nat, c: nat)
    requires ValidJob(job) && Inv(job, s) && p < |s.producers| && c < |s.consumers|
    requires Holds(s.producers[p].pc) && Holds(s.consumers[c].pc)
    ensures Slot(job, s.producers[p].pos) != Slot(job, s.consumers[c].pos)
  {
    assert ProducerOk(job, s.queue, job.ranges[p], s.producers[p]);
    assert ConsumerOk(job, s.queue, job.quota[c], s.consumers[c]);
    Apart(job, s.queue, s.producers[p].pos);
    assert Window(job, s.queue, s.consumers[c].pos + Capacity(job));
  }

  lemma ReadersApart(job: Job, s: State, c: nat, d: nat)
    requires ValidJob(job) && Inv(job, s) && c < |s.consumers| && d < |s.consumers| && c != d
    requires Holds(s.consumers[c].pc) && Holds(s.consumers[d].pc)
    ensures Slot(job, s.consumers[c].pos) != Slot(job, s.consumers[d].pos)
  {
    assert ConsumerOk(job, s.queue, job.quota[c], s.consumers[c]);
    assert ConsumerOk(job, s.queue, job.quota[d], s.consumers[d]);
    Apart(job, s.queue, s.consumers[c].pos + Capacity(job));
    SlotPeriodic(job, s.consumers[c].pos);
    assert Window(job, s.queue, s.consumers[d].pos + Capacity(job));
  }

  /**
   * The plain accesses to `cell.data` never race: threads between their exchange and their sequence store
   * are on different cells, whether they write or read.
   */
  ghost predicate NoPayloadRace(job: Job, s: State) {
    && (forall p, r | 0 <= p < r < |s.producers| && Holds(s.producers[p].pc) && Holds(s.producers[r].pc) ::
         Slot(job, s.producers[p].pos) != Slot(job, s.producers[r].pos))
    && (forall p, c | 0 <= p < |s.producers| && 0 <= c < |s.consumers| &&
         Holds(s.producers[p].pc) && Holds(s.consumers[c].pc) ::
         Slot(job, s.producers[p].pos) != Slot(job, s.consumers[c].pos))
    && (forall c, d | 0 <= c < d < |s.consumers| && Holds(s.consumers[c].pc) && Holds(s.consumers[d].pc) ::
         Slot(job, s.consumers[c].pos) != Slot(job, s.consumers[d].pos))
  }

  lemma PayloadExclusive(job: Job, schedule: seq<Choice>)
    requires ValidJob(job)
    ensures NoPayloadRace(job, Run(job, schedule))
  {
    hide Slot, Inv, FifoInv, Linked;
    Refines(job, schedule);
    var s := Run(job, schedule);
    forall p, r | 0 <= p < r < |s.producers| && Holds(s.producers[p].pc) && Holds(s.producers[r].pc)
      ensures Slot(job, s.producers[p].pos) != Slot(job, s.producers[r].pos)
    {
      WritersApart(job, s, p, r);
    }
    forall p, c
      | 0 <= p < |s.producers| && 0 <= c < |s.consumers| && Holds(s.producers[p].pc) && Holds(s.consumers[c].pc)
      ensures Slot(job, s.producers[p].pos) != Slot(job, s.consumers[c].pos)
    {
      WriterReaderApart(job, s, p, c);
    }
    forall c, d | 0 <= c < d < |s.consumers| && Holds(s.consumers[c].pc) && Holds(s.consumers[d].pc)
      ensures Slot(job, s.consumers[c].pos) != Slot(job, s.consumers[d].pos)
    {
      ReadersApart(job, s, c, d);
    }
  }

  /** A consumer about to read its cell finds there the item whose push claimed the same ticket. */
  lemma ReadSeesItsTicket(job: Job, schedule: seq<Choice>, c: nat)
    requires ValidJob(job) && c < |job.quota|
    requires Run(job, schedule).consumers[c].pc == Payload
    ensures var s, entered := Run(job, schedule), Reaches(job, schedule).entered;
      var pos := s.consumers[c].pos;
      pos < |entered| && DataAt(job, s.queue, pos) == entered[pos]
  {
    hide Slot, Capacity, Run;
    var s, a := Run(job, schedule), Reaches(job, schedule);
    assert ConsumerLinked(job, s.queue, a.entered, a.taken[c], s.consumers[c]);
  }

  // ------------------------------------------------------- meaning of the difference

  /** The ticket of the current window that shares a cell with an earlier position. */
  lemma {:induction false} WindowTicket(job: Job, q: Queue, pos: nat) returns (t: nat)
    requires pos < q.dequeuePos + Capacity(job)
    ensures Window(job, q, t) && Slot(job, t) == Slot(job, pos)
    ensures t == pos || (pos < q.dequeuePos && t >= pos + Capacity(job))
    decreases q.dequeuePos + Capacity(job) - pos
  {
    if pos >= q.dequeuePos {
      t := pos;
    } else {
      SlotPeriodic(job, pos);
      t := WindowTicket(job, q, pos + Capacity(job));
    }
  }

  /** The item that last used the cell of ticket `pos` has not been popped, or is still being read. */
  ghost predicate PreviousLapUnreleased(job: Job, s: State, pos: nat) {
    pos >= Capacity(job) &&
    (pos - Capacity(job) >= s.queue.dequeuePos || HeldByConsumer(s.consumers, pos - Capacity(job)))
  }

  /** Ticket `pos` is unclaimed, or its producer has not published it yet. */
  ghost predicate Unpublished(s: State, pos: nat) {
    pos >= s.queue.enqueuePos || HeldByProducer(s.producers, pos)
  }

  /**
   * What the sign of `diff` tells `push`, for every position it can hold: negative exactly when the position is
   * current and the cell is still in use by the previous lap; positive exactly when the ticket has been
   * taken and published; zero when the cell is free, or the ticket is taken but unpublished.
   */
  lemma PushDiffMeaning(job: Job, schedule: seq<Choice>, pos: nat)
    requires ValidJob(job) && pos <= Run(job, schedule).queue.enqueuePos
    ensures var s := Run(job, schedule);
      && (PushDiff(job, s.queue, pos) < 0 <==> pos == s.queue.enqueuePos && PreviousLapUnreleased(job, s, pos))
      && (PushDiff(job, s.queue, pos) > 0 <==> pos < s.queue.enqueuePos && !HeldByProducer(s.producers, pos))
  {
    hide Slot, Capacity, FifoInv, Linked;
    Refines(job, schedule);
    var s := Run(job, schedule);
    assert s.queue.buffer[Slot(job, pos)].sequence <= Total(job) + Capacity(job);
    assert PushDiff(job, s.queue, pos) == SequenceAt(job, s.queue, pos) - pos;
    if pos < s.queue.enqueuePos {
      PushSignStale(job, s, pos);
    } else {
      PushSignCurrent(job, s);
    }
  }

  lemma PushSignStale(job: Job, s: State, pos: nat)
    requires ValidJob(job) && Inv(job, s) && pos < s.queue.enqueuePos
    ensures SequenceAt(job, s.queue, pos) >= pos
    ensures SequenceAt(job, s.queue, pos) > pos <==> !HeldByProducer(s.producers, pos)
  {
    var q := s.queue;
    if i :| 0 <= i < |s.producers| && Holds(s.producers[i].pc) && s.producers[i].pos == pos {
      assert ProducerOk(job, q, job.ranges[i], s.producers[i]);
    }
    CapacityAtLeastTwo(job);
    var t := WindowTicket(job, q, pos);
    assert TicketOk(job, q, t);
  }

  lemma PushSignCurrent(job: Job, s: State)
    requires ValidJob(job) && Inv(job, s)
    ensures var pos := s.queue.enqueuePos;
      && SequenceAt(job, s.queue, pos) <= pos
      && (SequenceAt(job, s.queue, pos) < pos <==> PreviousLapUnreleased(job, s, pos))
  {
    var q := s.queue;
    CapacityAtLeastTwo(job);
    if q.enqueuePos == q.dequeuePos + Capacity(job) {
      SlotPeriodic(job, q.dequeuePos);
      assert Window(job, q, q.dequeuePos) && TicketOk(job, q, q.dequeuePos);
    } else {
      assert Window(job, q, q.enqueuePos) && TicketOk(job, q, q.enqueuePos);
      HeldNotReleased(job, s, q.enqueuePos);
      if SequenceAt(job, q, q.enqueuePos) != q.enqueuePos {
        assert HeldByConsumer(s.consumers, q.enqueuePos - Capacity(job));
      }
    }
  }

  /** A cell still held by a reader has not been handed on to the next lap. */
  lemma HeldNotReleased(job: Job, s: State, pos: nat)
    requires ValidJob(job) && Inv(job, s)
    ensures HeldByConsumer(s.consumers, pos - Capacity(job)) ==>
      pos >= Capacity(job) && SequenceAt(job, s.queue, pos) + Capacity(job) == pos + 1
  {
    if i :| 0 <= i < |s.consumers| && Holds(s.consumers[i].pc) && s.consumers[i].pos == pos - Capacity(job) {
      assert ConsumerOk(job, s.queue, job.quota[i], s.consumers[i]);
      SlotPeriodic(job, s.consumers[i].pos);
    }
  }

  /**
   * What the sign of `diff` tells `pop`: negative exactly when the position is current and that ticket is
   * unpublished; positive exactly when the ticket has been taken and its cell released.
   */
  lemma PopDiffMeaning(job: Job, schedule: seq<Choice>, pos: nat)
    requires ValidJob(job) && pos <= Run(job, schedule).queue.dequeuePos
    ensures var s := Run(job, schedule);
      && (PopDiff(job, s.queue, pos) < 0 <==> pos == s.queue.dequeuePos && Unpublished(s, pos))
      && (PopDiff(job, s.queue, pos) > 0 <==> pos < s.queue.dequeuePos && !HeldByConsumer(s.consumers, pos))
  {
    hide Slot, Capacity, FifoInv, Linked;
    Refines(job, schedule);
    var s := Run(job, schedule);
    var q := s.queue;
    CapacityAtLeastTwo(job);
    var k := Slot(job, pos);
    assert q.buffer[k].sequence <= Total(job) + Capacity(job);
    assert PopDiff(job, q, pos) == SequenceAt(job, q, pos) - (pos + 1);
    var t := WindowTicket(job, q, pos);
    assert TicketOk(job, q, t);
    if i :| 0 <= i < |s.consumers| && Holds(s.consumers[i].pc) && s.consumers[i].pos == pos {
      assert ConsumerOk(job, q, job.quota[i], s.consumers[i]);
    } else if i :| 0 <= i < |s.producers| && Holds(s.producers[i].pc) && s.producers[i].pos == pos {
      assert ProducerOk(job, q, job.ranges[i], s.producers[i]);
    } else if pos < q.dequeuePos {
      ReleasedByNow(job, s, pos, t);
    }
  }

  /** A ticket popped and held by nobody has had its sequence moved past `pos + 1`. */
  lemma ReleasedByNow(job: Job, s: State, pos: nat, t: nat)
    requires ValidJob(job) && Inv(job, s) && pos < s.queue.dequeuePos && !HeldByConsumer(s.consumers, pos)
    requires Window(job, s.queue, t) && Slot(job, t) == Slot(job, pos) && t >= pos + Capacity(job)
    ensures SequenceAt(job, s.queue, pos) > pos + 1
  {
    var q := s.queue;
    CapacityAtLeastTwo(job);
    assert TicketOk(job, q, t);
    if t >= q.enqueuePos && SequenceAt(job, q, t) != t {
      assert HeldByConsumer(s.consumers, t - Capacity(job));
    }
  }

  // -------------------------------------------------------------------- delivery

  /** The values `pop` has returned to each consumer, in order. */
  function Received(job: Job, schedule: seq<Choice>): (r: seq<seq<nat>>)
    ensures |r| == |job.quota|
  {
    if schedule == [] then seq(|job.quota|, c => [])
    else
      var before := schedule[..|schedule| - 1];
      var r := Received(job, before);
      var s := Run(job, before);
      match schedule[|schedule| - 1]
      case Produce(p, spurious) => r
      case Consume(c, spurious) =>
        if c < |s.consumers| && s.consumers[c].pc == StoreSequence then r[c := r[c] + [s.consumers[c].data]] else r
  }

  /** The abstract state an interleaving has reached. */
  ghost function Reaches(job: Job, schedule: seq<Choice>): (a: Fifo)
    requires ValidJob(job)
    ensures Simulates(job, Run(job, schedule), a)
    ensures FifoAfter(job, Events(job, schedule)) == Reached(a)
  {
    Refines(job, schedule);
    FifoAfter(job, Events(job, schedule)).fifo
  }

  lemma {:induction false} EventsLength(job: Job, schedule: seq<Choice>)
    ensures |Events(job, schedule)| == |schedule|
  {
    if schedule != [] {
      EventsLength(job, schedule[..|schedule| - 1]);
    }
  }

  lemma ReachesStep(job: Job, schedule: seq<Choice>, choice: Choice)
    requires ValidJob(job)
    ensures Enabled(job, Reaches(job, schedule), Label(Run(job, schedule), choice))
    ensures Reaches(job, schedule + [choice]) == Apply(job, Reaches(job, schedule), Label(Run(job, schedule), choice))
  {
    StepSimulates(job, Run(job, schedule), Reaches(job, schedule), choice);
    var longer := schedule + [choice];
    assert longer[..|longer| - 1] == schedule;
    var events := Events(job, longer);
    EventsLength(job, schedule);
    assert events[..|events| - 1] == Events(job, schedule);
  }

  /** What one more access makes `pop` return to consumer `c`. */
  function Returned(s: State, choice: Choice, c: nat): seq<nat> {
    if choice.Consume? && choice.c == c && c < |s.consumers| && s.consumers[c].pc == StoreSequence
    then [s.consumers[c].data] else []
  }

  lemma ReceivedOneMore(job: Job, schedule: seq<Choice>, choice: Choice, c: nat)
    requires c < |job.quota|
    ensures Received(job, schedule + [choice])[c]
         == Received(job, schedule)[c] + Returned(Run(job, schedule), choice, c)
  {
    var longer := schedule + [choice];
    assert longer[..|longer| - 1] == schedule;
  }

  lemma ReceivedStep(job: Job, s: State, a: Fifo, choice: Choice, c: nat)
    requires Shaped(job, s) && Linked(job, s, a) && c < |job.quota|
    requires Enabled(job, a, Label(s, choice))
    ensures var t, t' := s.consumers[c], Step(job, s, choice).consumers[c];
      var b := Apply(job, a, Label(s, choice));
      && t.i <= |a.taken[c]| && t'.i <= |b.taken[c]|
      && b.taken[c][..t'.i] == a.taken[c][..t.i] + Returned(s, choice, c)
  {
    assert ConsumerLinked(job, s.queue, a.entered, a.taken[c], s.consumers[c]);
  }

  /** `pop` returns what the FIFO dequeued at that thread's exchange: the received values are the taken ones. */
  lemma {:induction false} ReceivedIsTaken(job: Job, schedule: seq<Choice>, c: nat)
    requires ValidJob(job) && c < |job.quota|
    ensures var t, taken := Run(job, schedule).consumers[c], Reaches(job, schedule).taken[c];
      t.i <= |taken| && Received(job, schedule)[c] == taken[..t.i]
  {
    if schedule == [] {
      NothingReceived(job, c);
    } else {
      var before, choice := schedule[..|schedule| - 1], schedule[|schedule| - 1];
      assert schedule == before + [choice];
      ReceivedIsTaken(job, before, c);
      ReceivedIsTakenStep(job, before, choice, c);
    }
  }

  lemma NothingReceived(job: Job, c: nat)
    requires ValidJob(job) && c < |job.quota|
    ensures Run(job, []).consumers[c].i == 0 && Received(job, [])[c] == []
  {
  }

  lemma ReceivedIsTakenStep(job: Job, before: seq<Choice>, choice: Choice, c: nat)
    requires ValidJob(job) && c < |job.quota|
    requires var t, taken := Run(job, before).consumers[c], Reaches(job, before).taken[c];
      t.i <= |taken| && Received(job, before)[c] == taken[..t.i]
    ensures var t, taken := Run(job, before + [choice]).consumers[c], Reaches(job, before + [choice]).taken[c];
      t.i <= |taken| && Received(job, before + [choice])[c] == taken[..t.i]
  {
    hide Run, Received, Reaches, Returned, Apply, Enabled, Label, Inv, FifoInv;
    RunOneMore(job, before, choice);
    ReachesStep(job, before, choice);
    ReceivedOneMore(job, before, choice, c);
    ReceivedStep(job, Run(job, before), Reaches(job, before), choice, c);
  }

  /** The drivers' checksum: wrapping sum of the consumers' wrapping sums. */
  function Checksum(cs: seq<Consumer>): nat {
    if cs == [] then 0 else Wrap64(Checksum(cs[..|cs| - 1]) + cs[|cs| - 1].checksum)
  }

  /** Exactly-once delivery: a complete run has handed out 0, 1, ..., Total-1, each to exactly one consumer. */
  lemma DeliversExactlyOnce(job: Job, schedule: seq<Choice>)
    requires ValidJob(job) && AllDone(job, Run(job, schedule))
    ensures multiset(Flatten(Received(job, schedule))) == multiset(Upto(Total(job)))
    ensures forall c :: 0 <= c < |job.quota| ==> |Received(job, schedule)[c]| == job.quota[c]
    ensures Checksum(Run(job, schedule).consumers) == Wrap64(Sum(Upto(Total(job))))
  {
    hide Run, Received, Slot, Capacity, Wrap64, Inv, Linked, FifoInv;
    var s, a := Run(job, schedule), Reaches(job, schedule);
    AllTaken(job, s, a);
    forall c | 0 <= c < |job.quota|
      ensures Received(job, schedule)[c] == a.taken[c]
    {
      ReceivedIsTaken(job, schedule, c);
      assert Lengths(a.taken)[c] == |a.taken[c]| == s.consumers[c].i;
    }
    assert Received(job, schedule) == a.taken;
    ExactlyOnce(job, a);
    ChecksumIsSum(s.consumers, a.taken);
  }

  lemma AllTaken(job: Job, s: State, a: Fifo)
    requires Simulates(job, s, a) && AllDone(job, s)
    ensures Lengths(a.taken) == job.quota
    ensures forall c :: 0 <= c < |job.quota| ==> s.consumers[c].i == |a.taken[c]|
    ensures forall c :: 0 <= c < |job.quota| ==> s.consumers[c].checksum == Wrap64(Sum(a.taken[c]))
  {
    forall c | 0 <= c < |job.quota|
      ensures s.consumers[c].i == |a.taken[c]| == job.quota[c]
      ensures s.consumers[c].checksum == Wrap64(Sum(a.taken[c]))
    {
      assert ConsumerDone(job, s, c);
      assert ConsumerOk(job, s.queue, job.quota[c], s.consumers[c]);
      assert ConsumerLinked(job, s.queue, a.entered, a.taken[c], s.consumers[c]);
      assert a.taken[c][..|a.taken[c]|] == a.taken[c];
    }
  }

  lemma {:induction false} ChecksumIsSum(cs: seq<Consumer>, xs: seq<seq<nat>>)
    requires |cs| == |xs|
    requires forall c :: 0 <= c < |cs| ==> cs[c].checksum == Wrap64(Sum(xs[c]))
    ensures Checksum(cs) == Wrap64(Sum(Flatten(xs)))
  {
    hide Wrap64;
    if cs != [] {
      var n := |cs| - 1;
      ChecksumIsSum(cs[..n], xs[..n]);
      SumConcat(Flatten(xs[..n]), xs[n]);
      SumNat(Flatten(xs[..n]));
      SumNat(xs[n]);
      WrapAdd(Sum(xs[n]), Sum(Flatten(xs[..n])));
      WrapAdd(Sum(Flatten(xs[..n])), Wrap64(Sum(xs[n])));
    }
  }

  /**
   * The driver's self-check at the end of a complete run. The items are always delivered exactly once, yet the
   * comparison succeeds exactly when bit 63 of the true sum is clear: the expected value is halved after it wrapped.
   */
  lemma FinalCheck(job: Job, schedule: seq<Choice>)
    requires ValidJob(job) && AllDone(job, Run(job, schedule))
    ensures Checksum(Run(job, schedule).consumers) == ExpectedChecksum(Total(job)) <==>
            Total(job) * (Total(job) - 1) / 2 % TWO_64 < TWO_63
    ensures Total(job) * (Total(job) - 1) < TWO_64 ==>
            Checksum(Run(job, schedule).consumers) == ExpectedChecksum(Total(job))
  {
    hide Run, Checksum, AllDone, Received, Wrap64;
    DeliversExactlyOnce(job, schedule);
    TotalBelow(job);
    ExpectedMatches(Total(job));
  }

  lemma TotalBelow(job: Job)
    requires ValidJob(job)
    ensures Total(job) < TWO_63
  {
  }

  /** In every run, the values one consumer receives from any one producer are strictly increasing. */
  lemma PerProducerOrder(job: Job, schedule: seq<Choice>, p: nat, c: nat, i: nat, j: nat)
    requires ValidJob(job) && p < |job.ranges| && c < |job.quota|
    requires i < j < |Received(job, schedule)[c]|
    requires In(job.ranges[p], Received(job, schedule)[c][i]) && In(job.ranges[p], Received(job, schedule)[c][j])
    ensures Received(job, schedule)[c][i] < Received(job, schedule)[c][j]
  {
    hide Run, Received, Inv, Slot, Capacity;
    ReceivedIsTaken(job, schedule, c);
    var a := Reaches(job, schedule);
    var r, x := job.ranges[p], a.taken[c] + Contents(a);
    assert OrderedFor(r, a.next[p], a) && Increasing(r, x);
    assert x[i] == Received(job, schedule)[c][i] && x[j] == Received(job, schedule)[c][j];
  }
}
