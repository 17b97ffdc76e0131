/** The multi-producer queue is not lock-free: one stopped thread stops the other side. */
module MpmcStalls {
  import opened Words
  import opened QueueJob
  import opened MpmcQueue
  import opened BoundedFifo
  import opened MpmcInvariant
  import opened MpmcRefinement
  import opened MpmcProgress

  // ------------------------------------------------------------------ filling the queue

  /** All producers between two pushes, no consumer started, `k` items in. */
  ghost predicate FilledTo(job: Job, s: State, k: nat) {
    && Shaped(job, s)
    && s.queue.enqueuePos == k && s.queue.dequeuePos == 0
    && (forall p :: 0 <= p < |s.producers| ==> s.producers[p].pc == LoadPosition)
    && s.consumers == Init(job).consumers
  }

  /** While items are left to push, some producer has one. */
  lemma SomeoneHasItems(job: Job, s: State, a: Fifo) returns (p: nat)
    requires ValidJob(job) && Simulates(job, s, a) && s.queue.enqueuePos < Total(job)
    requires forall p :: 0 <= p < |s.producers| ==> s.producers[p].pc == LoadPosition
    ensures p < |s.producers| && s.producers[p].i < job.ranges[p].hi
  {
    EnteredBound(job, a);
    assert a.next != Ends(job);
    p :| 0 <= p < |a.next| && a.next[p] != job.ranges[p].hi;
    assert ProducerLinked(job, s.queue, a.entered, a.next[p], s.producers[p]);
    assert ProducerOk(job, s.queue, job.ranges[p], s.producers[p]);
  }

  /** With room in the queue and no consumer mid-operation, the next cell is free. */
  lemma RoomMeansFree(job: Job, s: State)
    requires ValidJob(job) && Inv(job, s) && s.queue.enqueuePos < s.queue.dequeuePos + Capacity(job)
    requires forall c :: 0 <= c < |s.consumers| ==> !Holds(s.consumers[c].pc)
    ensures SequenceAt(job, s.queue, s.queue.enqueuePos) == s.queue.enqueuePos
  {
    assert Window(job, s.queue, s.queue.enqueuePos) && TicketOk(job, s.queue, s.queue.enqueuePos);
  }

  lemma {:induction false} Fill(job: Job, k: nat) returns (schedule: seq<Choice>)
    requires ValidJob(job) && k <= Capacity(job) && k <= Total(job)
    ensures FilledTo(job, Run(job, schedule), k)
  {
    schedule := [];
    if k > 0 {
      var before := Fill(job, k - 1);
      schedule := FillOne(job, before, k - 1);
    }
  }

  lemma FillOne(job: Job, schedule: seq<Choice>, k: nat) returns (longer: seq<Choice>)
    requires ValidJob(job) && k < Capacity(job) && k < Total(job) && FilledTo(job, Run(job, schedule), k)
    ensures FilledTo(job, Run(job, longer), k + 1)
  {
    hide Run, Slot, Capacity, Inv, FifoInv, Linked;
    Refines(job, schedule);
    var s, a := Run(job, schedule), FifoAfter(job, Events(job, schedule)).fifo;
    var p := SomeoneHasItems(job, s, a);
    RoomMeansFree(job, s);
    IdlePush(job, s.queue, job.ranges[p].hi, s.producers[p]);
    RunSoloPush(job, schedule, p, 5);
    longer := schedule + Repeat(Produce(p, false), 5);
  }

  // ----------------------------------------------------------------- a stopped consumer

  /** The choices move no consumer `c`. */
  ghost predicate Without(rest: seq<Choice>, c: nat) {
    forall i :: 0 <= i < |rest| ==> !(rest[i].Consume? && rest[i].c == c)
  }

  /** However long the other threads run, the shared push position stays where it is. */
  ghost predicate PushesStop(job: Job, schedule: seq<Choice>, c: nat) {
    forall rest :: Without(rest, c) ==>
      Run(job, schedule + rest).queue.enqueuePos == Run(job, schedule).queue.enqueuePos
  }

  /** Nor does any producer run alone finish a push. */
  ghost predicate NoPushFinishes(job: Job, s: State)
    requires Shaped(job, s)
  {
    forall p :: 0 <= p < |s.producers| && s.producers[p].i < job.ranges[p].hi ==>
      !exists n: nat :: SoloPush(job, s.queue, job.ranges[p].hi, s.producers[p], n).1.i == s.producers[p].i + 1
  }

  /** Three accesses by a first consumer into a queue with an item: it has claimed ticket 0 and read nothing. */
  lemma ClaimFirst(job: Job, q: Queue, quota: nat, t: Consumer)
    requires Sized(job, q) && quota > 0 && t == Consumer(LoadPosition, 0, 0, 0, 0) && q.dequeuePos == 0
    requires SequenceAt(job, q, 0) == 1
    ensures SoloPop(job, q, quota, t, 3) == (q.(dequeuePos := 1), Consumer(Payload, 0, 0, 0, 0))
  {
    var (q1, t1) := ConsumerStep(job, q, quota, t, false);
    var (q2, t2) := ConsumerStep(job, q1, quota, t1, false);
    var (q3, t3) := ConsumerStep(job, q2, quota, t2, false);
    assert SoloPop(job, q2, quota, t2, 1) == (q3, t3);
    assert SoloPop(job, q1, quota, t1, 2) == (q3, t3);
  }

  /** One access by anybody but the stopped consumer. */
  lemma OtherMoves(job: Job, s: State, choice: Choice, c: nat)
    requires Balanced(job) && Shaped(job, s) && c < |s.consumers|
    requires Without([choice], c) && s.queue.enqueuePos + 1 < TWO_63
    ensures Step(job, s, choice).consumers[c] == s.consumers[c]
    ensures Step(job, s, choice).queue.enqueuePos >= s.queue.enqueuePos
  {
    assert [choice][0] == choice;
  }

  lemma StoppedOneMore(job: Job, schedule: seq<Choice>, choice: Choice, c: nat)
    requires ValidJob(job) && c < |job.quota| && Without([choice], c)
    requires var s := Run(job, schedule);
      Holds(s.consumers[c].pc) && s.queue.enqueuePos == s.consumers[c].pos + Capacity(job)
    ensures Run(job, schedule + [choice]).consumers[c] == Run(job, schedule).consumers[c]
    ensures Run(job, schedule + [choice]).queue.enqueuePos == Run(job, schedule).queue.enqueuePos
  {
    RunOneMore(job, schedule, choice);
    PushPositionSmall(job, schedule);
    OtherMoves(job, Run(job, schedule), choice, c);
    HeldTicket(job, schedule + [choice], c);
  }

  lemma PushPositionSmall(job: Job, schedule: seq<Choice>)
    requires ValidJob(job)
    ensures Run(job, schedule).queue.enqueuePos + 1 < TWO_63
  {
    Refines(job, schedule);
    CapacityAtLeastTwo(job);
  }

  /** The holder of a ticket keeps the push position within a lap of it, by the invariant alone. */
  lemma {:induction false} StoppedConsumer(job: Job, schedule: seq<Choice>, rest: seq<Choice>, c: nat)
    requires ValidJob(job) && c < |job.quota| && Without(rest, c)
    requires var s := Run(job, schedule);
      Holds(s.consumers[c].pc) && s.queue.enqueuePos == s.consumers[c].pos + Capacity(job)
    ensures Run(job, schedule + rest).consumers[c] == Run(job, schedule).consumers[c]
    ensures Run(job, schedule + rest).queue.enqueuePos == Run(job, schedule).queue.enqueuePos
    decreases |rest|
  {
    if rest == [] {
      assert schedule + rest == schedule;
    } else {
      var init, choice := rest[..|rest| - 1], rest[|rest| - 1];
      StoppedConsumer(job, schedule, init, c);
      assert schedule + rest == schedule + init + [choice];
      StoppedOneMore(job, schedule + init, choice, c);
    }
  }

  lemma HeldTicket(job: Job, schedule: seq<Choice>, c: nat)
    requires ValidJob(job) && c < |job.quota| && Holds(Run(job, schedule).consumers[c].pc)
    ensures Run(job, schedule).queue.enqueuePos <= Run(job, schedule).consumers[c].pos + Capacity(job)
  {
    Refines(job, schedule);
    var s := Run(job, schedule);
    assert ConsumerOk(job, s.queue, job.quota[c], s.consumers[c]);
  }

  lemma NobodyFinishes(job: Job, schedule: seq<Choice>, c: nat)
    requires ValidJob(job) && c < |job.quota|
    requires var s := Run(job, schedule);
      Holds(s.consumers[c].pc) && s.queue.enqueuePos == s.consumers[c].pos + Capacity(job)
    requires forall p :: 0 <= p < |job.ranges| ==> Run(job, schedule).producers[p].pc == LoadPosition
    ensures NoPushFinishes(job, Run(job, schedule))
  {
    var s := Run(job, schedule);
    assert HeldByConsumer(s.consumers, s.queue.enqueuePos - Capacity(job));
    forall p | 0 <= p < |s.producers| && s.producers[p].i < job.ranges[p].hi
      ensures !exists n: nat :: SoloPush(job, s.queue, job.ranges[p].hi, s.producers[p], n).1.i == s.producers[p].i + 1
    {
      PushCompletesExactly(job, schedule, p);
    }
  }

  /** Consumer `c` has claimed an item and not released its cell. */
  ghost predicate StalledByConsumer(job: Job, schedule: seq<Choice>, c: nat)
    requires c < |job.quota|
  {
    var s := Run(job, schedule);
    && s.consumers[c].pc == Payload
    && s.queue.enqueuePos < s.queue.dequeuePos + Capacity(job)
    && s.queue.enqueuePos < Total(job)
    && PushesStop(job, schedule, c)
    && NoPushFinishes(job, s)
  }

  /**
   * Not lock-free: for every job with more items than cells and every consumer that has something to pop, there is an
   * interleaving after which that consumer has won its exchange, the queue has room and items are left to push, but
   * no push ever takes effect again until the consumer moves, whatever the other threads do.
   */
  lemma ConsumerCanBlockPushes(job: Job, c: nat)
    requires ValidJob(job) && Total(job) > Capacity(job) && c < |job.quota| && job.quota[c] > 0
    ensures exists schedule :: StalledByConsumer(job, schedule, c)
  {
    var full := Fill(job, Capacity(job));
    FirstPublished(job, full);
    var q := Run(job, full).queue;
    ClaimFirst(job, q, job.quota[c], Run(job, full).consumers[c]);
    RunSoloPop(job, full, c, 3);
    var schedule := full + Repeat(Consume(c, false), 3);
    NobodyFinishes(job, schedule, c);
    forall rest | Without(rest, c)
      ensures Run(job, schedule + rest).queue.enqueuePos == Run(job, schedule).queue.enqueuePos
    {
      StoppedConsumer(job, schedule, rest, c);
    }
    assert PushesStop(job, schedule, c);
    assert StalledByConsumer(job, schedule, c);
  }

  lemma FirstPublished(job: Job, schedule: seq<Choice>)
    requires ValidJob(job) && FilledTo(job, Run(job, schedule), Capacity(job))
    ensures SequenceAt(job, Run(job, schedule).queue, 0) == 1
  {
    Refines(job, schedule);
    OldestPublished(job, Run(job, schedule));
  }

  // ----------------------------------------------------------------- a stopped producer

  ghost predicate WithoutProducer(rest: seq<Choice>, p: nat) {
    forall i :: 0 <= i < |rest| ==> !(rest[i].Produce? && rest[i].p == p)
  }

  ghost predicate PopsStop(job: Job, schedule: seq<Choice>, p: nat) {
    forall rest :: WithoutProducer(rest, p) ==>
      Run(job, schedule + rest).queue.dequeuePos == Run(job, schedule).queue.dequeuePos
  }

  lemma OthersMove(job: Job, s: State, choice: Choice, p: nat)
    requires Balanced(job) && Shaped(job, s) && p < |s.producers|
    requires WithoutProducer([choice], p) && s.queue.dequeuePos + 1 < TWO_63
    ensures Step(job, s, choice).producers[p] == s.producers[p]
    ensures Step(job, s, choice).queue.dequeuePos >= s.queue.dequeuePos
  {
    assert [choice][0] == choice;
  }

  lemma WritingOneMore(job: Job, schedule: seq<Choice>, choice: Choice, p: nat)
    requires ValidJob(job) && p < |job.ranges| && WithoutProducer([choice], p)
    requires var s := Run(job, schedule); Holds(s.producers[p].pc) && s.queue.dequeuePos == s.producers[p].pos
    ensures Run(job, schedule + [choice]).producers[p] == Run(job, schedule).producers[p]
    ensures Run(job, schedule + [choice]).queue.dequeuePos == Run(job, schedule).queue.dequeuePos
  {
    RunOneMore(job, schedule, choice);
    PositionsSmall(job, schedule);
    OthersMove(job, Run(job, schedule), choice, p);
    WrittenTicket(job, schedule + [choice], p);
  }

  lemma {:induction false} StoppedProducer(job: Job, schedule: seq<Choice>, rest: seq<Choice>, p: nat)
    requires ValidJob(job) && p < |job.ranges| && WithoutProducer(rest, p)
    requires var s := Run(job, schedule); Holds(s.producers[p].pc) && s.queue.dequeuePos == s.producers[p].pos
    ensures Run(job, schedule + rest).producers[p] == Run(job, schedule).producers[p]
    ensures Run(job, schedule + rest).queue.dequeuePos == Run(job, schedule).queue.dequeuePos
    decreases |rest|
  {
    if rest == [] {
      assert schedule + rest == schedule;
    } else {
      var init, choice := rest[..|rest| - 1], rest[|rest| - 1];
      StoppedProducer(job, schedule, init, p);
      assert schedule + rest == schedule + init + [choice];
      WritingOneMore(job, schedule + init, choice, p);
    }
  }

  lemma WrittenTicket(job: Job, schedule: seq<Choice>, p: nat)
    requires ValidJob(job) && p < |job.ranges| && Holds(Run(job, schedule).producers[p].pc)
    ensures Run(job, schedule).queue.dequeuePos <= Run(job, schedule).producers[p].pos
  {
    Refines(job, schedule);
    var s := Run(job, schedule);
    assert ProducerOk(job, s.queue, job.ranges[p], s.producers[p]);
  }

  /** Three accesses by a first producer: it has claimed ticket 0 and written nothing. */
  lemma PushFirst(job: Job, q: Queue, hi: nat, t: Producer)
    requires Sized(job, q) && t.i < hi && t.pc == LoadPosition && q.enqueuePos == 0
    requires SequenceAt(job, q, 0) == 0
    ensures SoloPush(job, q, hi, t, 3) == (q.(enqueuePos := 1), Producer(Payload, t.i, 0))
  {
    var (q1, t1) := ProducerStep(job, q, hi, t, false);
    var (q2, t2) := ProducerStep(job, q1, hi, t1, false);
    var (q3, t3) := ProducerStep(job, q2, hi, t2, false);
    assert SoloPush(job, q2, hi, t2, 1) == (q3, t3);
    assert SoloPush(job, q1, hi, t1, 2) == (q3, t3);
  }

  /**
   * The other side: any producer with an item can stop so that, whatever the other threads push meanwhile, no pop
   * ever takes effect until it moves.
   */
  lemma ProducerCanBlockPops(job: Job, p: nat)
    requires ValidJob(job) && p < |job.ranges| && job.ranges[p].lo < job.ranges[p].hi
    ensures exists schedule :: Run(job, schedule).producers[p].pc == Payload && PopsStop(job, schedule, p)
  {
    var q, t := Init(job).queue, Init(job).producers[p];
    SlotSmall(job, 0);
    PushFirst(job, q, job.ranges[p].hi, t);
    RunSoloPush(job, [], p, 3);
    var schedule := [] + Repeat(Produce(p, false), 3);
    forall rest | WithoutProducer(rest, p)
      ensures Run(job, schedule + rest).queue.dequeuePos == Run(job, schedule).queue.dequeuePos
    {
      StoppedProducer(job, schedule, rest, p);
    }
    assert PopsStop(job, schedule, p);
  }
}
