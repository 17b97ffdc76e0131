/** When a push or pop of the queue completes, and why every run can be completed. */
module MpmcProgress {
  import opened Words
  import opened Sums
  import opened QueueJob
  import opened MpmcQueue
  import opened BoundedFifo
  import opened MpmcInvariant
  import opened MpmcRefinement
  import opened MpmcTheorems

  /** `n` more accesses by one producer, no other thread moving and no exchange failing spuriously. */
  function SoloPush(job: Job, q: Queue, hi: nat, t: Producer, n: nat): (r: (Queue, Producer))
    requires Sized(job, q)
    ensures Sized(job, r.0)
    decreases n
  {
    if n == 0 then (q, t)
    else
      var (q', t') := ProducerStep(job, q, hi, t, false);
      SoloPush(job, q', hi, t', n - 1)
  }

  function SoloPop(job: Job, q: Queue, quota: nat, t: Consumer, n: nat): (r: (Queue, Consumer))
    requires Sized(job, q)
    ensures Sized(job, r.0)
    decreases n
  {
    if n == 0 then (q, t)
    else
      var (q', t') := ConsumerStep(job, q, quota, t, false);
      SoloPop(job, q', quota, t', n - 1)
  }

  // ------------------------------------------------------------------ completing

  lemma PushFromPayload(job: Job, q: Queue, hi: nat, t: Producer)
    requires Sized(job, q) && t.pc == Payload
    ensures SoloPush(job, q, hi, t, 2).1.i == t.i + 1
  {
    var (q', t') := ProducerStep(job, q, hi, t, false);
    assert SoloPush(job, q', hi, t', 1) == ProducerStep(job, q', hi, t', false);
  }

  lemma PushFromExchange(job: Job, q: Queue, hi: nat, t: Producer)
    requires Sized(job, q) && t.pc == Exchange && t.pos == q.enqueuePos
    ensures SoloPush(job, q, hi, t, 3).1.i == t.i + 1
  {
    var (q', t') := ProducerStep(job, q, hi, t, false);
    PushFromPayload(job, q', hi, t');
  }

  lemma PushFromFreeCell(job: Job, q: Queue, hi: nat, t: Producer)
    requires Sized(job, q) && t.pc == LoadSequence && t.pos == q.enqueuePos && t.pos < TWO_63
    requires SequenceAt(job, q, q.enqueuePos) == q.enqueuePos
    ensures SoloPush(job, q, hi, t, 4).1.i == t.i + 1
  {
    var (q', t') := ProducerStep(job, q, hi, t, false);
    PushFromExchange(job, q', hi, t');
  }

  /** An idle producer run alone into a free cell: five accesses, and exactly this state. */
  lemma IdlePush(job: Job, q: Queue, hi: nat, t: Producer)
    requires Sized(job, q) && t.pc == LoadPosition && t.i < hi && q.enqueuePos + 1 < TWO_63
    requires SequenceAt(job, q, q.enqueuePos) == q.enqueuePos
    ensures SoloPush(job, q, hi, t, 5) ==
            (Queue(q.buffer[Slot(job, q.enqueuePos) := Cell(q.enqueuePos + 1, t.i)], q.enqueuePos + 1, q.dequeuePos),
             Producer(LoadPosition, t.i + 1, q.enqueuePos))
  {
    var e, k := q.enqueuePos, Slot(job, q.enqueuePos);
    var (q1, t1) := ProducerStep(job, q, hi, t, false);
    var (q2, t2) := ProducerStep(job, q1, hi, t1, false);
    var (q3, t3) := ProducerStep(job, q2, hi, t2, false);
    var (q4, t4) := ProducerStep(job, q3, hi, t3, false);
    var (q5, t5) := ProducerStep(job, q4, hi, t4, false);
    assert q5.buffer == q.buffer[k := Cell(e + 1, t.i)];
    assert SoloPush(job, q4, hi, t4, 1) == (q5, t5);
    assert SoloPush(job, q3, hi, t3, 2) == (q5, t5);
    assert SoloPush(job, q2, hi, t2, 3) == (q5, t5);
  }

  /** Run alone, a producer finishes its push within six accesses if it holds a ticket or the next cell is free. */
  lemma PushCompletes(job: Job, q: Queue, hi: nat, t: Producer) returns (n: nat)
    requires Sized(job, q) && (t.pc == LoadPosition ==> t.i < hi) && t.i < hi
    requires Holds(t.pc) || (SequenceAt(job, q, q.enqueuePos) == q.enqueuePos && q.enqueuePos < TWO_63)
    ensures 1 <= n <= 6 && SoloPush(job, q, hi, t, n).1.i == t.i + 1
  {
    var (q', t') := ProducerStep(job, q, hi, t, false);
    if t.pc == StoreSequence {
      n := 1;
      assert SoloPush(job, q', hi, t', 0) == (q', t');
    } else if t.pc == Payload {
      PushFromPayload(job, q, hi, t);
      n := 2;
    } else if t.pc == Exchange && t.pos == q.enqueuePos {
      PushFromExchange(job, q, hi, t);
      n := 3;
    } else if t.pc == Exchange || t.pc == LoadPosition {
      PushFromFreeCell(job, q', hi, t');
      n := 5;
    } else if t.pos == q.enqueuePos {
      PushFromFreeCell(job, q, hi, t);
      n := 4;
    } else {
      var (q'', t'') := ProducerStep(job, q', hi, t', false);
      PushFromFreeCell(job, q'', hi, t'');
      assert SoloPush(job, q', hi, t', 5) == SoloPush(job, q'', hi, t'', 4);
      n := 6;
    }
  }

  lemma PopFromPayload(job: Job, q: Queue, quota: nat, t: Consumer)
    requires Sized(job, q) && t.pc == Payload
    ensures SoloPop(job, q, quota, t, 2).1.i == t.i + 1
  {
    var (q', t') := ConsumerStep(job, q, quota, t, false);
    assert SoloPop(job, q', quota, t', 1) == ConsumerStep(job, q', quota, t', false);
  }

  lemma PopFromExchange(job: Job, q: Queue, quota: nat, t: Consumer)
    requires Sized(job, q) && t.pc == Exchange && t.pos == q.dequeuePos
    ensures SoloPop(job, q, quota, t, 3).1.i == t.i + 1
  {
    var (q', t') := ConsumerStep(job, q, quota, t, false);
    PopFromPayload(job, q', quota, t');
  }

  lemma PopFromFullCell(job: Job, q: Queue, quota: nat, t: Consumer)
    requires Sized(job, q) && t.pc == LoadSequence && t.pos == q.dequeuePos && t.pos + 1 < TWO_63
    requires SequenceAt(job, q, q.dequeuePos) == q.dequeuePos + 1
    ensures SoloPop(job, q, quota, t, 4).1.i == t.i + 1
  {
    var (q', t') := ConsumerStep(job, q, quota, t, false);
    PopFromExchange(job, q', quota, t');
  }

  /** Run alone, a consumer finishes its pop within six accesses if it holds a ticket or the next cell is published. */
  lemma PopCompletes(job: Job, q: Queue, quota: nat, t: Consumer) returns (n: nat)
    requires Sized(job, q) && t.i < quota
    requires Holds(t.pc) || (SequenceAt(job, q, q.dequeuePos) == q.dequeuePos + 1 && q.dequeuePos + 1 < TWO_63)
    ensures 1 <= n <= 6 && SoloPop(job, q, quota, t, n).1.i == t.i + 1
  {
    var (q', t') := ConsumerStep(job, q, quota, t, false);
    if t.pc == StoreSequence {
      n := 1;
      assert SoloPop(job, q', quota, t', 0) == (q', t');
    } else if t.pc == Payload {
      PopFromPayload(job, q, quota, t);
      n := 2;
    } else if t.pc == Exchange && t.pos == q.dequeuePos {
      PopFromExchange(job, q, quota, t);
      n := 3;
    } else if t.pc == Exchange || t.pc == LoadPosition {
      PopFromFullCell(job, q', quota, t');
      n := 5;
    } else if t.pos == q.dequeuePos {
      PopFromFullCell(job, q, quota, t);
      n := 4;
    } else {
      var (q'', t'') := ConsumerStep(job, q', quota, t', false);
      PopFromFullCell(job, q'', quota, t'');
      assert SoloPop(job, q', quota, t', 5) == SoloPop(job, q'', quota, t'', 4);
      n := 6;
    }
  }

  // -------------------------------------------------------------------- blocking

  /** A producer without a ticket spins for ever, changing nothing, while the next cell is not free. */
  lemma {:induction false} PushBlocked(job: Job, q: Queue, hi: nat, t: Producer, n: nat)
    requires Sized(job, q) && !Holds(t.pc) && q.enqueuePos < TWO_63 && SequenceAt(job, q, q.enqueuePos) < TWO_63
    requires SequenceAt(job, q, q.enqueuePos) != q.enqueuePos
    requires t.pc == Exchange ==> t.pos != q.enqueuePos
    ensures SoloPush(job, q, hi, t, n).0 == q && SoloPush(job, q, hi, t, n).1.i == t.i
    ensures !Holds(SoloPush(job, q, hi, t, n).1.pc)
    decreases n
  {
    if n > 0 {
      var (q', t') := ProducerStep(job, q, hi, t, false);
      PushBlocked(job, q', hi, t', n - 1);
    }
  }

  lemma {:induction false} PopBlocked(job: Job, q: Queue, quota: nat, t: Consumer, n: nat)
    requires Sized(job, q) && !Holds(t.pc) && q.dequeuePos + 1 < TWO_63 && SequenceAt(job, q, q.dequeuePos) < TWO_63
    requires SequenceAt(job, q, q.dequeuePos) != q.dequeuePos + 1
    requires t.pc == Exchange ==> t.pos != q.dequeuePos
    ensures SoloPop(job, q, quota, t, n).0 == q && SoloPop(job, q, quota, t, n).1.i == t.i
    ensures !Holds(SoloPop(job, q, quota, t, n).1.pc)
    decreases n
  {
    if n > 0 {
      var (q', t') := ConsumerStep(job, q, quota, t, false);
      PopBlocked(job, q', quota, t', n - 1);
    }
  }

  /**
   * Exactly when a push completes without help: in any reachable state, an unfinished producer run alone
   * finishes its push if and only if it already holds a ticket or the next cell has been released by the
   * previous lap. A consumer stalled between its exchange and its sequence store therefore blocks it.
   */
  lemma PushCompletesExactly(job: Job, schedule: seq<Choice>, p: nat)
    requires ValidJob(job) && p < |job.ranges| && Run(job, schedule).producers[p].i < job.ranges[p].hi
    ensures var s := Run(job, schedule);
      var t := s.producers[p];
      (exists n: nat :: SoloPush(job, s.queue, job.ranges[p].hi, t, n).1.i == t.i + 1) <==>
      Holds(t.pc) || !PreviousLapUnreleased(job, s, s.queue.enqueuePos)
  {
    Refines(job, schedule);
    var s := Run(job, schedule);
    var q, t, hi := s.queue, s.producers[p], job.ranges[p].hi;
    PushSignCurrent(job, s);
    assert ProducerOk(job, q, job.ranges[p], t);
    if Holds(t.pc) || !PreviousLapUnreleased(job, s, q.enqueuePos) {
      var n := PushCompletes(job, q, hi, t);
    } else {
      forall n: nat
        ensures SoloPush(job, q, hi, t, n).1.i == t.i
      {
        PushBlocked(job, q, hi, t, n);
      }
    }
  }

  /**
   * Exactly when a pop completes without help: the consumer already holds a ticket, or the oldest ticket has
   * been claimed and published.
   */
  lemma PopCompletesExactly(job: Job, schedule: seq<Choice>, c: nat)
    requires ValidJob(job) && c < |job.quota| && Run(job, schedule).consumers[c].i < job.quota[c]
    ensures var s := Run(job, schedule);
      var t := s.consumers[c];
      (exists n: nat :: SoloPop(job, s.queue, job.quota[c], t, n).1.i == t.i + 1) <==>
      Holds(t.pc) || !Unpublished(s, s.queue.dequeuePos)
  {
    Refines(job, schedule);
    var s := Run(job, schedule);
    var q, t, quota := s.queue, s.consumers[c], job.quota[c];
    OldestPublished(job, s);
    assert ConsumerOk(job, q, quota, t);
    if Holds(t.pc) || !Unpublished(s, q.dequeuePos) {
      var n := PopCompletes(job, q, quota, t);
    } else {
      forall n: nat
        ensures SoloPop(job, q, quota, t, n).1.i == t.i
      {
        PopBlocked(job, q, quota, t, n);
      }
    }
  }

  lemma OldestPublished(job: Job, s: State)
    requires ValidJob(job) && Inv(job, s)
    ensures SequenceAt(job, s.queue, s.queue.dequeuePos) == s.queue.dequeuePos + 1 <==>
            !Unpublished(s, s.queue.dequeuePos)
  {
    var q := s.queue;
    CapacityAtLeastTwo(job);
    assert Window(job, q, q.dequeuePos) && TicketOk(job, q, q.dequeuePos);
    if i :| 0 <= i < |s.producers| && Holds(s.producers[i].pc) && s.producers[i].pos == q.dequeuePos {
      assert ProducerOk(job, q, job.ranges[i], s.producers[i]);
    }
  }

  // --------------------------------------------------------------- no deadlock

  /** A thread that can finish its operation alone. */
  ghost predicate CanPush(job: Job, s: State, p: nat)
    requires Shaped(job, s)
  {
    p < |s.producers| && s.producers[p].i < job.ranges[p].hi &&
    (Holds(s.producers[p].pc) || SequenceAt(job, s.queue, s.queue.enqueuePos) == s.queue.enqueuePos)
  }

  ghost predicate CanPop(job: Job, s: State, c: nat)
    requires Shaped(job, s)
  {
    c < |s.consumers| && s.consumers[c].i < job.quota[c] &&
    (Holds(s.consumers[c].pc) || SequenceAt(job, s.queue, s.queue.dequeuePos) == s.queue.dequeuePos + 1)
  }

  ghost predicate SomeHolder(s: State) {
    || (exists p :: 0 <= p < |s.producers| && Holds(s.producers[p].pc))
    || (exists c :: 0 <= c < |s.consumers| && Holds(s.consumers[c].pc))
  }

  lemma HolderCanFinish(job: Job, s: State)
    requires Inv(job, s) && SomeHolder(s)
    ensures (exists p :: CanPush(job, s, p)) || (exists c :: CanPop(job, s, c))
  {
    if p :| 0 <= p < |s.producers| && Holds(s.producers[p].pc) {
      assert ProducerOk(job, s.queue, job.ranges[p], s.producers[p]);
      assert CanPush(job, s, p);
    } else {
      var c :| 0 <= c < |s.consumers| && Holds(s.consumers[c].pc);
      assert ConsumerOk(job, s.queue, job.quota[c], s.consumers[c]);
      assert CanPop(job, s, c);
    }
  }

  /** With an item waiting and nobody mid-operation, some consumer can take it. */
  lemma QuietNonemptyCanPop(job: Job, s: State, a: Fifo)
    requires ValidJob(job) && Simulates(job, s, a) && !SomeHolder(s) && s.queue.dequeuePos < s.queue.enqueuePos
    ensures exists c :: CanPop(job, s, c)
  {
    hide Slot, Capacity;
    var q := s.queue;
    CapacityAtLeastTwo(job);
    assert Window(job, q, q.dequeuePos) && TicketOk(job, q, q.dequeuePos);
    LeftBound(job, a);
    EnteredBound(job, a);
    assert Lengths(a.taken) != job.quota;
    var c :| 0 <= c < |a.taken| && |a.taken[c]| != job.quota[c];
    assert ConsumerLinked(job, q, a.entered, a.taken[c], s.consumers[c]);
    assert CanPop(job, s, c);
  }

  /** With the queue empty and nobody mid-operation, some producer can push, or everyone is done. */
  lemma QuietEmptyCanPush(job: Job, s: State, a: Fifo)
    requires ValidJob(job) && Simulates(job, s, a) && !SomeHolder(s) && s.queue.dequeuePos == s.queue.enqueuePos
    requires !AllDone(job, s)
    ensures exists p :: CanPush(job, s, p)
  {
    var q := s.queue;
    assert Window(job, q, q.enqueuePos) && TicketOk(job, q, q.enqueuePos);
    if p :| 0 <= p < |s.producers| && s.producers[p].i < job.ranges[p].hi {
      assert CanPush(job, s, p);
    } else {
      QuietFinished(job, s, a);
      assert false;
    }
  }

  lemma QuietFinished(job: Job, s: State, a: Fifo)
    requires ValidJob(job) && Simulates(job, s, a) && !SomeHolder(s) && s.queue.dequeuePos == s.queue.enqueuePos
    requires forall p :: 0 <= p < |s.producers| ==> s.producers[p].i >= job.ranges[p].hi
    ensures AllDone(job, s)
  {
    hide Slot, Capacity, Conserved, Ordered, WritersExist, ReadersExist, Tickets;
    forall p | 0 <= p < |s.producers|
      ensures ProducerDone(job, s, p) && a.next[p] == job.ranges[p].hi
    {
      assert ProducerOk(job, s.queue, job.ranges[p], s.producers[p]);
      assert ProducerLinked(job, s.queue, a.entered, a.next[p], s.producers[p]);
    }
    assert a.next == Ends(job);
    EnteredBound(job, a);
    LeftBound(job, a);
    forall c | 0 <= c < |s.consumers|
      ensures ConsumerDone(job, s, c)
    {
      assert Lengths(a.taken)[c] == job.quota[c];
      assert ConsumerOk(job, s.queue, job.quota[c], s.consumers[c]);
      assert ConsumerLinked(job, s.queue, a.entered, a.taken[c], s.consumers[c]);
    }
  }

  /** In every reachable state with work left, some thread's way is free. */
  lemma SomeoneCan(job: Job, schedule: seq<Choice>)
    requires ValidJob(job) && !AllDone(job, Run(job, schedule))
    ensures var s := Run(job, schedule); (exists p :: CanPush(job, s, p)) || (exists c :: CanPop(job, s, c))
  {
    Refines(job, schedule);
    var s, a := Run(job, schedule), FifoAfter(job, Events(job, schedule)).fifo;
    if SomeHolder(s) {
      HolderCanFinish(job, s);
    } else if s.queue.dequeuePos < s.queue.enqueuePos {
      QuietNonemptyCanPop(job, s, a);
    } else {
      QuietEmptyCanPush(job, s, a);
    }
  }

  /** Producer `p` has an item to push and, run alone, finishes that push within six accesses. */
  ghost predicate PushFinishes(job: Job, s: State, p: nat)
    requires Shaped(job, s)
  {
    p < |s.producers| && s.producers[p].i < job.ranges[p].hi &&
    exists n: nat :: n <= 6 && SoloPush(job, s.queue, job.ranges[p].hi, s.producers[p], n).1.i == s.producers[p].i + 1
  }

  ghost predicate PopFinishes(job: Job, s: State, c: nat)
    requires Shaped(job, s)
  {
    c < |s.consumers| && s.consumers[c].i < job.quota[c] &&
    exists n: nat :: n <= 6 && SoloPop(job, s.queue, job.quota[c], s.consumers[c], n).1.i == s.consumers[c].i + 1
  }

  /**
   * No deadlock: in every reachable state with work left, some thread run alone finishes its operation. Producers
   * all waiting on a full queue while consumers all wait on an empty one is unreachable.
   */
  lemma NoDeadlock(job: Job, schedule: seq<Choice>)
    requires ValidJob(job) && !AllDone(job, Run(job, schedule))
    ensures var s := Run(job, schedule); (exists p :: PushFinishes(job, s, p)) || (exists c :: PopFinishes(job, s, c))
  {
    SomeoneCan(job, schedule);
    PositionsSmall(job, schedule);
    var s := Run(job, schedule);
    if p :| CanPush(job, s, p) {
      CanPushFinishes(job, s, p);
    } else {
      var c :| CanPop(job, s, c);
      CanPopFinishes(job, s, c);
    }
  }

  lemma CanPushFinishes(job: Job, s: State, p: nat)
    requires Shaped(job, s) && CanPush(job, s, p) && s.queue.enqueuePos < TWO_63
    ensures PushFinishes(job, s, p)
  {
    var n := PushCompletes(job, s.queue, job.ranges[p].hi, s.producers[p]);
  }

  lemma CanPopFinishes(job: Job, s: State, c: nat)
    requires Shaped(job, s) && CanPop(job, s, c) && s.queue.dequeuePos + 1 < TWO_63
    ensures PopFinishes(job, s, c)
  {
    var n := PopCompletes(job, s.queue, job.quota[c], s.consumers[c]);
  }

  // ----------------------------------------------------------------- completion

  /** Operations still to be performed. */
  function PushesLeft(job: Job, s: State): (r: seq<int>)
    requires Shaped(job, s)
    ensures |r| == |s.producers|
    ensures forall p :: 0 <= p < |r| ==> r[p] == job.ranges[p].hi - s.producers[p].i
  {
    seq(|s.producers|, p requires 0 <= p < |s.producers| => job.ranges[p].hi - s.producers[p].i)
  }

  function PopsLeft(job: Job, s: State): (r: seq<int>)
    requires Shaped(job, s)
    ensures |r| == |s.consumers|
    ensures forall c :: 0 <= c < |r| ==> r[c] == job.quota[c] - s.consumers[c].i
  {
    seq(|s.consumers|, c requires 0 <= c < |s.consumers| => job.quota[c] - s.consumers[c].i)
  }

  function WorkLeft(job: Job, s: State): int
    requires Shaped(job, s)
  {
    Sum(PushesLeft(job, s)) + Sum(PopsLeft(job, s))
  }

  lemma WorkLeftNatural(job: Job, s: State)
    requires Inv(job, s)
    ensures WorkLeft(job, s) >= 0
  {
    forall p | 0 <= p < |s.producers|
      ensures PushesLeft(job, s)[p] >= 0
    {
      assert ProducerOk(job, s.queue, job.ranges[p], s.producers[p]);
    }
    forall c | 0 <= c < |s.consumers|
      ensures PopsLeft(job, s)[c] >= 0
    {
      assert ConsumerOk(job, s.queue, job.quota[c], s.consumers[c]);
    }
    SumNat(PushesLeft(job, s));
    SumNat(PopsLeft(job, s));
  }

  function Repeat(choice: Choice, n: nat): seq<Choice> {
    seq(n, i => choice)
  }

  lemma {:induction false} RunSoloPush(job: Job, schedule: seq<Choice>, p: nat, n: nat)
    requires p < |job.ranges|
    ensures var s, s' := Run(job, schedule), Run(job, schedule + Repeat(Produce(p, false), n));
      var (q, t) := SoloPush(job, s.queue, job.ranges[p].hi, s.producers[p], n);
      s' == s.(queue := q, producers := s.producers[p := t])
    decreases n
  {
    var s := Run(job, schedule);
    if n == 0 {
      assert schedule + Repeat(Produce(p, false), 0) == schedule;
    } else {
      var next := schedule + [Produce(p, false)];
      assert next[..|next| - 1] == schedule;
      RunSoloPush(job, next, p, n - 1);
      assert schedule + Repeat(Produce(p, false), n) == next + Repeat(Produce(p, false), n - 1);
    }
  }

  lemma {:induction false} RunSoloPop(job: Job, schedule: seq<Choice>, c: nat, n: nat)
    requires c < |job.quota|
    ensures var s, s' := Run(job, schedule), Run(job, schedule + Repeat(Consume(c, false), n));
      var (q, t) := SoloPop(job, s.queue, job.quota[c], s.consumers[c], n);
      s' == s.(queue := q, consumers := s.consumers[c := t])
    decreases n
  {
    var s := Run(job, schedule);
    if n == 0 {
      assert schedule + Repeat(Consume(c, false), 0) == schedule;
    } else {
      var next := schedule + [Consume(c, false)];
      assert next[..|next| - 1] == schedule;
      RunSoloPop(job, next, c, n - 1);
      assert schedule + Repeat(Consume(c, false), n) == next + Repeat(Consume(c, false), n - 1);
    }
  }

  lemma PushLowersWork(job: Job, s: State, s': State, p: nat)
    requires Shaped(job, s) && Shaped(job, s') && p < |s.producers|
    requires s'.producers == s.producers[p := s'.producers[p]] && s'.consumers == s.consumers
    requires s'.producers[p].i == s.producers[p].i + 1
    ensures WorkLeft(job, s') == WorkLeft(job, s) - 1
  {
    var x := PushesLeft(job, s);
    SumUpdate(x, p, x[p] - 1);
    assert PushesLeft(job, s') == x[p := x[p] - 1];
    assert PopsLeft(job, s') == PopsLeft(job, s);
  }

  lemma PopLowersWork(job: Job, s: State, s': State, c: nat)
    requires Shaped(job, s) && Shaped(job, s') && c < |s.consumers|
    requires s'.consumers == s.consumers[c := s'.consumers[c]] && s'.producers == s.producers
    requires s'.consumers[c].i == s.consumers[c].i + 1
    ensures WorkLeft(job, s') == WorkLeft(job, s) - 1
  {
    var x := PopsLeft(job, s);
    SumUpdate(x, c, x[c] - 1);
    assert PopsLeft(job, s') == x[c := x[c] - 1];
    assert PushesLeft(job, s') == PushesLeft(job, s);
  }

  lemma PushMore(job: Job, schedule: seq<Choice>, p: nat) returns (more: seq<Choice>)
    requires ValidJob(job) && CanPush(job, Run(job, schedule), p) && Run(job, schedule).queue.enqueuePos < TWO_63
    ensures |more| <= 6 && WorkLeft(job, Run(job, schedule + more)) == WorkLeft(job, Run(job, schedule)) - 1
  {
    var s := Run(job, schedule);
    var n := PushCompletes(job, s.queue, job.ranges[p].hi, s.producers[p]);
    more := Repeat(Produce(p, false), n);
    RunSoloPush(job, schedule, p, n);
    PushLowersWork(job, s, Run(job, schedule + more), p);
  }

  lemma PopMore(job: Job, schedule: seq<Choice>, c: nat) returns (more: seq<Choice>)
    requires ValidJob(job) && CanPop(job, Run(job, schedule), c) && Run(job, schedule).queue.dequeuePos + 1 < TWO_63
    ensures |more| <= 6 && WorkLeft(job, Run(job, schedule + more)) == WorkLeft(job, Run(job, schedule)) - 1
  {
    var s := Run(job, schedule);
    var n := PopCompletes(job, s.queue, job.quota[c], s.consumers[c]);
    more := Repeat(Consume(c, false), n);
    RunSoloPop(job, schedule, c, n);
    PopLowersWork(job, s, Run(job, schedule + more), c);
  }

  lemma PositionsSmall(job: Job, schedule: seq<Choice>)
    requires ValidJob(job)
    ensures Run(job, schedule).queue.enqueuePos < TWO_63 && Run(job, schedule).queue.dequeuePos + 1 < TWO_63
    ensures WorkLeft(job, Run(job, schedule)) >= 0
  {
    Refines(job, schedule);
    CapacityAtLeastTwo(job);
    WorkLeftNatural(job, Run(job, schedule));
  }

  /** From every unfinished reachable state, some continuation completes one more operation. */
  lemma OneMoreOperation(job: Job, schedule: seq<Choice>) returns (more: seq<Choice>)
    requires ValidJob(job) && !AllDone(job, Run(job, schedule))
    ensures |more| <= 6 && WorkLeft(job, Run(job, schedule + more)) == WorkLeft(job, Run(job, schedule)) - 1
  {
    PositionsSmall(job, schedule);
    SomeoneCan(job, schedule);
    if p :| CanPush(job, Run(job, schedule), p) {
      more := PushMore(job, schedule, p);
    } else {
      var c :| CanPop(job, Run(job, schedule), c);
      more := PopMore(job, schedule, c);
    }
  }

  lemma {:induction false} CompleteFrom(job: Job, schedule: seq<Choice>, work: nat) returns (rest: seq<Choice>)
    requires ValidJob(job) && WorkLeft(job, Run(job, schedule)) == work
    ensures AllDone(job, Run(job, schedule + rest)) && |rest| <= 6 * work
    decreases work
  {
    if AllDone(job, Run(job, schedule)) {
      rest := [];
      assert schedule + rest == schedule;
    } else {
      var more := OneMoreOperation(job, schedule);
      PositionsSmall(job, schedule + more);
      var tail := CompleteFrom(job, schedule + more, work - 1);
      rest := more + tail;
      Associative(schedule, more, tail);
    }
  }

  /** Every interleaving, however it began, can be completed, in at most six accesses per outstanding operation. */
  lemma CanComplete(job: Job, schedule: seq<Choice>)
    requires ValidJob(job)
    ensures exists rest :: AllDone(job, Run(job, schedule + rest)) && |rest| <= 6 * WorkLeft(job, Run(job, schedule))
  {
    PositionsSmall(job, schedule);
    var rest := CompleteFrom(job, schedule, WorkLeft(job, Run(job, schedule)));
  }

  // ----------------------------------------------------- the final check, for given item counts

  /** An item count for which bit 63 of the true sum is set. */
  const FAILING_ITEMS: nat := 0x1_0000_0002

  /**
   * For this item count, whatever the capacity and the thread counts, a run that delivers every item exactly once
   * exists, and every such run is reported as a mismatch.
   */
  lemma CorrectRunFailsCheck(logCapacity: nat, producers: nat, consumers: nat)
    requires producers > 0 && consumers > 0 && FAILING_ITEMS % producers == 0 && FAILING_ITEMS % consumers == 0
    requires logCapacity >= 1 && FAILING_ITEMS + Pow2(logCapacity) < TWO_63
    ensures var job := EvenSplit(logCapacity, FAILING_ITEMS, producers, consumers);
      && (exists schedule :: AllDone(job, Run(job, schedule)))
      && (forall schedule :: AllDone(job, Run(job, schedule)) ==>
           multiset(Flatten(Received(job, schedule))) == multiset(Upto(FAILING_ITEMS)) &&
           Checksum(Run(job, schedule).consumers) != ExpectedChecksum(FAILING_ITEMS))
  {
    var job := EvenSplit(logCapacity, FAILING_ITEMS, producers, consumers);
    EvenSplitValid(logCapacity, FAILING_ITEMS, producers, consumers);
    CanComplete(job, []);
    forall schedule | AllDone(job, Run(job, schedule))
      ensures multiset(Flatten(Received(job, schedule))) == multiset(Upto(FAILING_ITEMS))
      ensures Checksum(Run(job, schedule).consumers) != ExpectedChecksum(FAILING_ITEMS)
    {
      DeliversExactlyOnce(job, schedule);
      FinalCheck(job, schedule);
      BitSet();
    }
  }

  lemma BitSet()
    ensures FAILING_ITEMS * (FAILING_ITEMS - 1) / 2 % TWO_64 >= TWO_63
  {
  }

  /** `kTotalItems`. */
  const SHIPPED_ITEMS: nat := 100_000_000

  /** With the item count of the source every complete run passes its check. */
  lemma ShippedCheckPasses(job: Job, schedule: seq<Choice>)
    requires ValidJob(job) && Total(job) == SHIPPED_ITEMS && AllDone(job, Run(job, schedule))
    ensures Checksum(Run(job, schedule).consumers) == ExpectedChecksum(SHIPPED_ITEMS) == 4_999_999_950_000_000
  {
    FinalCheck(job, schedule);
  }
}
