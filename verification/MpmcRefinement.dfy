/** Every interleaving of the queue's atomic accesses is a run of the bounded FIFO. */
module MpmcRefinement {
  import opened Words
  import opened Sums
  import opened QueueJob
  import opened MpmcQueue
  import opened BoundedFifo
  import opened MpmcInvariant

  /** The abstract event of a step: a push or a pop takes effect at its successful exchange. */
  function Label(s: State, choice: Choice): Event {
    match choice
    case Produce(p, spurious) =>
      if p < |s.producers| && s.producers[p].pc == Exchange && s.producers[p].pos == s.queue.enqueuePos && !spurious
      then Push(p) else Internal
    case Consume(c, spurious) =>
      if c < |s.consumers| && s.consumers[c].pc == Exchange && s.consumers[c].pos == s.queue.dequeuePos && !spurious
      then Pop(c) else Internal
  }

  // ------------------------------------------------- steps that leave the queue alone

  lemma ProducerLocal(job: Job, s: State, a: Fifo, p: nat, t': Producer)
    requires Simulates(job, s, a) && p < |s.producers|
    requires !Holds(s.producers[p].pc) && !Holds(t'.pc)
    requires ProducerOk(job, s.queue, job.ranges[p], t')
    requires ProducerLinked(job, s.queue, a.entered, a.next[p], t')
    ensures Simulates(job, s.(producers := s.producers[p := t']), a)
  {
    hide Slot, Capacity;
    var ps := s.producers[p := t'];
    forall t: nat | HeldByProducer(s.producers, t)
      ensures HeldByProducer(ps, t)
    {
      var i :| 0 <= i < |s.producers| && Holds(s.producers[i].pc) && s.producers[i].pos == t;
      assert ps[i] == s.producers[i];
    }
  }

  lemma ConsumerLocal(job: Job, s: State, a: Fifo, c: nat, t': Consumer)
    requires Simulates(job, s, a) && c < |s.consumers|
    requires Holds(s.consumers[c].pc) == Holds(t'.pc) && (Holds(t'.pc) ==> t'.pos == s.consumers[c].pos)
    requires ConsumerOk(job, s.queue, job.quota[c], t')
    requires ConsumerLinked(job, s.queue, a.entered, a.taken[c], t')
    ensures Simulates(job, s.(consumers := s.consumers[c := t']), a)
  {
    hide Slot, Capacity;
    var cs := s.consumers[c := t'];
    forall t: int | HeldByConsumer(s.consumers, t)
      ensures HeldByConsumer(cs, t)
    {
      var i :| 0 <= i < |s.consumers| && Holds(s.consumers[i].pc) && s.consumers[i].pos == t;
      assert cs[i].pos == t && Holds(cs[i].pc);
    }
  }

  /** A free cell at `enqueuePos` means there is room. */
  lemma FreeMeansRoom(job: Job, s: State)
    requires ValidJob(job) && Inv(job, s)
    requires SequenceAt(job, s.queue, s.queue.enqueuePos) == s.queue.enqueuePos
    ensures s.queue.enqueuePos < s.queue.dequeuePos + Capacity(job)
  {
    var d := s.queue.dequeuePos;
    CapacityAtLeastTwo(job);
    SlotPeriodic(job, d);
    assert Window(job, s.queue, d) && TicketOk(job, s.queue, d);
  }

  /** A published cell at `dequeuePos` means there is an item. */
  lemma PublishedMeansNonempty(job: Job, s: State)
    requires ValidJob(job) && Inv(job, s)
    requires SequenceAt(job, s.queue, s.queue.dequeuePos) == s.queue.dequeuePos + 1
    ensures s.queue.dequeuePos < s.queue.enqueuePos
  {
    CapacityAtLeastTwo(job);
    assert Window(job, s.queue, s.queue.dequeuePos) && TicketOk(job, s.queue, s.queue.dequeuePos);
  }

  lemma ProducerLoads(job: Job, s: State, a: Fifo, p: nat, spurious: bool)
    requires ValidJob(job) && Simulates(job, s, a) && p < |s.producers|
    requires !Holds(s.producers[p].pc) && Label(s, Produce(p, spurious)) == Internal
    ensures Simulates(job, Step(job, s, Produce(p, spurious)), a)
  {
    hide Slot, Capacity;
    var q, t := s.queue, s.producers[p];
    assert ProducerOk(job, q, job.ranges[p], t) && ProducerLinked(job, q, a.entered, a.next[p], t);
    if t.pc == LoadSequence && t.pos == q.enqueuePos && SequenceAt(job, q, t.pos) == t.pos {
      FreeMeansRoom(job, s);
    }
    ProducerLocal(job, s, a, p, ProducerStep(job, q, job.ranges[p].hi, t, spurious).1);
  }

  lemma ConsumerLoads(job: Job, s: State, a: Fifo, c: nat, spurious: bool)
    requires ValidJob(job) && Simulates(job, s, a) && c < |s.consumers|
    requires s.consumers[c].pc != StoreSequence && Label(s, Consume(c, spurious)) == Internal
    ensures Simulates(job, Step(job, s, Consume(c, spurious)), a)
  {
    hide Slot, Capacity, FifoInv;
    var q, t := s.queue, s.consumers[c];
    var t' := ConsumerStep(job, q, job.quota[c], t, spurious).1;
    ConsumerLoadsOk(job, s, c, spurious);
    assert ConsumerLinked(job, q, a.entered, a.taken[c], t);
    ConsumerLocal(job, s, a, c, t');
  }

  lemma ConsumerLoadsOk(job: Job, s: State, c: nat, spurious: bool)
    requires ValidJob(job) && Inv(job, s) && c < |s.consumers|
    requires s.consumers[c].pc != StoreSequence && Label(s, Consume(c, spurious)) == Internal
    ensures ConsumerOk(job, s.queue, job.quota[c], ConsumerStep(job, s.queue, job.quota[c], s.consumers[c], spurious).1)
  {
    var q, t := s.queue, s.consumers[c];
    assert ConsumerOk(job, q, job.quota[c], t);
    if t.pc == LoadSequence && t.pos == q.dequeuePos && SequenceAt(job, q, t.pos) == t.pos + 1 {
      PublishedMeansNonempty(job, s);
    }
  }

  // ------------------------------------------------------------- claiming a ticket

  lemma ClaimPushQueue(job: Job, s: State)
    requires ValidJob(job) && Inv(job, s)
    requires s.queue.enqueuePos < Total(job) && Window(job, s.queue, s.queue.enqueuePos)
    requires SequenceAt(job, s.queue, s.queue.enqueuePos) == s.queue.enqueuePos
    ensures var q' := s.queue.(enqueuePos := s.queue.enqueuePos + 1);
      Bounded(job, q') && Tickets(job, q') && ReadersExist(job, q', s.consumers)
  {
    var q := s.queue;
    var q' := q.(enqueuePos := q.enqueuePos + 1);
    forall t: nat | Window(job, q', t)
      ensures TicketOk(job, q', t)
    {
      assert Window(job, q, t) && TicketOk(job, q, t);
    }
    forall t: nat | Window(job, q', t) && t >= q'.enqueuePos && SequenceAt(job, q', t) != t
      ensures HeldByConsumer(s.consumers, t - Capacity(job))
    {
      assert Window(job, q, t) && SequenceAt(job, q, t) != t;
    }
  }

  lemma ClaimPushConsumers(job: Job, s: State, c: nat)
    requires ValidJob(job) && Inv(job, s) && c < |s.consumers|
    requires SequenceAt(job, s.queue, s.queue.enqueuePos) == s.queue.enqueuePos
    ensures ConsumerOk(job, s.queue.(enqueuePos := s.queue.enqueuePos + 1), job.quota[c], s.consumers[c])
  {
    var t := s.consumers[c];
    assert ConsumerOk(job, s.queue, job.quota[c], t);
    CapacityAtLeastTwo(job);
    SlotPeriodic(job, t.pos);
  }

  lemma ClaimPushWriters(job: Job, s: State, p: nat)
    requires ValidJob(job) && Inv(job, s) && p < |s.producers|
    requires s.producers[p].pc == Exchange && s.producers[p].pos == s.queue.enqueuePos
    ensures var ps := s.producers[p := s.producers[p].(pc := Payload)];
      ProducersExclusive(ps) && WritersExist(job, s.queue.(enqueuePos := s.queue.enqueuePos + 1), ps)
  {
    var q := s.queue;
    var q', ps := q.(enqueuePos := q.enqueuePos + 1), s.producers[p := s.producers[p].(pc := Payload)];
    forall i | 0 <= i < |s.producers| && i != p && Holds(s.producers[i].pc)
      ensures s.producers[i].pos != q.enqueuePos
    {
      assert ProducerOk(job, q, job.ranges[i], s.producers[i]);
    }
    forall u: nat | q'.dequeuePos <= u < q'.enqueuePos && SequenceAt(job, q', u) == u
      ensures HeldByProducer(ps, u)
    {
      if u == q.enqueuePos {
        assert ps[p].pos == u;
      } else {
        assert SequenceAt(job, q, u) == u;
        var i :| 0 <= i < |s.producers| && Holds(s.producers[i].pc) && s.producers[i].pos == u;
        assert ps[i] == s.producers[i];
      }
    }
  }

  lemma ClaimPushInv(job: Job, s: State, p: nat, spurious: bool)
    requires ValidJob(job) && Inv(job, s) && Label(s, Produce(p, spurious)) == Push(p)
    requires s.queue.enqueuePos < Total(job)
    ensures Inv(job, Step(job, s, Produce(p, spurious)))
  {
    var q, t := s.queue, s.producers[p];
    assert ProducerOk(job, q, job.ranges[p], t);
    var s' := Step(job, s, Produce(p, spurious));
    assert s'.queue == q.(enqueuePos := q.enqueuePos + 1);
    ClaimPushQueue(job, s);
    ClaimPushWriters(job, s, p);
    forall c | 0 <= c < |s.consumers|
      ensures ConsumerOk(job, s'.queue, job.quota[c], s.consumers[c])
    {
      ClaimPushConsumers(job, s, c);
    }
    forall i | 0 <= i < |s.producers|
      ensures ProducerOk(job, s'.queue, job.ranges[i], s'.producers[i])
    {
      assert ProducerOk(job, q, job.ranges[i], s.producers[i]);
    }
  }

  lemma ClaimPushLinked(job: Job, s: State, a: Fifo, p: nat, spurious: bool)
    requires ValidJob(job) && Inv(job, s) && Linked(job, s, a) && Label(s, Produce(p, spurious)) == Push(p)
    requires Enabled(job, a, Push(p))
    ensures Linked(job, Step(job, s, Produce(p, spurious)), Apply(job, a, Push(p)))
  {
    hide Slot, Capacity, FifoInv;
    var q, t := s.queue, s.producers[p];
    var b := Apply(job, a, Push(p));
    var s' := Step(job, s, Produce(p, spurious));
    assert ProducerOk(job, q, job.ranges[p], t) && ProducerLinked(job, q, a.entered, a.next[p], t);
    assert s'.queue == q.(enqueuePos := q.enqueuePos + 1);
    forall c | 0 <= c < |s.consumers|
      ensures ConsumerLinked(job, s'.queue, b.entered, b.taken[c], s.consumers[c])
    {
      assert ConsumerLinked(job, q, a.entered, a.taken[c], s.consumers[c]);
    }
    forall i | 0 <= i < |s.producers|
      ensures ProducerLinked(job, s'.queue, b.entered, b.next[i], s'.producers[i])
    {
      assert ProducerLinked(job, q, a.entered, a.next[i], s.producers[i]);
    }
    forall u: nat | s'.queue.dequeuePos <= u < s'.queue.enqueuePos && SequenceAt(job, s'.queue, u) == u + 1
      ensures DataAt(job, s'.queue, u) == b.entered[u]
    {
      if u < q.enqueuePos {
        assert SequenceAt(job, q, u) == u + 1;
      }
    }
  }

  /** A successful exchange by a producer is a push of the FIFO, which has room for it. */
  lemma ClaimPush(job: Job, s: State, a: Fifo, p: nat, spurious: bool)
    requires ValidJob(job) && Simulates(job, s, a) && Label(s, Produce(p, spurious)) == Push(p)
    ensures Enabled(job, a, Push(p))
    ensures Simulates(job, Step(job, s, Produce(p, spurious)), Apply(job, a, Push(p)))
  {
    hide Slot, Capacity;
    var q, t := s.queue, s.producers[p];
    assert ProducerOk(job, q, job.ranges[p], t) && ProducerLinked(job, q, a.entered, a.next[p], t);
    EnteredBound(job, a);
    assert a.next != Ends(job) by { assert a.next[p] < Ends(job)[p]; }
    ApplyKeepsInv(job, a, Push(p));
    ClaimPushInv(job, s, p, spurious);
    ClaimPushLinked(job, s, a, p, spurious);
  }

  lemma ClaimPopQueue(job: Job, s: State, cs': seq<Consumer>)
    requires ValidJob(job) && Inv(job, s)
    requires s.queue.dequeuePos < s.queue.enqueuePos
    requires SequenceAt(job, s.queue, s.queue.dequeuePos) == s.queue.dequeuePos + 1
    requires HeldByConsumer(cs', s.queue.dequeuePos)
    requires forall t: int :: HeldByConsumer(s.consumers, t) ==> HeldByConsumer(cs', t)
    ensures var q' := s.queue.(dequeuePos := s.queue.dequeuePos + 1);
      Bounded(job, q') && Tickets(job, q') && ReadersExist(job, q', cs') && WritersExist(job, q', s.producers)
  {
    var q := s.queue;
    var q' := q.(dequeuePos := q.dequeuePos + 1);
    SlotPeriodic(job, q.dequeuePos);
    forall t: nat | Window(job, q', t)
      ensures TicketOk(job, q', t)
      ensures t >= q'.enqueuePos && SequenceAt(job, q', t) != t ==> HeldByConsumer(cs', t - Capacity(job))
    {
      if t < q.dequeuePos + Capacity(job) {
        assert Window(job, q, t) && TicketOk(job, q, t);
      }
    }
  }

  lemma ClaimPopReaders(job: Job, s: State, c: nat)
    requires Inv(job, s) && c < |s.consumers|
    requires s.consumers[c].pc == Exchange && s.consumers[c].pos == s.queue.dequeuePos
    ensures var cs := s.consumers[c := s.consumers[c].(pc := Payload)];
      && ConsumersExclusive(cs)
      && HeldByConsumer(cs, s.queue.dequeuePos)
      && (forall u: int :: HeldByConsumer(s.consumers, u) ==> HeldByConsumer(cs, u))
  {
    var cs := s.consumers[c := s.consumers[c].(pc := Payload)];
    assert cs[c].pos == s.queue.dequeuePos;
    forall i | 0 <= i < |s.consumers| && Holds(s.consumers[i].pc)
      ensures s.consumers[i].pos != s.queue.dequeuePos
    {
      assert ConsumerOk(job, s.queue, job.quota[i], s.consumers[i]);
    }
    forall u: int | HeldByConsumer(s.consumers, u)
      ensures HeldByConsumer(cs, u)
    {
      var i :| 0 <= i < |s.consumers| && Holds(s.consumers[i].pc) && s.consumers[i].pos == u;
      assert cs[i] == s.consumers[i];
    }
  }

  lemma ClaimPopInv(job: Job, s: State, c: nat, spurious: bool)
    requires ValidJob(job) && Inv(job, s) && Label(s, Consume(c, spurious)) == Pop(c)
    ensures Inv(job, Step(job, s, Consume(c, spurious)))
  {
    hide Slot, Capacity;
    var q, t := s.queue, s.consumers[c];
    assert ConsumerOk(job, q, job.quota[c], t);
    var s' := Step(job, s, Consume(c, spurious));
    assert s'.queue == q.(dequeuePos := q.dequeuePos + 1);
    ClaimPopReaders(job, s, c);
    ClaimPopQueue(job, s, s'.consumers);
    forall i | 0 <= i < |s.producers|
      ensures ProducerOk(job, s'.queue, job.ranges[i], s.producers[i])
    {
      assert ProducerOk(job, q, job.ranges[i], s.producers[i]);
    }
    forall i | 0 <= i < |s.consumers|
      ensures ConsumerOk(job, s'.queue, job.quota[i], s'.consumers[i])
    {
      assert ConsumerOk(job, q, job.quota[i], s.consumers[i]);
    }
  }

  lemma ClaimPopLinked(job: Job, s: State, a: Fifo, c: nat, spurious: bool)
    requires ValidJob(job) && Inv(job, s) && Linked(job, s, a) && Label(s, Consume(c, spurious)) == Pop(c)
    requires Enabled(job, a, Pop(c))
    ensures Linked(job, Step(job, s, Consume(c, spurious)), Apply(job, a, Pop(c)))
  {
    hide Slot, Capacity;
    var q, t := s.queue, s.consumers[c];
    var b := Apply(job, a, Pop(c));
    var s' := Step(job, s, Consume(c, spurious));
    assert ConsumerOk(job, q, job.quota[c], t) && ConsumerLinked(job, q, a.entered, a.taken[c], t);
    assert s'.queue == q.(dequeuePos := q.dequeuePos + 1);
    assert b.taken[c] == a.taken[c] + [a.entered[q.dequeuePos]];
    assert b.taken[c][..t.i] == a.taken[c][..t.i];
    forall i | 0 <= i < |s.producers|
      ensures ProducerLinked(job, s'.queue, b.entered, b.next[i], s.producers[i])
    {
      assert ProducerLinked(job, q, a.entered, a.next[i], s.producers[i]);
    }
    forall i | 0 <= i < |s.consumers|
      ensures ConsumerLinked(job, s'.queue, b.entered, b.taken[i], s'.consumers[i])
    {
      assert ConsumerLinked(job, q, a.entered, a.taken[i], s.consumers[i]);
    }
  }

  /** A successful exchange by a consumer is a pop of the FIFO, which has an item for it. */
  lemma ClaimPop(job: Job, s: State, a: Fifo, c: nat, spurious: bool)
    requires ValidJob(job) && Simulates(job, s, a) && Label(s, Consume(c, spurious)) == Pop(c)
    ensures Enabled(job, a, Pop(c))
    ensures Simulates(job, Step(job, s, Consume(c, spurious)), Apply(job, a, Pop(c)))
  {
    var q, t := s.queue, s.consumers[c];
    assert ConsumerOk(job, q, job.quota[c], t) && ConsumerLinked(job, q, a.entered, a.taken[c], t);
    ApplyKeepsInv(job, a, Pop(c));
    ClaimPopInv(job, s, c, spurious);
    ClaimPopLinked(job, s, a, c, spurious);
  }

  // ------------------------------------------------------------ writing to a cell

  /** Tickets of the window other than `u` live in other cells. */
  lemma Apart(job: Job, q: Queue, u: nat)
    requires Window(job, q, u)
    ensures forall t: nat :: Window(job, q, t) && t != u ==> Slot(job, t) != Slot(job, u)
    ensures forall t: nat ::
      Window(job, q, t + Capacity(job)) && t + Capacity(job) != u ==> Slot(job, t) != Slot(job, u)
  {
    forall t: nat | Window(job, q, t) && t != u
      ensures Slot(job, t) != Slot(job, u)
    {
      if t < u { SlotInjective(job, t, u); } else { SlotInjective(job, u, t); }
    }
    forall t: nat | Window(job, q, t + Capacity(job)) && t + Capacity(job) != u
      ensures Slot(job, t) != Slot(job, u)
    {
      SlotPeriodic(job, t);
      var w := t + Capacity(job);
      if w < u { SlotInjective(job, w, u); } else { SlotInjective(job, u, w); }
    }
  }

  /** Writing a payload changes no sequence, hence nothing the invariant says about the queue. */
  lemma WriteQueue(job: Job, s: State, pos: nat, data: nat)
    requires Inv(job, s)
    ensures var q' := StoreData(job, s.queue, pos, data);
      && (forall u: nat :: SequenceAt(job, q', u) == SequenceAt(job, s.queue, u))
      && Bounded(job, q') && Tickets(job, q')
      && WritersExist(job, q', s.producers) && ReadersExist(job, q', s.consumers)
  {
    var q, q' := s.queue, StoreData(job, s.queue, pos, data);
    forall u: nat
      ensures SequenceAt(job, q', u) == SequenceAt(job, q, u)
      ensures Window(job, q', u) ==> TicketOk(job, q', u)
    {
      if Window(job, q, u) { assert TicketOk(job, q, u); }
    }
  }

  lemma WriteInv(job: Job, s: State, p: nat, spurious: bool)
    requires ValidJob(job) && Inv(job, s) && p < |s.producers| && s.producers[p].pc == Payload
    ensures Inv(job, Step(job, s, Produce(p, spurious)))
  {
    hide Slot, Capacity;
    var q, t := s.queue, s.producers[p];
    var s' := Step(job, s, Produce(p, spurious));
    assert s'.queue == StoreData(job, q, t.pos, t.i);
    WriteQueue(job, s, t.pos, t.i);
    forall i | 0 <= i < |s.producers|
      ensures ProducerOk(job, s'.queue, job.ranges[i], s'.producers[i])
    {
      assert ProducerOk(job, q, job.ranges[i], s.producers[i]);
    }
    forall i | 0 <= i < |s.consumers|
      ensures ConsumerOk(job, s'.queue, job.quota[i], s.consumers[i])
    {
      assert ConsumerOk(job, q, job.quota[i], s.consumers[i]);
    }
    forall u: nat | HeldByProducer(s.producers, u)
      ensures HeldByProducer(s'.producers, u)
    {
      var i :| 0 <= i < |s.producers| && Holds(s.producers[i].pc) && s.producers[i].pos == u;
      assert Holds(s'.producers[i].pc) && s'.producers[i].pos == u;
    }
  }

  lemma WriteLinked(job: Job, s: State, a: Fifo, p: nat, spurious: bool)
    requires ValidJob(job) && Inv(job, s) && Linked(job, s, a)
    requires p < |s.producers| && s.producers[p].pc == Payload
    ensures Linked(job, Step(job, s, Produce(p, spurious)), a)
  {
    var q, t := s.queue, s.producers[p];
    var s' := Step(job, s, Produce(p, spurious));
    assert ProducerOk(job, q, job.ranges[p], t) && ProducerLinked(job, q, a.entered, a.next[p], t);
    assert s'.queue == StoreData(job, q, t.pos, t.i);
    Apart(job, q, t.pos);
    forall i | 0 <= i < |s.producers|
      ensures ProducerLinked(job, s'.queue, a.entered, a.next[i], s'.producers[i])
    {
      assert ProducerOk(job, q, job.ranges[i], s.producers[i]);
      assert ProducerLinked(job, q, a.entered, a.next[i], s.producers[i]);
    }
    forall i | 0 <= i < |s.consumers|
      ensures ConsumerLinked(job, s'.queue, a.entered, a.taken[i], s.consumers[i])
    {
      assert ConsumerOk(job, q, job.quota[i], s.consumers[i]);
      assert ConsumerLinked(job, q, a.entered, a.taken[i], s.consumers[i]);
      if Holds(s.consumers[i].pc) {
        assert Window(job, q, s.consumers[i].pos + Capacity(job));
      }
    }
    forall u: nat | q.dequeuePos <= u < q.enqueuePos && SequenceAt(job, s'.queue, u) == u + 1
      ensures DataAt(job, s'.queue, u) == a.entered[u]
    {
      assert SequenceAt(job, q, u) == u + 1;
      assert Window(job, q, u);
    }
  }

  /** Publishing ticket `u`: what the other cells and the other threads' tickets keep. */
  lemma PublishQueue(job: Job, s: State, p: nat, ps: seq<Producer>)
    requires ValidJob(job) && Inv(job, s) && p < |s.producers| && Holds(s.producers[p].pc)
    requires |ps| == |s.producers| && forall i :: 0 <= i < |ps| && i != p ==> ps[i] == s.producers[i]
    ensures var q' := StoreSequenceAt(job, s.queue, s.producers[p].pos, s.producers[p].pos + 1);
      Bounded(job, q') && Tickets(job, q') && WritersExist(job, q', ps) && ReadersExist(job, q', s.consumers)
  {
    hide Slot, Capacity, Pow2;
    var q, t := s.queue, s.producers[p];
    var q' := StoreSequenceAt(job, q, t.pos, t.pos + 1);
    assert ProducerOk(job, q, job.ranges[p], t);
    Apart(job, q, t.pos);
    forall u: nat | Window(job, q', u)
      ensures TicketOk(job, q', u)
    {
      assert Window(job, q, u) && TicketOk(job, q, u);
    }
    forall u: nat | q.dequeuePos <= u < q.enqueuePos && SequenceAt(job, q', u) == u
      ensures HeldByProducer(ps, u)
    {
      assert Window(job, q, u);
      var i :| 0 <= i < |s.producers| && Holds(s.producers[i].pc) && s.producers[i].pos == u;
      assert ps[i] == s.producers[i];
    }
    forall u: nat | Window(job, q', u) && u >= q.enqueuePos && SequenceAt(job, q', u) != u
      ensures HeldByConsumer(s.consumers, u - Capacity(job))
    {
      assert Window(job, q, u) && SequenceAt(job, q, u) != u;
    }
  }

  lemma PublishConsumer(job: Job, s: State, p: nat, c: nat)
    requires ValidJob(job) && Inv(job, s) && p < |s.producers| && Holds(s.producers[p].pc) && c < |s.consumers|
    ensures ConsumerOk(job, StoreSequenceAt(job, s.queue, s.producers[p].pos, s.producers[p].pos + 1),
                       job.quota[c], s.consumers[c])
  {
    var q, t := s.queue, s.consumers[c];
    assert ProducerOk(job, q, job.ranges[p], s.producers[p]) && ConsumerOk(job, q, job.quota[c], t);
    Apart(job, q, s.producers[p].pos);
    if Holds(t.pc) {
      assert Window(job, q, t.pos + Capacity(job));
    } else if t.pc == Exchange && t.pos == q.dequeuePos {
      assert Window(job, q, t.pos);
    }
  }

  lemma PublishProducer(job: Job, s: State, p: nat, i: nat)
    requires ValidJob(job) && Inv(job, s) && p < |s.producers| && Holds(s.producers[p].pc)
    requires i < |s.producers| && i != p
    ensures ProducerOk(job, StoreSequenceAt(job, s.queue, s.producers[p].pos, s.producers[p].pos + 1),
                       job.ranges[i], s.producers[i])
  {
    var q, t := s.queue, s.producers[i];
    assert ProducerOk(job, q, job.ranges[p], s.producers[p]) && ProducerOk(job, q, job.ranges[i], t);
    Apart(job, q, s.producers[p].pos);
  }

  lemma PublishInv(job: Job, s: State, p: nat, spurious: bool)
    requires ValidJob(job) && Inv(job, s) && p < |s.producers| && s.producers[p].pc == StoreSequence
    ensures Inv(job, Step(job, s, Produce(p, spurious)))
  {
    hide Slot, Capacity;
    var q, t := s.queue, s.producers[p];
    var s' := Step(job, s, Produce(p, spurious));
    assert ProducerOk(job, q, job.ranges[p], t);
    assert s'.queue == StoreSequenceAt(job, q, t.pos, t.pos + 1);
    PublishQueue(job, s, p, s'.producers);
    forall i | 0 <= i < |s.producers|
      ensures ProducerOk(job, s'.queue, job.ranges[i], s'.producers[i])
    {
      if i != p { PublishProducer(job, s, p, i); }
    }
    forall c | 0 <= c < |s.consumers|
      ensures ConsumerOk(job, s'.queue, job.quota[c], s.consumers[c])
    {
      PublishConsumer(job, s, p, c);
    }
  }

  lemma PublishLinked(job: Job, s: State, a: Fifo, p: nat, spurious: bool)
    requires ValidJob(job) && Inv(job, s) && Linked(job, s, a)
    requires p < |s.producers| && s.producers[p].pc == StoreSequence
    ensures Linked(job, Step(job, s, Produce(p, spurious)), a)
  {
    hide Slot, Capacity;
    var q, t := s.queue, s.producers[p];
    var s' := Step(job, s, Produce(p, spurious));
    assert ProducerOk(job, q, job.ranges[p], t) && ProducerLinked(job, q, a.entered, a.next[p], t);
    assert s'.queue == StoreSequenceAt(job, q, t.pos, t.pos + 1);
    assert forall u: nat :: DataAt(job, s'.queue, u) == DataAt(job, q, u);
    Apart(job, q, t.pos);
    forall i | 0 <= i < |s.producers|
      ensures ProducerLinked(job, s'.queue, a.entered, a.next[i], s'.producers[i])
    {
      assert ProducerLinked(job, q, a.entered, a.next[i], s.producers[i]);
    }
    forall i | 0 <= i < |s.consumers|
      ensures ConsumerLinked(job, s'.queue, a.entered, a.taken[i], s.consumers[i])
    {
      assert ConsumerLinked(job, q, a.entered, a.taken[i], s.consumers[i]);
    }
    forall u: nat | q.dequeuePos <= u < q.enqueuePos && SequenceAt(job, s'.queue, u) == u + 1
      ensures DataAt(job, s'.queue, u) == a.entered[u]
    {
      assert Window(job, q, u);
      if u != t.pos {
        assert SequenceAt(job, q, u) == u + 1;
      }
    }
  }

  /** Releasing the cell to ticket `u`, one lap after the consumer's own. */
  lemma ReleaseQueue(job: Job, s: State, c: nat, cs: seq<Consumer>)
    requires ValidJob(job) && Inv(job, s) && c < |s.consumers| && Holds(s.consumers[c].pc)
    requires |cs| == |s.consumers| && forall i :: 0 <= i < |cs| && i != c ==> cs[i] == s.consumers[i]
    ensures var u := s.consumers[c].pos + Capacity(job);
      var q' := StoreSequenceAt(job, s.queue, u, u);
      Bounded(job, q') && Tickets(job, q') && WritersExist(job, q', s.producers) && ReadersExist(job, q', cs)
  {
    hide Slot, Capacity;
    var q, t := s.queue, s.consumers[c];
    assert ConsumerOk(job, q, job.quota[c], t);
    var u0 := t.pos + Capacity(job);
    var q' := StoreSequenceAt(job, q, u0, u0);
    Apart(job, q, u0);
    forall u: nat | Window(job, q', u)
      ensures TicketOk(job, q', u)
    {
      assert Window(job, q, u) && TicketOk(job, q, u);
    }
    forall u: nat | q.dequeuePos <= u < q.enqueuePos && SequenceAt(job, q', u) == u
      ensures HeldByProducer(s.producers, u)
    {
      assert Window(job, q, u) && SequenceAt(job, q, u) == u;
    }
    forall u: nat | Window(job, q', u) && u >= q.enqueuePos && SequenceAt(job, q', u) != u
      ensures HeldByConsumer(cs, u - Capacity(job))
    {
      assert Window(job, q, u) && SequenceAt(job, q, u) != u;
      var i :| 0 <= i < |s.consumers| && Holds(s.consumers[i].pc) && s.consumers[i].pos == u - Capacity(job);
      assert cs[i] == s.consumers[i];
    }
  }

  lemma ReleaseProducer(job: Job, s: State, c: nat, p: nat)
    requires ValidJob(job) && Inv(job, s) && c < |s.consumers| && Holds(s.consumers[c].pc) && p < |s.producers|
    ensures var u := s.consumers[c].pos + Capacity(job);
      ProducerOk(job, StoreSequenceAt(job, s.queue, u, u), job.ranges[p], s.producers[p])
  {
    var q, t, u := s.queue, s.producers[p], s.consumers[c].pos + Capacity(job);
    assert ProducerOk(job, q, job.ranges[p], t) && ConsumerOk(job, q, job.quota[c], s.consumers[c]);
    CapacityAtLeastTwo(job);
    SlotPeriodic(job, s.consumers[c].pos);
    Apart(job, q, u);
    if Holds(t.pc) {
      assert Window(job, q, t.pos);
    }
  }

  lemma ReleaseConsumer(job: Job, s: State, c: nat, i: nat)
    requires ValidJob(job) && Inv(job, s) && c < |s.consumers| && Holds(s.consumers[c].pc)
    requires i < |s.consumers| && i != c
    ensures var u := s.consumers[c].pos + Capacity(job);
      ConsumerOk(job, StoreSequenceAt(job, s.queue, u, u), job.quota[i], s.consumers[i])
  {
    var q, t, u := s.queue, s.consumers[i], s.consumers[c].pos + Capacity(job);
    assert ConsumerOk(job, q, job.quota[i], t) && ConsumerOk(job, q, job.quota[c], s.consumers[c]);
    Apart(job, q, u);
    if Holds(t.pc) {
      assert Window(job, q, t.pos + Capacity(job));
    } else if t.pc == Exchange && t.pos == q.dequeuePos {
      assert Window(job, q, t.pos);
    }
  }

  lemma ReleaseInv(job: Job, s: State, c: nat, spurious: bool)
    requires ValidJob(job) && Inv(job, s) && c < |s.consumers| && s.consumers[c].pc == StoreSequence
    ensures Inv(job, Step(job, s, Consume(c, spurious)))
  {
    hide Slot, Capacity, Wrap64;
    var q, t := s.queue, s.consumers[c];
    var s' := Step(job, s, Consume(c, spurious));
    assert ConsumerOk(job, q, job.quota[c], t);
    SlotPeriodic(job, t.pos);
    assert s'.queue == StoreSequenceAt(job, q, t.pos + Capacity(job), t.pos + Capacity(job));
    ReleaseQueue(job, s, c, s'.consumers);
    forall p | 0 <= p < |s.producers|
      ensures ProducerOk(job, s'.queue, job.ranges[p], s.producers[p])
    {
      ReleaseProducer(job, s, c, p);
    }
    forall i | 0 <= i < |s.consumers|
      ensures ConsumerOk(job, s'.queue, job.quota[i], s'.consumers[i])
    {
      if i != c { ReleaseConsumer(job, s, c, i); }
    }
  }

  /** The finished pop enters the checksum. */
  lemma ReleaseChecksum(job: Job, q: Queue, entered: seq<nat>, taken: seq<nat>, t: Consumer)
    requires Sized(job, q) && ConsumerLinked(job, q, entered, taken, t) && t.pc == StoreSequence
    ensures Wrap64(t.checksum + t.data) == Wrap64(Sum(taken[..t.i + 1]))
  {
    assert taken[..t.i + 1][..t.i] == taken[..t.i];
    SumNat(taken[..t.i]);
    WrapAdd(Sum(taken[..t.i]), t.data);
  }

  lemma ReleaseLinked(job: Job, s: State, a: Fifo, c: nat, spurious: bool)
    requires ValidJob(job) && Inv(job, s) && Linked(job, s, a)
    requires c < |s.consumers| && s.consumers[c].pc == StoreSequence
    ensures Linked(job, Step(job, s, Consume(c, spurious)), a)
  {
    hide Slot, Capacity;
    var q, t := s.queue, s.consumers[c];
    var s' := Step(job, s, Consume(c, spurious));
    assert ConsumerOk(job, q, job.quota[c], t) && ConsumerLinked(job, q, a.entered, a.taken[c], t);
    ReleaseChecksum(job, q, a.entered, a.taken[c], t);
    SlotPeriodic(job, t.pos);
    ReleasePublished(job, s, a, c);
    assert s'.queue == StoreSequenceAt(job, q, t.pos + Capacity(job), t.pos + Capacity(job));
    assert ConsumerLinked(job, s'.queue, a.entered, a.taken[c], s'.consumers[c]);
    forall i | 0 <= i < |s.producers|
      ensures ProducerLinked(job, s'.queue, a.entered, a.next[i], s.producers[i])
    {
      assert ProducerLinked(job, q, a.entered, a.next[i], s.producers[i]);
    }
    forall i | 0 <= i < |s.consumers| && i != c
      ensures ConsumerLinked(job, s'.queue, a.entered, a.taken[i], s'.consumers[i])
    {
      assert ConsumerLinked(job, q, a.entered, a.taken[i], s.consumers[i]);
    }
  }

  lemma ReleasePublished(job: Job, s: State, a: Fifo, c: nat)
    requires ValidJob(job) && Inv(job, s) && Linked(job, s, a)
    requires c < |s.consumers| && Holds(s.consumers[c].pc)
    ensures var u := s.consumers[c].pos + Capacity(job);
      var q' := StoreSequenceAt(job, s.queue, u, u);
      && PublishedLinked(job, q', a.entered)
      && (forall w: nat :: DataAt(job, q', w) == DataAt(job, s.queue, w))
      && u < TWO_63
  {
    hide Slot, Capacity;
    var q, t := s.queue, s.consumers[c];
    assert ConsumerOk(job, q, job.quota[c], t);
    var u := t.pos + Capacity(job);
    var q' := StoreSequenceAt(job, q, u, u);
    Apart(job, q, u);
    forall w: nat | q.dequeuePos <= w < q.enqueuePos && SequenceAt(job, q', w) == w + 1
      ensures DataAt(job, q', w) == a.entered[w]
    {
      assert Window(job, q, w) && SequenceAt(job, q, w) == w + 1;
    }
  }

  // ------------------------------------------------------------------- all steps

  lemma ProducerSimulates(job: Job, s: State, a: Fifo, p: nat, spurious: bool)
    requires ValidJob(job) && Simulates(job, s, a) && p < |s.producers|
    ensures Enabled(job, a, Label(s, Produce(p, spurious)))
    ensures Simulates(job, Step(job, s, Produce(p, spurious)), Apply(job, a, Label(s, Produce(p, spurious))))
  {
    if Label(s, Produce(p, spurious)) == Push(p) {
      ClaimPush(job, s, a, p, spurious);
    } else if !Holds(s.producers[p].pc) {
      ProducerLoads(job, s, a, p, spurious);
    } else if s.producers[p].pc == Payload {
      WriteInv(job, s, p, spurious);
      WriteLinked(job, s, a, p, spurious);
    } else {
      PublishInv(job, s, p, spurious);
      PublishLinked(job, s, a, p, spurious);
    }
  }

  lemma ConsumerSimulates(job: Job, s: State, a: Fifo, c: nat, spurious: bool)
    requires ValidJob(job) && Simulates(job, s, a) && c < |s.consumers|
    ensures Enabled(job, a, Label(s, Consume(c, spurious)))
    ensures Simulates(job, Step(job, s, Consume(c, spurious)), Apply(job, a, Label(s, Consume(c, spurious))))
  {
    if Label(s, Consume(c, spurious)) == Pop(c) {
      ClaimPop(job, s, a, c, spurious);
    } else if s.consumers[c].pc != StoreSequence {
      ConsumerLoads(job, s, a, c, spurious);
    } else {
      ReleaseInv(job, s, c, spurious);
      ReleaseLinked(job, s, a, c, spurious);
    }
  }

  /** One access by any thread is one event of the bounded FIFO, and the simulation continues. */
  lemma StepSimulates(job: Job, s: State, a: Fifo, choice: Choice)
    requires ValidJob(job) && Simulates(job, s, a)
    ensures Enabled(job, a, Label(s, choice))
    ensures Simulates(job, Step(job, s, choice), Apply(job, a, Label(s, choice)))
  {
    match choice
    case Produce(p, spurious) =>
      if p < |s.producers| { ProducerSimulates(job, s, a, p, spurious); }
    case Consume(c, spurious) =>
      if c < |s.consumers| { ConsumerSimulates(job, s, a, c, spurious); }
  }

  /** The abstract events of a whole interleaving. */
  function Events(job: Job, schedule: seq<Choice>): seq<Event> {
    if schedule == [] then []
    else
      var before := schedule[..|schedule| - 1];
      Events(job, before) + [Label(Run(job, before), schedule[|schedule| - 1])]
  }

  datatype Outcome = Illegal | Reached(fifo: Fifo)

  /** The bounded FIFO after a sequence of events, unless one of them is not enabled when it comes. */
  function FifoAfter(job: Job, events: seq<Event>): Outcome {
    if events == [] then Reached(Start(job))
    else
      var before := FifoAfter(job, events[..|events| - 1]);
      var e := events[|events| - 1];
      if before.Reached? && Enabled(job, before.fifo, e) then Reached(Apply(job, before.fifo, e)) else Illegal
  }

  /** Refinement: every interleaving of the atomic accesses is a legal run of the bounded FIFO. */
  lemma {:induction false} Refines(job: Job, schedule: seq<Choice>)
    requires ValidJob(job)
    ensures FifoAfter(job, Events(job, schedule)).Reached?
    ensures Simulates(job, Run(job, schedule), FifoAfter(job, Events(job, schedule)).fifo)
  {
    if schedule == [] {
      InitSimulates(job);
    } else {
      var before := schedule[..|schedule| - 1];
      Refines(job, before);
      var s, a := Run(job, before), FifoAfter(job, Events(job, before)).fifo;
      StepSimulates(job, s, a, schedule[|schedule| - 1]);
      var events := Events(job, schedule);
      assert events[..|events| - 1] == Events(job, before);
    }
  }
}
