/** What holds of the queue in every reachable state, and how a state represents a bounded FIFO. */
module MpmcInvariant {
  import opened Words
  import opened Sums
  import opened QueueJob
  import opened MpmcQueue
  import opened BoundedFifo

  function SequenceAt(job: Job, q: Queue, t: nat): nat
    requires Sized(job, q)
  {
    q.buffer[Slot(job, t)].sequence
  }

  function DataAt(job: Job, q: Queue, t: nat): nat
    requires Sized(job, q)
  {
    q.buffer[Slot(job, t)].data
  }

  // ---------------------------------------------------------------- invariant

  ghost predicate Bounded(job: Job, q: Queue) {
    && q.dequeuePos <= q.enqueuePos <= q.dequeuePos + Capacity(job)
    && q.enqueuePos <= Total(job)
    && (forall k :: 0 <= k < |q.buffer| ==> q.buffer[k].sequence <= Total(job) + Capacity(job))
  }

  /** The capacity-many tickets (positions) from `dequeuePos` on, one per cell. */
  ghost predicate Window(job: Job, q: Queue, t: nat) {
    q.dequeuePos <= t < q.dequeuePos + Capacity(job)
  }

  /**
   * A claimed ticket is being written (`t`) or published (`t + 1`); a ticket not yet claimed is free (`t`)
   * or its cell is still being read by the holder of the ticket one lap earlier.
   */
  ghost predicate TicketOk(job: Job, q: Queue, t: nat)
    requires Sized(job, q)
  {
    var v := SequenceAt(job, q, t);
    v == t || (if t < q.enqueuePos then v == t + 1 else v + Capacity(job) == t + 1)
  }

  ghost predicate Tickets(job: Job, q: Queue)
    requires Sized(job, q)
  {
    forall t: nat :: Window(job, q, t) ==> TicketOk(job, q, t)
  }

  ghost predicate ProducerOk(job: Job, q: Queue, r: Range, t: Producer)
    requires Sized(job, q)
  {
    && t.pos <= q.enqueuePos
    && r.lo <= t.i <= r.hi
    && (t.pc != LoadPosition ==> t.i < r.hi)
    && (t.pc == Exchange ==> t.pos < q.enqueuePos || (Window(job, q, t.pos) && SequenceAt(job, q, t.pos) == t.pos))
    && (Holds(t.pc) ==> q.dequeuePos <= t.pos < q.enqueuePos && SequenceAt(job, q, t.pos) == t.pos)
  }

  ghost predicate ConsumerOk(job: Job, q: Queue, quota: nat, t: Consumer)
    requires Sized(job, q)
  {
    && t.pos <= q.dequeuePos
    && t.i <= quota
    && (t.pc != LoadPosition ==> t.i < quota)
    && (t.pc == Exchange ==>
         t.pos < q.dequeuePos || (t.pos < q.enqueuePos && SequenceAt(job, q, t.pos) == t.pos + 1))
    && (Holds(t.pc) ==>
         && t.pos < q.dequeuePos && q.enqueuePos <= t.pos + Capacity(job)
         && SequenceAt(job, q, t.pos) == t.pos + 1)
  }

  /** No ticket has two holders among the producers. */
  ghost predicate ProducersExclusive(ps: seq<Producer>) {
    forall i, j :: 0 <= i < |ps| && 0 <= j < |ps| && i != j && Holds(ps[i].pc) && Holds(ps[j].pc) ==>
      ps[i].pos != ps[j].pos
  }

  ghost predicate ConsumersExclusive(cs: seq<Consumer>) {
    forall i, j :: 0 <= i < |cs| && 0 <= j < |cs| && i != j && Holds(cs[i].pc) && Holds(cs[j].pc) ==>
      cs[i].pos != cs[j].pos
  }

  ghost predicate HeldByProducer(ps: seq<Producer>, t: int) {
    exists i :: 0 <= i < |ps| && Holds(ps[i].pc) && ps[i].pos == t
  }

  ghost predicate HeldByConsumer(cs: seq<Consumer>, t: int) {
    exists i :: 0 <= i < |cs| && Holds(cs[i].pc) && cs[i].pos == t
  }

  /** A ticket claimed and not yet published is held by a producer. */
  ghost predicate WritersExist(job: Job, q: Queue, ps: seq<Producer>)
    requires Sized(job, q)
  {
    forall t: nat :: q.dequeuePos <= t < q.enqueuePos && SequenceAt(job, q, t) == t ==> HeldByProducer(ps, t)
  }

  /** An unclaimed ticket whose cell is not free waits for the consumer holding the ticket one lap earlier. */
  ghost predicate ReadersExist(job: Job, q: Queue, cs: seq<Consumer>)
    requires Sized(job, q)
  {
    forall t: nat :: Window(job, q, t) && t >= q.enqueuePos && SequenceAt(job, q, t) != t ==>
      HeldByConsumer(cs, t - Capacity(job))
  }

  ghost predicate Inv(job: Job, s: State) {
    && Shaped(job, s)
    && Bounded(job, s.queue)
    && Tickets(job, s.queue)
    && (forall p :: 0 <= p < |s.producers| ==> ProducerOk(job, s.queue, job.ranges[p], s.producers[p]))
    && (forall c :: 0 <= c < |s.consumers| ==> ConsumerOk(job, s.queue, job.quota[c], s.consumers[c]))
    && ProducersExclusive(s.producers)
    && ConsumersExclusive(s.consumers)
    && WritersExist(job, s.queue, s.producers)
    && ReadersExist(job, s.queue, s.consumers)
  }

  // --------------------------------------------------------------- simulation

  function Flag(pc: Pc): nat {
    if Holds(pc) then 1 else 0
  }

  ghost predicate ProducerLinked(job: Job, q: Queue, entered: seq<nat>, next: nat, t: Producer)
    requires Sized(job, q)
  {
    && next == t.i + Flag(t.pc)
    && (Holds(t.pc) ==> t.pos < |entered| && entered[t.pos] == t.i)
    && (t.pc == StoreSequence ==> DataAt(job, q, t.pos) == t.i)
  }

  /** A consumer holding a ticket still has to read, or has read, the item the FIFO already gave it. */
  ghost predicate ConsumerLinked(job: Job, q: Queue, entered: seq<nat>, taken: seq<nat>, t: Consumer)
    requires Sized(job, q)
  {
    && |taken| == t.i + Flag(t.pc)
    && t.checksum == Wrap64(Sum(taken[..t.i]))
    && (Holds(t.pc) ==> t.pos < |entered| && taken[t.i] == entered[t.pos])
    && (t.pc == Payload ==> DataAt(job, q, t.pos) == taken[t.i])
    && (t.pc == StoreSequence ==> t.data == taken[t.i])
  }

  /** A published cell carries the item of its ticket. */
  ghost predicate PublishedLinked(job: Job, q: Queue, entered: seq<nat>)
    requires Sized(job, q)
  {
    && |entered| == q.enqueuePos
    && (forall t: nat :: q.dequeuePos <= t < q.enqueuePos && SequenceAt(job, q, t) == t + 1 ==>
         DataAt(job, q, t) == entered[t])
  }

  ghost predicate Linked(job: Job, s: State, a: Fifo)
    requires Shaped(job, s)
  {
    && |a.next| == |s.producers| && |a.taken| == |s.consumers|
    && a.left == s.queue.dequeuePos
    && PublishedLinked(job, s.queue, a.entered)
    && (forall p :: 0 <= p < |s.producers| ==> ProducerLinked(job, s.queue, a.entered, a.next[p], s.producers[p]))
    && (forall c :: 0 <= c < |s.consumers| ==> ConsumerLinked(job, s.queue, a.entered, a.taken[c], s.consumers[c]))
  }

  /** The simulation relation. */
  ghost predicate Simulates(job: Job, s: State, a: Fifo) {
    Inv(job, s) && FifoInv(job, a) && Linked(job, s, a)
  }

  lemma InitInv(job: Job)
    requires ValidJob(job)
    ensures Inv(job, Init(job))
  {
    var s := Init(job);
    forall t: nat | Window(job, s.queue, t)
      ensures SequenceAt(job, s.queue, t) == t
    {
      SlotSmall(job, t);
    }
  }

  lemma InitLinked(job: Job)
    ensures Linked(job, Init(job), Start(job))
  {
    assert Sum([]) == 0;
  }

  lemma InitSimulates(job: Job)
    requires ValidJob(job)
    ensures Simulates(job, Init(job), Start(job))
  {
    InitInv(job);
    StartInv(job);
    InitLinked(job);
  }

  lemma CapacityAtLeastTwo(job: Job)
    requires job.logCapacity >= 1
    ensures Capacity(job) >= 2
  {
  }
}
