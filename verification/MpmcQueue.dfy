/**
 * The multi-producer multi-consumer queue, one step per access to shared memory.
 * Each thread is a program counter with the locals of `push` or `pop` and of its driver loop.
 */
module MpmcQueue {
  import opened Words
  import opened QueueJob

  datatype Cell = Cell(sequence: nat, data: nat)

  /**
   * The access a thread performs next: load the shared position, load the cell's sequence and branch on `diff`,
   * compare-and-exchange the position, move the payload (plain write or read), store the cell's sequence.
   */
  datatype Pc = LoadPosition | LoadSequence | Exchange | Payload | StoreSequence

  datatype Producer = Producer(pc: Pc, i: nat, pos: nat)

  /** `i` counts completed pops. */
  datatype Consumer = Consumer(pc: Pc, i: nat, pos: nat, data: nat, checksum: nat)

  datatype Queue = Queue(buffer: seq<Cell>, enqueuePos: nat, dequeuePos: nat)

  datatype State = State(queue: Queue, producers: seq<Producer>, consumers: seq<Consumer>)

  /** Which thread moves; `spurious` makes a weak compare-and-exchange fail although the values match. */
  datatype Choice = Produce(p: nat, spurious: bool) | Consume(c: nat, spurious: bool)

  predicate Sized(job: Job, q: Queue) {
    |q.buffer| == Capacity(job)
  }

  predicate Shaped(job: Job, s: State) {
    && Sized(job, s.queue)
    && |s.producers| == |job.ranges|
    && |s.consumers| == |job.quota|
  }

  /** `queue_init` on a freshly allocated queue. */
  function QueueInit(job: Job): (q: Queue)
    ensures Sized(job, q)
    ensures forall i :: 0 <= i < Capacity(job) ==> q.buffer[i].sequence == i
  {
    Queue(seq(Capacity(job), i requires 0 <= i => Cell(i, 0)), 0, 0)
  }

  /** Before any thread has moved. */
  function Init(job: Job): (s: State)
    ensures Shaped(job, s)
  {
    State(
      QueueInit(job),
      seq(|job.ranges|, p requires 0 <= p < |job.ranges| => Producer(LoadPosition, job.ranges[p].lo, 0)),
      seq(|job.quota|, c => Consumer(LoadPosition, 0, 0, 0, 0)))
  }

  predicate ProducerDone(job: Job, s: State, p: nat)
    requires Shaped(job, s) && p < |s.producers|
  {
    s.producers[p].pc == LoadPosition && s.producers[p].i >= job.ranges[p].hi
  }

  predicate ConsumerDone(job: Job, s: State, c: nat)
    requires Shaped(job, s) && c < |s.consumers|
  {
    s.consumers[c].pc == LoadPosition && s.consumers[c].i >= job.quota[c]
  }

  predicate AllDone(job: Job, s: State)
    requires Shaped(job, s)
  {
    && (forall p :: 0 <= p < |s.producers| ==> ProducerDone(job, s, p))
    && (forall c :: 0 <= c < |s.consumers| ==> ConsumerDone(job, s, c))
  }

  /** The `diff` of `push`. */
  function PushDiff(job: Job, q: Queue, pos: nat): int
    requires Sized(job, q)
  {
    SignedDiff(q.buffer[Slot(job, pos)].sequence, pos)
  }

  /** The `diff` of `pop`. */
  function PopDiff(job: Job, q: Queue, pos: nat): int
    requires Sized(job, q)
  {
    SignedDiff(q.buffer[Slot(job, pos)].sequence, Wrap64(pos + 1))
  }

  function StoreData(job: Job, q: Queue, pos: nat, data: nat): (q': Queue)
    requires Sized(job, q)
    ensures Sized(job, q')
  {
    var k := Slot(job, pos);
    q.(buffer := q.buffer[k := q.buffer[k].(data := data)])
  }

  function StoreSequenceAt(job: Job, q: Queue, pos: nat, sequence: nat): (q': Queue)
    requires Sized(job, q)
    ensures Sized(job, q')
  {
    var k := Slot(job, pos);
    q.(buffer := q.buffer[k := q.buffer[k].(sequence := sequence)])
  }

  /** One access by a producer: the new queue and the thread's new locals. `hi` ends its loop. */
  function ProducerStep(job: Job, q: Queue, hi: nat, t: Producer, spurious: bool): (r: (Queue, Producer))
    requires Sized(job, q)
    ensures Sized(job, r.0)
  {
    match t.pc
    case LoadPosition =>
      if t.i < hi then (q, t.(pc := LoadSequence, pos := q.enqueuePos)) else (q, t)
    case LoadSequence =>
      (q, t.(pc := if PushDiff(job, q, t.pos) == 0 then Exchange else LoadPosition))
    case Exchange =>
      if q.enqueuePos == t.pos && !spurious
      then (q.(enqueuePos := Wrap64(t.pos + 1)), t.(pc := Payload))
      else (q, t.(pc := LoadSequence, pos := q.enqueuePos))
    case Payload =>
      (StoreData(job, q, t.pos, t.i), t.(pc := StoreSequence))
    case StoreSequence =>
      (StoreSequenceAt(job, q, t.pos, Wrap64(t.pos + 1)), t.(pc := LoadPosition, i := t.i + 1))
  }

  /** One access by a consumer that has `quota` items to pop. */
  function ConsumerStep(job: Job, q: Queue, quota: nat, t: Consumer, spurious: bool): (r: (Queue, Consumer))
    requires Sized(job, q)
    ensures Sized(job, r.0)
  {
    match t.pc
    case LoadPosition =>
      if t.i < quota then (q, t.(pc := LoadSequence, pos := q.dequeuePos)) else (q, t)
    case LoadSequence =>
      (q, t.(pc := if PopDiff(job, q, t.pos) == 0 then Exchange else LoadPosition))
    case Exchange =>
      if q.dequeuePos == t.pos && !spurious
      then (q.(dequeuePos := Wrap64(t.pos + 1)), t.(pc := Payload))
      else (q, t.(pc := LoadSequence, pos := q.dequeuePos))
    case Payload =>
      (q, t.(pc := StoreSequence, data := q.buffer[Slot(job, t.pos)].data))
    case StoreSequence =>
      (StoreSequenceAt(job, q, t.pos, Wrap64(t.pos + Capacity(job))),
       t.(pc := LoadPosition, i := t.i + 1, checksum := Wrap64(t.checksum + t.data)))
  }

  /** A choice that names no thread, or a finished one, leaves the state alone. */
  function Step(job: Job, s: State, choice: Choice): (s': State)
    requires Shaped(job, s)
    ensures Shaped(job, s')
  {
    match choice
    case Produce(p, spurious) =>
      if p < |s.producers| then
        var (q, t) := ProducerStep(job, s.queue, job.ranges[p].hi, s.producers[p], spurious);
        s.(queue := q, producers := s.producers[p := t])
      else s
    case Consume(c, spurious) =>
      if c < |s.consumers| then
        var (q, t) := ConsumerStep(job, s.queue, job.quota[c], s.consumers[c], spurious);
        s.(queue := q, consumers := s.consumers[c := t])
      else s
  }

  /** The state after an arbitrary interleaving. */
  function Run(job: Job, schedule: seq<Choice>): (s: State)
    ensures Shaped(job, s)
  {
    if schedule == [] then Init(job)
    else Step(job, Run(job, schedule[..|schedule| - 1]), schedule[|schedule| - 1])
  }

  lemma RunOneMore(job: Job, schedule: seq<Choice>, choice: Choice)
    ensures Run(job, schedule + [choice]) == Step(job, Run(job, schedule), choice)
  {
    var longer := schedule + [choice];
    assert longer[..|longer| - 1] == schedule;
  }

  /** The thread has won its compare-and-exchange and has not yet stored the sequence. */
  predicate Holds(pc: Pc) {
    pc == Payload || pc == StoreSequence
  }
}
