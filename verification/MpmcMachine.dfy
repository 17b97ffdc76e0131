/** The benchmark executed in place: the shared cells and the threads' locals are arrays updated by each access. */
module MpmcMachine {
  import opened Words
  import opened Sums
  import opened QueueJob
  import opened MpmcQueue
  import opened MpmcTheorems

  class Machine {
    const job: Job
    const buffer: array<Cell>
    var enqueuePos: nat
    var dequeuePos: nat
    const producers: array<Producer>
    const consumers: array<Consumer>

    ghost predicate Valid()
      reads this
    {
      && buffer.Length == Capacity(job)
      && producers.Length == |job.ranges|
      && consumers.Length == |job.quota|
    }

    ghost function State(): (s: State)
      reads this, buffer, producers, consumers
      requires Valid()
      ensures Shaped(job, s)
    {
      MpmcQueue.State(Queue(buffer[..], enqueuePos, dequeuePos), producers[..], consumers[..])
    }

    /** Allocates the queue, runs `queue_init` and sets every thread to the start of its loop. */
    constructor (job: Job)
      ensures Valid() && this.job == job
      ensures fresh(buffer) && fresh(producers) && fresh(consumers)
      ensures State() == Init(job)
    {
      this.job := job;
      buffer := new Cell[Capacity(job)](_ => Cell(0, 0));
      enqueuePos, dequeuePos := 0, 0;
      producers := new Producer[|job.ranges|](
        p requires 0 <= p < |job.ranges| => Producer(LoadPosition, job.ranges[p].lo, 0));
      consumers := new Consumer[|job.quota|](_ => Consumer(LoadPosition, 0, 0, 0, 0));
      new;
      for i := 0 to buffer.Length
        modifies buffer
        invariant forall k :: 0 <= k < i ==> buffer[k] == Cell(k, 0)
        invariant forall k :: i <= k < buffer.Length ==> buffer[k] == Cell(0, 0)
        invariant forall p :: 0 <= p < producers.Length ==> producers[p] == Producer(LoadPosition, job.ranges[p].lo, 0)
        invariant forall c :: 0 <= c < consumers.Length ==> consumers[c] == Consumer(LoadPosition, 0, 0, 0, 0)
      {
        buffer[i] := buffer[i].(sequence := i);
      }
      assert buffer[..] == QueueInit(job).buffer;
      assert producers[..] == Init(job).producers;
      assert consumers[..] == Init(job).consumers;
    }

    /** The next access of `push` by producer `p`. */
    method PushAccess(p: nat, spurious: bool)
      requires Valid() && p < producers.Length
      modifies this`enqueuePos, buffer, producers
      ensures Valid() && State() == Step(job, old(State()), Produce(p, spurious))
    {
      var t := producers[p];
      var k := Slot(job, t.pos);
      match t.pc {
        case LoadPosition =>
          if t.i < job.ranges[p].hi {
            producers[p] := t.(pc := LoadSequence, pos := enqueuePos);
          }
        case LoadSequence =>
          var diff := SignedDiff(buffer[k].sequence, t.pos);
          if diff == 0 {
            producers[p] := t.(pc := Exchange);
          } else {
            producers[p] := t.(pc := LoadPosition);
          }
        case Exchange =>
          if enqueuePos == t.pos && !spurious {
            enqueuePos := Wrap64(t.pos + 1);
            producers[p] := t.(pc := Payload);
          } else {
            producers[p] := t.(pc := LoadSequence, pos := enqueuePos);
          }
        case Payload =>
          buffer[k] := buffer[k].(data := t.i);
          producers[p] := t.(pc := StoreSequence);
        case StoreSequence =>
          buffer[k] := buffer[k].(sequence := Wrap64(t.pos + 1));
          producers[p] := t.(pc := LoadPosition, i := t.i + 1);
      }
    }

    /** The next access of `pop` by consumer `c`. */
    method PopAccess(c: nat, spurious: bool)
      requires Valid() && c < consumers.Length
      modifies this`dequeuePos, buffer, consumers
      ensures Valid() && State() == Step(job, old(State()), Consume(c, spurious))
    {
      var t := consumers[c];
      var k := Slot(job, t.pos);
      match t.pc {
        case LoadPosition =>
          if t.i < job.quota[c] {
            consumers[c] := t.(pc := LoadSequence, pos := dequeuePos);
          }
        case LoadSequence =>
          var diff := SignedDiff(buffer[k].sequence, Wrap64(t.pos + 1));
          if diff == 0 {
            consumers[c] := t.(pc := Exchange);
          } else {
            consumers[c] := t.(pc := LoadPosition);
          }
        case Exchange =>
          if dequeuePos == t.pos && !spurious {
            dequeuePos := Wrap64(t.pos + 1);
            consumers[c] := t.(pc := Payload);
          } else {
            consumers[c] := t.(pc := LoadSequence, pos := dequeuePos);
          }
        case Payload =>
          consumers[c] := t.(pc := StoreSequence, data := buffer[k].data);
        case StoreSequence =>
          buffer[k] := buffer[k].(sequence := Wrap64(t.pos + Capacity(job)));
          consumers[c] := t.(pc := LoadPosition, i := t.i + 1, checksum := Wrap64(t.checksum + t.data));
      }
    }

    /** Lets the threads move in the given order. */
    method Execute(schedule: seq<Choice>)
      requires Valid() && State() == Init(job)
      modifies this, buffer, producers, consumers
      ensures Valid() && State() == Run(job, schedule)
    {
      for n := 0 to |schedule|
        invariant Valid() && State() == Run(job, schedule[..n])
      {
        assert schedule[..n + 1][..n] == schedule[..n];
        match schedule[n] {
          case Produce(p, spurious) => if p < producers.Length { PushAccess(p, spurious); }
          case Consume(c, spurious) => if c < consumers.Length { PopAccess(c, spurious); }
        }
      }
      assert schedule[..|schedule|] == schedule;
    }

    /** The threads have been joined: add up the partial sums and compare. */
    method SelfCheck() returns (ok: bool)
      requires Valid()
      ensures ok == (Checksum(consumers[..]) == ExpectedChecksum(Total(job)))
    {
      var checksum := 0;
      for c := 0 to consumers.Length
        invariant checksum == Checksum(consumers[..c])
      {
        assert consumers[..c + 1][..c] == consumers[..c];
        checksum := Wrap64(checksum + consumers[c].checksum);
      }
      assert consumers[..consumers.Length] == consumers[..];
      var expected := ExpectedChecksum(Total(job));
      ok := checksum == expected;
    }
  }

  /**
   * `main`: split the items evenly, let the threads run under any schedule that finishes, and compare checksums.
   * The comparison succeeds exactly when bit 63 of the true sum is clear, in particular whenever the product
   * `total * (total - 1)` fits in 64 bits.
   */
  method Benchmark(logCapacity: nat, total: nat, producers: nat, consumers: nat, schedule: seq<Choice>)
    returns (ok: bool)
    requires producers > 0 && consumers > 0 && total % producers == 0 && total % consumers == 0
    requires logCapacity >= 1 && total + Pow2(logCapacity) < TWO_63
    requires AllDone(EvenSplit(logCapacity, total, producers, consumers),
                     Run(EvenSplit(logCapacity, total, producers, consumers), schedule))
    ensures ok <==> total * (total - 1) / 2 % TWO_64 < TWO_63
    ensures total * (total - 1) < TWO_64 ==> ok
  {
    var job := EvenSplit(logCapacity, total, producers, consumers);
    EvenSplitValid(logCapacity, total, producers, consumers);
    var m := new Machine(job);
    m.Execute(schedule);
    ok := m.SelfCheck();
    FinalCheck(job, schedule);
  }
}
