/** The single-producer single-consumer benchmark executed in place. */
module SpscMachine {
  import opened Words
  import opened Sums
  import opened QueueJob
  import opened SpscQueue

  class Machine {
    const u: Setup
    const buffer: array<Cell>
    var tail: nat
    var head: nat
    var producer: Producer
    var consumer: Consumer

    ghost predicate Valid()
      reads this
    {
      buffer.Length == Size(u)
    }

    ghost function State(): (s: State)
      reads this, buffer
      requires Valid()
      ensures Sized(u, s)
    {
      SpscQueue.State(buffer[..], tail, head, producer, consumer)
    }

    /** Allocates the queue and runs `queue_init`. */
    constructor (u: Setup)
      ensures Valid() && this.u == u && fresh(buffer)
      ensures State() == Init(u)
    {
      this.u := u;
      buffer := new Cell[Size(u)](_ => Cell(0, 0));
      tail, head := 0, 0;
      producer, consumer := Producer(LoadIndex, 0, 0), Consumer(LoadIndex, 0, 0, 0, 0);
      new;
      for i := 0 to buffer.Length
        modifies buffer
        invariant forall k :: 0 <= k < i ==> buffer[k] == Cell(k, 0)
        invariant forall k :: i <= k < buffer.Length ==> buffer[k] == Cell(0, 0)
      {
        buffer[i] := buffer[i].(sequence := i);
      }
      assert buffer[..] == Init(u).buffer;
    }

    /** The next access of `push`. */
    method PushAccess()
      requires Valid()
      modifies this`tail, this`producer, buffer
      ensures Valid() && State() == ProducerStep(u, old(State()))
    {
      var t := producer;
      var k := Slot(Layout(u), t.pos);
      match t.pc {
        case LoadIndex =>
          if t.i < |u.items| { producer := t.(pc := Spin, pos := tail); }
        case Spin =>
          if buffer[k].sequence == t.pos { producer := t.(pc := Payload); }
        case Payload =>
          if t.i < |u.items| {
            buffer[k] := buffer[k].(data := u.items[t.i]);
            producer := t.(pc := StoreSequence);
          }
        case StoreSequence =>
          buffer[k] := buffer[k].(sequence := Wrap64(t.pos + 1));
          producer := t.(pc := StoreIndex);
        case StoreIndex =>
          tail := Wrap64(t.pos + 1);
          producer := t.(pc := LoadIndex, i := t.i + 1);
      }
    }

    /** The next access of `pop`. */
    method PopAccess()
      requires Valid()
      modifies this`head, this`consumer, buffer
      ensures Valid() && State() == ConsumerStep(u, old(State()))
    {
      var t := consumer;
      var k := Slot(Layout(u), t.pos);
      match t.pc {
        case LoadIndex =>
          if t.i < |u.items| { consumer := t.(pc := Spin, pos := head); }
        case Spin =>
          if buffer[k].sequence == Wrap64(t.pos + 1) { consumer := t.(pc := Payload); }
        case Payload =>
          consumer := t.(pc := StoreSequence, value := buffer[k].data);
        case StoreSequence =>
          buffer[k] := buffer[k].(sequence := Wrap64(t.pos + Size(u)));
          consumer := t.(pc := StoreIndex);
        case StoreIndex =>
          head := Wrap64(t.pos + 1);
          consumer := t.(pc := LoadIndex, i := t.i + 1, checksum := Wrap64(t.checksum + t.value));
      }
    }

    method Execute(schedule: seq<Choice>)
      requires Valid() && State() == Init(u)
      modifies this, buffer
      ensures Valid() && State() == Run(u, schedule)
    {
      for n := 0 to |schedule|
        invariant Valid() && State() == Run(u, schedule[..n])
      {
        assert schedule[..n + 1][..n] == schedule[..n];
        match schedule[n] {
          case Produce => PushAccess();
          case Consume => PopAccess();
        }
      }
      assert schedule[..|schedule|] == schedule;
    }
  }

  /** `main`, for any schedule that lets both threads finish. */
  method Benchmark(logCapacity: nat, total: nat, schedule: seq<Choice>) returns (ok: bool)
    requires ValidSetup(Setup(logCapacity, Upto(total)))
    requires Done(Setup(logCapacity, Upto(total)), Run(Setup(logCapacity, Upto(total)), schedule))
    ensures ok <==> total * (total - 1) / 2 % TWO_64 < TWO_63
    ensures total * (total - 1) < TWO_64 ==> ok
  {
    var m := new Machine(Setup(logCapacity, Upto(total)));
    m.Execute(schedule);
    ok := m.consumer.checksum == ExpectedChecksum(total);
    FinalCheck(logCapacity, total, schedule);
  }
}
