/** The single-producer single-consumer queue, one step per access to shared memory. */
module SpscQueue {
  import opened Words
  import opened Sums
  import opened QueueJob

  /** The values the producer pushes, in order; the consumer pops as many. */
  datatype Setup = Setup(logCapacity: nat, items: seq<nat>)

  datatype Cell = Cell(sequence: nat, data: nat)

  /**
   * Both threads load their own index, spin on the cell's sequence, move the payload, store the sequence
   * and only then store the index.
   */
  datatype Pc = LoadIndex | Spin | Payload | StoreSequence | StoreIndex

  datatype Producer = Producer(pc: Pc, i: nat, pos: nat)

  datatype Consumer = Consumer(pc: Pc, i: nat, pos: nat, value: nat, checksum: nat)

  datatype State = State(buffer: seq<Cell>, tail: nat, head: nat, producer: Producer, consumer: Consumer)

  datatype Choice = Produce | Consume

  /** Slots and capacity depend on the buffer size only. */
  function Layout(u: Setup): Job {
    Job(u.logCapacity, [], [])
  }

  function Size(u: Setup): (r: nat)
    ensures r >= 1 && r == Pow2(u.logCapacity)
  {
    Capacity(Layout(u))
  }

  ghost predicate ValidSetup(u: Setup) {
    u.logCapacity >= 1 && |u.items| + Size(u) < TWO_63
  }

  predicate Sized(u: Setup, s: State) {
    |s.buffer| == Size(u)
  }

  function Init(u: Setup): (s: State)
    ensures Sized(u, s)
  {
    State(seq(Size(u), i requires 0 <= i => Cell(i, 0)), 0, 0,
          Producer(LoadIndex, 0, 0), Consumer(LoadIndex, 0, 0, 0, 0))
  }

  function ProducerStep(u: Setup, s: State): (s': State)
    requires Sized(u, s)
    ensures Sized(u, s')
  {
    var t := s.producer;
    var k := Slot(Layout(u), t.pos);
    match t.pc
    case LoadIndex =>
      if t.i < |u.items| then s.(producer := t.(pc := Spin, pos := s.tail)) else s
    case Spin =>
      if s.buffer[k].sequence == t.pos then s.(producer := t.(pc := Payload)) else s
    case Payload =>
      if t.i < |u.items|
      then s.(buffer := s.buffer[k := s.buffer[k].(data := u.items[t.i])], producer := t.(pc := StoreSequence))
      else s
    case StoreSequence =>
      s.(buffer := s.buffer[k := s.buffer[k].(sequence := Wrap64(t.pos + 1))], producer := t.(pc := StoreIndex))
    case StoreIndex =>
      s.(tail := Wrap64(t.pos + 1), producer := t.(pc := LoadIndex, i := t.i + 1))
  }

  function ConsumerStep(u: Setup, s: State): (s': State)
    requires Sized(u, s)
    ensures Sized(u, s')
  {
    var t := s.consumer;
    var k := Slot(Layout(u), t.pos);
    match t.pc
    case LoadIndex =>
      if t.i < |u.items| then s.(consumer := t.(pc := Spin, pos := s.head)) else s
    case Spin =>
      if s.buffer[k].sequence == Wrap64(t.pos + 1) then s.(consumer := t.(pc := Payload)) else s
    case Payload =>
      s.(consumer := t.(pc := StoreSequence, value := s.buffer[k].data))
    case StoreSequence =>
      s.(buffer := s.buffer[k := s.buffer[k].(sequence := Wrap64(t.pos + Size(u)))], consumer := t.(pc := StoreIndex))
    case StoreIndex =>
      s.(head := Wrap64(t.pos + 1),
         consumer := t.(pc := LoadIndex, i := t.i + 1, checksum := Wrap64(t.checksum + t.value)))
  }

  function Step(u: Setup, s: State, choice: Choice): (s': State)
    requires Sized(u, s)
    ensures Sized(u, s')
  {
    match choice
    case Produce => ProducerStep(u, s)
    case Consume => ConsumerStep(u, s)
  }

  function Run(u: Setup, schedule: seq<Choice>): (s: State)
    ensures Sized(u, s)
  {
    if schedule == [] then Init(u)
    else Step(u, Run(u, schedule[..|schedule| - 1]), schedule[|schedule| - 1])
  }

  /** Items whose sequence store has happened, counted on each side; the index stores lag behind. */
  function Published(s: State): nat {
    s.producer.i + if s.producer.pc == StoreIndex then 1 else 0
  }

  function Released(s: State): nat {
    s.consumer.i + if s.consumer.pc == StoreIndex then 1 else 0
  }

  predicate Done(u: Setup, s: State) {
    && s.producer.pc == LoadIndex && s.producer.i >= |u.items|
    && s.consumer.pc == LoadIndex && s.consumer.i >= |u.items|
  }

  // ---------------------------------------------------------------- invariant

  /** Item `t` of the current window: published with its value, or its cell is free for it. */
  ghost predicate CellOk(u: Setup, s: State, t: nat)
    requires Sized(u, s)
  {
    var cell := s.buffer[Slot(Layout(u), t)];
    if t < Published(s) then cell.sequence == t + 1 && t < |u.items| && cell.data == u.items[t] else cell.sequence == t
  }

  ghost predicate ProducerOk(u: Setup, s: State)
    requires Sized(u, s)
  {
    var t := s.producer;
    && s.tail == t.i <= |u.items|
    && (t.pc != LoadIndex ==> t.pos == t.i < |u.items|)
    && (t.pc == Payload || t.pc == StoreSequence ==> t.i < Released(s) + Size(u))
    && (t.pc == StoreSequence ==> s.buffer[Slot(Layout(u), t.pos)].data == u.items[t.i])
  }

  ghost predicate ConsumerOk(u: Setup, s: State) {
    var t := s.consumer;
    && s.head == t.i <= |u.items|
    && (t.pc != LoadIndex ==> t.pos == t.i < |u.items|)
    && (t.pc == Payload || t.pc == StoreSequence ==> t.i < Published(s))
    && (t.pc == StoreSequence || t.pc == StoreIndex ==> t.value == u.items[t.i])
    && t.checksum == Wrap64(Sum(u.items[..t.i]))
  }

  ghost predicate Inv(u: Setup, s: State) {
    && Sized(u, s)
    && Released(s) <= Published(s) <= Released(s) + Size(u)
    && Published(s) <= |u.items|
    && (forall t: nat :: Released(s) <= t < Released(s) + Size(u) ==> CellOk(u, s, t))
    && ProducerOk(u, s)
    && ConsumerOk(u, s)
  }

  lemma InitInv(u: Setup)
    requires ValidSetup(u)
    ensures Inv(u, Init(u))
  {
    var s := Init(u);
    forall t: nat | t < Size(u)
      ensures CellOk(u, s, t)
    {
      SlotSmall(Layout(u), t);
    }
    assert Sum(u.items[..0]) == 0;
  }

  /** Items of the window other than `w` live in other cells. */
  lemma Apart(u: Setup, lo: nat, w: nat)
    requires lo <= w < lo + Size(u)
    ensures forall t: nat :: lo <= t < lo + Size(u) && t != w ==> Slot(Layout(u), t) != Slot(Layout(u), w)
  {
    forall t: nat | lo <= t < lo + Size(u) && t != w
      ensures Slot(Layout(u), t) != Slot(Layout(u), w)
    {
      if t < w { SlotInjective(Layout(u), t, w); } else { SlotInjective(Layout(u), w, t); }
    }
  }

  /** The producer gets past its spin only when there is room. */
  lemma SpinMeansRoom(u: Setup, s: State)
    requires ValidSetup(u) && Inv(u, s) && s.producer.pc == Spin
    requires s.buffer[Slot(Layout(u), s.producer.pos)].sequence == s.producer.pos
    ensures s.producer.i < Released(s) + Size(u)
  {
    var r := Released(s);
    assert Size(u) >= 2;
    assert CellOk(u, s, r);
    SlotPeriodic(Layout(u), r);
  }

  lemma ProducerStepInv(u: Setup, s: State)
    requires ValidSetup(u) && Inv(u, s)
    ensures Inv(u, ProducerStep(u, s))
  {
    hide Slot, Capacity;
    var s', r, t := ProducerStep(u, s), Released(s), s.producer;
    if t.pc == Spin && s.buffer[Slot(Layout(u), t.pos)].sequence == t.pos {
      SpinMeansRoom(u, s);
    }
    if t.pc == Payload || t.pc == StoreSequence {
      Apart(u, r, t.i);
    }
    forall w: nat | r <= w < r + Size(u)
      ensures CellOk(u, s', w)
    {
      assert CellOk(u, s, w);
    }
  }

  lemma ConsumerStepInv(u: Setup, s: State)
    requires ValidSetup(u) && Inv(u, s)
    ensures Inv(u, ConsumerStep(u, s))
  {
    hide Slot, Capacity;
    var s', r, t := ConsumerStep(u, s), Released(s), s.consumer;
    assert CellOk(u, s, r);
    if t.pc == StoreSequence {
      Apart(u, r, r);
      SlotPeriodic(Layout(u), r);
    }
    if t.pc == StoreIndex {
      CheckedSum(u, t);
    }
    forall w: nat | Released(s') <= w < Released(s') + Size(u)
      ensures CellOk(u, s', w)
    {
      if w < r + Size(u) { assert CellOk(u, s, w); }
    }
  }

  lemma CheckedSum(u: Setup, t: Consumer)
    requires t.i < |u.items| && t.checksum == Wrap64(Sum(u.items[..t.i])) && t.value == u.items[t.i]
    ensures Wrap64(t.checksum + t.value) == Wrap64(Sum(u.items[..t.i + 1]))
  {
    assert u.items[..t.i + 1][..t.i] == u.items[..t.i];
    SumNat(u.items[..t.i]);
  }

  lemma {:induction false} RunInv(u: Setup, schedule: seq<Choice>)
    requires ValidSetup(u)
    ensures Inv(u, Run(u, schedule))
  {
    if schedule == [] {
      InitInv(u);
    } else {
      var before := schedule[..|schedule| - 1];
      RunInv(u, before);
      match schedule[|schedule| - 1]
      case Produce => ProducerStepInv(u, Run(u, before));
      case Consume => ConsumerStepInv(u, Run(u, before));
    }
  }

  // ---------------------------------------------------------------- theorems

  /** The values `pop` has returned, in order. */
  function Received(u: Setup, schedule: seq<Choice>): seq<nat> {
    if schedule == [] then []
    else
      var before := schedule[..|schedule| - 1];
      var t := Run(u, before).consumer;
      Received(u, before) + if schedule[|schedule| - 1] == Consume && t.pc == StoreIndex then [t.value] else []
  }

  /** In every interleaving the consumer has received an exact prefix of what the producer was given to push. */
  lemma {:induction false} PrefixSafety(u: Setup, schedule: seq<Choice>)
    requires ValidSetup(u)
    ensures Run(u, schedule).consumer.i <= |u.items|
    ensures Received(u, schedule) == u.items[..Run(u, schedule).consumer.i]
  {
    if schedule != [] {
      var before := schedule[..|schedule| - 1];
      PrefixSafety(u, before);
      RunInv(u, before);
      PrefixStep(u, Run(u, before), schedule[|schedule| - 1]);
    }
  }

  lemma PrefixStep(u: Setup, s: State, choice: Choice)
    requires Inv(u, s)
    ensures s.consumer.i <= |u.items| && Step(u, s, choice).consumer.i <= |u.items|
    ensures u.items[..Step(u, s, choice).consumer.i] ==
            u.items[..s.consumer.i] +
            if choice == Consume && s.consumer.pc == StoreIndex then [s.consumer.value] else []
  {
  }

  /** Occupancy is exact; the index variables, stored after the sequences, may be off by one on either side. */
  lemma Occupancy(u: Setup, schedule: seq<Choice>)
    requires ValidSetup(u)
    ensures var s := Run(u, schedule);
      && 0 <= Published(s) - Released(s) <= Size(u)
      && -1 <= s.tail - s.head <= Size(u) + 1
      && s.tail <= Published(s) <= s.tail + 1 && s.head <= Released(s) <= s.head + 1
  {
    RunInv(u, schedule);
  }

  /** While the producer writes a payload and the consumer reads one, they are on different cells. */
  lemma PayloadExclusive(u: Setup, schedule: seq<Choice>)
    requires ValidSetup(u)
    ensures var s := Run(u, schedule);
      (s.producer.pc == Payload || s.producer.pc == StoreSequence) &&
      (s.consumer.pc == Payload || s.consumer.pc == StoreSequence) ==>
        Slot(Layout(u), s.producer.pos) != Slot(Layout(u), s.consumer.pos)
  {
    RunInv(u, schedule);
    var s := Run(u, schedule);
    Apart(u, Released(s), Released(s));
  }

  /** The run is over: everything arrived, in order, and the checksum is the wrapped sum of the items. */
  lemma DeliversAll(u: Setup, schedule: seq<Choice>)
    requires ValidSetup(u) && Done(u, Run(u, schedule))
    ensures Received(u, schedule) == u.items
    ensures Run(u, schedule).consumer.checksum == Wrap64(Sum(u.items))
  {
    RunInv(u, schedule);
    PrefixSafety(u, schedule);
    assert u.items[..|u.items|] == u.items;
  }

  /**
   * The driver pushes 0, 1, ..., total-1. Its final comparison succeeds exactly when bit 63 of the true sum is
   * clear, in particular whenever the product fits in 64 bits.
   */
  lemma FinalCheck(logCapacity: nat, total: nat, schedule: seq<Choice>)
    requires var u := Setup(logCapacity, Upto(total)); ValidSetup(u) && Done(u, Run(u, schedule))
    ensures var u := Setup(logCapacity, Upto(total));
      && (Run(u, schedule).consumer.checksum == ExpectedChecksum(total) <==> total * (total - 1) / 2 % TWO_64 < TWO_63)
      && (total * (total - 1) < TWO_64 ==> Run(u, schedule).consumer.checksum == ExpectedChecksum(total))
  {
    DeliversAll(Setup(logCapacity, Upto(total)), schedule);
    ExpectedMatches(total);
  }

  // ---------------------------------------------------------------- progress

  /** Accesses still to be made by both threads, spinning not counted. */
  function AccessesLeft(u: Setup, s: State): int {
    5 * (|u.items| - s.producer.i) - Rank(s.producer.pc) + 5 * (|u.items| - s.consumer.i) - Rank(s.consumer.pc)
  }

  function Rank(pc: Pc): nat {
    match pc
    case LoadIndex => 0
    case Spin => 1
    case Payload => 2
    case StoreSequence => 3
    case StoreIndex => 4
  }

  lemma SpinsExactlyAt(u: Setup, s: State)
    requires ValidSetup(u) && Inv(u, s)
    ensures s.producer.pc == Spin ==> (ProducerStep(u, s) == s <==> Published(s) == Released(s) + Size(u))
    ensures s.consumer.pc == Spin ==> (ConsumerStep(u, s) == s <==> Published(s) == Released(s))
  {
    if s.producer.pc == Spin {
      if Published(s) < Released(s) + Size(u) {
        assert CellOk(u, s, s.producer.i);
      } else if s.buffer[Slot(Layout(u), s.producer.pos)].sequence == s.producer.pos {
        SpinMeansRoom(u, s);
      }
    }
    if s.consumer.pc == Spin {
      assert CellOk(u, s, s.consumer.i);
    }
  }

  /** The producer spins exactly while the queue is full, the consumer exactly while it is empty. */
  lemma SpinsExactly(u: Setup, schedule: seq<Choice>)
    requires ValidSetup(u)
    ensures var s := Run(u, schedule);
      && (s.producer.pc == Spin ==> (ProducerStep(u, s) == s <==> Published(s) == Released(s) + Size(u)))
      && (s.consumer.pc == Spin ==> (ConsumerStep(u, s) == s <==> Published(s) == Released(s)))
  {
    hide Inv, ProducerStep, ConsumerStep, Run;
    RunInv(u, schedule);
    SpinsExactlyAt(u, Run(u, schedule));
  }

  /** In every reachable state with work left, one of the two threads advances. */
  lemma SomeoneAdvances(u: Setup, schedule: seq<Choice>) returns (choice: Choice)
    requires ValidSetup(u) && !Done(u, Run(u, schedule))
    ensures AccessesLeft(u, Run(u, schedule + [choice])) == AccessesLeft(u, Run(u, schedule)) - 1
  {
    RunInv(u, schedule);
    SpinsExactly(u, schedule);
    var s := Run(u, schedule);
    if ProducerStep(u, s) != s {
      choice := Produce;
    } else {
      choice := Consume;
    }
    assert (schedule + [choice])[..|schedule|] == schedule;
  }

  lemma AccessesLeftNatural(u: Setup, schedule: seq<Choice>)
    requires ValidSetup(u)
    ensures AccessesLeft(u, Run(u, schedule)) >= 0
  {
    RunInv(u, schedule);
  }

  lemma {:induction false} CompleteFrom(u: Setup, schedule: seq<Choice>, left: nat) returns (rest: seq<Choice>)
    requires ValidSetup(u) && AccessesLeft(u, Run(u, schedule)) == left
    ensures Done(u, Run(u, schedule + rest)) && |rest| <= left
    decreases left
  {
    if Done(u, Run(u, schedule)) {
      rest := [];
      assert schedule + rest == schedule;
    } else {
      var choice := SomeoneAdvances(u, schedule);
      AccessesLeftNatural(u, schedule + [choice]);
      var tail := CompleteFrom(u, schedule + [choice], left - 1);
      rest := [choice] + tail;
      Associative(schedule, [choice], tail);
    }
  }

  /** Every interleaving can be completed: producer and consumer never wait for each other. */
  lemma CanComplete(u: Setup, schedule: seq<Choice>)
    requires ValidSetup(u)
    ensures exists rest :: Done(u, Run(u, schedule + rest)) && |rest| <= AccessesLeft(u, Run(u, schedule))
  {
    AccessesLeftNatural(u, schedule);
    var rest := CompleteFrom(u, schedule, AccessesLeft(u, Run(u, schedule)));
  }

  // ----------------------------------------------------- the final check, for given item counts

  /** Bit 63 of the true sum is set, as for 2^32 + 2 items: a correct run is reported as a mismatch. */
  ghost predicate FailsThoughCorrect(u: Setup, schedule: seq<Choice>) {
    && Done(u, Run(u, schedule)) && Received(u, schedule) == u.items
    && Run(u, schedule).consumer.checksum != ExpectedChecksum(|u.items|)
  }

  /** With 2^32 + 2 items a run that finishes exists, and every one delivers everything yet fails its check. */
  lemma CorrectRunFailsCheck(logCapacity: nat, total: nat)
    requires total == 0x1_0000_0002 && ValidSetup(Setup(logCapacity, Upto(total)))
    ensures exists schedule :: FailsThoughCorrect(Setup(logCapacity, Upto(total)), schedule)
    ensures var u := Setup(logCapacity, Upto(total));
      forall schedule :: Done(u, Run(u, schedule)) ==> FailsThoughCorrect(u, schedule)
  {
    var u := Setup(logCapacity, Upto(total));
    forall schedule | Done(u, Run(u, schedule))
      ensures FailsThoughCorrect(u, schedule)
    {
      FailedRun(logCapacity, total, schedule);
    }
    CanComplete(u, []);
    var rest :| Done(u, Run(u, [] + rest));
    FailedRun(logCapacity, total, [] + rest);
  }

  lemma FailedRun(logCapacity: nat, total: nat, schedule: seq<Choice>)
    requires total == 0x1_0000_0002
    requires var u := Setup(logCapacity, Upto(total)); ValidSetup(u) && Done(u, Run(u, schedule))
    ensures FailsThoughCorrect(Setup(logCapacity, Upto(total)), schedule)
  {
    DeliversAll(Setup(logCapacity, Upto(total)), schedule);
    FinalCheck(logCapacity, total, schedule);
    BitSet(total);
  }

  lemma BitSet(total: nat)
    requires total == 0x1_0000_0002
    ensures total * (total - 1) / 2 % TWO_64 >= TWO_63
  {
  }

  /** With the 100 million items of the source every complete run passes its check. */
  lemma ShippedCheckPasses(logCapacity: nat, schedule: seq<Choice>)
    requires var u := Setup(logCapacity, Upto(100_000_000)); ValidSetup(u) && Done(u, Run(u, schedule))
    ensures var u := Setup(logCapacity, Upto(100_000_000));
      Run(u, schedule).consumer.checksum == ExpectedChecksum(100_000_000) == 4_999_999_950_000_000
  {
    FinalCheck(logCapacity, 100_000_000, schedule);
  }

  // ---------------------------------------------------------------- the skew is attained

  function Repeat(choice: Choice, n: nat): seq<Choice> {
    seq(n, i => choice)
  }

  function Four(u: Setup, s: State, choice: Choice): (s': State)
    requires Sized(u, s)
    ensures Sized(u, s')
  {
    Step(u, Step(u, Step(u, Step(u, s, choice), choice), choice), choice)
  }

  lemma RunFour(u: Setup, schedule: seq<Choice>, choice: Choice)
    ensures Run(u, schedule + Repeat(choice, 4)) == Four(u, Run(u, schedule), choice)
  {
    hide ProducerStep, ConsumerStep, Init;
    RunMore(u, schedule, choice, 4);
    RunMore(u, schedule, choice, 3);
    RunMore(u, schedule, choice, 2);
    RunMore(u, schedule, choice, 1);
    assert schedule + Repeat(choice, 0) == schedule;
  }

  /** Four uninterrupted accesses publish an item but leave `tail` behind. */
  lemma FourPublish(u: Setup, s: State)
    requires ValidSetup(u) && Inv(u, s) && s.producer.pc == LoadIndex && s.producer.i < |u.items|
    requires Published(s) < Released(s) + Size(u)
    ensures var s' := Four(u, s, Produce);
      && s'.producer == Producer(StoreIndex, s.producer.i, s.producer.i)
      && s'.consumer == s.consumer && s'.head == s.head && s'.tail == s.tail
  {
    assert CellOk(u, s, s.producer.i);
  }

  /** Four uninterrupted accesses release a cell but leave `head` behind. */
  lemma FourRelease(u: Setup, s: State)
    requires ValidSetup(u) && Inv(u, s) && s.consumer.pc == LoadIndex && s.consumer.i < |u.items|
    requires Released(s) < Published(s)
    ensures var s' := Four(u, s, Consume);
      && s'.consumer.pc == StoreIndex && s'.consumer.i == s'.consumer.pos == s.consumer.i
      && s'.producer == s.producer && s'.head == s.head && s'.tail == s.tail
  {
    assert CellOk(u, s, s.consumer.i);
  }

  /** An uninterrupted push into a queue with room takes five accesses. */
  lemma PushAlone(u: Setup, schedule: seq<Choice>)
    requires ValidSetup(u) && Run(u, schedule).producer.pc == LoadIndex && Run(u, schedule).producer.i < |u.items|
    requires Published(Run(u, schedule)) < Released(Run(u, schedule)) + Size(u)
    ensures var s, s' := Run(u, schedule), Run(u, schedule + Repeat(Produce, 5));
      && s'.producer.pc == LoadIndex && s'.producer.i == s.producer.i + 1
      && s'.consumer == s.consumer && s'.head == s.head && s'.tail == s.tail + 1
  {
    RunInv(u, schedule);
    FivePush(u, Run(u, schedule));
    RunFour(u, schedule, Produce);
    RunMore(u, schedule, Produce, 5);
  }

  lemma FivePush(u: Setup, s: State)
    requires ValidSetup(u) && Inv(u, s) && s.producer.pc == LoadIndex && s.producer.i < |u.items|
    requires Published(s) < Released(s) + Size(u)
    ensures var s' := ProducerStep(u, Four(u, s, Produce));
      && s'.producer.pc == LoadIndex && s'.producer.i == s.producer.i + 1
      && s'.consumer == s.consumer && s'.head == s.head && s'.tail == s.tail + 1
  {
    FourPublish(u, s);
  }

  lemma RunMore(u: Setup, schedule: seq<Choice>, choice: Choice, n: nat)
    requires n > 0
    ensures Run(u, schedule + Repeat(choice, n)) == Step(u, Run(u, schedule + Repeat(choice, n - 1)), choice)
  {
    var longer := schedule + Repeat(choice, n);
    assert longer[..|longer| - 1] == schedule + Repeat(choice, n - 1);
  }

  /** The producer alone can fill the queue. */
  lemma {:induction false} Fill(u: Setup, k: nat) returns (schedule: seq<Choice>)
    requires ValidSetup(u) && k <= Size(u) && k <= |u.items|
    ensures var s := Run(u, schedule);
      s.producer.pc == LoadIndex && s.producer.i == s.tail == k && s.consumer == Init(u).consumer && s.head == 0
  {
    schedule := [];
    if k > 0 {
      var before := Fill(u, k - 1);
      PushAlone(u, before);
      schedule := before + Repeat(Produce, 5);
    }
  }

  /** Both ends of the index bound are reached, for every buffer size: the bound of `Occupancy` is the exact one. */
  lemma SkewIsTight(u: Setup)
    requires ValidSetup(u) && |u.items| > Size(u)
    ensures exists schedule :: Run(u, schedule).tail - Run(u, schedule).head == Size(u) + 1
    ensures exists schedule :: Run(u, schedule).tail - Run(u, schedule).head == -1
  {
    hide Run, Size, Slot, CellOk;
    var full := Fill(u, Size(u));
    RunInv(u, full);
    RunFour(u, full, Consume);
    FourRelease(u, Run(u, full));
    var popped := full + Repeat(Consume, 4);
    PushAlone(u, popped);
    var over := popped + Repeat(Produce, 5);
    assert Run(u, over).tail - Run(u, over).head == Size(u) + 1;

    PublishOnly(u);
    var ahead := Repeat(Produce, 4) + Repeat(Consume, 5);
    assert Run(u, ahead).tail - Run(u, ahead).head == -1;
  }

  /** Four accesses publish an item without storing `tail`; five more pop it and store `head`. */
  lemma PublishOnly(u: Setup)
    requires ValidSetup(u) && |u.items| > 0
    ensures var s := Run(u, Repeat(Produce, 4) + Repeat(Consume, 5)); s.tail == 0 && s.head == 1
  {
    var schedule := Repeat(Produce, 4);
    RunInv(u, []);
    RunFour(u, [], Produce);
    FourPublish(u, Init(u));
    assert [] + schedule == schedule;
    RunInv(u, schedule);
    RunFour(u, schedule, Consume);
    FourRelease(u, Run(u, schedule));
    RunMore(u, schedule, Consume, 5);
  }
}
