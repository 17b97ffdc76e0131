/** The ring moves: the reader alone ends its drain and empties the ring, the kernel alone publishes what fits. */
module RingProgress {
  import opened Words
  import opened PerfRecord
  import opened RingDrain
  import opened RingProtocol

  function Repeat(choice: Choice, n: nat): seq<Choice> {
    seq(n, i => choice)
  }

  /** The same side moving `n` times. */
  function Solo(s: Ring, choice: Choice, n: nat): (s': Ring)
    requires s.data != []
    ensures s'.data != []
    decreases n
  {
    if n == 0 then s else Solo(Step(s, choice), choice, n - 1)
  }

  lemma {:induction false} SoloSum(s: Ring, choice: Choice, m: nat, n: nat)
    requires s.data != []
    ensures Solo(s, choice, m + n) == Solo(Solo(s, choice, m), choice, n)
    decreases m
  {
    hide Step;
    if m > 0 {
      SoloSum(Step(s, choice), choice, m - 1, n);
    }
  }

  lemma RunOneMore(data: seq<Byte>, base: nat, schedule: seq<Choice>, choice: Choice)
    requires data != []
    ensures Run(data, base, schedule + [choice]) == Step(Run(data, base, schedule), choice)
  {
    var longer := schedule + [choice];
    assert longer[..|longer| - 1] == schedule;
  }

  lemma {:induction false} RunSolo(data: seq<Byte>, base: nat, schedule: seq<Choice>, choice: Choice, n: nat)
    requires data != []
    ensures Run(data, base, schedule + Repeat(choice, n)) == Solo(Run(data, base, schedule), choice, n)
    decreases n
  {
    hide Run, Step;
    if n == 0 {
      assert schedule + Repeat(choice, 0) == schedule;
    } else {
      RunOneMore(data, base, schedule, choice);
      RunSolo(data, base, schedule + [choice], choice, n - 1);
      assert schedule + Repeat(choice, n) == schedule + [choice] + Repeat(choice, n - 1);
    }
  }

  // --------------------------------------------------------------------- the reader

  /** Read steps left until the reader waits again, with `left` records to take. */
  function ReadsLeft(reader: Reader, left: int): int {
    match reader
    case Waiting => 0
    case Looping(_) => 2 * left + 1
    case InBody(_, _, _) => 2 * left
    case Dead(_) => 0
  }

  /** What Read steps never touch. */
  predicate SameKernelSide(s: Ring, s': Ring) {
    s'.published == s.published && s'.dataHead == s.dataHead && s'.data == s.data && s'.writer == s.writer
  }

  lemma OneCloser(s: Ring, base: nat)
    requires Inv(s, base) && s.dataHead < TWO_64 && !s.reader.Waiting?
    ensures var s' := ReadStep(s);
      && Inv(s', base) && SameKernelSide(s, s') && s'.seen == s.seen
      && ReadsLeft(s'.reader, s'.seen - s'.taken) == ReadsLeft(s.reader, s.seen - s.taken) - 1
  {
    hide EncodeLog, Samples, Tally, Encode, Index, Ordered, Placed, Intact, WriterOk, Accounted, Record1;
    ReadInv(s, base);
    AllTakenAtHead(s, base);
    if s.reader.Looping? && s.tail < s.reader.head {
      HeaderRead(s, base);
    }
  }

  lemma LeftNotNegative(s: Ring, base: nat)
    requires Inv(s, base)
    ensures s.taken <= s.seen <= |s.published| && ReadsLeft(s.reader, s.seen - s.taken) >= 0
    ensures ReadsLeft(s.reader, s.seen - s.taken) == 0 <==> s.reader.Waiting?
  {
    hide EncodeLog, Samples, Tally, Encode, Ordered, Intact, WriterOk, Accounted;
  }

  /** The drain under way ends, with every record taken that it saw. */
  lemma {:induction false} DrainEnds(s: Ring, base: nat)
    requires Inv(s, base) && s.dataHead < TWO_64
    ensures ReadsLeft(s.reader, s.seen - s.taken) >= 0
    ensures var s' := Solo(s, Read, ReadsLeft(s.reader, s.seen - s.taken));
      Inv(s', base) && SameKernelSide(s, s') && s'.seen == s.seen && s'.reader.Waiting?
    decreases ReadsLeft(s.reader, s.seen - s.taken)
  {
    hide Ordered, Placed, Intact, WriterOk, ReaderOk, Accounted, ReadStep;
    LeftNotNegative(s, base);
    if !s.reader.Waiting? {
      OneCloser(s, base);
      LeftNotNegative(ReadStep(s), base);
      DrainEnds(ReadStep(s), base);
    }
  }

  /** Waiting between drains: nothing seen is left, and the kernel has been told. */
  lemma WaitingMeans(s: Ring, base: nat)
    requires Inv(s, base) && s.reader.Waiting?
    ensures s.taken == s.seen <= |s.published| && s.dataTail == s.tail
    ensures s.tail == base + Length(s.published[..s.seen])
    ensures s.samples == Samples(s.published[..s.seen]) && s.hist == Tally(s.published[..s.seen])
  {
    hide EncodeLog, Intact, WriterOk;
  }

  /** From every waiting state one drain takes everything published. */
  lemma WholeDrain(s: Ring, base: nat)
    requires Inv(s, base) && s.dataHead < TWO_64 && s.reader.Waiting?
    ensures s.taken <= |s.published|
    ensures var s' := Solo(s, Read, 2 * (|s.published| - s.taken) + 2);
      Inv(s', base) && SameKernelSide(s, s') && s'.seen == |s.published| && s'.reader.Waiting?
  {
    hide Ordered, Placed, Intact, WriterOk, ReaderOk, Accounted, ReadStep;
    var s1 := ReadStep(s);
    Starts(s, base);
    DrainEnds(s1, base);
  }

  lemma Starts(s: Ring, base: nat)
    requires Inv(s, base) && s.dataHead < TWO_64 && s.reader.Waiting?
    ensures s.taken <= |s.published|
    ensures var s' := ReadStep(s);
      && Inv(s', base) && SameKernelSide(s, s') && s'.reader.Looping?
      && s'.seen == |s.published| && s'.taken == s.taken
  {
    hide EncodeLog, Samples, Tally, Encode, Intact, WriterOk, Accounted;
    ReadInv(s, base);
  }

  /**
   * From every reachable state, at most two Read steps a record and one more end the drain under way: the reader waits
   * again, has taken exactly what it had seen, and has stored the head it worked towards to `data_tail`.
   */
  lemma ReaderFinishes(data: seq<Byte>, base: nat, schedule: seq<Choice>)
    requires data != [] && Admissible(schedule) && Run(data, base, schedule).dataHead < TWO_64
    ensures var s := Run(data, base, schedule);
      && s.taken <= s.seen <= |s.published| && Readable(s.published)
      && exists n: nat :: n <= 2 * (s.seen - s.taken) + 1 &&
           var s' := Run(data, base, schedule + Repeat(Read, n));
           && s'.reader.Waiting? && s'.taken == s.seen && s'.dataTail == HeadSeen(s.reader, s.tail)
           && s'.published == s.published && s'.samples == Samples(s.published[..s.seen])
  {
    hide Inv, Run;
    RunInv(data, base, schedule);
    var s := Run(data, base, schedule);
    LeftNotNegative(s, base);
    DrainEnds(s, base);
    var n: nat := ReadsLeft(s.reader, s.seen - s.taken);
    RunSolo(data, base, schedule, Read, n);
    WaitingMeans(Solo(s, Read, n), base);
    SeenPosition(s, base);
  }

  lemma SeenPosition(s: Ring, base: nat)
    requires Inv(s, base)
    ensures s.seen <= |s.published| && HeadSeen(s.reader, s.tail) == base + Length(s.published[..s.seen])
    ensures s.dataHead == base + Length(s.published) && Readable(s.published)
  {
    hide EncodeLog, Intact, WriterOk;
  }

  /**
   * From every reachable state, however many records are unread and whatever drain is under way, Read steps alone
   * empty the ring: at most two a record and three more. The reader then has every record published, each counted
   * once, and `data_tail` is `data_head`.
   */
  lemma ReaderCatchesUp(data: seq<Byte>, base: nat, schedule: seq<Choice>)
    requires data != [] && Admissible(schedule) && Run(data, base, schedule).dataHead < TWO_64
    ensures var s := Run(data, base, schedule);
      && s.taken <= |s.published| && Readable(s.published)
      && exists n: nat :: n <= 2 * (|s.published| - s.taken) + 3 &&
           var s' := Run(data, base, schedule + Repeat(Read, n));
           && s'.reader.Waiting? && s'.published == s.published && s'.taken == |s.published|
           && s'.dataTail == s'.tail == s'.dataHead == s.dataHead
           && s'.samples == Samples(s.published) && s'.hist == Tally(s.published)
  {
    hide Inv, Run, ReadsLeft;
    RunInv(data, base, schedule);
    var s := Run(data, base, schedule);
    var n := CatchUp(s, base);
    RunSolo(data, base, schedule, Read, n);
  }

  lemma CatchUp(s: Ring, base: nat) returns (n: nat)
    requires Inv(s, base) && s.dataHead < TWO_64
    ensures s.taken <= |s.published| && Readable(s.published) && n <= 2 * (|s.published| - s.taken) + 3
    ensures var s' := Solo(s, Read, n);
      && s'.reader.Waiting? && s'.published == s.published && s'.taken == |s.published|
      && s'.dataTail == s'.tail == s'.dataHead == s.dataHead
      && s'.samples == Samples(s.published) && s'.hist == Tally(s.published)
  {
    hide Inv, ReadStep;
    LeftNotNegative(s, base);
    DrainEnds(s, base);
    var m: nat := ReadsLeft(s.reader, s.seen - s.taken);
    var s1 := Solo(s, Read, m);
    WaitingMeans(s1, base);
    WholeDrain(s1, base);
    var k: nat := 2 * (|s.published| - s1.taken) + 2;
    n := m + k;
    SoloSum(s, Read, m, k);
    var s2 := Solo(s1, Read, k);
    assert s.published[..|s.published|] == s.published;
    WaitingMeans(s2, base);
    SeenPosition(s2, base);
  }

  // --------------------------------------------------------------------- the kernel

  lemma {:induction false} WriteOut(s: Ring, r: Record, k: nat)
    requires s.data != [] && s.writer == Writing(r, k) && k <= Size(r)
    ensures var s' := Solo(s, Write, Size(r) + 1 - k);
      && s'.writer.Idle? && s'.published == s.published + [r] && s'.dataHead == s.dataHead + Size(r)
      && s'.dropped == s.dropped && s'.dataTail == s.dataTail
    decreases Size(r) - k
  {
    hide Encode, Index;
    if k < Size(r) {
      WriteOut(WriteStep(s), r, k + 1);
    } else {
      assert Solo(WriteStep(s), Write, 0) == WriteStep(s);
    }
  }

  lemma {:induction false} IdleWrites(s: Ring, n: nat)
    requires s.data != [] && s.writer.Idle?
    ensures Solo(s, Write, n) == s
    decreases n
  {
    if n > 0 {
      IdleWrites(s, n - 1);
    }
  }

  /**
   * A record offered to an idle kernel is published, by one step a byte and one more, exactly when it fits behind the
   * unread bytes; otherwise it is dropped and the loss is counted.
   */
  lemma KernelPublishesExactly(data: seq<Byte>, base: nat, schedule: seq<Choice>, r: Record)
    requires data != [] && Run(data, base, schedule).writer.Idle?
    ensures var s := Run(data, base, schedule);
      var s' := Run(data, base, schedule + [Offer(r)] + Repeat(Write, 8 + |r.body| + 1));
      if s.dataHead + 8 + |r.body| <= s.dataTail + |s.data|
      then s'.published == s.published + [r] && s'.dataHead == s.dataHead + 8 + |r.body| && s'.dropped == s.dropped
      else s'.published == s.published && s'.dataHead == s.dataHead && s'.dropped == s.dropped + 1
  {
    hide Run;
    var s := Run(data, base, schedule);
    var s1, n := OfferStep(s, r), 8 + |r.body| + 1;
    RunOneMore(data, base, schedule, Offer(r));
    RunSolo(data, base, schedule + [Offer(r)], Write, n);
    if s.dataHead + Size(r) <= s.dataTail + |s.data| {
      WriteOut(s1, r, 0);
    } else {
      IdleWrites(s1, n);
    }
  }
}
