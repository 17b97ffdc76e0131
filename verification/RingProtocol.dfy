/**
 * The ring buffer shared with the kernel. The kernel writes a record byte by byte past `data_head` and then publishes
 * it; the reader drains what it saw published and then stores `data_tail`. One step per access.
 */
module RingProtocol {
  import opened Words
  import opened PerfRecord
  import opened RingDrain

  datatype Writer = Idle | Writing(record: Record, done: nat)

  /** Before `drain`; in its record loop; between a header and its body; ended by a fatal message. */
  datatype Reader = Waiting | Looping(head: nat) | InBody(head: nat, kind: nat, size: nat) | Dead(why: Fatal)

  /**
   * `published`, `seen` and `taken` are history: the records published so far, how many of them the reader's head
   * position covers, and how many it has consumed.
   */
  datatype Ring = Ring(
    data: seq<Byte>, dataHead: nat, dataTail: nat, writer: Writer,
    reader: Reader, tail: nat, samples: seq<Sample>, hist: Histogram,
    published: seq<Record>, seen: nat, taken: nat, dropped: nat)

  /** The kernel has a record to append, the kernel continues a write, or the reader moves. */
  datatype Choice = Offer(record: Record) | Write | Read

  function Init(data: seq<Byte>, base: nat): Ring {
    Ring(data, base, base, Idle, Waiting, base, [], Histogram(0, 0, 0, 0, 0), [], 0, 0, 0)
  }

  /** A record without room past `data_tail` is dropped. */
  function OfferStep(s: Ring, r: Record): Ring {
    if !s.writer.Idle? then s
    else if s.dataHead + Size(r) <= s.dataTail + |s.data| then s.(writer := Writing(r, 0))
    else s.(dropped := s.dropped + 1)
  }

  function WriteStep(s: Ring): Ring
    requires s.data != []
  {
    match s.writer
    case Idle => s
    case Writing(r, k) =>
      if k < Size(r)
      then s.(data := s.data[Index(s.dataHead + k, |s.data|) := Encode(r)[k]], writer := Writing(r, k + 1))
      else s.(dataHead := s.dataHead + Size(r), published := s.published + [r], writer := Idle)
  }

  function ReadStep(s: Ring): Ring
    requires s.data != []
  {
    match s.reader
    case Waiting =>
      if Wrap64(s.dataHead - s.tail) > |s.data| then s.(reader := Dead(Overflow))
      else s.(reader := Looping(s.dataHead), seen := |s.published|)
    case Looping(head) =>
      if s.tail >= head then s.(reader := Waiting, dataTail := s.tail)
      else
        var header := Stretch(s.data, s.tail, HEADER_SIZE);
        var size, kind := HeaderSize(header), HeaderKind(header);
        if size < HEADER_SIZE then s.(reader := Dead(HeaderTooSmall))
        else if s.tail + size > head then s.(reader := Dead(RunsPastHead))
        else if IsThrottle(kind) then s.(reader := Dead(Throttled))
        else s.(reader := InBody(head, kind, size))
    case InBody(head, kind, size) =>
      var (samples, hist) := Record1(s.data, s.tail, kind, s.samples, s.hist);
      s.(samples := samples, hist := hist, tail := s.tail + size, reader := Looping(head), taken := s.taken + 1)
    case Dead(why) => s
  }

  function Step(s: Ring, choice: Choice): (s': Ring)
    requires s.data != []
    ensures s'.data != [] && s'.dataHead >= s.dataHead
  {
    match choice
    case Offer(r) => OfferStep(s, r)
    case Write => WriteStep(s)
    case Read => ReadStep(s)
  }

  function Run(data: seq<Byte>, base: nat, schedule: seq<Choice>): (s: Ring)
    requires data != []
    ensures s.data != []
  {
    if schedule == [] then Init(data, base)
    else Step(Run(data, base, schedule[..|schedule| - 1]), schedule[|schedule| - 1])
  }

  /** The kernel only appends records of the layout it was asked for, and does not throttle the event. */
  ghost predicate Admissible(schedule: seq<Choice>) {
    forall i :: 0 <= i < |schedule| && schedule[i].Offer? ==> Readable([schedule[i].record])
  }

  // ---------------------------------------------------------------- invariant

  function Length(log: seq<Record>): nat {
    |EncodeLog(log)|
  }

  /** The head position the reader works towards. */
  function HeadSeen(reader: Reader, tail: nat): nat {
    match reader
    case Waiting => tail
    case Looping(head) => head
    case InBody(head, _, _) => head
    case Dead(_) => tail
  }

  ghost predicate Ordered(dataTail: nat, tail: nat, seenHead: nat, dataHead: nat, size: nat) {
    dataTail <= tail <= seenHead <= dataHead <= dataTail + size
  }

  /** Positions are where the encoded history puts them. */
  ghost predicate Placed(published: seq<Record>, taken: nat, seen: nat, tail: nat, seenHead: nat, dataHead: nat,
                         base: nat)
  {
    && taken <= seen <= |published|
    && tail == base + Length(published[..taken])
    && seenHead == base + Length(published[..seen])
    && dataHead == base + Length(published)
  }

  /** Every byte between `lo` and `hi` is the published one. */
  ghost predicate Intact(data: seq<Byte>, stream: seq<Byte>, lo: nat, hi: nat, base: nat)
    requires data != []
  {
    && base <= lo && hi <= base + |stream|
    && forall pos: nat :: lo <= pos < hi ==> At(data, pos) == stream[pos - base]
  }

  ghost predicate WriterOk(writer: Writer, data: seq<Byte>, dataTail: nat, dataHead: nat)
    requires data != []
  {
    writer.Writing? ==>
      && Readable([writer.record])
      && writer.done <= Size(writer.record)
      && dataHead + Size(writer.record) <= dataTail + |data|
      && Holds(data, dataHead, Encode(writer.record)[..writer.done])
  }

  ghost predicate ReaderOk(reader: Reader, published: seq<Record>, taken: nat, seen: nat, dataTail: nat, tail: nat) {
    && !reader.Dead?
    && (reader.Waiting? ==> taken == seen && dataTail == tail)
    && (reader.InBody? ==>
         taken < seen <= |published| &&
         reader.kind == published[taken].kind && reader.size == Size(published[taken]))
  }

  ghost predicate Accounted(published: seq<Record>, taken: nat, samples: seq<Sample>, hist: Histogram) {
    && Readable(published)
    && taken <= |published|
    && samples == Samples(published[..taken])
    && hist == Tally(published[..taken])
  }

  ghost predicate Inv(s: Ring, base: nat) {
    && s.data != []
    && Ordered(s.dataTail, s.tail, HeadSeen(s.reader, s.tail), s.dataHead, |s.data|)
    && Placed(s.published, s.taken, s.seen, s.tail, HeadSeen(s.reader, s.tail), s.dataHead, base)
    && Intact(s.data, EncodeLog(s.published), s.dataTail, s.dataHead, base)
    && WriterOk(s.writer, s.data, s.dataTail, s.dataHead)
    && ReaderOk(s.reader, s.published, s.taken, s.seen, s.dataTail, s.tail)
    && Accounted(s.published, s.taken, s.samples, s.hist)
  }

  lemma LengthOne(r: Record)
    ensures EncodeLog([r]) == Encode(r) && Length([r]) == Size(r)
  {
    assert EncodeLog([r]) == Encode(r) + EncodeLog([]);
  }

  lemma MiddleOf<T>(x: seq<T>, y: seq<T>, z: seq<T>)
    ensures (x + (y + z))[|x|..|x| + |y|] == y
  {
  }

  /** The encoding of a stretch of the log inside the encoding of the whole. */
  lemma EncodeMiddle(log: seq<Record>, x: seq<Record>, y: seq<Record>, z: seq<Record>)
    requires log == x + (y + z)
    ensures Length(x + y) == Length(x) + Length(y) <= Length(log)
    ensures EncodeLog(log)[Length(x)..Length(x) + Length(y)] == EncodeLog(y)
  {
    hide EncodeLog;
    EncodeLogAppend(x, y);
    EncodeLogAppend(x, y + z);
    EncodeLogAppend(y, z);
    MiddleOf(EncodeLog(x), EncodeLog(y), EncodeLog(z));
  }

  lemma Cut<T>(log: seq<T>, n: nat, m: nat)
    requires n <= m <= |log|
    ensures log == log[..n] + (log[n..m] + log[m..]) && log[..m] == log[..n] + log[n..m]
  {
  }

  lemma LengthMonotone(log: seq<Record>, n: nat, m: nat)
    requires n <= m <= |log|
    ensures Length(log[..n]) <= Length(log[..m]) <= Length(log)
  {
    Cut(log, n, m);
    EncodeMiddle(log, log[..n], log[n..m], log[m..]);
  }

  lemma OneInLog(log: seq<Record>, x: seq<Record>, r: Record, z: seq<Record>)
    requires log == x + ([r] + z)
    ensures Length(x + [r]) == Length(x) + Size(r) <= Length(log)
    ensures EncodeLog(log)[Length(x)..Length(x) + Size(r)] == Encode(r)
  {
    LengthOne(r);
    EncodeMiddle(log, x, [r], z);
  }

  lemma CutOne<T>(log: seq<T>, n: nat)
    requires n < |log|
    ensures log == log[..n] + ([log[n]] + log[n + 1..]) && log[..n + 1] == log[..n] + [log[n]]
  {
  }

  /** A window of the stream that is intact in the buffer can be read off it. */
  lemma WindowHolds(data: seq<Byte>, stream: seq<Byte>, base: nat, lo: nat, hi: nat, at: nat, mid: seq<Byte>)
    requires data != [] && Intact(data, stream, lo, hi, base)
    requires lo <= base + at && base + at + |mid| <= hi && stream[at..at + |mid|] == mid
    ensures Holds(data, base + at, mid)
  {
    forall k | 0 <= k < |mid|
      ensures At(data, base + at + k) == mid[k]
    {
      assert stream[at..at + |mid|][k] == stream[at + k];
      assert base + at + k - base == at + k;
    }
  }

  /** Where record `n` of a log is encoded. */
  lemma RecordInLog(log: seq<Record>, n: nat)
    requires n < |log|
    ensures Length(log[..n + 1]) == Length(log[..n]) + Size(log[n]) <= Length(log)
    ensures EncodeLog(log)[Length(log[..n])..Length(log[..n]) + Size(log[n])] == Encode(log[n])
  {
    CutOne(log, n);
    OneInLog(log, log[..n], log[n], log[n + 1..]);
  }

  /** The next unread record is in the buffer, whole. */
  lemma NextRecord(s: Ring, base: nat)
    requires Inv(s, base) && s.taken < s.seen
    ensures Holds(s.data, s.tail, Encode(s.published[s.taken]))
    ensures s.tail + Size(s.published[s.taken]) <= HeadSeen(s.reader, s.tail)
    ensures Length(s.published[..s.taken + 1]) == Length(s.published[..s.taken]) + Size(s.published[s.taken])
  {
    hide EncodeLog, Samples, Tally, Encode;
    RecordInLog(s.published, s.taken);
    LengthMonotone(s.published, s.taken + 1, s.seen);
    WindowHolds(s.data, EncodeLog(s.published), base, s.dataTail, s.dataHead, Length(s.published[..s.taken]),
                Encode(s.published[s.taken]));
  }

  // ------------------------------------------------------------- preservation

  lemma InitInv(data: seq<Byte>, base: nat)
    requires data != []
    ensures Inv(Init(data, base), base)
  {
  }

  /** A byte stored less than a buffer ahead touches no position before it. */
  lemma StoreAhead(data: seq<Byte>, lo: nat, w: nat, b: Byte)
    requires data != [] && w < lo + |data|
    ensures forall pos: nat :: lo <= pos < w ==> At(data[Index(w, |data|) := b], pos) == At(data, pos)
    ensures At(data[Index(w, |data|) := b], w) == b
  {
    forall pos: nat | lo <= pos < w
      ensures At(data[Index(w, |data|) := b], pos) == At(data, pos)
    {
      IndicesDiffer(pos, w, |data|);
    }
  }

  lemma StoreKeepsIntact(data: seq<Byte>, stream: seq<Byte>, lo: nat, hi: nat, base: nat, w: nat, b: Byte)
    requires data != [] && Intact(data, stream, lo, hi, base) && hi <= w < lo + |data|
    ensures Intact(data[Index(w, |data|) := b], stream, lo, hi, base)
  {
    StoreAhead(data, lo, w, b);
    var data' := data[Index(w, |data|) := b];
    forall pos: nat | lo <= pos < hi
      ensures At(data', pos) == stream[pos - base]
    {
      assert At(data', pos) == At(data, pos);
    }
  }

  lemma StoreKeepsWriter(r: Record, k: nat, data: seq<Byte>, lo: nat, at: nat)
    requires k < Size(r) && data != [] && lo <= at && at + k < lo + |data| && Holds(data, at, Encode(r)[..k])
    ensures Holds(data[Index(at + k, |data|) := Encode(r)[k]], at, Encode(r)[..k + 1])
  {
    StoreAhead(data, lo, at + k, Encode(r)[k]);
    var data', part := data[Index(at + k, |data|) := Encode(r)[k]], Encode(r)[..k + 1];
    forall j | 0 <= j < |part|
      ensures At(data', at + j) == part[j]
    {
      if j < k {
        assert At(data', at + j) == At(data, at + j);
        assert Encode(r)[..k][j] == part[j];
      }
    }
  }

  lemma WriteByteInv(s: Ring, base: nat)
    requires Inv(s, base) && s.writer.Writing? && s.writer.done < Size(s.writer.record)
    ensures Inv(WriteStep(s), base)
  {
    hide EncodeLog, Samples, Tally, Encode;
    var r, k := s.writer.record, s.writer.done;
    StoreKeepsIntact(s.data, EncodeLog(s.published), s.dataTail, s.dataHead, base, s.dataHead + k, Encode(r)[k]);
    StoreKeepsWriter(r, k, s.data, s.dataTail, s.dataHead);
  }

  /** A record written completely becomes part of the intact stream. */
  lemma IntactGrows(data: seq<Byte>, stream: seq<Byte>, lo: nat, hi: nat, base: nat, more: seq<Byte>)
    requires data != [] && Intact(data, stream, lo, hi, base) && lo <= hi == base + |stream| && Holds(data, hi, more)
    ensures Intact(data, stream + more, lo, hi + |more|, base)
  {
    forall pos: nat | lo <= pos < hi + |more|
      ensures At(data, pos) == (stream + more)[pos - base]
    {
      if pos >= hi {
        assert At(data, hi + (pos - hi)) == more[pos - hi];
      }
    }
  }

  lemma KeepsPrefix<T>(a: seq<T>, v: T, n: nat)
    requires n <= |a|
    ensures (a + [v])[..n] == a[..n]
  {
  }

  lemma EncodeLogOne(log: seq<Record>, r: Record)
    ensures EncodeLog(log + [r]) == EncodeLog(log) + Encode(r)
  {
    EncodeLogAppend(log, [r]);
    LengthOne(r);
  }

  lemma ReadableOne(log: seq<Record>, r: Record)
    requires Readable(log) && Readable([r])
    ensures Readable(log + [r])
  {
    var all := log + [r];
    forall i | 0 <= i < |all|
      ensures WellFormed(all[i]) && HasLayout(all[i]) && !Throttles(all[i])
    {
      assert all[i] == if i < |log| then log[i] else [r][0];
    }
  }

  lemma PublishInv(s: Ring, base: nat)
    requires Inv(s, base) && s.writer.Writing? && s.writer.done == Size(s.writer.record)
    ensures Inv(WriteStep(s), base)
  {
    var r := s.writer.record;
    assert Encode(r)[..Size(r)] == Encode(r);
    KeepsPrefix(s.published, r, s.taken);
    KeepsPrefix(s.published, r, s.seen);
    EncodeLogOne(s.published, r);
    ReadableOne(s.published, r);
    IntactGrows(s.data, EncodeLog(s.published), s.dataTail, s.dataHead, base, Encode(r));
  }

  lemma LoadHeadInv(s: Ring, base: nat)
    requires Inv(s, base) && s.reader.Waiting? && s.dataHead < TWO_64
    ensures Inv(ReadStep(s), base)
  {
    assert s.published[..|s.published|] == s.published;
  }

  /** The reader is through its records exactly when it has reached the head it loaded. */
  lemma AllTakenAtHead(s: Ring, base: nat)
    requires Inv(s, base)
    ensures s.tail < HeadSeen(s.reader, s.tail) <==> s.taken < s.seen
  {
    if s.taken < s.seen {
      NextRecord(s, base);
    }
  }

  lemma StoreTailInv(s: Ring, base: nat)
    requires Inv(s, base) && s.reader.Looping? && s.tail >= s.reader.head
    ensures Inv(ReadStep(s), base)
  {
    AllTakenAtHead(s, base);
  }

  /** The header the reader finds is that of the next published record, and passes every check. */
  lemma HeaderRead(s: Ring, base: nat)
    requires Inv(s, base) && s.reader.Looping? && s.tail < s.reader.head
    ensures s.taken < s.seen <= |s.published|
    ensures var r := s.published[s.taken]; ReadStep(s) == s.(reader := InBody(s.reader.head, r.kind, Size(r)))
  {
    AllTakenAtHead(s, base);
    NextRecord(s, base);
    ReadsRecord(s.data, s.tail, s.published[s.taken]);
  }

  lemma HeaderInv(s: Ring, base: nat)
    requires Inv(s, base) && s.reader.Looping? && s.tail < s.reader.head
    ensures Inv(ReadStep(s), base)
  {
    HeaderRead(s, base);
  }

  lemma BodyInv(s: Ring, base: nat)
    requires Inv(s, base) && s.reader.InBody?
    ensures Inv(ReadStep(s), base)
  {
    NextRecord(s, base);
    BodyAccounted(s.published, s.taken, s.data, s.tail);
    IntactNarrows(s.data, EncodeLog(s.published), s.dataTail, s.dataHead, base);
  }

  lemma IntactNarrows(data: seq<Byte>, stream: seq<Byte>, lo: nat, hi: nat, base: nat)
    requires data != [] && Intact(data, stream, lo, hi, base)
    ensures forall lo': nat :: lo <= lo' ==> Intact(data, stream, lo', hi, base)
  {
  }

  lemma BodyAccounted(log: seq<Record>, n: nat, data: seq<Byte>, tail: nat)
    requires n < |log| && Readable(log) && data != [] && Holds(data, tail, Encode(log[n]))
    ensures Record1(data, tail, log[n].kind, Samples(log[..n]), Tally(log[..n]))
         == (Samples(log[..n + 1]), Tally(log[..n + 1]))
  {
    assert log[..n] + [log[n]] == log[..n + 1];
    TallyAppend(log[..n], log[n], data, tail);
  }

  lemma OfferInv(s: Ring, base: nat, r: Record)
    requires Inv(s, base) && Readable([r])
    ensures Inv(OfferStep(s, r), base)
  {
    hide EncodeLog, Samples, Tally, Encode, Index;
    assert Encode(r)[..0] == [];
  }

  lemma WriteInv(s: Ring, base: nat)
    requires Inv(s, base)
    ensures Inv(WriteStep(s), base)
  {
    if s.writer.Writing? {
      if s.writer.done < Size(s.writer.record) { WriteByteInv(s, base); } else { PublishInv(s, base); }
    }
  }

  lemma ReadInv(s: Ring, base: nat)
    requires Inv(s, base) && s.dataHead < TWO_64
    ensures Inv(ReadStep(s), base)
  {
    match s.reader
    case Waiting => LoadHeadInv(s, base);
    case Looping(head) => if s.tail >= head { StoreTailInv(s, base); } else { HeaderInv(s, base); }
    case InBody(head, kind, size) => BodyInv(s, base);
  }

  lemma StepInv(s: Ring, base: nat, choice: Choice)
    requires Inv(s, base) && s.dataHead < TWO_64
    requires choice.Offer? ==> Readable([choice.record])
    ensures Inv(Step(s, choice), base)
  {
    match choice
    case Offer(r) => OfferInv(s, base, r);
    case Write => WriteInv(s, base);
    case Read => ReadInv(s, base);
  }

  lemma {:induction false} RunInv(data: seq<Byte>, base: nat, schedule: seq<Choice>)
    requires data != [] && Admissible(schedule) && Run(data, base, schedule).dataHead < TWO_64
    ensures Inv(Run(data, base, schedule), base)
  {
    if schedule == [] {
      InitInv(data, base);
    } else {
      var before := schedule[..|schedule| - 1];
      RunInv(data, base, before);
      StepInv(Run(data, base, before), base, schedule[|schedule| - 1]);
    }
  }

  // ---------------------------------------------------------------- theorems

  /**
   * In every interleaving the positions stay ordered, at most one buffer of bytes is unread, the reader never
   * comes to a fatal exit, and what it has is exactly the samples and counts of the records it has passed.
   */
  lemma RingSafety(data: seq<Byte>, base: nat, schedule: seq<Choice>)
    requires data != [] && Admissible(schedule) && Run(data, base, schedule).dataHead < TWO_64
    ensures var s := Run(data, base, schedule);
      && s.dataTail <= s.tail <= HeadSeen(s.reader, s.tail) <= s.dataHead <= s.dataTail + |s.data|
      && !s.reader.Dead?
      && s.taken <= |s.published| && Readable(s.published)
      && s.samples == Samples(s.published[..s.taken])
      && s.hist == Tally(s.published[..s.taken])
  {
    RunInv(data, base, schedule);
  }

  /** No step of the kernel changes a byte between `data_tail` and `data_head`. */
  lemma UnreadBytesFrozen(data: seq<Byte>, base: nat, schedule: seq<Choice>, choice: Choice, pos: nat)
    requires data != [] && Admissible(schedule) && Run(data, base, schedule).dataHead < TWO_64
    requires !choice.Read? && Run(data, base, schedule).dataTail <= pos < Run(data, base, schedule).dataHead
    ensures At(Step(Run(data, base, schedule), choice).data, pos) == At(Run(data, base, schedule).data, pos)
  {
    hide EncodeLog, Samples, Tally, Encode, Run, Index;
    RunInv(data, base, schedule);
    var s := Run(data, base, schedule);
    if choice.Write? && s.writer.Writing? && s.writer.done < Size(s.writer.record) {
      StoreAhead(s.data, s.dataTail, s.dataHead + s.writer.done, Encode(s.writer.record)[s.writer.done]);
    }
  }

  /** Published but not yet consumed records are exactly what the buffer still holds. */
  lemma UnreadIsRest(s: Ring, base: nat, upto: nat)
    requires Inv(s, base) && s.taken <= upto <= |s.published|
    ensures s.tail + Length(s.published[s.taken..upto]) == base + Length(s.published[..upto]) <= s.dataHead
    ensures Holds(s.data, s.tail, EncodeLog(s.published[s.taken..upto]))
  {
    hide EncodeLog, Samples, Tally;
    var log, n := s.published, s.taken;
    Cut(log, n, upto);
    EncodeMiddle(log, log[..n], log[n..upto], log[upto..]);
    WindowHolds(s.data, EncodeLog(log), base, s.dataTail, s.dataHead, Length(log[..n]), EncodeLog(log[n..upto]));
  }

  /**
   * A drain in progress is not disturbed by the kernel: in every reachable state the loop that remains, run on the
   * buffer as it is now, ends with the samples and counts of everything published when its head was loaded.
   */
  lemma DrainInProgress(data: seq<Byte>, base: nat, schedule: seq<Choice>)
    requires data != [] && Admissible(schedule) && Run(data, base, schedule).dataHead < TWO_64
    requires Run(data, base, schedule).reader.Looping?
    ensures var s := Run(data, base, schedule);
      s.seen <= |s.published| && Readable(s.published) &&
      Loop(s.data, s.reader.head, s.tail, s.samples, s.hist)
        == Drained(s.reader.head, Samples(s.published[..s.seen]), Tally(s.published[..s.seen]))
  {
    RunInv(data, base, schedule);
    SeenDrains(Run(data, base, schedule), base);
  }

  lemma SeenDrains(s: Ring, base: nat)
    requires Inv(s, base) && s.reader.Looping?
    ensures Loop(s.data, s.reader.head, s.tail, s.samples, s.hist)
         == Drained(s.reader.head, Samples(s.published[..s.seen]), Tally(s.published[..s.seen]))
  {
    hide EncodeLog, Samples, Tally, Loop, Index;
    var done, rest, log := s.published[..s.taken], s.published[s.taken..s.seen], s.published[..s.seen];
    Cut(s.published, s.taken, s.seen);
    UnreadIsRest(s, base, s.seen);
    assert done + rest == log && s.reader.head == s.tail + Length(rest);
    DrainRoundTrip(s.data, s.reader.head, s.tail, done, rest);
  }

  /**
   * The final drain, with the kernel quiet and no earlier drain under way: nothing is left in the ring, and the
   * reader has the samples of every record ever published, in order, each counted once.
   */
  lemma FinalDrain(data: seq<Byte>, base: nat, schedule: seq<Choice>)
    requires data != [] && Admissible(schedule) && Run(data, base, schedule).dataHead < TWO_64
    requires Run(data, base, schedule).writer.Idle? && Run(data, base, schedule).reader.Waiting?
    ensures var s := Run(data, base, schedule);
      Readable(s.published) &&
      DrainFrom(s.data, s.dataHead, s.tail, s.samples, s.hist)
        == Drained(s.dataHead, Samples(s.published), Tally(s.published))
  {
    RunInv(data, base, schedule);
    QuietDrains(Run(data, base, schedule), base);
  }

  lemma QuietDrains(s: Ring, base: nat)
    requires Inv(s, base)
    ensures Loop(s.data, s.dataHead, s.tail, s.samples, s.hist)
         == Drained(s.dataHead, Samples(s.published), Tally(s.published))
  {
    hide EncodeLog, Samples, Tally, Loop, Index;
    var log, n := s.published, |s.published|;
    var done, rest := log[..s.taken], log[s.taken..n];
    assert log[..n] == log;
    Cut(log, s.taken, n);
    UnreadIsRest(s, base, n);
    assert done + rest == log && s.dataHead == s.tail + Length(rest);
    DrainRoundTrip(s.data, s.dataHead, s.tail, done, rest);
  }
}
