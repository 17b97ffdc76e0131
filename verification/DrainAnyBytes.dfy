/** `drain` on arbitrary buffer contents: what it accepts, what it then reads, and when a record is read right. */
module DrainAnyBytes {
  import opened Words
  import opened PerfRecord
  import opened Sums
  import opened Counting
  import opened RingDrain

  // ---------------------------------------------------------------- acceptance

  /** Records the reader gets through: anything but a throttle notice. */
  ghost predicate Passable(log: seq<Record>) {
    forall i :: 0 <= i < |log| ==> WellFormed(log[i]) && !Throttles(log[i])
  }

  /** The samples read off the buffer for a log at `tail`: the bytes after each SAMPLE header, whatever they are. */
  function RawSamples(data: seq<Byte>, tail: nat, log: seq<Record>): seq<Sample>
    requires data != []
    decreases |log|
  {
    if log == [] then []
    else
      SamplePart(data, tail, log[0].kind) + RawSamples(data, tail + Size(log[0]), log[1..])
  }

  /** The sum of the lost counts read off the buffer. */
  function RawLost(data: seq<Byte>, tail: nat, log: seq<Record>): nat
    requires data != []
    decreases |log|
  {
    if log == [] then 0
    else
      LostPart(data, tail, log[0].kind) + RawLost(data, tail + Size(log[0]), log[1..])
  }

  lemma CountFront(r: Record, rest: seq<Record>, kind: nat)
    ensures CountKind([r] + rest, kind) == CountKind(rest, kind) + if r.kind == kind then 1 else 0
  {
    CountConcat([r], rest, OfKind(kind));
    CountOne([], r, OfKind(kind));
    assert [] + [r] == [r];
  }

  /** Counting the first record and then the rest is counting them all. */
  lemma CountedFront(hist: Histogram, r: Record, rest: seq<Record>, first: nat, lost: nat)
    requires r.kind != PERF_RECORD_LOST ==> first == 0
    ensures Counted(Tick(hist, r.kind, first), rest, lost) == Counted(hist, [r] + rest, first + lost)
  {
    CountFront(r, rest, 9);
    CountFront(r, rest, 2);
    CountFront(r, rest, 4);
    WrapAdd(hist.lostEvents + first, lost);
  }

  /** Over a log of passable records the loop passes with `all` and `total`, to go on behind it. */
  lemma {:induction false} PassesLog(data: seq<Byte>, head: nat, tail: nat, samples: seq<Sample>, hist: Histogram,
                                     log: seq<Record>, all: seq<Sample>, total: Histogram)
    requires data != [] && Passable(log) && hist.lostEvents < TWO_64
    requires tail + |EncodeLog(log)| <= head && Holds(data, tail, EncodeLog(log))
    requires all == samples + RawSamples(data, tail, log) && total == Counted(hist, log, RawLost(data, tail, log))
    ensures Loop(data, head, tail, samples, hist) == Loop(data, head, tail + |EncodeLog(log)|, all, total)
    decreases |log|
  {
    hide Loop, Counted, Tick, Record1;
    if log == [] {
      assert all == samples;
      NothingCounted(hist);
    } else {
      LogFront(data, tail, log);
      LoopOne(data, head, tail, samples, hist, log[0]);
      ResultFront(data, tail, samples, hist, log);
      var p := Record1(data, tail, log[0].kind, samples, hist);
      PassesLog(data, head, tail + Size(log[0]), p.0, p.1, log[1..], all, total);
    }
  }

  lemma NothingCounted(hist: Histogram)
    requires hist.lostEvents < TWO_64
    ensures Counted(hist, [], 0) == hist
  {
  }

  /** The first record and the rest, put together. */
  lemma ResultFront(data: seq<Byte>, tail: nat, samples: seq<Sample>, hist: Histogram, log: seq<Record>)
    requires data != [] && log != []
    ensures var p := Record1(data, tail, log[0].kind, samples, hist);
      var next, rest := tail + Size(log[0]), log[1..];
      && p.0 + RawSamples(data, next, rest) == samples + RawSamples(data, tail, log)
      && Counted(p.1, rest, RawLost(data, next, rest)) == Counted(hist, log, RawLost(data, tail, log))
  {
    var kind, next, rest := log[0].kind, tail + Size(log[0]), log[1..];
    assert log == [log[0]] + rest;
    Associative(samples, SamplePart(data, tail, kind), RawSamples(data, next, rest));
    CountedFront(hist, log[0], rest, LostPart(data, tail, kind), RawLost(data, next, rest));
  }

  /** Why the loop stops at the header at `at`: the size field, the head position, or type 5 or 6. */
  ghost predicate Stops(data: seq<Byte>, head: nat, at: nat, why: Fatal)
    requires data != []
  {
    var header := Stretch(data, at, HEADER_SIZE);
    var size, kind := HeaderSize(header), HeaderKind(header);
    match why
    case HeaderTooSmall => size < 8
    case RunsPastHead => size >= 8 && at + size > head
    case Throttled => size >= 8 && at + size <= head && (kind == 5 || kind == 6)
    case Overflow => false
  }

  /** Passable records and then something the loop stops at. */
  ghost predicate StopsAfter(data: seq<Byte>, head: nat, tail: nat, log: seq<Record>, why: Fatal)
    requires data != []
  {
    && Passable(log) && Holds(data, tail, EncodeLog(log)) && tail + |EncodeLog(log)| < head
    && Stops(data, head, tail + |EncodeLog(log)|, why)
  }

  /** The records the loop gets through, whatever the bytes. */
  lemma {:induction false} PassedLog(data: seq<Byte>, head: nat, tail: nat, samples: seq<Sample>, hist: Histogram)
    returns (log: seq<Record>)
    requires data != [] && tail <= head
    ensures Passable(log) && Holds(data, tail, EncodeLog(log))
    ensures match Loop(data, head, tail, samples, hist)
      case Drained(_, _, _) => tail + |EncodeLog(log)| == head
      case Halted(why) => tail + |EncodeLog(log)| < head && Stops(data, head, tail + |EncodeLog(log)|, why)
    decreases head - tail
  {
    hide Record1, Encode;
    log := [];
    if tail < head {
      var header := Stretch(data, tail, HEADER_SIZE);
      var size, kind := HeaderSize(header), HeaderKind(header);
      if HEADER_SIZE <= size && tail + size <= head && !IsThrottle(kind) {
        var bs := Stretch(data, tail, size);
        assert bs[..HEADER_SIZE] == header;
        var r := HeaderDetermines(bs);
        var p := Record1(data, tail, kind, samples, hist);
        var rest := PassedLog(data, head, tail + size, p.0, p.1);
        log := [r] + rest;
        assert log[1..] == rest;
        HoldsJoin(data, tail, bs, EncodeLog(rest));
      }
    }
  }

  lemma HoldsJoin(data: seq<Byte>, pos: nat, a: seq<Byte>, b: seq<Byte>)
    requires data != [] && Holds(data, pos, a) && Holds(data, pos + |a|, b)
    ensures Holds(data, pos, a + b)
  {
    forall k | 0 <= k < |a + b|
      ensures At(data, pos + k) == (a + b)[k]
    {
      if k >= |a| {
        assert At(data, pos + |a| + (k - |a|)) == b[k - |a|];
      }
    }
  }

  /** The unread stretch is cut, without gap or overlap, into passable records. */
  ghost predicate CutInto(data: seq<Byte>, head: nat, tail: nat, log: seq<Record>)
    requires data != []
  {
    tail <= head && Passable(log) && Stretch(data, tail, head - tail) == EncodeLog(log)
  }

  /** The header at `at` decides how the loop ends there. */
  lemma StopsThere(data: seq<Byte>, head: nat, at: nat, samples: seq<Sample>, hist: Histogram, why: Fatal)
    requires data != [] && at < head && Stops(data, head, at, why)
    ensures Loop(data, head, at, samples, hist) == Halted(why)
  {
  }

  /**
   * What `drain` does, on any bytes whatever. It ends with an overflow exactly when more than a buffer is unread.
   * Otherwise it reaches the head position exactly when the unread stretch is cut, without gap or overlap, into records
   * with a truthful size field of which none has type 5 or 6; it then has counted each of those records once by type,
   * and read one sample after each SAMPLE header.
   */
  lemma AcceptsExactly(data: seq<Byte>, head: nat, tail: nat, samples: seq<Sample>, hist: Histogram)
    requires data != [] && tail <= head < TWO_64 && hist.lostEvents < TWO_64
    ensures DrainFrom(data, head, tail, samples, hist) == Halted(Overflow) <==> head - tail > |data|
    ensures DrainFrom(data, head, tail, samples, hist).Drained? <==>
      head - tail <= |data| && exists log :: CutInto(data, head, tail, log)
    ensures forall log :: head - tail <= |data| && CutInto(data, head, tail, log) ==>
      DrainFrom(data, head, tail, samples, hist) ==
      Drained(head, samples + RawSamples(data, tail, log), Counted(hist, log, RawLost(data, tail, log)))
  {
    if head - tail <= |data| {
      var log := PassedLog(data, head, tail, samples, hist);
      if Loop(data, head, tail, samples, hist).Drained? {
        assert Stretch(data, tail, head - tail) == EncodeLog(log);
        assert CutInto(data, head, tail, log);
      }
      forall log | CutInto(data, head, tail, log)
        ensures DrainFrom(data, head, tail, samples, hist) ==
          Drained(head, samples + RawSamples(data, tail, log), Counted(hist, log, RawLost(data, tail, log)))
      {
        DrainsLog(data, head, tail, samples, hist, log);
      }
    }
  }

  /** A log of well-formed records, none of type 5 or 6, is drained to its end, each record counted by its type. */
  lemma DrainsLog(data: seq<Byte>, head: nat, tail: nat, samples: seq<Sample>, hist: Histogram, log: seq<Record>)
    requires data != [] && hist.lostEvents < TWO_64
    requires forall i :: 0 <= i < |log| ==> WellFormed(log[i]) && log[i].kind != 5 && log[i].kind != 6
    requires head == tail + |EncodeLog(log)| && Holds(data, tail, EncodeLog(log))
    ensures Loop(data, head, tail, samples, hist) ==
            Drained(head, samples + RawSamples(data, tail, log), Counted(hist, log, RawLost(data, tail, log)))
  {
    hide Loop, RawSamples, RawLost, Counted;
    var all, total := samples + RawSamples(data, tail, log), Counted(hist, log, RawLost(data, tail, log));
    PassesLog(data, head, tail, samples, hist, log, all, total);
    LoopEnds(data, head, all, total);
  }

  /**
   * How `drain` ends when it does not reach the head: with the reason of the first header it cannot pass, after any
   * number of records it could.
   */
  lemma HaltsExactly(data: seq<Byte>, head: nat, tail: nat, samples: seq<Sample>, hist: Histogram, why: Fatal)
    requires data != [] && tail <= head <= tail + |data| && head < TWO_64 && hist.lostEvents < TWO_64
    ensures DrainFrom(data, head, tail, samples, hist) == Halted(why) <==>
            exists log :: StopsAfter(data, head, tail, log, why)
  {
    if DrainFrom(data, head, tail, samples, hist) == Halted(why) {
      var log := PassedLog(data, head, tail, samples, hist);
      assert StopsAfter(data, head, tail, log, why);
    }
    if log :| StopsAfter(data, head, tail, log, why) {
      HaltsAfter(data, head, tail, samples, hist, log, why);
    }
  }

  lemma HaltsAfter(data: seq<Byte>, head: nat, tail: nat, samples: seq<Sample>, hist: Histogram, log: seq<Record>,
                   why: Fatal)
    requires data != [] && hist.lostEvents < TWO_64 && StopsAfter(data, head, tail, log, why)
    ensures Loop(data, head, tail, samples, hist) == Halted(why)
  {
    hide Loop, RawSamples, RawLost, Counted, Stops;
    var all, total := samples + RawSamples(data, tail, log), Counted(hist, log, RawLost(data, tail, log));
    PassesLog(data, head, tail, samples, hist, log, all, total);
    StopsThere(data, head, tail + |EncodeLog(log)|, all, total, why);
  }

  /** The first record of type 5 or 6 ends the drain, whatever stands before and after it. */
  lemma HaltsAtThrottle(data: seq<Byte>, head: nat, tail: nat, samples: seq<Sample>, hist: Histogram,
                        log: seq<Record>, r: Record)
    requires data != [] && hist.lostEvents < TWO_64
    requires forall i :: 0 <= i < |log| ==> WellFormed(log[i]) && log[i].kind != 5 && log[i].kind != 6
    requires WellFormed(r) && (r.kind == 5 || r.kind == 6)
    requires Holds(data, tail, EncodeLog(log) + Encode(r)) && tail + |EncodeLog(log)| + Size(r) <= head
    ensures Loop(data, head, tail, samples, hist) == Halted(Throttled)
  {
    var at := tail + |EncodeLog(log)|;
    HoldsSplit(data, tail, EncodeLog(log), Encode(r));
    HeaderRoundTrip(r);
    assert Stretch(data, at, HEADER_SIZE) == Encode(r)[..HEADER_SIZE];
    HaltsAfter(data, head, tail, samples, hist, log, Throttled);
  }

  /** A buffer that holds real records never brings the 64-bit positions to wrap. */
  lemma {:induction false} RecordsDoNotWrap(data: seq<Byte>, head: nat, tail: nat, log: seq<Record>)
    requires data != [] && Passable(log) && head < TWO_64
    requires head == tail + |EncodeLog(log)| && Holds(data, tail, EncodeLog(log))
    ensures NoWrap(data, head, tail)
    decreases |log|
  {
    if log != [] {
      var r, rest := log[0], log[1..];
      HoldsSplit(data, tail, Encode(r), EncodeLog(rest));
      HeaderRoundTrip(r);
      assert Stretch(data, tail, HEADER_SIZE) == Encode(r)[..HEADER_SIZE];
      RecordsDoNotWrap(data, head, tail + Size(r), rest);
    }
  }

  /** However the loop ends, it has only added samples at the end, at most one per eight bytes. */
  lemma {:induction false} AppendsOnly(data: seq<Byte>, head: nat, tail: nat, samples: seq<Sample>, hist: Histogram)
    requires data != [] && tail <= head
    ensures var r := Loop(data, head, tail, samples, hist);
      r.Drained? ==> samples <= r.samples && HEADER_SIZE * (|r.samples| - |samples|) <= head - tail
    decreases head - tail
  {
    if tail < head {
      var header := Stretch(data, tail, HEADER_SIZE);
      var size, kind := HeaderSize(header), HeaderKind(header);
      if HEADER_SIZE <= size && tail + size <= head && !IsThrottle(kind) {
        var (samples', hist') := Record1(data, tail, kind, samples, hist);
        AppendsOnly(data, head, tail + size, samples', hist');
      }
    }
  }

  // ------------------------------------------------- when a record is read from its own bytes

  /** Any two buffers of `len` bytes that hold the record at `tail` give the same samples and counts. */
  ghost predicate ReadFromItself(r: Record, len: nat, tail: nat)
    requires len > 0
  {
    forall data: seq<Byte>, data': seq<Byte>, samples: seq<Sample>, hist: Histogram ::
      |data| == len && |data'| == len && Holds(data, tail, Encode(r)) && Holds(data', tail, Encode(r)) ==>
        Record1(data, tail, r.kind, samples, hist) == Record1(data', tail, r.kind, samples, hist)
  }

  /** A buffer of `len` bytes with `bs` at stream position `pos` and zeros elsewhere. */
  function Laid(len: nat, pos: nat, bs: seq<Byte>): (data: seq<Byte>)
    requires 0 < len
    ensures |data| == len
  {
    seq<Byte>(len, i requires 0 <= i < len =>
      var p := Index(pos, len);
      var k := if i < p then i + len - p else i - p;
      if k < |bs| then bs[k] else 0)
  }

  lemma LaidHolds(len: nat, pos: nat, bs: seq<Byte>)
    requires 0 < len && |bs| <= len
    ensures Holds(Laid(len, pos, bs), pos, bs)
  {
    forall k | 0 <= k < |bs|
      ensures At(Laid(len, pos, bs), pos + k) == bs[k]
    {
      IndexAdd(pos, k, len);
    }
  }

  function Zeros(n: nat): (bs: seq<Byte>)
    ensures |bs| == n
  {
    seq<Byte>(n, i => 0)
  }

  lemma FromLEInjective(a: seq<Byte>, b: seq<Byte>)
    requires |a| == |b|
    ensures FromLE(a) == FromLE(b) <==> a == b
  {
    ToFromLE(a);
    ToFromLE(b);
  }

  /** Sample fields that differ in their last byte decode differently. */
  lemma SamplesDiffer(a: seq<Byte>, b: seq<Byte>)
    requires |a| == |b| == SAMPLE_BODY && a[SAMPLE_BODY - 1] != b[SAMPLE_BODY - 1]
    ensures DecodeSample(a) != DecodeSample(b)
  {
    var x, y := a[16..], b[16..];
    assert x[7] == a[23] && y[7] == b[23];
    FromLEInjective(x, y);
  }

  lemma LostDiffer(a: seq<Byte>, b: seq<Byte>)
    requires |a| == |b| == LOST_BODY && a[LOST_BODY - 1] != b[LOST_BODY - 1]
    ensures DecodeLost(a) != DecodeLost(b)
    ensures DecodeLost(a) < TWO_64 && DecodeLost(b) < TWO_64
  {
    var x, y := a[8..], b[8..];
    ToFromLE(x);
    ToFromLE(y);
    Widths();
    assert x[7] == a[15] && y[7] == b[15];
    FromLEInjective(x, y);
  }

  /** What the reader finds in the body position when `more` follows a record. */
  lemma BodyGoesOn(r: Record, data: seq<Byte>, tail: nat, more: seq<Byte>)
    requires data != [] && Holds(data, tail, Encode(r) + more)
    ensures Holds(data, tail, Encode(r))
    ensures Stretch(data, tail + HEADER_SIZE, |r.body| + |more|) == r.body + more
  {
    HoldsSplit(data, tail, Encode(r), more);
    var header := Encode(r)[..HEADER_SIZE];
    assert Encode(r) == header + r.body;
    HoldsSplit(data, tail, header, r.body);
    StretchJoin(data, tail + HEADER_SIZE, r.body, more);
  }

  lemma StretchJoin(data: seq<Byte>, pos: nat, a: seq<Byte>, b: seq<Byte>)
    requires data != [] && Holds(data, pos, a) && Holds(data, pos + |a|, b)
    ensures Stretch(data, pos, |a| + |b|) == a + b
  {
    HoldsJoin(data, pos, a, b);
  }

  /** A buffer in which a record with a body shorter than `n` is followed by bytes, byte `n - 1` being `last`. */
  lemma Continued(r: Record, len: nat, tail: nat, n: nat, last: Byte) returns (data: seq<Byte>)
    requires |r.body| < n && len >= HEADER_SIZE + n
    ensures |data| == len && Holds(data, tail, Encode(r))
    ensures Stretch(data, tail + HEADER_SIZE, n)[n - 1] == last
  {
    var more: seq<Byte> := Zeros(n - 1 - |r.body|) + [last];
    data := Laid(len, tail, Encode(r) + more);
    LaidHolds(len, tail, Encode(r) + more);
    BodyGoesOn(r, data, tail, more);
    assert (r.body + more)[n - 1] == last;
  }

  lemma ShortSampleBleeds(r: Record, len: nat, tail: nat)
    requires r.kind == PERF_RECORD_SAMPLE && |r.body| < SAMPLE_BODY && len >= HEADER_SIZE + SAMPLE_BODY
    ensures !ReadFromItself(r, len, tail)
  {
    var data := Continued(r, len, tail, SAMPLE_BODY, 0);
    var data' := Continued(r, len, tail, SAMPLE_BODY, 1);
    SamplesDiffer(Stretch(data, tail + HEADER_SIZE, SAMPLE_BODY), Stretch(data', tail + HEADER_SIZE, SAMPLE_BODY));
    var hist := Histogram(0, 0, 0, 0, 0);
    assert Record1(data, tail, r.kind, [], hist).0[0] == SampleAt(data, tail);
    assert Record1(data', tail, r.kind, [], hist).0[0] == SampleAt(data', tail);
  }

  lemma ShortLostBleeds(r: Record, len: nat, tail: nat)
    requires r.kind == PERF_RECORD_LOST && |r.body| < LOST_BODY && len >= HEADER_SIZE + LOST_BODY
    ensures !ReadFromItself(r, len, tail)
  {
    var data := Continued(r, len, tail, LOST_BODY, 0);
    var data' := Continued(r, len, tail, LOST_BODY, 1);
    LostDiffer(Stretch(data, tail + HEADER_SIZE, LOST_BODY), Stretch(data', tail + HEADER_SIZE, LOST_BODY));
    var hist := Histogram(0, 0, 0, 0, 0);
    assert Record1(data, tail, r.kind, [], hist).1.lostEvents == LostAt(data, tail);
    assert Record1(data', tail, r.kind, [], hist).1.lostEvents == LostAt(data', tail);
  }

  /**
   * The size field is checked against the head position but not against the record type. An accepted record is
   * decoded from its own bytes exactly when its body has the layout of its type; when it has not, for every shorter
   * body and wherever the record lies, the bytes that follow it decide what is read.
   */
  lemma DecodesOwnBytesExactly(r: Record, len: nat, tail: nat)
    requires WellFormed(r) && len >= HEADER_SIZE + SAMPLE_BODY
    ensures ReadFromItself(r, len, tail) <==> HasLayout(r)
  {
    if HasLayout(r) {
      forall data: seq<Byte>, data': seq<Byte>, samples: seq<Sample>, hist: Histogram
        | |data| == len && |data'| == len && Holds(data, tail, Encode(r)) && Holds(data', tail, Encode(r))
        ensures Record1(data, tail, r.kind, samples, hist) == Record1(data', tail, r.kind, samples, hist)
      {
        ReadsRecord(data, tail, r);
        ReadsRecord(data', tail, r);
      }
    } else if r.kind == PERF_RECORD_SAMPLE {
      ShortSampleBleeds(r, len, tail);
    } else {
      ShortLostBleeds(r, len, tail);
    }
  }

  /**
   * What a short SAMPLE record yields: `drain` accepts it, and the sample appended is its body and then the bytes
   * that follow.
   */
  lemma ShortSampleReadsPastItsEnd(r: Record, next: seq<Byte>, data: seq<Byte>, tail: nat, samples: seq<Sample>,
                                   hist: Histogram)
    requires WellFormed(r) && r.kind == PERF_RECORD_SAMPLE && |r.body| + |next| == SAMPLE_BODY
    requires data != [] && Holds(data, tail, Encode(r) + next)
    ensures SampleAt(data, tail) == DecodeSample(r.body + next)
    ensures Loop(data, tail + Size(r), tail, samples, hist)
         == Drained(tail + Size(r), samples + [SampleAt(data, tail)], hist.(sample := hist.sample + 1))
  {
    BodyGoesOn(r, data, tail, next);
    TakesSample(r, data, tail, samples, hist);
  }

  lemma TakesSample(r: Record, data: seq<Byte>, tail: nat, samples: seq<Sample>, hist: Histogram)
    requires WellFormed(r) && r.kind == PERF_RECORD_SAMPLE && data != [] && Holds(data, tail, Encode(r))
    ensures Loop(data, tail + Size(r), tail, samples, hist)
         == Drained(tail + Size(r), samples + [SampleAt(data, tail)], hist.(sample := hist.sample + 1))
  {
    hide Loop;
    LoopOne(data, tail + Size(r), tail, samples, hist, r);
    LoopEnds(data, tail + Size(r), samples + [SampleAt(data, tail)], hist.(sample := hist.sample + 1));
  }
}
