/** Draining a circular buffer of perf records: `copy_wrapped` and `drain`. */
module RingDrain {
  import opened Words
  import opened PerfRecord
  import opened Counting

  datatype Histogram = Histogram(sample: nat, lostRecords: nat, lostEvents: nat, exitRecords: nat, other: nat)

  /** The reasons for which `drain` ends the process. */
  datatype Fatal = Overflow | HeaderTooSmall | RunsPastHead | Throttled

  datatype Outcome =
    | Drained(tail: nat, samples: seq<Sample>, hist: Histogram)
    | Halted(why: Fatal)

  /** The buffer index of a stream position, as a remainder by repeated subtraction. */
  function Index(pos: nat, len: nat): (i: nat)
    requires len > 0
    ensures i < len
    decreases pos
  {
    if pos < len then pos else Index(pos - len, len)
  }

  lemma {:induction false} IndexIsRemainder(pos: nat, len: nat)
    requires len > 0
    ensures Index(pos, len) == pos % len
    decreases pos
  {
    if pos < len {
      RemainderUnique(pos, len, 0, pos);
    } else {
      IndexIsRemainder(pos - len, len);
      var q := (pos - len) / len;
      assert pos - len == q * len + (pos - len) % len;
      assert (q + 1) * len == q * len + len;
      RemainderUnique(pos, len, q + 1, (pos - len) % len);
    }
  }

  lemma IndexNear(pos: nat, len: nat)
    requires pos < 2 * len
    ensures Index(pos, len) == if pos < len then pos else pos - len
  {
  }

  /** Reducing a position first does not matter. */
  lemma {:induction false} IndexAdd(pos: nat, k: nat, len: nat)
    requires len > 0
    ensures Index(Index(pos, len) + k, len) == Index(pos + k, len)
    decreases pos
  {
    if pos >= len {
      IndexAdd(pos - len, k, len);
      assert pos + k - len == pos - len + k;
    }
  }

  /** Positions less than a buffer apart have different indices. */
  lemma {:induction false} IndicesDiffer(x: nat, y: nat, len: nat)
    requires x < y < x + len
    ensures Index(x, len) != Index(y, len)
    decreases x
  {
    if x >= len {
      IndicesDiffer(x - len, y - len, len);
    }
  }

  /** The byte at stream position `pos` of the circular buffer. */
  function At(data: seq<Byte>, pos: nat): Byte
    requires data != []
  {
    data[Index(pos, |data|)]
  }

  /** `len` consecutive stream bytes from `pos` on, wrapping at the end of the buffer. */
  function Stretch(data: seq<Byte>, pos: nat, len: nat): (bs: seq<Byte>)
    requires data != []
    ensures |bs| == len
    ensures forall k :: 0 <= k < len ==> bs[k] == At(data, pos + k)
  {
    seq<Byte>(len, k requires 0 <= k => At(data, pos + k))
  }

  /** The sample fields as they stand after a header at `tail`. */
  function SampleAt(data: seq<Byte>, tail: nat): Sample
    requires data != []
  {
    DecodeSample(Stretch(data, tail + HEADER_SIZE, SAMPLE_BODY))
  }

  /** The lost count as it stands after a header at `tail`. */
  function LostAt(data: seq<Byte>, tail: nat): nat
    requires data != []
  {
    DecodeLost(Stretch(data, tail + HEADER_SIZE, LOST_BODY))
  }

  /** What one accepted record adds to the samples. */
  function SamplePart(data: seq<Byte>, tail: nat, kind: nat): seq<Sample>
    requires data != []
  {
    if kind == PERF_RECORD_SAMPLE then [SampleAt(data, tail)] else []
  }

  function LostPart(data: seq<Byte>, tail: nat, kind: nat): nat
    requires data != []
  {
    if kind == PERF_RECORD_LOST then LostAt(data, tail) else 0
  }

  /** What one accepted record adds to the histogram; `lost` is its payload if it is a LOST record. */
  function Tick(hist: Histogram, kind: nat, lost: nat): Histogram {
    if kind == PERF_RECORD_SAMPLE then hist.(sample := hist.sample + 1)
    else if kind == PERF_RECORD_LOST then
      hist.(lostEvents := Wrap64(hist.lostEvents + lost), lostRecords := hist.lostRecords + 1)
    else if kind == PERF_RECORD_EXIT then hist.(exitRecords := hist.exitRecords + 1)
    else hist.(other := hist.other + 1)
  }

  function Record1(data: seq<Byte>, tail: nat, kind: nat, samples: seq<Sample>, hist: Histogram)
    : (seq<Sample>, Histogram)
    requires data != []
  {
    (samples + SamplePart(data, tail, kind), Tick(hist, kind, LostPart(data, tail, kind)))
  }

  /** The record loop of `drain`, on stream positions. */
  function Loop(data: seq<Byte>, head: nat, tail: nat, samples: seq<Sample>, hist: Histogram): (r: Outcome)
    requires data != []
    ensures r.Drained? && tail <= head ==> r.tail == head
    decreases head - tail
  {
    if tail >= head then Drained(tail, samples, hist)
    else
      var header := Stretch(data, tail, HEADER_SIZE);
      var size, kind := HeaderSize(header), HeaderKind(header);
      if size < HEADER_SIZE then Halted(HeaderTooSmall)
      else if tail + size > head then Halted(RunsPastHead)
      else if IsThrottle(kind) then Halted(Throttled)
      else
        var (samples', hist') := Record1(data, tail, kind, samples, hist);
        Loop(data, head, tail + size, samples', hist')
  }

  function DrainFrom(data: seq<Byte>, head: nat, tail: nat, samples: seq<Sample>, hist: Histogram): Outcome
    requires data != []
  {
    if Wrap64(head - tail) > |data| then Halted(Overflow) else Loop(data, head, tail, samples, hist)
  }

  /** From `tail` to `head`, no record's end position exceeds 64 bits. */
  ghost predicate NoWrap(data: seq<Byte>, head: nat, tail: nat)
    requires data != []
    decreases head - tail
  {
    tail < head ==>
      var size := HeaderSize(Stretch(data, tail, HEADER_SIZE));
      tail + size < TWO_64 && (size >= HEADER_SIZE ==> NoWrap(data, head, tail + size))
  }

  /** Positions more than one record below the end of the 64-bit range are safe whatever the buffer holds. */
  lemma {:induction false} NoWrapBelowTop(data: seq<Byte>, head: nat, tail: nat)
    requires data != [] && head + 0x1_0000 <= TWO_64
    ensures NoWrap(data, head, tail)
    decreases head - tail
  {
    if tail < head {
      var header := Stretch(data, tail, HEADER_SIZE);
      HeaderSizeBounded(header);
      if HeaderSize(header) >= HEADER_SIZE {
        NoWrapBelowTop(data, head, tail + HeaderSize(header));
      }
    }
  }

  /**
   * What the check of the size against the head position does in wrapping arithmetic. A record that runs past the
   * head is rejected if and only if its end still fits 64 bits; otherwise it is accepted and `tail` falls back.
   */
  lemma SizeCheckExactly(tail: nat, size: nat, head: nat)
    requires tail < head < TWO_64 && HEADER_SIZE <= size < 0x1_0000 <= head && tail + size > head
    ensures Wrap64(tail + size) > head <==> tail + size < TWO_64
    ensures tail + size >= TWO_64 ==> Wrap64(tail + size) < tail
  {
    if tail + size >= TWO_64 {
      assert Wrap64(tail + size) == tail + size - TWO_64;
    }
  }

  // ------------------------------------------------------------- the code, in place

  /** Two block copies: up to the end of the buffer, and the rest from its beginning. */
  method CopyWrapped(data: array<Byte>, off: nat, len: nat) returns (dst: seq<Byte>)
    requires off < data.Length && len <= data.Length
    ensures dst == Stretch(data[..], off, len)
  {
    var first := if len < data.Length - off then len else data.Length - off;
    dst := data[off..off + first];
    if first < len {
      dst := dst + data[..len - first];
    }
    forall k | 0 <= k < len
      ensures dst[k] == At(data[..], off + k)
    {
      IndexNear(off + k, data.Length);
    }
  }

  /** Reducing the start position first does not matter. */
  lemma StretchReduced(data: seq<Byte>, pos: nat, len: nat)
    requires data != []
    ensures Stretch(data, Index(pos, |data|), len) == Stretch(data, pos, len)
  {
    var x, y := Stretch(data, Index(pos, |data|), len), Stretch(data, pos, len);
    forall k | 0 <= k < len
      ensures x[k] == y[k]
    {
      IndexAdd(pos, k, |data|);
    }
  }

  /** One sampling ring: the kernel's buffer and page, and the reader's own state. */
  class SamplingEvent {
    const data: array<Byte>
    var dataHead: nat
    var dataTail: nat
    var tail: nat
    var samples: seq<Sample>
    var hist: Histogram

    constructor (data: array<Byte>)
      ensures this.data == data && dataHead == dataTail == tail == 0
      ensures samples == [] && hist == Histogram(0, 0, 0, 0, 0)
    {
      this.data := data;
      dataHead, dataTail, tail := 0, 0, 0;
      samples, hist := [], Histogram(0, 0, 0, 0, 0);
    }

    /** The switch over the record type, for the record whose header is at `off`. */
    method TakeBody(kind: nat, off: nat)
      requires data.Length >= SAMPLE_BODY && off == Index(tail, data.Length)
      modifies this`samples, this`hist
      ensures samples == old(samples) + SamplePart(data[..], tail, kind)
      ensures hist == Tick(old(hist), kind, LostPart(data[..], tail, kind))
    {
      hide Index, DecodeSample, DecodeLost;
      var bodyOff := (off + HEADER_SIZE) % data.Length;
      IndexIsRemainder(off + HEADER_SIZE, data.Length);
      IndexAdd(tail, HEADER_SIZE, data.Length);
      if kind == PERF_RECORD_SAMPLE {
        var body := CopyWrapped(data, bodyOff, SAMPLE_BODY);
        StretchReduced(data[..], tail + HEADER_SIZE, SAMPLE_BODY);
        samples := samples + [DecodeSample(body)];
        hist := hist.(sample := hist.sample + 1);
      } else if kind == PERF_RECORD_LOST {
        var body := CopyWrapped(data, bodyOff, LOST_BODY);
        StretchReduced(data[..], tail + HEADER_SIZE, LOST_BODY);
        hist := hist.(lostEvents := Wrap64(hist.lostEvents + DecodeLost(body)), lostRecords := hist.lostRecords + 1);
      } else if kind == PERF_RECORD_EXIT {
        hist := hist.(exitRecords := hist.exitRecords + 1);
      } else {
        hist := hist.(other := hist.other + 1);
      }
      assert old(samples) + [] == old(samples);
    }

    /**
     * Consumes every record up to the head position it loads, or reports why the process must end. Positions
     * are 64-bit. Where a record's end would exceed them the loop need not terminate; see `SizeCheckExactly`.
     */
    method Drain() returns (outcome: Outcome)
      requires data.Length >= SAMPLE_BODY && dataHead < TWO_64 && tail < TWO_64
      requires NoWrap(data[..], dataHead, tail)
      modifies this`tail, this`samples, this`hist, this`dataTail
      ensures outcome == DrainFrom(data[..], dataHead, old(tail), old(samples), old(hist))
      ensures outcome.Drained? ==> outcome == Drained(tail, samples, hist) && dataTail == tail
      ensures outcome.Halted? ==> dataTail == old(dataTail)
    {
      hide Index, Tick, SamplePart, LostPart, HeaderSize, HeaderKind;
      var head := dataHead;
      if Wrap64(head - tail) > data.Length {
        return Halted(Overflow);
      }
      while tail < head
        invariant tail < TWO_64 && NoWrap(data[..], head, tail)
        invariant Loop(data[..], head, tail, samples, hist)
               == Loop(data[..], head, old(tail), old(samples), old(hist))
        invariant dataTail == old(dataTail)
        decreases head - tail
      {
        var off := tail % data.Length;
        IndexIsRemainder(tail, data.Length);
        var header := CopyWrapped(data, off, HEADER_SIZE);
        StretchReduced(data[..], tail, HEADER_SIZE);
        var size, kind := HeaderSize(header), HeaderKind(header);
        HeaderSizeBounded(header);
        if size < HEADER_SIZE {
          return Halted(HeaderTooSmall);
        }
        if Wrap64(tail + size) > head {
          return Halted(RunsPastHead);
        }
        if IsThrottle(kind) {
          return Halted(Throttled);
        }
        TakeBody(kind, off);
        tail := Wrap64(tail + size);
      }
      dataTail := tail;
      outcome := Drained(tail, samples, hist);
    }
  }

  lemma HeaderSizeBounded(header: seq<Byte>)
    requires |header| == HEADER_SIZE
    ensures HeaderSize(header) < 0x1_0000
  {
    ToFromLE(header[6..]);
    Widths();
  }

  // -------------------------------------------------- what a log of records amounts to

  /** The fields of the SAMPLE records, type 9, in order. */
  function Samples(log: seq<Record>): seq<Sample>
    requires forall i :: 0 <= i < |log| ==> log[i].kind == 9 ==> |log[i].body| >= 24
  {
    if log == [] then []
    else
      var r := log[|log| - 1];
      Samples(log[..|log| - 1]) +
      if r.kind == 9 then [DecodeSample(r.body[..24])] else []
  }

  function OfKind(kind: nat): Record -> bool {
    (r: Record) => r.kind == kind
  }

  function CountKind(log: seq<Record>, kind: nat): nat {
    Count(log, OfKind(kind))
  }

  /** The sum of the payloads of the LOST records, type 2. */
  function LostTotal(log: seq<Record>): nat
    requires forall i :: 0 <= i < |log| ==> log[i].kind == 2 ==> |log[i].body| >= 16
  {
    if log == [] then 0
    else
      var r := log[|log| - 1];
      LostTotal(log[..|log| - 1]) + if r.kind == 2 then DecodeLost(r.body[..16]) else 0
  }

  /** Each record counted once on top of `hist`, by type: 9 is SAMPLE, 2 LOST, 4 EXIT, anything else is other. */
  function Counted(hist: Histogram, log: seq<Record>, lost: nat): Histogram {
    var s, l, x := CountKind(log, 9), CountKind(log, 2), CountKind(log, 4);
    CountsBounded(log);
    Histogram(hist.sample + s, hist.lostRecords + l, Wrap64(hist.lostEvents + lost), hist.exitRecords + x,
              hist.other + |log| - s - l - x)
  }

  /** The histogram a log should produce: one count per record, by kind. */
  function Tally(log: seq<Record>): Histogram
    requires forall i :: 0 <= i < |log| ==> log[i].kind == 2 ==> |log[i].body| >= 16
  {
    Counted(Histogram(0, 0, 0, 0, 0), log, LostTotal(log))
  }

  lemma {:induction false} CountsBounded(log: seq<Record>)
    ensures CountKind(log, 9) + CountKind(log, 2) + CountKind(log, 4) <= |log|
  {
    if log != [] {
      CountsBounded(log[..|log| - 1]);
    }
  }

  /** Records the reader decodes from their own bytes and does not stop at. */
  ghost predicate Readable(log: seq<Record>) {
    forall i :: 0 <= i < |log| ==> WellFormed(log[i]) && HasLayout(log[i]) && !Throttles(log[i])
  }

  /** The buffer holds exactly `bs` at stream positions `pos`, `pos + 1`, ... */
  ghost predicate Holds(data: seq<Byte>, pos: nat, bs: seq<Byte>)
    requires data != []
  {
    forall k :: 0 <= k < |bs| ==> At(data, pos + k) == bs[k]
  }

  lemma HoldsSplit(data: seq<Byte>, pos: nat, a: seq<Byte>, b: seq<Byte>)
    requires data != [] && Holds(data, pos, a + b)
    ensures Holds(data, pos, a) && Holds(data, pos + |a|, b)
  {
    forall k | 0 <= k < |a|
      ensures At(data, pos + k) == a[k]
    {
      assert (a + b)[k] == a[k];
    }
    forall k | 0 <= k < |b|
      ensures At(data, pos + |a| + k) == b[k]
    {
      assert (a + b)[|a| + k] == b[k];
    }
  }

  /** Reading one encoded record off the buffer, wherever it wraps. */
  lemma ReadsRecord(data: seq<Byte>, tail: nat, r: Record)
    requires data != [] && WellFormed(r) && HasLayout(r) && Holds(data, tail, Encode(r))
    ensures var header := Stretch(data, tail, HEADER_SIZE);
      HeaderKind(header) == r.kind && HeaderSize(header) == Size(r)
    ensures r.kind == PERF_RECORD_SAMPLE ==> SampleAt(data, tail) == DecodeSample(r.body[..SAMPLE_BODY])
    ensures r.kind == PERF_RECORD_LOST ==> LostAt(data, tail) == DecodeLost(r.body[..LOST_BODY])
  {
    HeaderRoundTrip(r);
    var bs := Encode(r);
    assert Stretch(data, tail, HEADER_SIZE) == bs[..HEADER_SIZE];
    assert bs == bs[..HEADER_SIZE] + r.body;
    HoldsSplit(data, tail, bs[..HEADER_SIZE], r.body);
    if r.kind == PERF_RECORD_SAMPLE {
      assert Stretch(data, tail + HEADER_SIZE, SAMPLE_BODY) == r.body[..SAMPLE_BODY];
    }
    if r.kind == PERF_RECORD_LOST {
      assert Stretch(data, tail + HEADER_SIZE, LOST_BODY) == r.body[..LOST_BODY];
    }
  }

  /** One more record at the end of what has been counted. */
  lemma CountedOne(hist: Histogram, log: seq<Record>, r: Record, lost: nat, more: nat)
    requires r.kind != PERF_RECORD_LOST ==> more == 0
    ensures Counted(hist, log + [r], lost + more) == Tick(Counted(hist, log, lost), r.kind, more)
  {
    CountOne(log, r, OfKind(9));
    CountOne(log, r, OfKind(2));
    CountOne(log, r, OfKind(4));
    WrapAdd(hist.lostEvents + lost, more);
  }

  /** What one more record adds to the tally of a log. */
  lemma TallyOne(log: seq<Record>, r: Record)
    requires Readable(log + [r]) && Readable(log)
    ensures HasLayout(r)
    ensures Tally(log + [r]) ==
            Tick(Tally(log), r.kind, if r.kind == PERF_RECORD_LOST then DecodeLost(r.body[..LOST_BODY]) else 0)
  {
    var longer := log + [r];
    assert longer[..|longer| - 1] == log && longer[|longer| - 1] == r;
    var more := if r.kind == PERF_RECORD_LOST then DecodeLost(r.body[..LOST_BODY]) else 0;
    CountedOne(Histogram(0, 0, 0, 0, 0), log, r, LostTotal(log), more);
  }

  /** Appending one record to a log, on the side of the results. */
  lemma TallyAppend(log: seq<Record>, r: Record, data: seq<Byte>, tail: nat)
    requires Readable(log + [r]) && Readable(log)
    requires data != [] && Holds(data, tail, Encode(r))
    ensures Record1(data, tail, r.kind, Samples(log), Tally(log)) == (Samples(log + [r]), Tally(log + [r]))
  {
    var longer := log + [r];
    assert longer[..|longer| - 1] == log && longer[|longer| - 1] == r;
    assert WellFormed(r) && HasLayout(r);
    ReadsRecord(data, tail, r);
    TallyOne(log, r);
  }

  /** The first record of an encoded log, and the rest. */
  lemma LogFront(data: seq<Byte>, tail: nat, log: seq<Record>)
    requires data != [] && log != [] && Holds(data, tail, EncodeLog(log))
    ensures Holds(data, tail, Encode(log[0])) && Holds(data, tail + Size(log[0]), EncodeLog(log[1..]))
    ensures |EncodeLog(log)| == Size(log[0]) + |EncodeLog(log[1..])|
  {
    HoldsSplit(data, tail, Encode(log[0]), EncodeLog(log[1..]));
  }

  /** One turn of the loop over a record that is no throttle notice. */
  lemma LoopOne(data: seq<Byte>, head: nat, tail: nat, samples: seq<Sample>, hist: Histogram, r: Record)
    requires data != [] && WellFormed(r) && !Throttles(r)
    requires Holds(data, tail, Encode(r)) && tail + Size(r) <= head
    ensures var p := Record1(data, tail, r.kind, samples, hist);
      && Loop(data, head, tail, samples, hist) == Loop(data, head, tail + Size(r), p.0, p.1)
      && (hist.lostEvents < TWO_64 ==> p.1.lostEvents < TWO_64)
  {
    HeaderRoundTrip(r);
    assert Stretch(data, tail, HEADER_SIZE) == Encode(r)[..HEADER_SIZE];
  }

  lemma LoopEnds(data: seq<Byte>, head: nat, samples: seq<Sample>, hist: Histogram)
    requires data != []
    ensures Loop(data, head, head, samples, hist) == Drained(head, samples, hist)
  {
  }

  /** One turn of the record loop, from `n` records drained to `n + 1`. */
  lemma DrainNext(data: seq<Byte>, head: nat, tail: nat, log: seq<Record>, n: nat)
    requires data != [] && Readable(log) && n < |log|
    requires tail + Size(log[n]) <= head && Holds(data, tail, Encode(log[n]))
    ensures Loop(data, head, tail, Samples(log[..n]), Tally(log[..n]))
         == Loop(data, head, tail + Size(log[n]), Samples(log[..n + 1]), Tally(log[..n + 1]))
  {
    hide Loop, Record1, Samples, Tally;
    assert log[..n] + [log[n]] == log[..n + 1];
    LoopOne(data, head, tail, Samples(log[..n]), Tally(log[..n]), log[n]);
    TallyAppend(log[..n], log[n], data, tail);
  }

  /** The unread part of a log, one record further. */
  lemma RestOfLog(data: seq<Byte>, tail: nat, log: seq<Record>, n: nat)
    requires data != [] && n < |log| && Holds(data, tail, EncodeLog(log[n..]))
    ensures Holds(data, tail, Encode(log[n])) && Holds(data, tail + Size(log[n]), EncodeLog(log[n + 1..]))
    ensures |EncodeLog(log[n..])| == Size(log[n]) + |EncodeLog(log[n + 1..])|
  {
    assert log[n..][0] == log[n] && log[n..][1..] == log[n + 1..];
    LogFront(data, tail, log[n..]);
  }

  lemma {:induction false} DrainFromRecord(data: seq<Byte>, head: nat, tail: nat, log: seq<Record>, n: nat)
    requires data != [] && Readable(log) && n <= |log|
    requires head == tail + |EncodeLog(log[n..])| && Holds(data, tail, EncodeLog(log[n..]))
    ensures Loop(data, head, tail, Samples(log[..n]), Tally(log[..n])) == Drained(head, Samples(log), Tally(log))
    decreases |log| - n
  {
    hide Loop, Samples, Tally;
    if n == |log| {
      assert log[..n] == log && log[n..] == [];
      LoopEnds(data, head, Samples(log), Tally(log));
    } else {
      RestOfLog(data, tail, log, n);
      DrainNext(data, head, tail, log, n);
      DrainFromRecord(data, head, tail + Size(log[n]), log, n + 1);
    }
  }

  /**
   * Round trip: whatever part `done` of the log has been drained already, and wherever in the circular buffer the
   * rest starts, draining the rest yields exactly the samples and counts of the whole log.
   */
  lemma DrainRoundTrip(data: seq<Byte>, head: nat, tail: nat, done: seq<Record>, rest: seq<Record>)
    requires data != [] && Readable(done) && Readable(rest)
    requires head == tail + |EncodeLog(rest)| && Holds(data, tail, EncodeLog(rest))
    ensures Loop(data, head, tail, Samples(done), Tally(done))
         == Drained(head, Samples(done + rest), Tally(done + rest))
  {
    hide Loop, Samples, Tally;
    var log := done + rest;
    assert log[..|done|] == done && log[|done|..] == rest;
    DrainFromRecord(data, head, tail, log, |done|);
  }
}
