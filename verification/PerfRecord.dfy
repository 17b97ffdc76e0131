/** perf ring-buffer records as bytes: an 8-byte header (type, misc, size) and a body, little-endian. */
module PerfRecord {
  import opened Words

  type Byte = b: int | 0 <= b < 256

  const PERF_RECORD_LOST: nat := 2
  const PERF_RECORD_EXIT: nat := 4
  const PERF_RECORD_THROTTLE: nat := 5
  const PERF_RECORD_UNTHROTTLE: nat := 6
  const PERF_RECORD_SAMPLE: nat := 9

  const HEADER_SIZE: nat := 8
  const SAMPLE_BODY: nat := 24
  const LOST_BODY: nat := 16

  datatype Sample = Sample(ip: nat, pid: nat, tid: nat, period: nat)

  /** `kind` is the header's `type`; its `size` is the header plus the body. */
  datatype Record = Record(kind: nat, misc: nat, body: seq<Byte>)

  function Pow256(n: nat): nat {
    if n == 0 then 1 else 256 * Pow256(n - 1)
  }

  function FromLE(bs: seq<Byte>): nat {
    if bs == [] then 0 else bs[0] + 256 * FromLE(bs[1..])
  }

  function ToLE(v: nat, n: nat): (bs: seq<Byte>)
    ensures |bs| == n
  {
    if n == 0 then [] else [v % 256] + ToLE(v / 256, n - 1)
  }

  /** The first byte is the least significant one. */
  lemma {:induction false} LittleEndian(a: seq<Byte>, b: seq<Byte>)
    ensures FromLE(a + b) == FromLE(a) + Pow256(|a|) * FromLE(b)
    ensures forall x: Byte :: FromLE([x]) == x
    decreases |a|
  {
    if a == [] {
      assert a + b == b;
    } else {
      assert (a + b)[1..] == a[1..] + b;
      LittleEndian(a[1..], b);
      Regroup(FromLE(a[1..]), Pow256(|a| - 1), FromLE(b));
    }
  }

  lemma Regroup(x: nat, p: nat, v: nat)
    ensures 256 * (x + p * v) == 256 * x + 256 * p * v
  {
  }

  lemma {:induction false} FromToLE(v: nat, n: nat)
    requires v < Pow256(n)
    ensures FromLE(ToLE(v, n)) == v
  {
    if n > 0 {
      FromToLE(v / 256, n - 1);
      assert ToLE(v, n)[1..] == ToLE(v / 256, n - 1);
    }
  }

  lemma LowByte(b: Byte, rest: nat)
    ensures (b + 256 * rest) % 256 == b && (b + 256 * rest) / 256 == rest
  {
  }

  lemma {:induction false} ToFromLE(bs: seq<Byte>)
    ensures ToLE(FromLE(bs), |bs|) == bs
    ensures FromLE(bs) < Pow256(|bs|)
  {
    if bs != [] {
      ToFromLE(bs[1..]);
      LowByte(bs[0], FromLE(bs[1..]));
    }
  }

  lemma Widths()
    ensures Pow256(2) == 0x1_0000 && Pow256(4) == 0x1_0000_0000 && Pow256(8) == TWO_64
  {
    assert Pow256(1) == 256;
    assert Pow256(3) == 0x100_0000;
    assert Pow256(5) == 0x100_0000_0000;
    assert Pow256(6) == 0x1_0000_0000_0000;
    assert Pow256(7) == 0x100_0000_0000_0000;
  }

  function Size(r: Record): nat {
    HEADER_SIZE + |r.body|
  }

  /** The header fields fit their widths. */
  ghost predicate WellFormed(r: Record) {
    r.kind < Pow256(4) && r.misc < Pow256(2) && Size(r) < Pow256(2)
  }

  /**
   * The bodies the reader decodes are present, as the perf record layout guarantees for this event setup: 24 bytes for
   * a SAMPLE record, whose type number is 9, and 16 for a LOST record, type 2.
   */
  ghost predicate HasLayout(r: Record) {
    (r.kind == 9 ==> |r.body| >= 24) && (r.kind == 2 ==> |r.body| >= 16)
  }

  /** THROTTLE and UNTHROTTLE are types 5 and 6. */
  ghost predicate Throttles(r: Record) {
    r.kind == 5 || r.kind == 6
  }

  predicate IsThrottle(kind: nat) {
    kind == PERF_RECORD_THROTTLE || kind == PERF_RECORD_UNTHROTTLE
  }

  function Encode(r: Record): (bs: seq<Byte>)
    ensures |bs| == Size(r)
  {
    ToLE(r.kind, 4) + ToLE(r.misc, 2) + ToLE(Size(r), 2) + r.body
  }

  function EncodeLog(log: seq<Record>): seq<Byte> {
    if log == [] then [] else Encode(log[0]) + EncodeLog(log[1..])
  }

  function HeaderKind(header: seq<Byte>): nat
    requires |header| == HEADER_SIZE
  {
    FromLE(header[..4])
  }

  function HeaderSize(header: seq<Byte>): nat
    requires |header| == HEADER_SIZE
  {
    FromLE(header[6..])
  }

  /** The `body` struct of a sample record. */
  function DecodeSample(body: seq<Byte>): Sample
    requires |body| == SAMPLE_BODY
  {
    Sample(FromLE(body[..8]), FromLE(body[8..12]), FromLE(body[12..16]), FromLE(body[16..]))
  }

  /** The `lost` field of a lost record. */
  function DecodeLost(body: seq<Byte>): nat
    requires |body| == LOST_BODY
  {
    FromLE(body[8..])
  }

  /** A sample record as the kernel writes it: the requested fields, then anything else. */
  function SampleRecord(misc: nat, s: Sample, rest: seq<Byte>): Record {
    Record(9, misc, ToLE(s.ip, 8) + ToLE(s.pid, 4) + ToLE(s.tid, 4) + ToLE(s.period, 8) + rest)
  }

  function LostRecord(misc: nat, id: nat, lost: nat, rest: seq<Byte>): Record {
    Record(2, misc, ToLE(id, 8) + ToLE(lost, 8) + rest)
  }

  lemma SampleRoundTrip(misc: nat, s: Sample, rest: seq<Byte>)
    requires s.ip < 0x1_0000_0000_0000_0000 && s.pid < 0x1_0000_0000
    requires s.tid < 0x1_0000_0000 && s.period < 0x1_0000_0000_0000_0000
    ensures HasLayout(SampleRecord(misc, s, rest))
    ensures DecodeSample(SampleRecord(misc, s, rest).body[..SAMPLE_BODY]) == s
  {
    var b := SampleRecord(misc, s, rest).body[..SAMPLE_BODY];
    assert b[..8] == ToLE(s.ip, 8) && b[8..12] == ToLE(s.pid, 4) && b[12..16] == ToLE(s.tid, 4);
    assert b[16..] == ToLE(s.period, 8);
    Widths();
    FromToLE(s.ip, 8);
    FromToLE(s.pid, 4);
    FromToLE(s.tid, 4);
    FromToLE(s.period, 8);
  }

  lemma LostRoundTrip(misc: nat, id: nat, lost: nat, rest: seq<Byte>)
    requires lost < 0x1_0000_0000_0000_0000
    ensures HasLayout(LostRecord(misc, id, lost, rest))
    ensures DecodeLost(LostRecord(misc, id, lost, rest).body[..LOST_BODY]) == lost
  {
    var b := LostRecord(misc, id, lost, rest).body[..LOST_BODY];
    assert b[8..] == ToLE(lost, 8);
    Widths();
    FromToLE(lost, 8);
  }

  /** Reading the header back off an encoded record. */
  lemma HeaderRoundTrip(r: Record)
    requires WellFormed(r)
    ensures HeaderKind(Encode(r)[..HEADER_SIZE]) == r.kind && HeaderSize(Encode(r)[..HEADER_SIZE]) == Size(r)
    ensures Encode(r)[HEADER_SIZE..] == r.body
  {
    var h := Encode(r)[..HEADER_SIZE];
    assert h[..4] == ToLE(r.kind, 4) && h[6..] == ToLE(Size(r), 2);
    FromToLE(r.kind, 4);
    FromToLE(Size(r), 2);
  }

  /** Any bytes whose header announces their length are the encoding of a record. */
  lemma HeaderDetermines(bs: seq<Byte>) returns (r: Record)
    requires |bs| >= HEADER_SIZE && HeaderSize(bs[..HEADER_SIZE]) == |bs|
    ensures WellFormed(r) && Encode(r) == bs && r.kind == HeaderKind(bs[..HEADER_SIZE])
  {
    var h := bs[..HEADER_SIZE];
    r := Record(FromLE(h[..4]), FromLE(h[4..6]), bs[HEADER_SIZE..]);
    ToFromLE(h[..4]);
    ToFromLE(h[4..6]);
    ToFromLE(h[6..]);
    assert h == h[..4] + h[4..6] + h[6..];
    assert bs == h + bs[HEADER_SIZE..];
  }

  lemma {:induction false} EncodeLogAppend(a: seq<Record>, b: seq<Record>)
    ensures EncodeLog(a + b) == EncodeLog(a) + EncodeLog(b)
  {
    if a == [] {
      assert a + b == b;
    } else {
      assert (a + b)[1..] == a[1..] + b;
      EncodeLogAppend(a[1..], b);
    }
  }
}
