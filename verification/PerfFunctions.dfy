/** Perf records on a byte stream: framing, decoding, and what a sample does to the report. */
module PerfFunctions {
  import opened Machine
  import opened Regions
  import opened RegionIndexes

  const HEADER_SIZE := 8
  const MAX_RECORD := 0xFFFF
  const PERF_RECORD_LOST: u32 := 2
  const PERF_RECORD_SAMPLE: u32 := 9

  /** The kernel's byte stream, by absolute position; the ring shows a window of it. */
  type Stream = int -> u8

  function Slice(stream: Stream, pos: int, len: nat): (s: seq<u8>)
    ensures |s| == len
  {
    seq(len, i => stream(pos + i))
  }

  /** Little-endian value of the bytes. */
  function LittleEndian(bytes: seq<u8>): nat {
    if bytes == [] then 0 else bytes[0] + 256 * LittleEndian(bytes[1..])
  }

  function ToBytes(v: nat, n: nat): (s: seq<u8>)
    ensures |s| == n
  {
    if n == 0 then [] else [v % 256] + ToBytes(v / 256, n - 1)
  }

  function Pow256(n: nat): nat {
    if n == 0 then 1 else 256 * Pow256(n - 1)
  }

  lemma {:induction false} BytesRoundTrip(v: nat, n: nat)
    requires v < Pow256(n)
    ensures LittleEndian(ToBytes(v, n)) == v
  {
    if n > 0 {
      BytesRoundTrip(v / 256, n - 1);
    }
  }

  lemma {:induction false} LittleEndianBound(bytes: seq<u8>)
    ensures LittleEndian(bytes) < Pow256(|bytes|)
  {
    if bytes != [] {
      LittleEndianBound(bytes[1..]);
    }
  }

  // ---------------------------------------------------------------- records

  datatype Header = Header(kind: u32, misc: nat, size: nat)

  function HeaderOf(bytes: seq<u8>): (h: Header)
    requires |bytes| == HEADER_SIZE
    ensures h.size <= MAX_RECORD
  {
    LittleEndianBound(bytes[..4]);
    LittleEndianBound(bytes[6..]);
    assert Pow256(4) == TWO32 && Pow256(2) == 0x10000;
    Header(LittleEndian(bytes[..4]), LittleEndian(bytes[4..6]), LittleEndian(bytes[6..]))
  }

  datatype PerfRecord = PerfRecord(kind: u32, misc: nat, body: seq<u8>)

  /** A record whose header can hold its misc and size fields, in a ring that can hold the record. */
  predicate WellFormedRecord(r: PerfRecord, ringSize: nat) {
    r.misc < 0x10000 && HEADER_SIZE + |r.body| <= MAX_RECORD && HEADER_SIZE + |r.body| <= ringSize
  }

  function Encode(r: PerfRecord): (s: seq<u8>)
    ensures |s| == HEADER_SIZE + |r.body|
  {
    ToBytes(r.kind, 4) + ToBytes(r.misc, 2) + ToBytes(HEADER_SIZE + |r.body|, 2) + r.body
  }

  function EncodeAll(rs: seq<PerfRecord>): seq<u8> {
    if rs == [] then [] else Encode(rs[0]) + EncodeAll(rs[1..])
  }

  // ---------------------------------------------------------------- the report

  datatype Hotspot = Hotspot(key: string, samples: u64, totalWeight: u64, ip: u64, addr: u64)

  datatype Report = Report(hotspots: seq<Hotspot>, totalSamples: u64, lostSamples: u64)

  /** What decoding needs besides the bytes: the event being sampled and the sorted regions. */
  datatype Sampler = Sampler(event: string, index: seq<Region>)

  function RegionForAddr(index: seq<Region>, addr: u64): string {
    match Lookup(index, addr)
    case Some(r) => RegionKey(r)
    case None => "[unknown]"
  }

  /** A short body yields zero and leaves the cursor where it is. */
  function ReadWord(body: seq<u8>, cursor: nat, width: nat): (r: (nat, nat))
    requires cursor <= |body|
    ensures cursor <= r.1 <= |body| && r.0 < Pow256(width)
  {
    if |body| - cursor < width then (PowPositive(width); (0, cursor))
    else
      LittleEndianBound(body[cursor..cursor + width]);
      (LittleEndian(body[cursor..cursor + width]), cursor + width)
  }

  lemma {:induction false} PowPositive(n: nat)
    ensures Pow256(n) >= 1
  {
    if n > 0 { PowPositive(n - 1); }
  }

  lemma Pow256Of8()
    ensures Pow256(8) == TWO64 && Pow256(4) == TWO32
  {
    assert Pow256(4) == TWO32;
    assert Pow256(6) == 256 * 256 * Pow256(4);
  }

  function ReadU64(body: seq<u8>, cursor: nat): (r: (u64, nat))
    requires cursor <= |body|
    ensures cursor <= r.1 <= |body|
  {
    Pow256Of8();
    ReadWord(body, cursor, 8)
  }

  function ReadU32(body: seq<u8>, cursor: nat): (r: (u32, nat))
    requires cursor <= |body|
    ensures cursor <= r.1 <= |body|
  {
    Pow256Of8();
    ReadWord(body, cursor, 4)
  }

  datatype Sample = Sample(ip: u64, addr: u64, weight: u64)

  function DecodeSample(event: string, body: seq<u8>): Sample {
    var (ip, c0) := ReadU64(body, 0);
    var (pid, c1) := ReadU32(body, c0);
    var (tid, c2) := ReadU32(body, c1);
    if event == "cpu-clock" then Sample(ip, 0, 0)
    else
      var (addr, c3) := ReadU64(body, c2);
      var (weight, c4) := ReadU64(body, c3);
      Sample(ip, addr, weight)
  }

  function DecodeLost(body: seq<u8>): u64 {
    ReadU64(body, ReadU64(body, 0).1).0
  }

  /** First bucket with the key, or the length of the list. */
  function BucketFor(hs: seq<Hotspot>, key: string): (i: nat)
    ensures i <= |hs|
    ensures i < |hs| ==> hs[i].key == key
    ensures forall j :: 0 <= j < i ==> hs[j].key != key
  {
    if hs == [] || hs[0].key == key then 0 else 1 + BucketFor(hs[1..], key)
  }

  function Bump(h: Hotspot, s: Sample): Hotspot {
    Hotspot(h.key, Add64(h.samples, 1), Add64(h.totalWeight, s.weight), s.ip, s.addr)
  }

  function AddSample(r: Report, key: string, s: Sample): Report {
    var i := BucketFor(r.hotspots, key);
    var hs := if i < |r.hotspots| then r.hotspots else r.hotspots + [Hotspot(key, 0, 0, 0, 0)];
    r.(hotspots := hs[i := Bump(hs[i], s)], totalSamples := Add64(r.totalSamples, 1))
  }

  function SampleKey(cfg: Sampler, s: Sample): string {
    RegionForAddr(cfg.index, if s.addr != 0 then s.addr else s.ip)
  }

  function Process(cfg: Sampler, r: Report, kind: u32, body: seq<u8>): Report {
    if kind == PERF_RECORD_SAMPLE then
      var s := DecodeSample(cfg.event, body);
      AddSample(r, SampleKey(cfg, s), s)
    else if kind == PERF_RECORD_LOST then r.(lostSamples := Add64(r.lostSamples, DecodeLost(body)))
    else r
  }

  /** What a reader does with one record. */
  type Step<!R> = (R, u32, seq<u8>) -> R

  function Sampling(cfg: Sampler): Step<Report> {
    (r: Report, kind: u32, body: seq<u8>) => Process(cfg, r, kind, body)
  }

  function ProcessAll<R>(step: Step<R>, r: R, rs: seq<PerfRecord>): R
    decreases |rs|
  {
    if rs == [] then r else ProcessAll(step, step(r, rs[0].kind, rs[0].body), rs[1..])
  }

  // ---------------------------------------------------------------- draining a stream

  /** The header at `tail` frames a whole record below `head` that the ring can hold. */
  predicate Framed(stream: Stream, tail: nat, head: nat, ringSize: nat) {
    tail + HEADER_SIZE <= head &&
    var size := HeaderOf(Slice(stream, tail, HEADER_SIZE)).size;
    HEADER_SIZE <= size && tail + size <= head && size <= ringSize
  }

  /** A head so far below 2^64 that nothing the reader adds to a position up to it wraps around. */
  predicate BelowWrap(head: u64, ringSize: nat) {
    head + HEADER_SIZE <= U64_MAX && head + Min(MAX_RECORD, ringSize) <= U64_MAX + HEADER_SIZE
  }

  /** The reader's state and the new tail after reading every framed record in `[tail, head)`. */
  function Drain<R>(step: Step<R>, stream: Stream, tail: nat, head: nat, ringSize: nat, r: R): (o: (R, nat))
    ensures tail <= o.1 <= Max(tail, head)
    ensures !Framed(stream, o.1, head, ringSize)
    decreases head - tail
  {
    if !Framed(stream, tail, head, ringSize) then (r, tail)
    else
      var h := HeaderOf(Slice(stream, tail, HEADER_SIZE));
      var body := Slice(stream, tail + HEADER_SIZE, h.size - HEADER_SIZE);
      Drain(step, stream, tail + h.size, head, ringSize, step(r, h.kind, body))
  }
}
