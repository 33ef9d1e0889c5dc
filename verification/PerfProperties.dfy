/** Framing round trip, draining in parts, the ring as a queue, and conservation of samples. */
module PerfProperties {
  import opened Machine
  import opened Regions
  import opened RegionIndexes
  import opened PerfFunctions
  import opened PerfRings

  // ---------------------------------------------------------------- framing

  lemma HeaderRoundTrip(r: PerfRecord, bytes: seq<u8>)
    requires r.misc < 0x10000 && HEADER_SIZE + |r.body| <= MAX_RECORD
    requires bytes == Encode(r)[..HEADER_SIZE]
    ensures HeaderOf(bytes) == Header(r.kind, r.misc, HEADER_SIZE + |r.body|)
  {
    assert Pow256(4) == TWO32 && Pow256(2) == 0x10000;
    BytesRoundTrip(r.kind, 4);
    BytesRoundTrip(r.misc, 2);
    BytesRoundTrip(HEADER_SIZE + |r.body|, 2);
    assert bytes[..4] == ToBytes(r.kind, 4);
    assert bytes[4..6] == ToBytes(r.misc, 2);
    assert bytes[6..] == ToBytes(HEADER_SIZE + |r.body|, 2);
  }

  /** A slice that reads a concatenation reads its parts. */
  lemma SliceParts(stream: Stream, pos: nat, x: seq<u8>, y: seq<u8>)
    requires Slice(stream, pos, |x + y|) == x + y
    ensures Slice(stream, pos, |x|) == x && Slice(stream, pos + |x|, |y|) == y
  {
    forall i | 0 <= i < |x| ensures stream(pos + i) == x[i] {
      assert Slice(stream, pos, |x + y|)[i] == (x + y)[i];
    }
    forall i | 0 <= i < |y| ensures stream(pos + |x| + i) == y[i] {
      assert Slice(stream, pos, |x + y|)[|x| + i] == (x + y)[|x| + i];
    }
  }

  /** The next record is framed, and reading it leaves the rest. */
  lemma FirstRecord<R>(step: Step<R>, stream: Stream, tail: nat, head: nat, ringSize: nat, report: R, r: PerfRecord)
    requires WellFormedRecord(r, ringSize) && tail + |Encode(r)| <= head
    requires Slice(stream, tail, |Encode(r)|) == Encode(r)
    ensures Drain(step, stream, tail, head, ringSize, report)
            == Drain(step, stream, tail + |Encode(r)|, head, ringSize, step(report, r.kind, r.body))
  {
    var header := Encode(r)[..HEADER_SIZE];
    assert header + r.body == Encode(r);
    SliceParts(stream, tail, header, r.body);
    HeaderRoundTrip(r, header);
    assert Framed(stream, tail, head, ringSize);
  }

  /** Reading back what was written: every record once, in order, and nothing left over. */
  lemma {:induction false} FramingRoundTrip<R>(step: Step<R>, stream: Stream, tail: nat, ringSize: nat, report: R,
                                            rs: seq<PerfRecord>)
    requires forall i :: 0 <= i < |rs| ==> WellFormedRecord(rs[i], ringSize)
    requires Slice(stream, tail, |EncodeAll(rs)|) == EncodeAll(rs)
    ensures Drain(step, stream, tail, tail + |EncodeAll(rs)|, ringSize, report)
            == (ProcessAll(step, report, rs), tail + |EncodeAll(rs)|)
    decreases |rs|
  {
    if rs == [] {
      assert !Framed(stream, tail, tail, ringSize);
    } else {
      var r, rest := rs[0], rs[1..];
      var n, head := |Encode(r)|, tail + |EncodeAll(rs)|;
      SliceParts(stream, tail, Encode(r), EncodeAll(rest));
      FirstRecord(step, stream, tail, head, ringSize, report, r);
      assert tail + n + |EncodeAll(rest)| == head;
      FramingRoundTrip(step, stream, tail + n, ringSize, step(report, r.kind, r.body), rest);
    }
  }

  /**
   Whatever the bytes, draining to one head and later to a higher one is draining to the higher one
   at once: a record cut off by the first head is picked up whole by the second.
   */
  lemma {:induction false} DrainInParts<R>(step: Step<R>, stream: Stream, tail: nat, middle: nat, head: nat,
                                        ringSize: nat, report: R)
    requires tail <= middle <= head
    ensures var (r, t) := Drain(step, stream, tail, middle, ringSize, report);
            Drain(step, stream, t, head, ringSize, r) == Drain(step, stream, tail, head, ringSize, report)
    decreases middle - tail
  {
    if Framed(stream, tail, middle, ringSize) {
      assert Framed(stream, tail, head, ringSize);
      var h := HeaderOf(Slice(stream, tail, HEADER_SIZE));
      var body := Slice(stream, tail + HEADER_SIZE, h.size - HEADER_SIZE);
      DrainInParts(step, stream, tail + h.size, middle, head, ringSize, step(report, h.kind, body));
    }
  }

  // ---------------------------------------------------------------- the ring as a queue of records

  /** The kernel's side: bytes laid down from `pos` on, modulo the size of the ring. */
  function Written(data: seq<u8>, pos: nat, bytes: seq<u8>): (after: seq<u8>)
    requires |data| > 0
    ensures |after| == |data|
  {
    seq(|data|, k requires 0 <= k < |data| =>
      var i := (k - pos) % |data|;
      if i < |bytes| then bytes[i] else data[k])
  }

  function RingStream(data: seq<u8>): Stream {
    (p: int) => if |data| > 0 then data[p % |data|] else 0
  }

  /** Positions less than a ring apart: the offset from `pos` is recovered from the index. */
  lemma OffsetFrom(pos: nat, p: int, n: nat, d: nat)
    requires d < n && (p == pos + d || p == pos + d - n)
    ensures (p % n - pos) % n == d
  {
    var q := p / n;
    assert p == n * q + p % n;
    if p == pos + d {
      assert n * -q == -(n * q);
      Remainder(p % n - pos, n, -q, d);
    } else {
      assert n * (-q - 1) == -(n * q) - n;
      Remainder(p % n - pos, n, -q - 1, d);
    }
  }

  lemma WrittenShows(data: seq<u8>, pos: nat, bytes: seq<u8>, p: int)
    requires |data| > 0 && pos + |bytes| - |data| <= p < pos + |bytes| && |bytes| <= |data|
    ensures RingStream(Written(data, pos, bytes))(p) == if pos <= p then bytes[p - pos] else RingStream(data)(p)
  {
    var n := |data|;
    if pos <= p {
      if p - pos < n { OffsetFrom(pos, p, n, p - pos); }
    } else {
      OffsetFrom(pos, p, n, p - pos + n);
    }
  }

  datatype Action = Write(record: PerfRecord) | Read

  datatype Pipe<R> = Pipe(data: seq<u8>, tail: nat, head: nat, state: R)

  /** The kernel writes only what fits in the free part; the reader drains what is there. */
  function PipeStep<R>(step: Step<R>, p: Pipe<R>, a: Action): Pipe<R>
    requires |p.data| > 0 && p.tail <= p.head
  {
    match a
    case Write(r) =>
      var bytes := Encode(r);
      if p.head - p.tail + |bytes| > |p.data| then p
      else p.(data := Written(p.data, p.head, bytes), head := p.head + |bytes|)
    case Read =>
      var (state, tail) := Drain(step, RingStream(p.data), p.tail, p.head, |p.data|, p.state);
      p.(state := state, tail := tail)
  }

  /** The same, as a plain queue: records waiting, and records read. */
  datatype Queue = Queue(waiting: seq<PerfRecord>, taken: seq<PerfRecord>)

  function QueueStep(q: Queue, ringSize: nat, a: Action): Queue {
    match a
    case Write(r) =>
      if |EncodeAll(q.waiting)| + |Encode(r)| > ringSize then q else q.(waiting := q.waiting + [r])
    case Read => Queue([], q.taken + q.waiting)
  }

  ghost predicate PipeIsQueue<R>(step: Step<R>, start: R, p: Pipe<R>, q: Queue) {
    && |p.data| > 0 && p.tail <= p.head && p.head - p.tail <= |p.data|
    && (forall i :: 0 <= i < |q.waiting| ==> WellFormedRecord(q.waiting[i], |p.data|))
    && p.head - p.tail == |EncodeAll(q.waiting)|
    && Slice(RingStream(p.data), p.tail, p.head - p.tail) == EncodeAll(q.waiting)
    && p.state == ProcessAll(step, start, q.taken)
  }

  lemma ConcatAssociative<T>(a: seq<T>, b: seq<T>, c: seq<T>)
    ensures a + b + c == a + (b + c)
  {
  }

  lemma {:induction false} EncodeAllAppend(rs: seq<PerfRecord>, r: PerfRecord)
    ensures EncodeAll(rs + [r]) == EncodeAll(rs) + Encode(r)
  {
    var all, last := rs + [r], Encode(r);
    if rs == [] {
      assert all[1..] == [] && EncodeAll(all) == last + [];
    } else {
      EncodeAllAppend(rs[1..], r);
      assert all[1..] == rs[1..] + [r];
      ConcatAssociative(Encode(rs[0]), EncodeAll(rs[1..]), last);
    }
  }

  lemma {:induction false} ProcessAllAppend<R>(step: Step<R>, r: R, a: seq<PerfRecord>, b: seq<PerfRecord>)
    ensures ProcessAll(step, r, a + b) == ProcessAll(step, ProcessAll(step, r, a), b)
    decreases |a|
  {
    if a == [] {
      assert a + b == b;
    } else {
      assert (a + b)[1..] == a[1..] + b;
      ProcessAllAppend(step, step(r, a[0].kind, a[0].body), a[1..], b);
    }
  }

  lemma WriteIsEnqueue<R>(step: Step<R>, start: R, p: Pipe<R>, q: Queue, r: PerfRecord)
    requires PipeIsQueue(step, start, p, q) && r.misc < 0x10000 && |Encode(r)| <= MAX_RECORD
    ensures PipeIsQueue(step, start, PipeStep(step, p, Write(r)), QueueStep(q, |p.data|, Write(r)))
  {
    var bytes, held := Encode(r), EncodeAll(q.waiting);
    if p.head - p.tail + |bytes| <= |p.data| {
      var p' := PipeStep(step, p, Write(r));
      EncodeAllAppend(q.waiting, r);
      forall i | 0 <= i < p'.head - p'.tail ensures RingStream(p'.data)(p.tail + i) == (held + bytes)[i] {
        WrittenShows(p.data, p.head, bytes, p.tail + i);
        if i < |held| {
          assert Slice(RingStream(p.data), p.tail, p.head - p.tail)[i] == held[i];
        }
      }
    }
  }

  /** Every step of the ring, wrap-around included, is a step of the queue. */
  lemma PipeRefinesQueue<R>(step: Step<R>, start: R, p: Pipe<R>, q: Queue, a: Action)
    requires PipeIsQueue(step, start, p, q)
    requires a.Write? ==> a.record.misc < 0x10000 && |Encode(a.record)| <= MAX_RECORD
    ensures PipeIsQueue(step, start, PipeStep(step, p, a), QueueStep(q, |p.data|, a))
  {
    match a
    case Write(r) => WriteIsEnqueue(step, start, p, q, r);
    case Read =>
      FramingRoundTrip(step, RingStream(p.data), p.tail, |p.data|, p.state, q.waiting);
      ProcessAllAppend(step, start, q.taken, q.waiting);
  }

  function RunPipe<R>(step: Step<R>, p: Pipe<R>, actions: seq<Action>): (after: Pipe<R>)
    requires |p.data| > 0 && p.tail <= p.head
    ensures |after.data| == |p.data| && after.tail <= after.head
    decreases |actions|
  {
    if actions == [] then p
    else PipeStep(step, RunPipe(step, p, actions[..|actions| - 1]), actions[|actions| - 1])
  }

  function RunQueue(q: Queue, ringSize: nat, actions: seq<Action>): Queue
    decreases |actions|
  {
    if actions == [] then q
    else QueueStep(RunQueue(q, ringSize, actions[..|actions| - 1]), ringSize, actions[|actions| - 1])
  }

  /** Over any schedule of writes and reads the report is what the records read so far make of it. */
  lemma {:induction false} RunPipeIsQueue<R>(step: Step<R>, p: Pipe<R>, actions: seq<Action>)
    requires |p.data| > 0 && p.tail == p.head
    requires forall i :: 0 <= i < |actions| && actions[i].Write? ==>
               actions[i].record.misc < 0x10000 && |Encode(actions[i].record)| <= MAX_RECORD
    ensures PipeIsQueue(step, p.state, RunPipe(step, p, actions), RunQueue(Queue([], []), |p.data|, actions))
    decreases |actions|
  {
    if actions != [] {
      var n := |actions| - 1;
      RunPipeIsQueue(step, p, actions[..n]);
      PipeRefinesQueue(step, p.state, RunPipe(step, p, actions[..n]), RunQueue(Queue([], []), |p.data|, actions[..n]),
                       actions[n]);
    }
  }

  /** Reading the shared page is the reading step of the pipe. */
  method ReadPipe(regions: RegionIndex, ring: PerfRing, report: SampleReport)
    requires regions.Valid() && HEADER_SIZE <= ring.data.Length
    requires ring.dataTail <= ring.dataHead && BelowWrap(ring.dataHead, ring.data.Length)
    modifies ring`dataTail, report
    ensures Pipe(ring.data[..], ring.dataTail, ring.dataHead, report.State())
            == PipeStep(Sampling(Sampler(report.event, regions.index)),
                        old(Pipe(ring.data[..], ring.dataTail, ring.dataHead, report.State())), Read)
  {
    ghost var stream := RingStream(ring.data[..]);
    ShowsAll(ring.data[..], stream, ring.dataTail, ring.dataHead);
    ParseSamples(regions, ring, report, stream);
  }

  // ---------------------------------------------------------------- positions near 2^64

  /** The tests the reader makes on a record, in wrapping arithmetic. */
  predicate Accepts(tail: u64, head: u64, size: nat, ringSize: nat)
    requires size <= MAX_RECORD
  {
    && Add64(tail, HEADER_SIZE) <= head
    && HEADER_SIZE <= size && Add64(tail, size) <= head && size <= ringSize
  }

  /** What they are meant to find out. */
  predicate Fits(tail: u64, head: u64, size: nat, ringSize: nat) {
    && tail + HEADER_SIZE <= head
    && HEADER_SIZE <= size && tail + size <= head && size <= ringSize
  }

  ghost predicate JudgesRight(head: u64, ringSize: nat) {
    forall tail: u64, size: nat {:trigger Fits(tail, head, size, ringSize)} ::
      tail <= head && size <= MAX_RECORD ==> (Accepts(tail, head, size, ringSize) <==> Fits(tail, head, size, ringSize))
  }

  /** The reader judges every record right, wherever its tail is, exactly when the head is below the wrap. */
  lemma WrapHarmless(head: u64, ringSize: nat)
    requires HEADER_SIZE <= ringSize
    ensures JudgesRight(head, ringSize) <==> BelowWrap(head, ringSize)
  {
    var size := Min(MAX_RECORD, ringSize);
    if head + HEADER_SIZE > U64_MAX {
      assert Accepts(head, head, HEADER_SIZE, ringSize) && !Fits(head, head, HEADER_SIZE, ringSize);
    } else if head + size > U64_MAX + HEADER_SIZE {
      var tail: u64 := head - HEADER_SIZE;
      assert Accepts(tail, head, size, ringSize) && !Fits(tail, head, size, ringSize);
    }
  }

  // ---------------------------------------------------------------- conservation of samples

  function SampleSum(hs: seq<Hotspot>): u64 {
    if hs == [] then 0 else Add64(hs[0].samples, SampleSum(hs[1..]))
  }

  /** Samples filed under a key. */
  function SamplesAt(hs: seq<Hotspot>, key: string): u64 {
    var i := BucketFor(hs, key);
    if i < |hs| then hs[i].samples else 0
  }

  lemma {:induction false} BumpSum(hs: seq<Hotspot>, i: nat, s: Sample)
    requires i < |hs|
    ensures SampleSum(hs[i := Bump(hs[i], s)]) == Add64(SampleSum(hs), 1)
  {
    if i > 0 {
      assert hs[i := Bump(hs[i], s)][1..] == hs[1..][i - 1 := Bump(hs[1..][i - 1], s)];
      BumpSum(hs[1..], i - 1, s);
    } else {
      assert hs[0 := Bump(hs[0], s)][1..] == hs[1..];
    }
  }

  lemma {:induction false} NewBucketSum(hs: seq<Hotspot>, key: string)
    ensures SampleSum(hs + [Hotspot(key, 0, 0, 0, 0)]) == SampleSum(hs)
  {
    if hs == [] {
      assert SampleSum([Hotspot(key, 0, 0, 0, 0)][1..]) == 0;
    } else {
      assert (hs + [Hotspot(key, 0, 0, 0, 0)])[1..] == hs[1..] + [Hotspot(key, 0, 0, 0, 0)];
      NewBucketSum(hs[1..], key);
    }
  }

  lemma ProcessConserves(cfg: Sampler, r: Report, kind: u32, body: seq<u8>)
    requires SampleSum(r.hotspots) == r.totalSamples
    ensures SampleSum(Process(cfg, r, kind, body).hotspots) == Process(cfg, r, kind, body).totalSamples
  {
    if kind == PERF_RECORD_SAMPLE {
      var s := DecodeSample(cfg.event, body);
      var key := SampleKey(cfg, s);
      var i := BucketFor(r.hotspots, key);
      if i < |r.hotspots| {
        BumpSum(r.hotspots, i, s);
      } else {
        NewBucketSum(r.hotspots, key);
        BumpSum(r.hotspots + [Hotspot(key, 0, 0, 0, 0)], i, s);
      }
    }
  }

  /** What every record keeps, a drain keeps. */
  lemma {:induction false} DrainKeeps<R(!new)>(step: Step<R>, keep: R -> bool, stream: Stream, tail: nat, head: nat,
                                               ringSize: nat, r: R)
    requires tail <= head && keep(r)
    requires forall q: R, kind: u32, body: seq<u8> :: keep(q) ==> keep(step(q, kind, body))
    ensures keep(Drain(step, stream, tail, head, ringSize, r).0)
    decreases head - tail
  {
    if Framed(stream, tail, head, ringSize) {
      var h := HeaderOf(Slice(stream, tail, HEADER_SIZE));
      var body := Slice(stream, tail + HEADER_SIZE, h.size - HEADER_SIZE);
      DrainKeeps(step, keep, stream, tail + h.size, head, ringSize, step(r, h.kind, body));
    }
  }

  /** However much is drained, of whatever bytes, the bucket counts add up to the total. */
  lemma DrainConserves(cfg: Sampler, stream: Stream, tail: nat, head: nat, ringSize: nat, r: Report)
    requires tail <= head && SampleSum(r.hotspots) == r.totalSamples
    ensures var after := Drain(Sampling(cfg), stream, tail, head, ringSize, r).0;
            SampleSum(after.hotspots) == after.totalSamples
  {
    var keep := (q: Report) => SampleSum(q.hotspots) == q.totalSamples;
    forall q: Report, kind: u32, body: seq<u8> | keep(q) ensures keep(Sampling(cfg)(q, kind, body)) {
      ProcessConserves(cfg, q, kind, body);
    }
    DrainKeeps(Sampling(cfg), keep, stream, tail, head, ringSize, r);
  }

  lemma {:induction false} BucketIs(hs: seq<Hotspot>, key: string, i: nat)
    requires i <= |hs| && (forall j :: 0 <= j < i ==> hs[j].key != key) && (i < |hs| ==> hs[i].key == key)
    ensures BucketFor(hs, key) == i
  {
    if i > 0 {
      BucketIs(hs[1..], key, i - 1);
    }
  }

  /** Records that are samples of a place that goes by `key`. */
  ghost function KeyCount(event: string, regions: seq<Region>, rs: seq<PerfRecord>, key: string): u64 {
    if rs == [] then 0
    else
      var n := |rs| - 1;
      var s := DecodeSample(event, rs[n].body);
      var hit := rs[n].kind == 9 && Names(regions, if s.addr != 0 then s.addr else s.ip, key);
      Add64(KeyCount(event, regions, rs[..n], key), if hit then 1 else 0)
  }

  lemma AddSampleCounts(r: Report, key: string, s: Sample, other: string)
    ensures SamplesAt(AddSample(r, key, s).hotspots, other)
            == Add64(SamplesAt(r.hotspots, other), if other == key then 1 else 0)
  {
    var after, i := AddSample(r, key, s).hotspots, BucketFor(r.hotspots, other);
    if i < |r.hotspots| || other == key {
      BucketIs(after, other, i);
    } else {
      BucketIs(after, other, |after|);
    }
  }

  /** Each bucket holds exactly the samples of the places that go by its key. */
  lemma {:induction false} KeysCounted(event: string, regions: seq<Region>, rs: seq<PerfRecord>, key: string)
    requires WellFormed(Keep(regions))
    ensures var report := ProcessAll(Sampling(Sampler(event, Indexed(regions))), Report([], 0, 0), rs);
            SamplesAt(report.hotspots, key) == KeyCount(event, regions, rs, key)
    decreases |rs|
  {
    var cfg := Sampler(event, Indexed(regions));
    if rs != [] {
      var n := |rs| - 1;
      KeysCounted(event, regions, rs[..n], key);
      assert rs[..n] + [rs[n]] == rs;
      ProcessAllAppend(Sampling(cfg), Report([], 0, 0), rs[..n], [rs[n]]);
      var r := ProcessAll(Sampling(cfg), Report([], 0, 0), rs[..n]);
      assert [rs[n]][1..] == [];
      assert ProcessAll(Sampling(cfg), r, [rs[n]]) == Process(cfg, r, rs[n].kind, rs[n].body);
      RecordCounts(event, regions, r, rs[n], key);
    }
  }

  lemma RecordCounts(event: string, regions: seq<Region>, r: Report, record: PerfRecord, key: string)
    requires WellFormed(Keep(regions))
    ensures var s := DecodeSample(event, record.body);
            var hit := record.kind == 9 && Names(regions, if s.addr != 0 then s.addr else s.ip, key);
            SamplesAt(Process(Sampler(event, Indexed(regions)), r, record.kind, record.body).hotspots, key)
            == Add64(SamplesAt(r.hotspots, key), if hit then 1 else 0)
  {
    if record.kind == 9 {
      var s := DecodeSample(event, record.body);
      var place := if s.addr != 0 then s.addr else s.ip;
      var name := RegionForAddr(Indexed(regions), place);
      AddressNamed(regions, place);
      ProcessIsAdd(event, regions, r, record.body, s, name);
      AddSampleCounts(r, name, s, key);
      if Names(regions, place, key) { OneName(regions, place, key, name); }
    }
  }

  // ---------------------------------------------------------------- bodies

  lemma ReadWordBack(before: seq<u8>, v: nat, width: nat, after: seq<u8>)
    requires v < Pow256(width)
    ensures ReadWord(before + ToBytes(v, width) + after, |before|, width) == (v, |before| + width)
  {
    var body := before + ToBytes(v, width) + after;
    BytesRoundTrip(v, width);
    assert body[|before|..|before| + width] == ToBytes(v, width);
  }

  /** A sample as the kernel lays it out: address and weight only for the precise events. */
  function SampleBody(ip: u64, pid: u32, tid: u32, extra: seq<u8>): seq<u8> {
    ToBytes(ip, 8) + ToBytes(pid, 4) + ToBytes(tid, 4) + extra
  }

  lemma SampleHead(ip: u64, pid: u32, tid: u32, extra: seq<u8>)
    ensures var body := SampleBody(ip, pid, tid, extra);
            ReadU64(body, 0) == (ip, 8) && ReadU32(body, 8) == (pid, 12) && ReadU32(body, 12) == (tid, 16)
  {
    var body := SampleBody(ip, pid, tid, extra);
    var a, b, c := ToBytes(ip, 8), ToBytes(pid, 4), ToBytes(tid, 4);
    Pow256Of8();
    ReadWordBack([], ip, 8, b + c + extra);
    assert [] + a + (b + c + extra) == body;
    ReadWordBack(a, pid, 4, c + extra);
    assert a + b + (c + extra) == body;
    ReadWordBack(a + b, tid, 4, extra);
    assert (a + b) + c + extra == body;
  }

  /** Every field of a sample is read from its own place. */
  lemma SampleRoundTrip(event: string, ip: u64, pid: u32, tid: u32, addr: u64, weight: u64, more: seq<u8>)
    ensures DecodeSample(event, SampleBody(ip, pid, tid, ToBytes(addr, 8) + ToBytes(weight, 8) + more))
            == if event == "cpu-clock" then Sample(ip, 0, 0) else Sample(ip, addr, weight)
  {
    var x, y := ToBytes(addr, 8), ToBytes(weight, 8);
    var head := ToBytes(ip, 8) + ToBytes(pid, 4) + ToBytes(tid, 4);
    var body := SampleBody(ip, pid, tid, x + y + more);
    SampleHead(ip, pid, tid, x + y + more);
    Pow256Of8();
    ReadWordBack(head, addr, 8, y + more);
    assert head + x + (y + more) == body;
    ReadWordBack(head + x, weight, 8, more);
    assert (head + x) + y + more == body;
  }

  lemma LostRoundTrip(id: u64, lost: u64, more: seq<u8>)
    ensures DecodeLost(ToBytes(id, 8) + ToBytes(lost, 8) + more) == lost
  {
    var a, b := ToBytes(id, 8), ToBytes(lost, 8);
    Pow256Of8();
    ReadWordBack([], id, 8, b + more);
    assert [] + a + (b + more) == a + b + more;
    ReadWordBack(a, lost, 8, more);
  }

  // ---------------------------------------------------------------- where a sample is filed

  /** The hotspots after a sample: one more under its key, with its weight and place, and all else as before. */
  ghost predicate FiledUnder(before: seq<Hotspot>, after: seq<Hotspot>, key: string, ip: u64, addr: u64, weight: u64) {
    && (forall other :: other != key ==> HotspotAt(after, other) == HotspotAt(before, other))
    && HotspotAt(after, key).Some?
    && var h, was := HotspotAt(after, key).value, HotspotAt(before, key);
       && h.ip == ip && h.addr == addr
       && h.samples == ((if was.Some? then was.value.samples else 0) + 1) % TWO64
       && h.totalWeight == ((if was.Some? then was.value.totalWeight else 0) + weight) % TWO64
  }

  function HotspotAt(hs: seq<Hotspot>, key: string): Option<Hotspot> {
    if hs == [] then None else if hs[0].key == key then Some(hs[0]) else HotspotAt(hs[1..], key)
  }

  lemma {:induction false} HotspotIs(hs: seq<Hotspot>, key: string)
    ensures var i := BucketFor(hs, key); HotspotAt(hs, key) == if i < |hs| then Some(hs[i]) else None
  {
    if hs != [] && hs[0].key != key {
      HotspotIs(hs[1..], key);
    }
  }

  lemma SampleAdded(r: Report, key: string, s: Sample)
    ensures FiledUnder(r.hotspots, AddSample(r, key, s).hotspots, key, s.ip, s.addr, s.weight)
  {
    var before, after := r.hotspots, AddSample(r, key, s).hotspots;
    var n := BucketFor(before, key);
    BucketIs(after, key, n);
    HotspotIs(before, key);
    HotspotIs(after, key);
    forall other | other != key ensures HotspotAt(after, other) == HotspotAt(before, other) {
      var i := BucketFor(before, other);
      BucketIs(after, other, if i < |before| then i else |after|);
      HotspotIs(before, other);
      HotspotIs(after, other);
    }
  }

  /** The name of the place an address lies in: that of the region holding it, or none. */
  ghost predicate Names(rs: seq<Region>, a: u64, key: string) {
    && (forall i :: 0 <= i < |rs| && Contains(rs[i], a) ==> key == RegionKey(rs[i]))
    && ((forall i :: 0 <= i < |rs| ==> !Contains(rs[i], a)) ==> key == "[unknown]")
  }

  lemma AddressNamed(rs: seq<Region>, a: u64)
    requires WellFormed(Keep(rs))
    ensures Names(rs, a, RegionForAddr(Indexed(rs), a))
  {
    IndexFindsTheRegion(rs, a);
    forall i | 0 <= i < |rs| && Contains(rs[i], a) ensures Lookup(Indexed(rs), a) == Some(rs[i]) {
      assert rs[i] in rs;
    }
  }

  lemma OneName(rs: seq<Region>, a: u64, k: string, l: string)
    requires Names(rs, a, k) && Names(rs, a, l)
    ensures k == l
  {
  }

  lemma DecodedFiled(event: string, rs: seq<Region>, r: Report, body: seq<u8>, s: Sample, key: string)
    requires WellFormed(Keep(rs)) && DecodeSample(event, body) == s
    requires Names(rs, if s.addr != 0 then s.addr else s.ip, key)
    ensures var after := Process(Sampler(event, Indexed(rs)), r, 9, body);
            && after.totalSamples == (r.totalSamples + 1) % TWO64 && after.lostSamples == r.lostSamples
            && FiledUnder(r.hotspots, after.hotspots, key, s.ip, s.addr, s.weight)
  {
    ProcessIsAdd(event, rs, r, body, s, key);
    SampleAdded(r, key, s);
    SampleCounted(r, key, s);
  }

  lemma SampleCounted(r: Report, key: string, s: Sample)
    ensures var after := AddSample(r, key, s);
            after.totalSamples == (r.totalSamples + 1) % TWO64 && after.lostSamples == r.lostSamples
  {
  }

  lemma ProcessIsAdd(event: string, rs: seq<Region>, r: Report, body: seq<u8>, s: Sample, key: string)
    requires WellFormed(Keep(rs)) && DecodeSample(event, body) == s
    requires Names(rs, if s.addr != 0 then s.addr else s.ip, key)
    ensures Process(Sampler(event, Indexed(rs)), r, 9, body) == AddSample(r, key, s)
  {
    var place := if s.addr != 0 then s.addr else s.ip;
    AddressNamed(rs, place);
    OneName(rs, place, key, RegionForAddr(Indexed(rs), place));
  }

  /**
   A sample record is filed under the region holding its address, if the event carries one that is not
   zero, else under the region holding its instruction pointer, with its own weight and place.
   */
  lemma SampleFiled(event: string, rs: seq<Region>, r: Report, ip: u64, pid: u32, tid: u32, addr: u64, weight: u64,
                    more: seq<u8>, key: string)
    requires WellFormed(Keep(rs))
    requires Names(rs, if event != "cpu-clock" && addr != 0 then addr else ip, key)
    ensures var body := SampleBody(ip, pid, tid, ToBytes(addr, 8) + ToBytes(weight, 8) + more);
            var after := Process(Sampler(event, Indexed(rs)), r, 9, body);
            && after.totalSamples == (r.totalSamples + 1) % TWO64 && after.lostSamples == r.lostSamples
            && (if event == "cpu-clock" then FiledUnder(r.hotspots, after.hotspots, key, ip, 0, 0)
                else FiledUnder(r.hotspots, after.hotspots, key, ip, addr, weight))
  {
    var body := SampleBody(ip, pid, tid, ToBytes(addr, 8) + ToBytes(weight, 8) + more);
    SampleRoundTrip(event, ip, pid, tid, addr, weight, more);
    DecodedFiled(event, rs, r, body, DecodeSample(event, body), key);
  }

  /** A lost record adds its count; a record of any other kind changes nothing. */
  lemma OtherRecords(cfg: Sampler, r: Report, kind: u32, id: u64, lost: u64, more: seq<u8>)
    requires kind != 9
    ensures var after := Process(cfg, r, kind, ToBytes(id, 8) + ToBytes(lost, 8) + more);
            && after.hotspots == r.hotspots && after.totalSamples == r.totalSamples
            && after.lostSamples == if kind == 2 then (r.lostSamples + lost) % TWO64 else r.lostSamples
  {
    LostRoundTrip(id, lost, more);
  }

  /** What a record breaks off before is read as zero. */
  lemma BrokenOffSample(event: string, ip: u64, pid: u32, tid: u32, addr: u64, tail: seq<u8>)
    requires |tail| < 8
    ensures DecodeSample(event, tail) == Sample(0, 0, 0)
    ensures DecodeSample(event, SampleBody(ip, pid, tid, tail)) == Sample(ip, 0, 0)
    ensures event != "cpu-clock" ==>
              DecodeSample(event, SampleBody(ip, pid, tid, ToBytes(addr, 8) + tail)) == Sample(ip, addr, 0)
  {
    SampleHead(ip, pid, tid, tail);
    var extra := ToBytes(addr, 8) + tail;
    var head := ToBytes(ip, 8) + ToBytes(pid, 4) + ToBytes(tid, 4);
    SampleHead(ip, pid, tid, extra);
    Pow256Of8();
    ReadWordBack(head, addr, 8, tail);
    assert head + ToBytes(addr, 8) + tail == SampleBody(ip, pid, tid, extra);
  }
}
