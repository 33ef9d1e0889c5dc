/** The perf ring reader as the program runs it: a wrapping byte buffer drained into a report. */
module PerfRings {
  import opened Machine
  import opened Regions
  import opened RegionIndexes
  import opened PerfFunctions

  /** The bytes of `data` at positions `lo` to `hi`, modulo its size, are those of the stream. */
  ghost predicate ShowsRange(data: seq<u8>, stream: Stream, lo: int, hi: int)
    requires |data| > 0
    decreases hi - lo
  {
    lo < hi ==> data[lo % |data|] == stream(lo) && ShowsRange(data, stream, lo + 1, hi)
  }

  lemma {:induction false} ShowsAt(data: seq<u8>, stream: Stream, lo: int, hi: int, p: int)
    requires |data| > 0 && ShowsRange(data, stream, lo, hi) && lo <= p < hi
    ensures data[p % |data|] == stream(p)
    decreases hi - lo
  {
    if lo < p {
      ShowsAt(data, stream, lo + 1, hi, p);
    }
  }

  lemma {:induction false} ShowsAll(data: seq<u8>, stream: Stream, lo: int, hi: int)
    requires |data| > 0 && forall p: int {:trigger stream(p)} :: lo <= p < hi ==> data[p % |data|] == stream(p)
    ensures ShowsRange(data, stream, lo, hi)
    decreases hi - lo
  {
    if lo < hi {
      ShowsAll(data, stream, lo + 1, hi);
    }
  }

  /** The shared page: data area, producer position, consumer position. */
  class PerfRing {
    const data: array<u8>
    var dataHead: u64
    var dataTail: u64

    constructor (data: array<u8>)
      ensures this.data == data && dataHead == 0 && dataTail == 0
    {
      this.data, dataHead, dataTail := data, 0, 0;
    }

    /** The ring shows the stream between the two positions. */
    ghost predicate Shows(stream: Stream)
      reads this, data
      requires data.Length > 0
    {
      ShowsRange(data[..], stream, dataTail, dataHead)
    }

    /** Two block copies when the range wraps past the end of the data area. */
    method CopyFromRing(pos: u64, out: array<u8>)
      requires 0 < data.Length && out.Length <= data.Length && out != data
      modifies out
      ensures forall i :: 0 <= i < out.Length ==> out[i] == data[(pos + i) % data.Length]
    {
      var offset := pos % data.Length;
      var first := Min(out.Length, data.Length - offset);
      forall i | 0 <= i < first {
        out[i] := data[offset + i];
      }
      forall i | first <= i < out.Length {
        out[i] := data[i - first];
      }
      forall i | 0 <= i < out.Length ensures out[i] == data[(pos + i) % data.Length] {
        WrapIndex(pos, i, data.Length);
      }
    }

    /** A fresh buffer filled from the ring: a slice of the stream it shows. */
    method ReadBytes(pos: u64, len: nat, ghost stream: Stream) returns (bytes: seq<u8>)
      requires len <= data.Length && 0 < data.Length && Shows(stream)
      requires dataTail <= pos && pos + len <= dataHead
      ensures bytes == Slice(stream, pos, len)
    {
      var out := new u8[len];
      CopyFromRing(pos, out);
      forall i | 0 <= i < len ensures out[i] == stream(pos + i) {
        ShowsAt(data[..], stream, dataTail, dataHead, pos + i);
      }
      bytes := out[..];
    }
  }

  lemma MulAtLeast(n: int, k: int)
    requires 0 <= n && 1 <= k
    ensures n * k >= n
  {
  }

  lemma LargeMultiple(n: int, k: int)
    requires 0 <= n && k != 0
    ensures n * k >= n || n * k <= -n
  {
    if k >= 1 {
      MulAtLeast(n, k);
    } else {
      MulAtLeast(n, -k);
      assert n * -k == -(n * k);
    }
  }

  /** Quotient and remainder are unique. */
  lemma Remainder(x: int, n: int, q: int, r: int)
    requires 0 <= r < n && x == n * q + r
    ensures x % n == r
  {
    var q', r' := x / n, x % n;
    assert x == n * q' + r';
    assert n * (q - q') == n * q - n * q';
    if q != q' { LargeMultiple(n, q - q'); }
  }

  /** Where the `i`-th byte after `pos` sits. */
  lemma WrapIndex(pos: nat, i: nat, n: nat)
    requires 0 < n && i <= n
    ensures (pos + i) % n == if pos % n + i < n then pos % n + i else pos % n + i - n
  {
    var q, r := pos / n, pos % n;
    assert pos == n * q + r;
    if r + i < n {
      Remainder(pos + i, n, q, r + i);
    } else {
      assert n * (q + 1) == n * q + n;
      Remainder(pos + i, n, q + 1, r + i - n);
    }
  }

  class SampleReport {
    const event: string
    var hotspots: seq<Hotspot>
    var totalSamples: u64
    var lostSamples: u64

    constructor (event: string)
      ensures this.event == event && State() == Report([], 0, 0)
    {
      this.event, hotspots, totalSamples, lostSamples := event, [], 0, 0;
    }

    ghost function State(): Report
      reads this
    {
      Report(hotspots, totalSamples, lostSamples)
    }

    method Bucket(key: string) returns (i: nat)
      modifies this`hotspots
      ensures i == BucketFor(old(hotspots), key) && i < |hotspots|
      ensures hotspots == if i < |old(hotspots)| then old(hotspots) else old(hotspots) + [Hotspot(key, 0, 0, 0, 0)]
    {
      i := 0;
      while i < |hotspots| && hotspots[i].key != key
        invariant i <= |hotspots|
        invariant BucketFor(hotspots, key) == i + BucketFor(hotspots[i..], key)
      {
        assert hotspots[i..][1..] == hotspots[i + 1..];
        i := i + 1;
      }
      if i == |hotspots| {
        hotspots := hotspots + [Hotspot(key, 0, 0, 0, 0)];
      }
    }

    method Handle(regions: RegionIndex, kind: u32, body: seq<u8>)
      requires regions.Valid()
      modifies this
      ensures State() == Process(Sampler(event, regions.index), old(State()), kind, body)
    {
      if kind == PERF_RECORD_SAMPLE {
        var ip, cursor := ReadU64(body, 0).0, ReadU64(body, 0).1;
        cursor := ReadU32(body, cursor).1;
        cursor := ReadU32(body, cursor).1;
        var addr: u64, weight: u64 := 0, 0;
        if event != "cpu-clock" {
          var word := ReadU64(body, cursor);
          addr, cursor := word.0, word.1;
          weight := ReadU64(body, cursor).0;
        }
        assert Sample(ip, addr, weight) == DecodeSample(event, body);
        var found := regions.Find(if addr != 0 then addr else ip);
        var key := match found case Some(r) => RegionKey(r) case None => "[unknown]";
        var i := Bucket(key);
        var h := hotspots[i];
        h := h.(samples := Add64(h.samples, 1));
        h := h.(totalWeight := Add64(h.totalWeight, weight));
        h := h.(ip := ip);
        h := h.(addr := addr);
        hotspots := hotspots[i := h];
        totalSamples := Add64(totalSamples, 1);
      } else if kind == PERF_RECORD_LOST {
        var cursor := ReadU64(body, 0).1;
        lostSamples := Add64(lostSamples, ReadU64(body, cursor).0);
      }
    }
  }

  /** One turn of the reading loop: the next framed record, or nothing when there is none. */
  method ReadRecord(regions: RegionIndex, ring: PerfRing, report: SampleReport, tail: u64, ghost stream: Stream)
    returns (next: Option<u64>)
    requires regions.Valid() && HEADER_SIZE <= ring.data.Length
    requires ring.dataTail <= tail <= U64_MAX - HEADER_SIZE && BelowWrap(ring.dataHead, ring.data.Length)
    requires ring.Shows(stream)
    modifies report
    ensures next.Some? <==> Framed(stream, tail, ring.dataHead, ring.data.Length)
    ensures next.None? ==> report.State() == old(report.State())
    ensures next.Some? ==>
              var h := HeaderOf(Slice(stream, tail, HEADER_SIZE));
              && next.value == tail + h.size
              && report.State() == Process(Sampler(report.event, regions.index), old(report.State()), h.kind,
                                           Slice(stream, tail + HEADER_SIZE, h.size - HEADER_SIZE))
  {
    if Add64(tail, HEADER_SIZE) > ring.dataHead {
      return None;
    }
    var header := ring.ReadBytes(tail, HEADER_SIZE, stream);
    var h := HeaderOf(header);
    if h.size < HEADER_SIZE || Add64(tail, h.size) > ring.dataHead || h.size > ring.data.Length {
      return None;
    }
    var body := ring.ReadBytes(tail + HEADER_SIZE, h.size - HEADER_SIZE, stream);
    report.Handle(regions, h.kind, body);
    next := Some(Add64(tail, h.size));
  }

  /** A turn of the loop leaves the outcome of the whole drain as it was. */
  method TakeRecord(regions: RegionIndex, ring: PerfRing, report: SampleReport, tail: u64, ghost stream: Stream)
    returns (next: Option<u64>)
    requires regions.Valid() && HEADER_SIZE <= ring.data.Length
    requires ring.dataTail <= tail <= U64_MAX - HEADER_SIZE && BelowWrap(ring.dataHead, ring.data.Length)
    requires ring.Shows(stream)
    modifies report
    ensures next.Some? ==> tail < next.value <= ring.dataHead
    ensures var step, size := Sampling(Sampler(report.event, regions.index)), ring.data.Length;
            Drain(step, stream, tail, ring.dataHead, size, old(report.State())) ==
            if next.Some? then Drain(step, stream, next.value, ring.dataHead, size, report.State())
            else (report.State(), tail as nat)
  {
    next := ReadRecord(regions, ring, report, tail, stream);
  }

  /**
   Reads every whole record between tail and head; nothing when the tail is past the head. The
   positions are byte counters, far from wrapping around 64 bits.
   */
  method ParseSamples(regions: RegionIndex, ring: PerfRing, report: SampleReport, ghost stream: Stream)
    requires regions.Valid() && HEADER_SIZE <= ring.data.Length
    requires ring.dataTail <= U64_MAX - HEADER_SIZE && BelowWrap(ring.dataHead, ring.data.Length)
    requires ring.Shows(stream)
    modifies ring`dataTail, report
    ensures (report.State(), ring.dataTail as nat) ==
            Drain(Sampling(Sampler(report.event, regions.index)), stream, old(ring.dataTail), ring.dataHead,
                  ring.data.Length, old(report.State()))
  {
    var tail := ring.dataTail;
    var next := TakeRecord(regions, ring, report, tail, stream);
    while next.Some?
      invariant ring.dataTail == old(ring.dataTail) <= tail <= U64_MAX - HEADER_SIZE
      invariant regions.Valid() && ring.Shows(stream)
      invariant next.Some? ==> tail < next.value <= ring.dataHead
      invariant Drain(Sampling(Sampler(report.event, regions.index)), stream, old(ring.dataTail), ring.dataHead,
                      ring.data.Length, old(report.State())) ==
                if next.Some?
                then Drain(Sampling(Sampler(report.event, regions.index)), stream, next.value, ring.dataHead,
                           ring.data.Length, report.State())
                else (report.State(), tail as nat)
      decreases ring.dataHead - tail + (if next.Some? then 1 else 0)
    {
      tail := next.value;
      next := TakeRecord(regions, ring, report, tail, stream);
    }
    ring.dataTail := tail;
  }
}
