/** What each operation of the VMA model does to the region list, as functions on values. */
module VmaFunctions {
  import opened Machine
  import opened Regions
  import Sorting

  datatype EventType = Mmap | Munmap | Mprotect | Brk | Mremap | Exec | ProcSeed

  datatype MapEvent = MapEvent(
    eventType: EventType, timestampNs: u64, address: u64, length: u64, newAddress: u64, newLength: u64,
    perms: Perms, flags: u64, fd: i32, result: i64, source: Source, success: bool)

  /** The model's state: its snapshot and the remembered start of the heap. */
  datatype Vma = Vma(pid: i32, timestampNs: u64, regions: seq<Region>, heapBase: u64)

  function CheckedEnd(begin: u64, length: u64): u64 {
    if U64_MAX - begin < length then U64_MAX else begin + length
  }

  predicate Overlaps(r: Region, begin: int, end: int) {
    r.begin < end && begin < r.end
  }

  function ClipRegion(r: Region, begin: u64, end: u64): Region {
    var clippedBegin := Max(r.begin, begin);
    var source :=
      if clippedBegin > r.begin && (r.source.path != "" || r.source.inode != 0 || r.source.device != 0) then
        r.source.(offset := Add64(r.source.offset, clippedBegin - r.begin))
      else r.source;
    r.(source := source, begin := clippedBegin, end := Min(r.end, end))
  }

  // ---------------------------------------------------------------- sort and merge

  function BeginLess(): (Region, Region) -> bool {
    (l: Region, r: Region) => l.begin < r.begin
  }

  predicate Joinable(l: Region, r: Region) {
    l.end == r.begin && SameMappingIdentity(l, r)
  }

  function Join(l: Region, r: Region): Region {
    l.(end := r.end,
       rssKb := Add64(l.rssKb, r.rssKb),
       pssKb := Add64(l.pssKb, r.pssKb),
       privateDirtyKb := Add64(l.privateDirtyKb, r.privateDirtyKb))
  }

  function Append(merged: seq<Region>, r: Region): seq<Region> {
    var n := |merged|;
    if n > 0 && Joinable(merged[n - 1], r) then merged[..n - 1] + [Join(merged[n - 1], r)] else merged + [r]
  }

  function MergeInto(merged: seq<Region>, rs: seq<Region>): seq<Region>
    decreases |rs|
  {
    if rs == [] then merged else MergeInto(Append(merged, rs[0]), rs[1..])
  }

  function SortAndMerge(rs: seq<Region>): seq<Region> {
    MergeInto([], Sorting.SortBy(BeginLess(), rs))
  }

  // ---------------------------------------------------------------- range operations

  function UnmapPieces(r: Region, begin: u64, end: u64): seq<Region> {
    if !Overlaps(r, begin, end) then [r]
    else
      (if r.begin < begin then [r.(end := begin)] else []) + (if end < r.end then [r.(begin := end)] else [])
  }

  function UnmapAll(rs: seq<Region>, begin: u64, end: u64): seq<Region> {
    if rs == [] then [] else UnmapPieces(rs[0], begin, end) + UnmapAll(rs[1..], begin, end)
  }

  function UnmapRange(rs: seq<Region>, begin: u64, end: u64): seq<Region> {
    if begin >= end then rs else SortAndMerge(UnmapAll(rs, begin, end))
  }

  function ProtectPieces(r: Region, begin: u64, end: u64, perms: Perms): seq<Region> {
    if !Overlaps(r, begin, end) then [r]
    else
      (if r.begin < begin then [r.(end := begin)] else [])
      + [r.(begin := Max(r.begin, begin), end := Min(r.end, end), perms := perms, provenance := "event")]
      + (if end < r.end then [r.(begin := end)] else [])
  }

  function ProtectAll(rs: seq<Region>, begin: u64, end: u64, perms: Perms): seq<Region> {
    if rs == [] then [] else ProtectPieces(rs[0], begin, end, perms) + ProtectAll(rs[1..], begin, end, perms)
  }

  function ProtectRange(rs: seq<Region>, begin: u64, end: u64, perms: Perms): seq<Region> {
    if begin >= end then rs else SortAndMerge(ProtectAll(rs, begin, end, perms))
  }

  function MapRegion(rs: seq<Region>, r: Region): seq<Region> {
    if r.begin >= r.end then rs else SortAndMerge(UnmapRange(rs, r.begin, r.end) + [r])
  }

  /** Bit 2, `MREMAP_DONTUNMAP`. */
  predicate DontUnmap(flags: u64) {
    flags / 4 % 2 == 1
  }

  function ClippedPieces(rs: seq<Region>, begin: u64, end: u64): seq<Region> {
    if rs == [] then []
    else (if Overlaps(rs[0], begin, end) then [ClipRegion(rs[0], begin, end)] else [])
         + ClippedPieces(rs[1..], begin, end)
  }

  /** A clipped piece moved to the new range, or nothing when it starts beyond the new size. */
  function MovedPiece(p: Region, oldBegin: u64, newBegin: u64, newSize: u64): (m: Option<Region>)
    requires oldBegin <= p.begin
  {
    var relative := p.begin - oldBegin;
    if relative >= newSize then None
    else
      var begin := CheckedEnd(newBegin, relative);
      Some(p.(begin := begin, end := CheckedEnd(begin, Min(Sub64(p.end, p.begin), newSize - relative))))
  }

  ghost predicate PiecesWithin(ps: seq<Region>, begin: int) {
    forall i :: 0 <= i < |ps| ==> begin <= ps[i].begin
  }

  lemma {:induction false} ClippedWithin(rs: seq<Region>, begin: u64, end: u64)
    ensures PiecesWithin(ClippedPieces(rs, begin, end), begin)
  {
    if rs != [] {
      ClippedWithin(rs[1..], begin, end);
    }
  }

  function MovePiece(rs: seq<Region>, p: Region, oldBegin: u64, newBegin: u64, newSize: u64): seq<Region>
    requires oldBegin <= p.begin
  {
    var moved := MovedPiece(p, oldBegin, newBegin, newSize);
    if moved.None? then rs else MapRegion(rs, moved.value)
  }

  function MovePieces(rs: seq<Region>, ps: seq<Region>, oldBegin: u64, newBegin: u64, newSize: u64): seq<Region>
    requires PiecesWithin(ps, oldBegin)
    decreases |ps|
  {
    if ps == [] then rs
    else
      MovePieces(MovePiece(rs, ps[0], oldBegin, newBegin, newSize), ps[1..], oldBegin, newBegin, newSize)
  }

  function RemapRange(rs: seq<Region>, oldBegin: u64, oldSize: u64, newBegin: u64, newSize: u64, flags: u64)
    : seq<Region>
  {
    var oldEnd := CheckedEnd(oldBegin, oldSize);
    var base := if DontUnmap(flags) then rs else UnmapRange(rs, oldBegin, oldEnd);
    ClippedWithin(rs, oldBegin, oldEnd);
    MovePieces(base, ClippedPieces(rs, oldBegin, oldEnd), oldBegin, newBegin, newSize)
  }

  /** Index of the first heap region in list order, or the length of the list. */
  function FirstHeap(rs: seq<Region>): (i: nat)
    ensures i <= |rs|
    ensures i < |rs| ==> rs[i].kind == Heap
    ensures forall j :: 0 <= j < i ==> rs[j].kind != Heap
  {
    if rs == [] || rs[0].kind == Heap then 0 else 1 + FirstHeap(rs[1..])
  }

  function NewHeap(begin: u64, end: u64): Region {
    Region(begin, end, Perms(true, true, false, false), Heap, NO_SOURCE, 0, 0, 0, "[heap]", "inferred", NO_PROBE)
  }

  function ApplyBrk(v: Vma, newBrk: u64): Vma {
    var i := FirstHeap(v.regions);
    if newBrk == 0 then v
    else if i < |v.regions| then
      var heap := v.regions[i];
      var grown := if newBrk > heap.begin then v.regions[i := heap.(end := newBrk)] else v.regions;
      v.(regions := SortAndMerge(grown))
    else if v.heapBase == 0 then v.(heapBase := newBrk)
    else if newBrk > v.heapBase then v.(regions := MapRegion(v.regions, NewHeap(v.heapBase, newBrk)))
    else v
  }

  function MmapRegion(e: MapEvent): Region {
    var tag := if e.source.path == "" && e.fd < 0 then "[anon]" else e.source.path;
    var r := Region(e.address, CheckedEnd(e.address, e.length), e.perms, Unknown, e.source,
                    0, 0, 0, tag, "event", NO_PROBE);
    r.(kind := ClassifyRegion(r))
  }

  /** `static_cast<uint64_t>` of a signed result. */
  function ToU64(x: i64): u64 {
    x % TWO64
  }

  function Apply(v: Vma, e: MapEvent): Vma {
    var v := v.(timestampNs := e.timestampNs);
    if !e.success && e.eventType != ProcSeed then v
    else match e.eventType
      case Mmap => v.(regions := MapRegion(v.regions, MmapRegion(e)))
      case Munmap => v.(regions := UnmapRange(v.regions, e.address, CheckedEnd(e.address, e.length)))
      case Mprotect => v.(regions := ProtectRange(v.regions, e.address, CheckedEnd(e.address, e.length), e.perms))
      case Brk => ApplyBrk(v, ToU64(e.result))
      case Mremap => v.(regions := RemapRange(v.regions, e.address, e.length, e.newAddress, e.newLength, e.flags))
      case Exec => v.(regions := [], heapBase := 0)
      case ProcSeed => v
  }

  function Seeded(seed: Snapshot): Vma {
    var i := FirstHeap(seed.regions);
    Vma(seed.pid, seed.timestampNs, SortAndMerge(seed.regions), if i < |seed.regions| then seed.regions[i].begin else 0)
  }

  /**
   What the tracer feeds the model: an event, or the exec event followed by a model seeded anew from
   what `/proc` shows by then, if it could be read.
   */
  datatype TraceStep = Observed(event: MapEvent) | Reseeded(event: MapEvent, reread: Option<Snapshot>)

  function TakeStep(v: Vma, step: TraceStep): Vma {
    match step
    case Observed(e) => Apply(v, e)
    case Reseeded(e, reread) => if reread.Some? then Seeded(reread.value) else Apply(v, e)
  }

  /** The state after the first to last step of a trace. */
  function Run(seed: Snapshot, steps: seq<TraceStep>): Vma
    decreases |steps|
  {
    if steps == [] then Seeded(seed)
    else TakeStep(Run(seed, steps[..|steps| - 1]), steps[|steps| - 1])
  }
}
