/** The VMA model as the program runs it: one mutable region list, rewritten event by event. */
module VmaModels {
  import opened Machine
  import opened Regions
  import opened VmaFunctions
  import opened VmaRefinement
  import Sorting

  lemma UnmapStep(rs: seq<Region>, i: nat, next: seq<Region>, begin: u64, end: u64)
    requires i < |rs|
    ensures next + UnmapAll(rs[i..], begin, end)
            == (next + UnmapPieces(rs[i], begin, end)) + UnmapAll(rs[i + 1..], begin, end)
  {
    assert rs[i..][1..] == rs[i + 1..];
  }

  lemma ProtectStep(rs: seq<Region>, i: nat, next: seq<Region>, begin: u64, end: u64, perms: Perms)
    requires i < |rs|
    ensures next + ProtectAll(rs[i..], begin, end, perms)
            == (next + ProtectPieces(rs[i], begin, end, perms)) + ProtectAll(rs[i + 1..], begin, end, perms)
  {
    assert rs[i..][1..] == rs[i + 1..];
  }

  lemma ProtectPiecesSplit(left: seq<Region>, before: seq<Region>, r: Region, begin: u64, end: u64, perms: Perms)
    requires Overlaps(r, begin, end)
    requires left == before + (if r.begin < begin then [r.(end := begin)] else [])
    ensures before + ProtectPieces(r, begin, end, perms) ==
            left + [r.(begin := Max(r.begin, begin), end := Min(r.end, end), perms := perms, provenance := "event")]
            + (if end < r.end then [r.(begin := end)] else [])
  {
  }

  class VmaModel {
    const pid: i32
    var timestampNs: u64
    var regions: seq<Region>
    var heapBase: u64

    ghost function State(): Vma
      reads this
    {
      Vma(pid, timestampNs, regions, heapBase)
    }

    constructor (seed: Snapshot)
      ensures State() == Seeded(seed)
    {
      pid, timestampNs, regions, heapBase := seed.pid, seed.timestampNs, seed.regions, 0;
      new;
      var i := FindHeap();
      if i < |regions| {
        heapBase := regions[i].begin;
      }
      SortAndMergeRegions();
    }

    method FindHeap() returns (i: nat)
      ensures i == FirstHeap(regions)
    {
      i := 0;
      while i < |regions| && regions[i].kind != Heap
        invariant i <= |regions|
        invariant FirstHeap(regions) == i + FirstHeap(regions[i..])
      {
        assert regions[i..][1..] == regions[i + 1..];
        i := i + 1;
      }
    }

    method ApplyEvent(e: MapEvent)
      modifies this
      ensures State() == Apply(old(State()), e)
    {
      timestampNs := e.timestampNs;
      if !e.success && e.eventType != ProcSeed {
        return;
      }
      match e.eventType
      case Mmap =>
        Map(MmapRegion(e));
      case Munmap =>
        Unmap(e.address, CheckedEnd(e.address, e.length));
      case Mprotect =>
        Protect(e.address, CheckedEnd(e.address, e.length), e.perms);
      case Brk =>
        MoveBrk(ToU64(e.result));
      case Mremap =>
        Remap(e.address, e.length, e.newAddress, e.newLength, e.flags);
      case Exec =>
        regions, heapBase := [], 0;
      case ProcSeed =>
    }

    method Map(r: Region)
      modifies this`regions
      ensures regions == MapRegion(old(regions), r)
    {
      if r.begin >= r.end {
        return;
      }
      Unmap(r.begin, r.end);
      regions := regions + [r];
      SortAndMergeRegions();
    }

    method Unmap(begin: u64, end: u64)
      modifies this`regions
      ensures regions == UnmapRange(old(regions), begin, end)
    {
      if begin >= end {
        return;
      }
      var rs, next: seq<Region> := regions, [];
      for i := 0 to |rs|
        invariant next + UnmapAll(rs[i..], begin, end) == UnmapAll(rs, begin, end)
      {
        var r := rs[i];
        ghost var before := next;
        UnmapStep(rs, i, next, begin, end);
        if !Overlaps(r, begin, end) {
          next := next + [r];
        } else {
          if r.begin < begin {
            next := next + [r.(end := begin)];
          }
          if end < r.end {
            next := next + [r.(begin := end)];
          }
        }
        assert next == before + UnmapPieces(r, begin, end);
      }
      assert next + UnmapAll(rs[|rs|..], begin, end) == next;
      regions := next;
      SortAndMergeRegions();
    }

    method Protect(begin: u64, end: u64, perms: Perms)
      modifies this`regions
      ensures regions == ProtectRange(old(regions), begin, end, perms)
    {
      if begin >= end {
        return;
      }
      var rs, next: seq<Region> := regions, [];
      for i := 0 to |rs|
        invariant next + ProtectAll(rs[i..], begin, end, perms) == ProtectAll(rs, begin, end, perms)
      {
        var r := rs[i];
        ghost var before := next;
        ProtectStep(rs, i, next, begin, end, perms);
        if !Overlaps(r, begin, end) {
          next := next + [r];
        } else {
          if r.begin < begin {
            next := next + [r.(end := begin)];
          }
          ghost var left := next;
          next := next + [r.(begin := Max(r.begin, begin), end := Min(r.end, end),
                             perms := perms, provenance := "event")];
          if end < r.end {
            next := next + [r.(begin := end)];
          }
          assert left == before + (if r.begin < begin then [r.(end := begin)] else []);
          ProtectPiecesSplit(left, before, r, begin, end, perms);
        }
        assert next == before + ProtectPieces(r, begin, end, perms);
      }
      assert next + ProtectAll(rs[|rs|..], begin, end, perms) == next;
      regions := next;
      SortAndMergeRegions();
    }

    /** The clipped copies `Remap` takes before it unmaps anything. */
    method CopyPieces(oldBegin: u64, oldEnd: u64) returns (pieces: seq<Region>)
      ensures pieces == ClippedPieces(regions, oldBegin, oldEnd)
      ensures PiecesWithin(pieces, oldBegin)
    {
      pieces := [];
      for i := 0 to |regions|
        invariant pieces + ClippedPieces(regions[i..], oldBegin, oldEnd) == ClippedPieces(regions, oldBegin, oldEnd)
      {
        assert regions[i..][1..] == regions[i + 1..];
        if Overlaps(regions[i], oldBegin, oldEnd) {
          pieces := pieces + [ClipRegion(regions[i], oldBegin, oldEnd)];
        }
      }
      assert pieces + ClippedPieces(regions[|regions|..], oldBegin, oldEnd) == pieces;
      ClippedWithin(regions, oldBegin, oldEnd);
    }

    method MapMoved(p: Region, oldBegin: u64, newBegin: u64, newSize: u64)
      requires oldBegin <= p.begin
      modifies this`regions
      ensures regions == MovePiece(old(regions), p, oldBegin, newBegin, newSize)
    {
      var piece := p;
      var relative := piece.begin - oldBegin;
      if relative >= newSize {
        return;
      }
      var size := Min(Sub64(piece.end, piece.begin), newSize - relative);
      piece := piece.(begin := CheckedEnd(newBegin, relative));
      piece := piece.(end := CheckedEnd(piece.begin, size));
      Map(piece);
    }

    method Remap(oldBegin: u64, oldSize: u64, newBegin: u64, newSize: u64, flags: u64)
      modifies this`regions
      ensures regions == RemapRange(old(regions), oldBegin, oldSize, newBegin, newSize, flags)
    {
      var oldEnd := CheckedEnd(oldBegin, oldSize);
      var pieces := CopyPieces(oldBegin, oldEnd);
      if !DontUnmap(flags) {
        Unmap(oldBegin, oldEnd);
      }
      ghost var base := regions;
      for i := 0 to |pieces|
        invariant PiecesWithin(pieces[i..], oldBegin)
        invariant MovePieces(regions, pieces[i..], oldBegin, newBegin, newSize)
                  == MovePieces(base, pieces, oldBegin, newBegin, newSize)
      {
        ghost var rest := pieces[i..];
        assert rest[0] == pieces[i] && rest[1..] == pieces[i + 1..];
        MapMoved(pieces[i], oldBegin, newBegin, newSize);
      }
      assert pieces[|pieces|..] == [];
    }

    method MoveBrk(newBrk: u64)
      modifies this`regions, this`heapBase
      ensures State() == ApplyBrk(old(State()), newBrk)
    {
      if newBrk == 0 {
        return;
      }
      var i := FindHeap();
      if i < |regions| {
        if newBrk > regions[i].begin {
          regions := regions[i := regions[i].(end := newBrk)];
        }
        SortAndMergeRegions();
      } else if heapBase == 0 {
        heapBase := newBrk;
      } else if newBrk > heapBase {
        Map(NewHeap(heapBase, newBrk));
      }
    }

    method SortAndMergeRegions()
      modifies this`regions
      ensures regions == SortAndMerge(old(regions))
    {
      var rs := Sorting.InsertSort(BeginLess(), regions);
      regions := MergeTouching(rs);
    }

    static method MergeTouching(rs: seq<Region>) returns (merged: seq<Region>)
      ensures merged == MergeInto([], rs)
    {
      merged := [];
      for i := 0 to |rs|
        invariant MergeInto(merged, rs[i..]) == MergeInto([], rs)
      {
        var r, n := rs[i], |merged|;
        ghost var before, rest := merged, rs[i..];
        assert rest[0] == r && rest[1..] == rs[i + 1..];
        if n > 0 && merged[n - 1].end == r.begin && SameMappingIdentity(merged[n - 1], r) {
          var back := merged[n - 1];
          back := back.(end := r.end);
          back := back.(rssKb := Add64(back.rssKb, r.rssKb));
          back := back.(pssKb := Add64(back.pssKb, r.pssKb));
          back := back.(privateDirtyKb := Add64(back.privateDirtyKb, r.privateDirtyKb));
          merged := merged[n - 1 := back];
        } else {
          merged := merged + [r];
        }
        assert merged == Append(before, r);
      }
      assert rs[|rs|..] == [];
    }
  }

  /**
   The tracer's use of the model: seed it, apply every event in order, replace it by a fresh one
   after an exec, take the snapshot.
   */
  method Reconstruct(seed: Snapshot, steps: seq<TraceStep>) returns (snapshot: Snapshot)
    ensures var v := Run(seed, steps); snapshot == Snapshot(v.pid, v.timestampNs, v.regions)
    ensures SeedsWellFormed(seed, steps) && AlwaysClear(seed, steps) ==>
              Canonical(snapshot.regions) && View(snapshot.regions) == RunSpace(seed, steps).mapping
  {
    var model := new VmaModel(seed);
    for i := 0 to |steps|
      invariant fresh(model) && model.State() == Run(seed, steps[..i])
    {
      assert steps[..i + 1][..i] == steps[..i];
      model.ApplyEvent(steps[i].event);
      if steps[i].Reseeded? && steps[i].reread.Some? {
        model := new VmaModel(steps[i].reread.value);
      }
    }
    assert steps[..|steps|] == steps;
    if SeedsWellFormed(seed, steps) && AlwaysClear(seed, steps) {
      RunRefines(seed, steps);
      assert SpaceOf(Run(seed, steps)).mapping == View(model.regions);
    }
    snapshot := Snapshot(model.pid, model.timestampNs, model.regions);
  }
}
