/**
 What splitting, clipping, moving and joining do to the fields that identity leaves out: the file
 position of every address, the page counts, and the rest.
 */
module VmaPieces {
  import opened Machine
  import opened Regions
  import opened VmaFunctions

  /** The byte of the file behind an address, modulo 2^64. */
  function FilePosition(r: Region, a: int): int {
    (r.source.offset + a - r.begin) % TWO64
  }

  predicate HasFile(r: Region) {
    r.source.path != "" || r.source.inode != 0 || r.source.device != 0
  }

  /** Every address has the same byte of the file behind it in both regions. */
  ghost predicate SamePositions(p: Region, r: Region) {
    forall a: int :: FilePosition(p, a) == FilePosition(r, a)
  }

  /** Nothing but the range differs. */
  predicate SameButRange(p: Region, r: Region) {
    p.(begin := r.begin, end := r.end) == r
  }

  lemma Wraps(x: int, d: int)
    requires -TWO64 < d < TWO64
    ensures (x + d) % TWO64 == x % TWO64 <==> d == 0
  {
  }

  /** With the offset unchanged, positions stay right only if the region begins where it did. */
  lemma MovedBegin(p: Region, r: Region)
    requires p.source.offset == r.source.offset
    ensures SamePositions(p, r) <==> p.begin == r.begin
  {
    if p.begin != r.begin {
      Wraps(r.source.offset, p.begin - r.begin);
      assert FilePosition(p, p.begin) != FilePosition(r, p.begin);
    }
  }

  /** Clipping keeps the positions of a file, and touches no offset where there is none. */
  lemma ClipKeepsPositions(r: Region, begin: u64, end: u64)
    ensures var c := ClipRegion(r, begin, end);
            && (forall a: int :: Contains(c, a) <==> Contains(r, a) && begin <= a < end)
            && (if HasFile(r) then SamePositions(c, r) else c.source == r.source)
            && SameButRange(c.(source := r.source), r) && c.source.(offset := r.source.offset) == r.source
  {
    var c := ClipRegion(r, begin, end);
    var d := c.begin - r.begin;
    forall a: int ensures HasFile(r) ==> FilePosition(c, a) == FilePosition(r, a) {
      AddThenTake(r.source.offset, d, a - r.begin);
    }
  }

  lemma AddThenTake(x: u64, d: u64, y: int)
    ensures (Add64(x, d) + (y - d)) % TWO64 == (x + y) % TWO64
  {
    var z := Add64(x, d) + (y - d);
    assert z == x + y || z == x + y - TWO64;
    if z != x + y {
      assert (z + TWO64) % TWO64 == z % TWO64;
    }
  }

  /**
   Unmapping copies a region into its pieces, page counts and offset included: the positions of the
   piece above the hole, and only those, go wrong.
   */
  lemma UnmapCopies(r: Region, begin: u64, end: u64, p: Region)
    requires p in UnmapPieces(r, begin, end)
    ensures SameButRange(p, r) && (SamePositions(p, r) <==> p.begin == r.begin)
  {
    MovedBegin(p, r);
  }

  /** Protecting does the same; the piece inside the range gets the permissions and its provenance. */
  lemma ProtectCopies(r: Region, begin: u64, end: u64, perms: Perms, p: Region)
    requires begin < end && r.begin < r.end && p in ProtectPieces(r, begin, end, perms)
    ensures if begin < p.end && p.begin < end
            then SameButRange(p.(perms := r.perms, provenance := r.provenance), r)
                 && p.perms == perms && p.provenance == "event"
            else SameButRange(p, r)
    ensures SamePositions(p, r) <==> p.begin == r.begin
  {
    MovedBegin(p, r);
  }

  /** A moved piece is the clipped piece at another place: position and counts come along. */
  lemma MoveCopies(p: Region, oldBegin: u64, newBegin: u64, newSize: u64)
    requires oldBegin <= p.begin
    ensures var m := MovedPiece(p, oldBegin, newBegin, newSize); m.Some? ==> SameButRange(m.value, p)
  {
  }

  /** Joining keeps the file position and all else of the left region, and adds the page counts. */
  lemma JoinAddsCounts(l: Region, r: Region)
    requires l.end == r.begin
    ensures var j := Join(l, r);
            && j.begin == l.begin && j.end == r.end && SamePositions(j, l)
            && j.rssKb == (l.rssKb + r.rssKb) % TWO64 && j.pssKb == (l.pssKb + r.pssKb) % TWO64
            && j.privateDirtyKb == (l.privateDirtyKb + r.privateDirtyKb) % TWO64
            && SameButRange(j.(rssKb := l.rssKb, pssKb := l.pssKb, privateDirtyKb := l.privateDirtyKb), l)
  {
  }

  /** The snapshot carries the time of the last step, applied or not, and the process it was seeded for. */
  lemma StepTime(v: Vma, step: TraceStep)
    ensures var after := TakeStep(v, step);
            if step.Reseeded? && step.reread.Some?
            then after.timestampNs == step.reread.value.timestampNs && after.pid == step.reread.value.pid
            else after.timestampNs == step.event.timestampNs && after.pid == v.pid
  {
  }
}
