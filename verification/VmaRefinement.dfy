/**
 The VMA model against a per-address reading of the same events: an address space is a map
 from addresses to identities, and each event says what becomes of every address.
 */
module VmaRefinement {
  import opened Machine
  import opened Regions
  import opened VmaFunctions
  import opened AddressSpaces

  // ---------------------------------------------------------------- per-address semantics

  datatype Space = Space(mapping: AddressMap, heapBase: u64)

  ghost function Overwrite(m: AddressMap, begin: int, end: int, id: Identity): AddressMap {
    imap a: int | a in m || begin <= a < end :: if begin <= a < end then id else m[a]
  }

  ghost function Erase(m: AddressMap, begin: int, end: int): AddressMap {
    imap a: int | a in m && !(begin <= a < end) :: m[a]
  }

  ghost function Reprotect(m: AddressMap, begin: int, end: int, perms: Perms): AddressMap {
    imap a: int | a in m :: if begin <= a < end then Reprotected(m[a], perms) else m[a]
  }

  /** `a` lies in the new range and the address it is translated from was mapped in the old one. */
  ghost predicate Lands(m: AddressMap, oldBegin: int, oldEnd: int, newBegin: int, newSize: int, a: int) {
    && newBegin <= a < Min(newBegin + newSize, U64_MAX)
    && oldBegin <= a - newBegin + oldBegin < oldEnd
    && a - newBegin + oldBegin in m
  }

  /** Every old address that fits appears at its new place; all others keep what `base` gives them. */
  ghost function Translate(m: AddressMap, base: AddressMap, oldBegin: int, oldEnd: int, newBegin: int, newSize: int)
    : AddressMap
  {
    imap a: int | a in base || Lands(m, oldBegin, oldEnd, newBegin, newSize, a) ::
      if Lands(m, oldBegin, oldEnd, newBegin, newSize, a) then m[a - newBegin + oldBegin] else base[a]
  }

  ghost predicate LowestHeap(m: AddressMap, h: int) {
    h in m && m[h].kind == Heap && forall a: int :: a in m && m[a].kind == Heap ==> h <= a
  }

  /** Everything from `h` up to `a` is mapped with the identity found at `h`. */
  ghost predicate SameRun(m: AddressMap, h: int, a: int) {
    h <= a && h in m && forall b: int :: h <= b <= a ==> b in m && m[b] == m[h]
  }

  /** The run starting at `h` now ends at `newBrk`. */
  ghost function ResizeRun(m: AddressMap, h: int, newBrk: int): AddressMap {
    if newBrk <= h || h !in m then m
    else imap a: int | h <= a < newBrk || (a in m && !SameRun(m, h, a)) :: if h <= a < newBrk then m[h] else m[a]
  }

  /** What a heap is taken to be when the seed showed none. */
  const HEAP_IDENTITY := Identity(Heap, Perms(true, true, false, false), 0, 0, "", "[heap]", "inferred")

  ghost function BrkSpace(s: Space, newBrk: u64): Space {
    if newBrk == 0 then s
    else if exists h: int :: LowestHeap(s.mapping, h) then
      var h: int :| LowestHeap(s.mapping, h);
      s.(mapping := ResizeRun(s.mapping, h, newBrk))
    else if s.heapBase == 0 then s.(heapBase := newBrk)
    else s.(mapping := Overwrite(s.mapping, s.heapBase, newBrk, HEAP_IDENTITY))
  }

  /** The end of a range, which never wraps around. */
  function RangeEnd(begin: u64, length: u64): u64 {
    Min(begin + length, U64_MAX)
  }

  /** The flags of mremap, bit by bit: MAYMOVE, FIXED, DONTUNMAP, and what lies above them. */
  predicate FlagBits(flags: int, mayMove: nat, fixed: nat, dontUnmap: nat, above: nat) {
    && mayMove <= 1 && fixed <= 1 && dontUnmap <= 1
    && flags == mayMove + 2 * fixed + 4 * dontUnmap + 8 * above
  }

  ghost predicate KeepsOld(flags: u64) {
    exists mayMove, fixed, above :: FlagBits(flags, mayMove, fixed, 1, above)
  }

  /** The result of brk as the unsigned address it stands for. */
  function NewBreak(result: i64): u64 {
    if result < 0 then result + TWO64 else result
  }

  predicate LibraryAt(path: string, i: int) {
    0 <= i <= |path| - 3 && path[i..i + 3] == ".so"
  }

  /** What a new mapping of a path is for; an empty path is no file. */
  ghost function MappedKind(path: string, exec: bool, offset: u64): Kind {
    if path == "" then Anonymous
    else if path == "[heap]" then Heap
    else if path == "[stack]" then Stack
    else if "[stack:" <= path then ThreadStack
    else if path == "[vdso]" then Vdso
    else if path == "[vvar]" then Vvar
    else if path == "[vsyscall]" then Vsyscall
    else if exec && offset == 0 then Text
    else if "/lib" <= path || "/usr/lib" <= path
            || exists i :: LibraryAt(path, i) then SharedLibrary
    else FileMapping
  }

  /** The identity of the addresses an mmap event maps. */
  ghost function MappedIdentity(e: MapEvent): Identity {
    var file := e.source;
    Identity(MappedKind(file.path, e.perms.exec, file.offset), e.perms, file.inode, file.device, file.path,
             if file.path == "" && e.fd < 0 then "[anon]" else file.path, "event")
  }

  /** What an event does to an address space. Failed events do nothing. */
  ghost function EventSpace(s: Space, e: MapEvent): Space {
    var m, end := s.mapping, RangeEnd(e.address, e.length);
    if !e.success then s
    else match e.eventType
      case Mmap => s.(mapping := Overwrite(m, e.address, end, MappedIdentity(e)))
      case Munmap => s.(mapping := Erase(m, e.address, end))
      case Mprotect => s.(mapping := Reprotect(m, e.address, end, e.perms))
      case Brk => BrkSpace(s, NewBreak(e.result))
      case Mremap =>
        var base := if KeepsOld(e.flags) then m else Erase(m, e.address, end);
        s.(mapping := Translate(m, base, e.address, end, e.newAddress, e.newLength))
      case Exec => Space(imap[], 0)
      case ProcSeed => s
  }

  /** Where the first heap region of a list begins, in the order listed; 0 if there is none. */
  function HeapStart(rs: seq<Region>): u64 {
    if rs == [] then 0 else if rs[0].kind == Heap then rs[0].begin else HeapStart(rs[1..])
  }

  /** The address space a snapshot describes. */
  ghost function SeedSpace(seed: Snapshot): Space {
    Space(View(seed.regions), HeapStart(seed.regions))
  }

  ghost function StepSpace(s: Space, step: TraceStep): Space {
    match step
    case Observed(e) => EventSpace(s, e)
    case Reseeded(e, reread) => if reread.Some? then SeedSpace(reread.value) else EventSpace(s, e)
  }

  ghost function RunSpace(seed: Snapshot, steps: seq<TraceStep>): Space
    decreases |steps|
  {
    if steps == [] then SeedSpace(seed) else StepSpace(RunSpace(seed, steps[..|steps| - 1]), steps[|steps| - 1])
  }

  ghost function SpaceOf(v: Vma): Space {
    Space(View(v.regions), v.heapBase)
  }

  // ---------------------------------------------------------------- range operations

  lemma MapRefines(rs: seq<Region>, r: Region)
    requires Canonical(rs)
    ensures Canonical(MapRegion(rs, r))
    ensures View(MapRegion(rs, r)) == Overwrite(View(rs), r.begin, r.end, IdentityOf(r))
  {
    MapRegionAt(rs, r);
    ViewIs(MapRegion(rs, r), Overwrite(View(rs), r.begin, r.end, IdentityOf(r)));
  }

  lemma UnmapRefines(rs: seq<Region>, begin: u64, end: u64)
    requires Canonical(rs)
    ensures Canonical(UnmapRange(rs, begin, end))
    ensures View(UnmapRange(rs, begin, end)) == Erase(View(rs), begin, end)
  {
    UnmapRangeAt(rs, begin, end);
    ViewIs(UnmapRange(rs, begin, end), Erase(View(rs), begin, end));
  }

  lemma ProtectRefines(rs: seq<Region>, begin: u64, end: u64, perms: Perms)
    requires Canonical(rs)
    ensures Canonical(ProtectRange(rs, begin, end, perms))
    ensures View(ProtectRange(rs, begin, end, perms)) == Reprotect(View(rs), begin, end, perms)
  {
    ProtectRangeAt(rs, begin, end, perms);
    ViewIs(ProtectRange(rs, begin, end, perms), Reprotect(View(rs), begin, end, perms));
  }

  // ---------------------------------------------------------------- mremap

  /** Pieces in ascending order; a zero-length old range gives empty ones. */
  ghost predicate Ascending(ps: seq<Region>) {
    && (forall i :: 0 <= i < |ps| ==> ps[i].begin <= ps[i].end)
    && (forall i, j :: 0 <= i < j < |ps| ==> ps[i].end <= ps[j].begin)
  }

  lemma {:induction false} ClippedAt(rs: seq<Region>, begin: u64, end: u64, a: int)
    requires begin <= end
    ensures At(ClippedPieces(rs, begin, end), a) == if begin <= a < end then At(rs, a) else None
  {
    if rs != [] {
      ClippedAt(rs[1..], begin, end, a);
      if Overlaps(rs[0], begin, end) {
        AtCons(ClipRegion(rs[0], begin, end), ClippedPieces(rs[1..], begin, end), a);
      } else {
        assert ClippedPieces(rs, begin, end) == ClippedPieces(rs[1..], begin, end);
      }
    }
  }

  lemma {:induction false} ClippedAscending(rs: seq<Region>, begin: u64, end: u64)
    requires Ordered(rs) && begin <= end
    ensures Ascending(ClippedPieces(rs, begin, end))
    ensures forall i :: 0 <= i < |ClippedPieces(rs, begin, end)| ==>
              rs != [] && rs[0].begin <= ClippedPieces(rs, begin, end)[i].begin
  {
    if rs != [] {
      TailOrdered(rs);
      ClippedAscending(rs[1..], begin, end);
      if |rs| > 1 { assert rs[0].end <= rs[1].begin; }
    }
  }

  /** Where the address `a` of the new range comes from. */
  ghost predicate FromPiece(p: Region, oldBegin: int, newBegin: int, newSize: int, a: int) {
    newBegin <= a < Min(newBegin + newSize, U64_MAX) && Contains(p, a - newBegin + oldBegin)
  }

  ghost predicate Translated(rs: seq<Region>, base: seq<Region>, after: seq<Region>,
                             oldBegin: int, oldEnd: int, newBegin: int, newSize: int)
  {
    forall a: int {:trigger At(after, a)} :: At(after, a) == TranslatedAt(rs, base, oldBegin, oldEnd, newBegin, newSize, a)
  }

  ghost function TranslatedAt(rs: seq<Region>, base: seq<Region>, oldBegin: int, oldEnd: int, newBegin: int,
                              newSize: int, a: int): Option<Identity>
  {
    var from := a - newBegin + oldBegin;
    if newBegin <= a < Min(newBegin + newSize, U64_MAX) && from < oldEnd && At(rs, from).Some?
    then At(rs, from) else At(base, a)
  }

  /** The addresses a piece covers at its new place; none when it lies beyond the new size. */
  lemma MovedPieceIs(p: Region, oldBegin: u64, newBegin: u64, newSize: u64)
    requires oldBegin <= p.begin <= p.end
    ensures match MovedPiece(p, oldBegin, newBegin, newSize)
            case Some(m) =>
              && IdentityOf(m) == IdentityOf(p)
              && forall a: int :: Contains(m, a) <==> FromPiece(p, oldBegin, newBegin, newSize, a)
            case None => forall a: int :: !FromPiece(p, oldBegin, newBegin, newSize, a)
  {
  }

  lemma MovePieceAt(rs: seq<Region>, p: Region, oldBegin: u64, newBegin: u64, newSize: u64)
    requires Canonical(rs) && oldBegin <= p.begin <= p.end
    ensures Canonical(MovePiece(rs, p, oldBegin, newBegin, newSize))
    ensures forall a: int {:trigger At(MovePiece(rs, p, oldBegin, newBegin, newSize), a)} ::
              At(MovePiece(rs, p, oldBegin, newBegin, newSize), a) ==
              if FromPiece(p, oldBegin, newBegin, newSize, a) then Some(IdentityOf(p)) else At(rs, a)
  {
    var moved := MovedPiece(p, oldBegin, newBegin, newSize);
    MovedPieceIs(p, oldBegin, newBegin, newSize);
    if moved.Some? {
      MapRegionAt(rs, moved.value);
    }
  }

  lemma AscendingRest(ps: seq<Region>, a: int)
    requires Ascending(ps) && ps != [] && Contains(ps[0], a)
    ensures At(ps[1..], a).None?
  {
    AtMember(ps[1..], a);
    assert forall i :: 0 <= i < |ps[1..]| ==> ps[1..][i] == ps[i + 1];
  }

  lemma ComposeMoves(ps: seq<Region>, rs: seq<Region>, next: seq<Region>, after: seq<Region>,
                     oldBegin: u64, newBegin: u64, newSize: u64, a: int)
    requires ps != [] && Ascending(ps)
    requires At(next, a) == if FromPiece(ps[0], oldBegin, newBegin, newSize, a) then Some(IdentityOf(ps[0])) else At(rs, a)
    requires At(after, a) == TranslatedAt(ps[1..], next, oldBegin, TWO64, newBegin, newSize, a)
    ensures At(after, a) == TranslatedAt(ps, rs, oldBegin, TWO64, newBegin, newSize, a)
  {
    var from := a - newBegin + oldBegin;
    BelowMax(ps, from);
    if Contains(ps[0], from) {
      AscendingRest(ps, from);
    }
  }

  lemma {:induction false} MovePiecesAt(rs: seq<Region>, ps: seq<Region>, oldBegin: u64, newBegin: u64, newSize: u64)
    requires Canonical(rs) && PiecesWithin(ps, oldBegin) && Ascending(ps)
    ensures Canonical(MovePieces(rs, ps, oldBegin, newBegin, newSize))
    ensures Translated(ps, rs, MovePieces(rs, ps, oldBegin, newBegin, newSize), oldBegin, TWO64, newBegin, newSize)
    decreases |ps|
  {
    if ps != [] {
      var next, rest := MovePiece(rs, ps[0], oldBegin, newBegin, newSize), ps[1..];
      assert forall i :: 0 <= i < |rest| ==> rest[i] == ps[i + 1];
      MovePieceAt(rs, ps[0], oldBegin, newBegin, newSize);
      MovePiecesAt(next, rest, oldBegin, newBegin, newSize);
      var after := MovePieces(next, rest, oldBegin, newBegin, newSize);
      forall a: int ensures At(after, a) == TranslatedAt(ps, rs, oldBegin, TWO64, newBegin, newSize, a) {
        ComposeMoves(ps, rs, next, after, oldBegin, newBegin, newSize, a);
      }
    }
  }

  lemma BitsUnique(flags: int, mayMove: nat, fixed: nat, dontUnmap: nat, above: nat)
    requires FlagBits(flags, mayMove, fixed, dontUnmap, above)
    ensures above == flags / 8 && dontUnmap == flags / 4 % 2
  {
  }

  /** The mask test of the program reads that bit. */
  lemma DontUnmapBit(flags: u64)
    ensures DontUnmap(flags) <==> KeepsOld(flags)
  {
    assert FlagBits(flags, flags % 2, flags / 2 % 2, flags / 4 % 2, flags / 8);
    if mayMove, fixed, above :| FlagBits(flags, mayMove, fixed, 1, above) {
      BitsUnique(flags, mayMove, fixed, 1, above);
    }
  }

  lemma RemapAt(rs: seq<Region>, oldBegin: u64, oldSize: u64, newBegin: u64, newSize: u64, flags: u64)
    requires Canonical(rs)
    ensures var after := RemapRange(rs, oldBegin, oldSize, newBegin, newSize, flags);
            var oldEnd := RangeEnd(oldBegin, oldSize);
            var base := if KeepsOld(flags) then rs else UnmapRange(rs, oldBegin, oldEnd);
            Canonical(after) && Translated(rs, base, after, oldBegin, oldEnd, newBegin, newSize)
  {
    DontUnmapBit(flags);
    var oldEnd := CheckedEnd(oldBegin, oldSize);
    var base := if DontUnmap(flags) then rs else UnmapRange(rs, oldBegin, oldEnd);
    var ps := ClippedPieces(rs, oldBegin, oldEnd);
    ClippedWithin(rs, oldBegin, oldEnd);
    ClippedAscending(rs, oldBegin, oldEnd);
    UnmapRangeAt(rs, oldBegin, oldEnd);
    MovePiecesAt(base, ps, oldBegin, newBegin, newSize);
    forall a: int ensures At(ps, a) == if oldBegin <= a < oldEnd then At(rs, a) else None {
      ClippedAt(rs, oldBegin, oldEnd, a);
    }
    FromWindow(rs, ps, base, MovePieces(base, ps, oldBegin, newBegin, newSize), oldBegin, oldEnd, newBegin, newSize);
  }

  /** Translating the clipped pieces is translating what the window shows of the regions. */
  lemma FromWindow(rs: seq<Region>, ps: seq<Region>, base: seq<Region>, after: seq<Region>,
                   oldBegin: int, oldEnd: int, newBegin: int, newSize: int)
    requires forall a: int {:trigger At(ps, a)} :: At(ps, a) == if oldBegin <= a < oldEnd then At(rs, a) else None
    requires oldEnd <= U64_MAX && Translated(ps, base, after, oldBegin, TWO64, newBegin, newSize)
    ensures Translated(rs, base, after, oldBegin, oldEnd, newBegin, newSize)
  {
    forall a: int ensures At(after, a) == TranslatedAt(rs, base, oldBegin, oldEnd, newBegin, newSize, a) {
      assert At(after, a) == TranslatedAt(ps, base, oldBegin, TWO64, newBegin, newSize, a);
    }
  }

  /**
   The pieces are copied before anything is unmapped and their targets are disjoint, so an
   mremap translates the old range whatever the overlap of the two ranges.
   */
  lemma RemapRefines(rs: seq<Region>, oldBegin: u64, oldSize: u64, newBegin: u64, newSize: u64, flags: u64)
    requires Canonical(rs)
    ensures var after, m, oldEnd :=
              RemapRange(rs, oldBegin, oldSize, newBegin, newSize, flags), View(rs), RangeEnd(oldBegin, oldSize);
            var base := if KeepsOld(flags) then m else Erase(m, oldBegin, oldEnd);
            Canonical(after) && View(after) == Translate(m, base, oldBegin, oldEnd, newBegin, newSize)
  {
    var oldEnd := RangeEnd(oldBegin, oldSize);
    var base := if KeepsOld(flags) then rs else UnmapRange(rs, oldBegin, oldEnd);
    var m, after := View(rs), RemapRange(rs, oldBegin, oldSize, newBegin, newSize, flags);
    RemapAt(rs, oldBegin, oldSize, newBegin, newSize, flags);
    UnmapRefines(rs, oldBegin, oldEnd);
    TranslatedView(rs, base, after, oldBegin, oldEnd, newBegin, newSize);
  }

  /** An old address outside the new range stays mapped if and only if DONTUNMAP is set, whatever the other flags. */
  lemma OldRangeAfterRemap(rs: seq<Region>, oldBegin: u64, oldSize: u64, newBegin: u64, newSize: u64, flags: u64,
                           mayMove: nat, fixed: nat, dontUnmap: nat, above: nat, a: int)
    requires Canonical(rs) && FlagBits(flags, mayMove, fixed, dontUnmap, above)
    requires oldBegin <= a < Min(oldBegin + oldSize, U64_MAX) && !(newBegin <= a < newBegin + newSize)
    ensures At(RemapRange(rs, oldBegin, oldSize, newBegin, newSize, flags), a)
            == if dontUnmap == 1 then At(rs, a) else None
  {
    RemapAt(rs, oldBegin, oldSize, newBegin, newSize, flags);
    UnmapRangeAt(rs, oldBegin, RangeEnd(oldBegin, oldSize));
    BitsUnique(flags, mayMove, fixed, dontUnmap, above);
    if ordinary, placed, rest :| FlagBits(flags, ordinary, placed, 1, rest) {
      BitsUnique(flags, ordinary, placed, 1, rest);
    }
  }

  lemma TranslatedView(rs: seq<Region>, base: seq<Region>, after: seq<Region>,
                       oldBegin: int, oldEnd: int, newBegin: int, newSize: int)
    requires Translated(rs, base, after, oldBegin, oldEnd, newBegin, newSize)
    ensures View(after) == Translate(View(rs), View(base), oldBegin, oldEnd, newBegin, newSize)
  {
    var want := Translate(View(rs), View(base), oldBegin, oldEnd, newBegin, newSize);
    forall a: int ensures At(after, a) == Get(want, a) {
      assert At(after, a) == TranslatedAt(rs, base, oldBegin, oldEnd, newBegin, newSize, a);
      TranslatedGet(rs, base, oldBegin, oldEnd, newBegin, newSize, a);
    }
    ViewIs(after, want);
  }

  lemma TranslatedGet(rs: seq<Region>, base: seq<Region>, oldBegin: int, oldEnd: int, newBegin: int, newSize: int, a: int)
    ensures Get(Translate(View(rs), View(base), oldBegin, oldEnd, newBegin, newSize), a)
            == TranslatedAt(rs, base, oldBegin, oldEnd, newBegin, newSize, a)
  {
    var from := a - newBegin + oldBegin;
    assert from in View(rs) <==> At(rs, from).Some?;
    assert a in View(base) <==> At(base, a).Some?;
  }

  // ---------------------------------------------------------------- brk

  /** No region but the heap itself meets the range the heap is about to cover. */
  ghost predicate BrkClear(v: Vma, newBrk: u64) {
    var i := FirstHeap(v.regions);
    newBrk != 0 && i < |v.regions| ==>
      forall j :: 0 <= j < |v.regions| && j != i ==> !Overlaps(v.regions[j], v.regions[i].begin, newBrk)
  }

  lemma GrownIsWellFormed(rs: seq<Region>, i: nat, newBrk: u64)
    requires Canonical(rs) && i < |rs| && rs[i].begin < newBrk
    requires forall j :: 0 <= j < |rs| && j != i ==> !Overlaps(rs[j], rs[i].begin, newBrk)
    ensures WellFormed(rs[i := rs[i].(end := newBrk)])
  {
    OrderedIsWellFormed(rs);
  }

  /** A heap grown into its neighbour stays overlapping: nothing is merged away. */
  lemma GrownTooFar(rs: seq<Region>, i: nat, j: nat, newBrk: u64)
    requires Canonical(rs) && i < |rs| && j < |rs| && i != j && Overlaps(rs[j], rs[i].begin, newBrk)
    ensures !Canonical(SortAndMerge(rs[i := rs[i].(end := newBrk)]))
  {
    var grown := rs[i := rs[i].(end := newBrk)];
    assert forall k :: 0 <= k < i ==> rs[k].end <= rs[i].begin;
    assert rs[i + 1].begin < newBrk by {
      if j > i + 1 { assert rs[i + 1].end <= rs[j].begin; }
    }
    forall p, q | 0 <= p < q < |grown| ensures grown[p].begin <= grown[q].begin {
      assert rs[p].end <= rs[q].begin;
    }
    forall k | 0 < k < |grown| ensures !Joinable(grown[k - 1], grown[k]) {
      assert rs[k - 1].end == rs[k].begin ==> IdentityOf(rs[k - 1]) != IdentityOf(rs[k]);
    }
    SortAndMergeNothing(grown);
    assert grown[i].end > grown[i + 1].begin;
  }

  /** A brk keeps the region list canonical exactly when the heap has room to move. */
  lemma BrkKeepsCanonical(v: Vma, newBrk: u64)
    requires Canonical(v.regions)
    ensures Canonical(ApplyBrk(v, newBrk).regions) <==> BrkClear(v, newBrk)
  {
    var rs, i := v.regions, FirstHeap(v.regions);
    if newBrk != 0 && i < |rs| {
      if newBrk <= rs[i].begin {
        SortAndMergeIdempotent(rs);
        forall j | 0 <= j < |rs| && j != i ensures !Overlaps(rs[j], rs[i].begin, newBrk) {
          if j < i { assert rs[j].end <= rs[i].begin; } else { assert rs[i].end <= rs[j].begin; }
        }
      } else if BrkClear(v, newBrk) {
        GrownIsWellFormed(rs, i, newBrk);
        SortAndMergeCorrect(rs[i := rs[i].(end := newBrk)]);
      } else {
        var j :| 0 <= j < |rs| && j != i && Overlaps(rs[j], rs[i].begin, newBrk);
        GrownTooFar(rs, i, j, newBrk);
      }
    } else {
      MapRefines(rs, NewHeap(v.heapBase, newBrk));
    }
  }

  lemma GuardSplitsHeap(heap: Region, at: u64, perms: Perms)
    requires heap.begin < at < heap.end && heap.perms != perms
    ensures ProtectRange([heap], at, heap.end, perms)
            == [heap.(end := at), heap.(begin := at, perms := perms, provenance := "event")]
  {
    var parts := [heap.(end := at), heap.(begin := at, perms := perms, provenance := "event")];
    assert ProtectPieces(heap, at, heap.end, perms) == parts;
    assert ProtectAll([heap], at, heap.end, perms) == parts;
    SortAndMergeNothing(parts);
  }

  lemma GuardedHeap(seed: Snapshot, heap: Region, guard: TraceStep)
    requires seed.regions == [heap] && guard.Observed?
    requires var e := guard.event;
             && e.eventType == Mprotect && e.success && CheckedEnd(e.address, e.length) == heap.end
             && heap.begin < e.address < heap.end && heap.perms != e.perms
    ensures var e := guard.event;
            Run(seed, [guard]).regions
            == [heap.(end := e.address), heap.(begin := e.address, perms := e.perms, provenance := "event")]
  {
    SortAndMergeNothing([heap]);
    GuardSplitsHeap(heap, guard.event.address, guard.event.perms);
    assert [guard][..0] == [] && Run(seed, []).regions == [heap];
  }

  const NO_ACCESS := Perms(false, false, false, false)

  /** A heap of two pages. */
  const HEAP_SEED := Snapshot(1, 0, [NewHeap(0x1000, 0x3000)])

  /** Its second page is protected, then the heap grows by a page. */
  const GUARD_PAGE := Observed(MapEvent(Mprotect, 1, 0x2000, 0x1000, 0, 0, NO_ACCESS, 0, -1, 0, NO_SOURCE, true))
  const GROW_HEAP := Observed(MapEvent(Brk, 2, 0, 0, 0, 0, NO_ACCESS, 0, -1, 0x4000, NO_SOURCE, true))

  /** Growing a heap whose upper part was given other permissions makes two regions overlap. */
  lemma BrkCanOverlap()
    ensures SeedsWellFormed(HEAP_SEED, [GUARD_PAGE, GROW_HEAP])
    ensures !Canonical(Run(HEAP_SEED, [GUARD_PAGE, GROW_HEAP]).regions)
  {
    GuardedHeap(HEAP_SEED, NewHeap(0x1000, 0x3000), GUARD_PAGE);
    var v := Run(HEAP_SEED, [GUARD_PAGE]);
    assert [GUARD_PAGE, GROW_HEAP][..1] == [GUARD_PAGE];
    GrowsOver(v.(timestampNs := 2), 0x4000);
  }

  lemma GrowsOver(v: Vma, newBrk: u64)
    requires |v.regions| == 2 && v.regions[0].kind == Heap && v.regions[0].begin < v.regions[0].end
    requires v.regions[0].end == v.regions[1].begin < v.regions[1].end
    requires IdentityOf(v.regions[0]) != IdentityOf(v.regions[1]) && v.regions[1].begin < newBrk
    ensures !Canonical(ApplyBrk(v, newBrk).regions)
  {
    assert Canonical(v.regions) && FirstHeap(v.regions) == 0;
    assert Overlaps(v.regions[1], v.regions[0].begin, newBrk);
    BrkKeepsCanonical(v, newBrk);
  }

  lemma HeapIsLowest(rs: seq<Region>)
    requires Canonical(rs)
    ensures var i := FirstHeap(rs);
            if i < |rs| then LowestHeap(View(rs), rs[i].begin) else forall h: int :: !LowestHeap(View(rs), h)
  {
    var i := FirstHeap(rs);
    OrderedIsWellFormed(rs);
    forall a: int | a in View(rs) && View(rs)[a].kind == Heap ensures i < |rs| && rs[i].begin <= a {
      AtMember(rs, a);
      var k :| 0 <= k < |rs| && Contains(rs[k], a);
      assert i <= k;
      if i < k { assert rs[i].end <= rs[k].begin; }
    }
    if i < |rs| {
      AtMember(rs, rs[i].begin);
      assert Contains(rs[i], rs[i].begin);
    }
  }

  /** What follows a region, if anything touches it, has another identity. */
  lemma RegionEnds(rs: seq<Region>, i: nat)
    requires Canonical(rs) && i < |rs|
    ensures At(rs, rs[i].end) != Some(IdentityOf(rs[i]))
  {
    var e := rs[i].end;
    OrderedIsWellFormed(rs);
    AtMember(rs, e);
    if At(rs, e).Some? {
      var k :| 0 <= k < |rs| && Contains(rs[k], e);
      assert forall j :: 0 <= j < i ==> rs[j].end <= rs[i].begin;
      assert i < k && rs[i].end <= rs[i + 1].begin;
      assert forall j :: i + 1 < j < |rs| ==> rs[i + 1].end <= rs[j].begin;
      assert k == i + 1 && rs[k - 1].end == rs[k].begin;
    }
  }

  /** In canonical form the run of equal identities starting at a region's begin is that region. */
  lemma RunIsRegion(rs: seq<Region>, i: nat, a: int)
    requires Canonical(rs) && i < |rs|
    ensures SameRun(View(rs), rs[i].begin, a) <==> Contains(rs[i], a)
  {
    var m, h, e := View(rs), rs[i].begin, rs[i].end;
    OrderedIsWellFormed(rs);
    forall b: int | Contains(rs[i], b) ensures b in m && m[b] == IdentityOf(rs[i]) {
      AtMember(rs, b);
    }
    assert Contains(rs[i], h);
    RegionEnds(rs, i);
    assert e in m ==> m[e] != m[h];
  }

  lemma GrownView(rs: seq<Region>, i: nat, newBrk: u64)
    requires Canonical(rs) && i < |rs| && rs[i].begin < newBrk
    requires WellFormed(rs[i := rs[i].(end := newBrk)])
    ensures View(rs[i := rs[i].(end := newBrk)]) == ResizeRun(View(rs), rs[i].begin, newBrk)
  {
    var grown, m, h := rs[i := rs[i].(end := newBrk)], View(rs), rs[i].begin;
    var want := ResizeRun(m, h, newBrk);
    OrderedIsWellFormed(rs);
    AtMember(rs, h);
    assert Contains(rs[i], h) && m[h] == IdentityOf(rs[i]);
    forall a: int ensures At(grown, a) == Get(want, a) {
      RunIsRegion(rs, i, a);
      AtMember(grown, a);
      AtMember(rs, a);
      if h <= a < newBrk {
        assert Contains(grown[i], a);
      } else if a in m && !Contains(rs[i], a) {
        var k :| 0 <= k < |rs| && Contains(rs[k], a);
        assert Contains(grown[k], a) && grown[k] == rs[k];
      } else {
        forall k | 0 <= k < |grown| ensures !Contains(grown[k], a) {
          if k != i {
            assert grown[k] == rs[k];
            if k < i { assert rs[k].end <= rs[i].begin; } else { assert rs[i].end <= rs[k].begin; }
          }
        }
      }
    }
    ViewIs(grown, want);
  }

  lemma LowestUnique(m: AddressMap, h: int, k: int)
    requires LowestHeap(m, h) && LowestHeap(m, k)
    ensures h == k
  {
    assert m[h].kind == Heap && m[k].kind == Heap;
  }

  lemma BrkRefines(v: Vma, newBrk: u64)
    requires Canonical(v.regions) && BrkClear(v, newBrk)
    ensures SpaceOf(ApplyBrk(v, newBrk)) == BrkSpace(SpaceOf(v), newBrk)
  {
    var rs, i, m := v.regions, FirstHeap(v.regions), View(v.regions);
    HeapIsLowest(rs);
    if newBrk != 0 && i < |rs| {
      var h: int :| LowestHeap(m, h) && BrkSpace(SpaceOf(v), newBrk).mapping == ResizeRun(m, h, newBrk);
      LowestUnique(m, h, rs[i].begin);
      if newBrk <= rs[i].begin {
        SortAndMergeIdempotent(rs);
      } else {
        GrownIsWellFormed(rs, i, newBrk);
        GrownView(rs, i, newBrk);
        SortAndMergeCorrect(rs[i := rs[i].(end := newBrk)]);
      }
    } else if newBrk != 0 && v.heapBase != 0 {
      MapRefines(rs, NewHeap(v.heapBase, newBrk));
      assert newBrk <= v.heapBase ==> Overwrite(m, v.heapBase, newBrk, IdentityOf(NewHeap(0, 0))) == m;
    }
  }

  // ---------------------------------------------------------------- whole runs

  /** The caller-visible condition under which an event's region list stays disjoint. */
  ghost predicate EventClear(v: Vma, e: MapEvent) {
    e.success && e.eventType == Brk ==> BrkClear(v, NewBreak(e.result))
  }

  /** The region an mmap event adds: its range and file as given, nothing resident yet. */
  lemma MappedRegionIs(e: MapEvent)
    ensures var r := MmapRegion(e);
            && IdentityOf(r) == MappedIdentity(e) && r.source == e.source && r.probe == NO_PROBE
            && r.begin == e.address && r.end == RangeEnd(e.address, e.length)
            && r.rssKb == r.pssKb == r.privateDirtyKb == 0
  {
    LibraryName(e.source.path);
  }

  lemma LibraryName(path: string)
    ensures HasSubstring(path, ".so") <==> exists i :: LibraryAt(path, i)
  {
    if i :| 0 <= i <= |path| && StartsWith(path[i..], ".so") {
      assert LibraryAt(path, i);
    }
    if i :| LibraryAt(path, i) {
      assert path[i..][..3] == ".so";
      assert StartsWith(path[i..], ".so");
    }
  }

  lemma MmapRefines(rs: seq<Region>, e: MapEvent)
    requires Canonical(rs)
    ensures var after := MapRegion(rs, MmapRegion(e));
            && Canonical(after)
            && View(after) == Overwrite(View(rs), e.address, RangeEnd(e.address, e.length), MappedIdentity(e))
  {
    MappedRegionIs(e);
    MapRefines(rs, MmapRegion(e));
  }

  lemma BrkEventRefines(v: Vma, result: i64)
    requires Canonical(v.regions)
    ensures ToU64(result) == NewBreak(result)
    ensures var after := ApplyBrk(v, NewBreak(result));
            && (Canonical(after.regions) <==> BrkClear(v, NewBreak(result)))
            && (BrkClear(v, NewBreak(result)) ==> SpaceOf(after) == BrkSpace(SpaceOf(v), NewBreak(result)))
  {
    BrkKeepsCanonical(v, NewBreak(result));
    if BrkClear(v, NewBreak(result)) { BrkRefines(v, NewBreak(result)); }
  }

  lemma EventRefines(v: Vma, e: MapEvent)
    requires Canonical(v.regions)
    ensures Canonical(Apply(v, e).regions) <==> EventClear(v, e)
    ensures EventClear(v, e) ==> SpaceOf(Apply(v, e)) == EventSpace(SpaceOf(v), e)
  {
    var rs, end := v.regions, RangeEnd(e.address, e.length);
    if e.success {
      match e.eventType
      case Mmap => MmapRefines(rs, e);
      case Munmap => UnmapRefines(rs, e.address, end);
      case Mprotect => ProtectRefines(rs, e.address, end, e.perms);
      case Brk => BrkEventRefines(v.(timestampNs := e.timestampNs), e.result);
      case Mremap => RemapRefines(rs, e.address, e.length, e.newAddress, e.newLength, e.flags);
      case Exec => ViewIs([], imap[]);
      case ProcSeed =>
    }
  }

  /** A reseeded model needs no room; every other step needs what its event needs. */
  ghost predicate StepClear(v: Vma, step: TraceStep) {
    (step.Reseeded? && step.reread.Some?) || EventClear(v, step.event)
  }

  /** What `/proc` shows is disjoint and non-empty, each time it is read. */
  ghost predicate SeedsWellFormed(seed: Snapshot, steps: seq<TraceStep>) {
    && WellFormed(seed.regions)
    && forall i :: 0 <= i < |steps| && steps[i].Reseeded? && steps[i].reread.Some? ==>
         WellFormed(steps[i].reread.value.regions)
  }

  lemma SeedRefines(seed: Snapshot)
    requires WellFormed(seed.regions)
    ensures Canonical(Seeded(seed).regions) && SpaceOf(Seeded(seed)) == SeedSpace(seed)
  {
    SortAndMergeCorrect(seed.regions);
    HeapStartIs(seed.regions);
  }

  lemma {:induction false} HeapStartIs(rs: seq<Region>)
    ensures var i := FirstHeap(rs); HeapStart(rs) == if i < |rs| then rs[i].begin else 0
  {
    if rs != [] && rs[0].kind != Heap {
      HeapStartIs(rs[1..]);
    }
  }

  lemma StepRefines(v: Vma, step: TraceStep)
    requires Canonical(v.regions)
    requires step.Reseeded? && step.reread.Some? ==> WellFormed(step.reread.value.regions)
    ensures Canonical(TakeStep(v, step).regions) <==> StepClear(v, step)
    ensures StepClear(v, step) ==> SpaceOf(TakeStep(v, step)) == StepSpace(SpaceOf(v), step)
  {
    if step.Reseeded? && step.reread.Some? {
      SeedRefines(step.reread.value);
    } else {
      EventRefines(v, step.event);
    }
  }

  /** Every state of the trace, the seeded one included, is canonical. */
  ghost predicate AlwaysCanonical(seed: Snapshot, steps: seq<TraceStep>)
    decreases |steps|
  {
    && Canonical(Run(seed, steps).regions)
    && (steps != [] ==> AlwaysCanonical(seed, steps[..|steps| - 1]))
  }

  /** Every brk of the trace had room when it came. */
  ghost predicate AlwaysClear(seed: Snapshot, steps: seq<TraceStep>)
    decreases |steps|
  {
    steps != [] ==>
      && AlwaysClear(seed, steps[..|steps| - 1])
      && StepClear(Run(seed, steps[..|steps| - 1]), steps[|steps| - 1])
  }

  /**
   From disjoint seeds, every state of a trace is canonical exactly when every brk along the
   way had room.
   */
  lemma {:induction false} RunCanonical(seed: Snapshot, steps: seq<TraceStep>)
    requires SeedsWellFormed(seed, steps)
    ensures AlwaysCanonical(seed, steps) <==> AlwaysClear(seed, steps)
    decreases |steps|
  {
    if steps == [] {
      SeedRefines(seed);
    } else {
      var init, last := steps[..|steps| - 1], steps[|steps| - 1];
      RunCanonical(seed, init);
      if AlwaysCanonical(seed, init) {
        StepRefines(Run(seed, init), last);
      }
    }
  }

  /** The address map reached by the program is the one the per-address reading gives. */
  lemma {:induction false} RunRefines(seed: Snapshot, steps: seq<TraceStep>)
    requires SeedsWellFormed(seed, steps) && AlwaysClear(seed, steps)
    ensures Canonical(Run(seed, steps).regions)
    ensures SpaceOf(Run(seed, steps)) == RunSpace(seed, steps)
    decreases |steps|
  {
    if steps == [] {
      SeedRefines(seed);
    } else {
      var init, last := steps[..|steps| - 1], steps[|steps| - 1];
      RunRefines(seed, init);
      StepRefines(Run(seed, init), last);
    }
  }

  // ---------------------------------------------------------------- consequences

  ghost predicate RangeEvent(e: MapEvent) {
    e.eventType == Munmap || e.eventType == Mprotect
  }

  lemma SpacesCommute(s: Space, e: MapEvent, f: MapEvent)
    requires RangeEvent(e) && RangeEvent(f)
    requires RangeEnd(e.address, e.length) <= f.address || RangeEnd(f.address, f.length) <= e.address
    ensures EventSpace(EventSpace(s, e), f).mapping == EventSpace(EventSpace(s, f), e).mapping
  {
  }

  /** munmap and mprotect events on disjoint ranges commute. */
  lemma RangeEventsCommute(v: Vma, e: MapEvent, f: MapEvent)
    requires Canonical(v.regions) && RangeEvent(e) && RangeEvent(f)
    requires RangeEnd(e.address, e.length) <= f.address || RangeEnd(f.address, f.length) <= e.address
    ensures Skeleton(Apply(Apply(v, e), f).regions) == Skeleton(Apply(Apply(v, f), e).regions)
  {
    EventRefines(v, e);
    EventRefines(v, f);
    EventRefines(Apply(v, e), f);
    EventRefines(Apply(v, f), e);
    var s := SpaceOf(v);
    SpacesCommute(s, e, f);
    SameView(Apply(Apply(v, e), f).regions, Apply(Apply(v, f), e).regions);
    CanonicalUnique(Apply(Apply(v, e), f).regions, Apply(Apply(v, f), e).regions);
  }

  /** Moving a range to an unmapped place of the same size and back again restores the layout. */
  lemma RemapThereAndBack(rs: seq<Region>, begin: u64, size: u64, other: u64)
    requires Canonical(rs) && begin + size < TWO64 && other + size < TWO64
    requires begin + size <= other || other + size <= begin
    requires forall a: int :: other <= a < other + size ==> At(rs, a).None?
    ensures var there := RemapRange(rs, begin, size, other, size, 0);
            Skeleton(RemapRange(there, other, size, begin, size, 0)) == Skeleton(rs)
  {
    var there := RemapRange(rs, begin, size, other, size, 0);
    var back := RemapRange(there, other, size, begin, size, 0);
    var gone, cleared := UnmapRange(rs, begin, begin + size), UnmapRange(there, other, other + size);
    MovedAt(rs, gone, there, begin, size, other);
    MovedAt(there, cleared, back, other, size, begin);
    BackAgain(rs, gone, there, cleared, back, begin, size, other);
    CanonicalUnique(back, rs);
  }

  lemma MovedAt(rs: seq<Region>, gone: seq<Region>, after: seq<Region>, begin: u64, size: u64, other: u64)
    requires Canonical(rs) && begin + size < TWO64
    requires gone == UnmapRange(rs, begin, begin + size) && after == RemapRange(rs, begin, size, other, size, 0)
    ensures Canonical(after) && Translated(rs, gone, after, begin, begin + size, other, size)
    ensures forall a: int :: At(gone, a) == if begin <= a < begin + size then None else At(rs, a)
  {
    assert RangeEnd(begin, size) == begin + size;
    DontUnmapBit(0);
    RemapAt(rs, begin, size, other, size, 0);
    UnmapRangeAt(rs, begin, begin + size);
  }

  lemma BackAgain(rs: seq<Region>, gone: seq<Region>, there: seq<Region>, cleared: seq<Region>, back: seq<Region>,
                  begin: u64, size: u64, other: u64)
    requires begin + size < TWO64 && other + size < TWO64
    requires begin + size <= other || other + size <= begin
    requires forall a: int :: other <= a < other + size ==> At(rs, a).None?
    requires forall a: int :: At(gone, a) == if begin <= a < begin + size then None else At(rs, a)
    requires forall a: int :: At(cleared, a) == if other <= a < other + size then None else At(there, a)
    requires Translated(rs, gone, there, begin, begin + size, other, size)
    requires Translated(there, cleared, back, other, other + size, begin, size)
    ensures forall a: int :: At(back, a) == At(rs, a)
  {
    forall a: int ensures At(back, a) == At(rs, a) {
      var away := a - begin + other;
      assert away - other + begin == a;
      assert At(there, away) == TranslatedAt(rs, gone, begin, begin + size, other, size, away);
      assert At(back, a) == TranslatedAt(there, cleared, other, other + size, begin, size, a);
      BelowMax(rs, a);
    }
  }

  /** The last address is never inside a region. */
  lemma BelowMax(rs: seq<Region>, a: int)
    ensures At(rs, a).Some? ==> 0 <= a < U64_MAX
  {
    AtMember(rs, a);
  }
}
