/** Address lookup over a sorted index, against a plain scan of the regions. */
module RegionIndexes {
  import opened Machine
  import opened Regions
  import opened VmaFunctions
  import opened AddressSpaces
  import opened VmaRefinement
  import Sorting

  function IndexLess(): (Region, Region) -> bool {
    (l: Region, r: Region) => if l.begin != r.begin then l.begin < r.begin else l.end < r.end
  }

  function Keep(rs: seq<Region>): seq<Region> {
    if rs == [] then []
    else if rs[0].begin < rs[0].end then [rs[0]] + Keep(rs[1..]) else Keep(rs[1..])
  }

  function Indexed(rs: seq<Region>): seq<Region> {
    Sorting.SortBy(IndexLess(), Keep(rs))
  }

  /** The last indexed region that begins at or below `a`, if it reaches `a`. */
  function Lookup(index: seq<Region>, a: int): Option<Region> {
    if index == [] then None
    else
      var last := index[|index| - 1];
      if last.begin <= a then (if Contains(last, a) then Some(last) else None)
      else Lookup(index[..|index| - 1], a)
  }

  ghost predicate BeginsAscend(index: seq<Region>) {
    forall i, j :: 0 <= i < j < |index| ==> index[i].begin <= index[j].begin
  }

  class RegionIndex {
    var index: seq<Region>

    ghost predicate Valid()
      reads this
    {
      BeginsAscend(index)
    }

    constructor (regions: seq<Region>)
      ensures index == Indexed(regions) && Valid()
    {
      new;
      var kept: seq<Region> := [];
      for i := 0 to |regions|
        invariant kept + Keep(regions[i..]) == Keep(regions)
      {
        assert regions[i..][1..] == regions[i + 1..];
        if regions[i].begin < regions[i].end {
          kept := kept + [regions[i]];
        }
      }
      assert kept + Keep(regions[|regions|..]) == kept;
      index := Sorting.InsertSort(IndexLess(), kept);
      Sorting.SortSorts(IndexLess(), kept);
    }

    /** Binary search for the first region beginning above `a`, then one step back. */
    method Find(a: u64) returns (r: Option<Region>)
      requires Valid()
      ensures r == Lookup(index, a)
    {
      var lo, hi := 0, |index|;
      while lo < hi
        invariant 0 <= lo <= hi <= |index|
        invariant forall i :: 0 <= i < lo ==> index[i].begin <= a
        invariant forall i :: hi <= i < |index| ==> a < index[i].begin
      {
        var mid := lo + (hi - lo) / 2;
        if a < index[mid].begin {
          hi := mid;
        } else {
          lo := mid + 1;
        }
      }
      LookupBelow(index, lo, a);
      if lo == 0 {
        return None;
      }
      r := if Contains(index[lo - 1], a) then Some(index[lo - 1]) else None;
    }
  }

  lemma {:induction false} LookupBelow(index: seq<Region>, k: nat, a: int)
    requires k <= |index|
    requires forall i :: 0 <= i < k ==> index[i].begin <= a
    requires forall i :: k <= i < |index| ==> a < index[i].begin
    ensures Lookup(index, a) ==
            if k > 0 && Contains(index[k - 1], a) then Some(index[k - 1]) else None
  {
    if |index| > k {
      LookupBelow(index[..|index| - 1], k, a);
    }
  }

  lemma {:induction false} LookupScans(index: seq<Region>, a: int)
    requires Ordered(index)
    ensures match Lookup(index, a)
            case Some(r) => r in index && Contains(r, a)
            case None => forall i :: 0 <= i < |index| ==> !Contains(index[i], a)
  {
    if index != [] {
      var n := |index| - 1;
      if index[n].begin <= a {
        forall i | 0 <= i < n ensures !Contains(index[i], a) { assert index[i].end <= index[n].begin; }
      } else {
        LookupScans(index[..n], a);
      }
    }
  }

  lemma OnlyOne(index: seq<Region>, i: nat, j: nat, a: int)
    requires Ordered(index) && i < |index| && j < |index| && Contains(index[i], a) && Contains(index[j], a)
    ensures i == j
  {
  }

  lemma {:induction false} SameInsert(x: Region, s: seq<Region>)
    requires x.begin < x.end && forall i :: 0 <= i < |s| ==> s[i].begin < s[i].end && Apart(x, s[i])
    ensures Sorting.InsertBy(IndexLess(), x, s) == Sorting.InsertBy(BeginLess(), x, s)
  {
    if s != [] {
      assert Apart(x, s[0]);
      SameInsert(x, s[1..]);
    }
  }

  /** Begins are distinct in a disjoint list, so the tie-break of the index order never matters. */
  lemma {:induction false} SameSort(rs: seq<Region>)
    requires WellFormed(rs)
    ensures Sorting.SortBy(IndexLess(), rs) == Sorting.SortBy(BeginLess(), rs)
  {
    if rs != [] {
      var s := Sorting.SortBy(BeginLess(), rs[1..]);
      assert forall i :: 0 <= i < |rs[1..]| ==> rs[1..][i] == rs[i + 1];
      SameSort(rs[1..]);
      Sorting.SortPermutes(BeginLess(), rs[1..]);
      Sorting.SameElements(s, rs[1..]);
      forall i | 0 <= i < |s| ensures s[i].begin < s[i].end && Apart(rs[0], s[i]) {
        assert s[i] in rs[1..];
        var k :| 0 <= k < |rs[1..]| && rs[1..][k] == s[i];
        assert Apart(rs[0], rs[k + 1]);
      }
      SameInsert(rs[0], s);
    }
  }

  lemma {:induction false} KeepMembers(rs: seq<Region>, r: Region)
    ensures r in Keep(rs) <==> r in rs && r.begin < r.end
  {
    if rs != [] {
      KeepMembers(rs[1..], r);
      assert rs == [rs[0]] + rs[1..];
    }
  }

  /**
   When the non-empty regions are disjoint, in whatever order they come, lookup returns the one
   region that contains the address, and nothing exactly when none does.
   */
  lemma IndexFindsTheRegion(rs: seq<Region>, a: int)
    requires WellFormed(Keep(rs))
    ensures forall r: Region :: Lookup(Indexed(rs), a) == Some(r) <==> r in rs && Contains(r, a)
  {
    var kept, index := Keep(rs), Indexed(rs);
    SameSort(kept);
    SortRegions(kept);
    Sorting.SortPermutes(IndexLess(), kept);
    Sorting.SameElements(index, kept);
    LookupScans(index, a);
    OrderedIsWellFormed(index);
    forall r: Region ensures Lookup(index, a) == Some(r) <==> r in rs && Contains(r, a) {
      KeepMembers(rs, r);
      if r in index && Contains(r, a) && Lookup(index, a).Some? {
        var q := Lookup(index, a).value;
        var i :| 0 <= i < |index| && index[i] == r;
        var j :| 0 <= j < |index| && index[j] == q;
        OnlyOne(index, i, j, a);
      }
    }
  }

  lemma {:induction false} KeepAll(rs: seq<Region>)
    requires forall i :: 0 <= i < |rs| ==> rs[i].begin < rs[i].end
    ensures Keep(rs) == rs
  {
    if rs != [] {
      KeepAll(rs[1..]);
    }
  }

  /** The index is sorted by begin, then by end. */
  lemma IndexIsSorted(rs: seq<Region>)
    ensures var index := Indexed(rs);
            forall i, j :: 0 <= i < j < |index| ==>
              index[i].begin < index[j].begin || (index[i].begin == index[j].begin && index[i].end <= index[j].end)
  {
    var index := Indexed(rs);
    Sorting.SortSorts(IndexLess(), Keep(rs));
    forall i, j | 0 <= i < j < |index| ensures !IndexLess()(index[j], index[i]) {}
  }

  /** An index of a canonical list computes its address map. */
  lemma IndexIsMap(rs: seq<Region>, a: int)
    requires Canonical(rs)
    ensures match Lookup(Indexed(rs), a)
            case Some(r) => At(rs, a) == Some(IdentityOf(r))
            case None => At(rs, a).None?
  {
    OrderedIsWellFormed(rs);
    KeepAll(rs);
    IndexFindsTheRegion(rs, a);
    AtMember(rs, a);
    match Lookup(Indexed(rs), a)
    case Some(r) =>
      var i :| 0 <= i < |rs| && rs[i] == r;
      assert Contains(rs[i], a);
    case None =>
      forall i | 0 <= i < |rs| ensures !Contains(rs[i], a) {
        assert Lookup(Indexed(rs), a) == Some(rs[i]) <==> rs[i] in rs && Contains(rs[i], a);
      }
  }

  /** An index built on the snapshot of a trace computes the address map of the trace. */
  lemma IndexOfTrace(seed: Snapshot, steps: seq<TraceStep>, a: int)
    requires SeedsWellFormed(seed, steps) && AlwaysClear(seed, steps)
    ensures var mapping := RunSpace(seed, steps).mapping;
            match Lookup(Indexed(Run(seed, steps).regions), a)
            case Some(r) => a in mapping && mapping[a] == IdentityOf(r)
            case None => a !in mapping
  {
    var rs := Run(seed, steps).regions;
    RunRefines(seed, steps);
    IndexIsMap(rs, a);
    assert SpaceOf(Run(seed, steps)).mapping == View(rs);
  }
}
