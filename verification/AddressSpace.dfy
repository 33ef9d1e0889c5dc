/** Region lists and the address maps they denote: merging, splitting, and canonical form. */
module AddressSpaces {
  import opened Machine
  import opened Regions
  import opened VmaFunctions
  import Sorting

  // ---------------------------------------------------------------- sorting

  lemma AtCons(x: Region, s: seq<Region>, a: int)
    ensures At([x] + s, a) == if Contains(x, a) then Some(IdentityOf(x)) else At(s, a)
  {
    assert ([x] + s)[1..] == s;
  }

  lemma OrderedCons(x: Region, s: seq<Region>)
    requires Ordered(s) && x.begin < x.end
    requires forall i :: 0 <= i < |s| ==> x.end <= s[i].begin
    ensures Ordered([x] + s)
  {
  }

  lemma {:induction false} InsertRegion(x: Region, s: seq<Region>)
    requires Ordered(s) && x.begin < x.end
    requires forall i :: 0 <= i < |s| ==> Apart(x, s[i])
    ensures Ordered(Sorting.InsertBy(BeginLess(), x, s))
    ensures forall a: int :: At(Sorting.InsertBy(BeginLess(), x, s), a) == At([x] + s, a)
  {
    if s == [] || !(s[0].begin < x.begin) {
      forall i | 0 <= i < |s| ensures x.end <= s[i].begin {
        assert Apart(x, s[i]);
        if i > 0 { assert s[0].end <= s[i].begin; }
      }
      OrderedCons(x, s);
    } else {
      var y, rest := s[0], s[1..];
      var t := Sorting.InsertBy(BeginLess(), x, rest);
      assert Apart(x, y);
      TailOrdered(s);
      InsertRegion(x, rest);
      InsertedBehind(x, rest, t, y.end);
      OrderedCons(y, t);
      forall a: int ensures At([y] + t, a) == At([x] + s, a) {
        SwapFirst(x, y, rest, t, a);
        assert [y] + rest == s;
      }
    }
  }

  lemma InsertedBehind(x: Region, rest: seq<Region>, t: seq<Region>, bound: int)
    requires t == Sorting.InsertBy(BeginLess(), x, rest)
    requires bound <= x.begin && forall i :: 0 <= i < |rest| ==> bound <= rest[i].begin
    ensures forall i :: 0 <= i < |t| ==> bound <= t[i].begin
  {
    Sorting.InsertPermutes(BeginLess(), x, rest);
    forall i | 0 <= i < |t| ensures bound <= t[i].begin {
      assert t[i] in multiset(t);
      if t[i] != x { assert t[i] in rest; }
    }
  }

  /** Which of two disjoint regions comes first makes no difference to the address map. */
  lemma SwapFirst(x: Region, y: Region, rest: seq<Region>, t: seq<Region>, a: int)
    requires Apart(x, y) && At(t, a) == At([x] + rest, a)
    ensures At([y] + t, a) == At([x] + ([y] + rest), a)
  {
    AtCons(y, t, a);
    AtCons(x, rest, a);
    AtCons(x, [y] + rest, a);
    AtCons(y, rest, a);
  }

  lemma ApartFromSorted(rs: seq<Region>, s: seq<Region>)
    requires WellFormed(rs) && rs != [] && s == Sorting.SortBy(BeginLess(), rs[1..])
    ensures forall i :: 0 <= i < |s| ==> Apart(rs[0], s[i])
  {
    var rest := rs[1..];
    Sorting.SortPermutes(BeginLess(), rest);
    Sorting.SameElements(s, rest);
    forall i | 0 <= i < |s| ensures Apart(rs[0], s[i]) {
      assert s[i] in rest;
      var k :| 0 <= k < |rest| && rest[k] == s[i];
      assert Apart(rs[0], rs[k + 1]);
    }
  }

  lemma {:induction false} SortRegions(rs: seq<Region>)
    requires WellFormed(rs)
    ensures Ordered(Sorting.SortBy(BeginLess(), rs))
    ensures forall a: int :: At(Sorting.SortBy(BeginLess(), rs), a) == At(rs, a)
  {
    if rs != [] {
      var rest := rs[1..];
      var s := Sorting.SortBy(BeginLess(), rest);
      assert WellFormed(rest) by {
        assert forall i :: 0 <= i < |rest| ==> rest[i] == rs[i + 1];
      }
      SortRegions(rest);
      ApartFromSorted(rs, s);
      InsertRegion(rs[0], s);
      forall a: int ensures At([rs[0]] + s, a) == At(rs, a) {
        AtCons(rs[0], s, a);
        assert At(s, a) == At(rest, a);
      }
    }
  }

  // ---------------------------------------------------------------- merging

  lemma AppendAt(m: seq<Region>, r: Region, a: int)
    requires r.begin < r.end && (m != [] ==> m[|m| - 1].begin < m[|m| - 1].end)
    ensures At(Append(m, r), a) == At(m + [r], a)
  {
    var n := |m|;
    if n > 0 && Joinable(m[n - 1], r) {
      assert m + [r] == m[..n - 1] + [m[n - 1], r];
      AtConcat(m[..n - 1], [Join(m[n - 1], r)], a);
      AtConcat(m[..n - 1], [m[n - 1], r], a);
      AtPieces([Join(m[n - 1], r)], a);
      AtPieces([m[n - 1], r], a);
    }
  }

  lemma AppendCanonical(m: seq<Region>, r: Region, rest: seq<Region>)
    requires Canonical(m) && Ordered(m + [r] + rest)
    ensures Canonical(Append(m, r)) && Ordered(Append(m, r) + rest)
  {
    var n, w := |m|, m + [r] + rest;
    assert w[n] == r && forall i :: 0 <= i < n ==> w[i] == m[i] && m[i].end <= r.begin;
    if n > 0 && Joinable(m[n - 1], r) {
      JoinCanonical(m, r);
    } else {
      ExtendCanonical(m, r);
    }
    BehindOrdered(m, r, rest);
    OrderedConcat(Append(m, r), rest, r.end);
  }

  lemma BehindOrdered(m: seq<Region>, r: Region, rest: seq<Region>)
    requires Ordered(m + [r] + rest)
    ensures Ordered(rest) && forall i :: 0 <= i < |rest| ==> r.end <= rest[i].begin
  {
    var n, w := |m|, m + [r] + rest;
    OrderedTail(w, n + 1);
    assert w[n + 1..] == rest && w[n] == r;
    forall i | 0 <= i < |rest| ensures r.end <= rest[i].begin {
      assert w[n + 1 + i] == rest[i];
    }
  }

  lemma ExtendCanonical(m: seq<Region>, r: Region)
    requires Canonical(m) && r.begin < r.end
    requires forall i :: 0 <= i < |m| ==> m[i].end <= r.begin
    requires m != [] ==> !Joinable(m[|m| - 1], r)
    ensures Canonical(m + [r])
    ensures forall i :: 0 <= i < |m + [r]| ==> (m + [r])[i].end <= r.end
  {
    var t := m + [r];
    forall i | 0 < i < |t| && t[i - 1].end == t[i].begin ensures IdentityOf(t[i - 1]) != IdentityOf(t[i]) {
      if i < |m| { assert m[i - 1].end == m[i].begin; }
    }
  }

  lemma JoinCanonical(m: seq<Region>, r: Region)
    requires m != [] && Canonical(m) && r.begin < r.end && Joinable(m[|m| - 1], r)
    ensures Canonical(Append(m, r))
    ensures forall i :: 0 <= i < |m| ==> Append(m, r)[i].end <= r.end
  {
    var k := |m| - 1;
    var front, last := m[..k], Join(m[k], r);
    assert Canonical(front) by {
      assert forall i :: 0 < i < k && front[i - 1].end == front[i].begin ==> m[i - 1].end == m[i].begin;
    }
    assert m[k].begin < m[k].end == r.begin;
    forall i | 0 <= i < k ensures front[i].end <= last.begin {
      assert m[i].end <= m[k].begin;
    }
    assert k > 0 && m[k - 1].end == m[k].begin ==> IdentityOf(m[k - 1]) != IdentityOf(m[k]);
    ExtendCanonical(front, last);
  }

  lemma OrderedTail(rs: seq<Region>, k: nat)
    requires Ordered(rs) && k <= |rs|
    ensures Ordered(rs[k..])
  {
  }

  lemma {:induction false} MergeCanonical(m: seq<Region>, rs: seq<Region>)
    requires Canonical(m) && Ordered(m + rs)
    ensures Canonical(MergeInto(m, rs))
    ensures forall a: int :: At(MergeInto(m, rs), a) == At(m + rs, a)
    decreases |rs|
  {
    if rs == [] {
      assert m + rs == m;
    } else {
      var m', rest := Append(m, rs[0]), rs[1..];
      assert m + rs == m + [rs[0]] + rest;
      AppendCanonical(m, rs[0], rest);
      MergeCanonical(m', rest);
      assert (m + rs)[|m|] == rs[0] && (m != [] ==> (m + rs)[|m| - 1] == m[|m| - 1]);
      forall a: int ensures At(m' + rest, a) == At(m + rs, a) {
        AtConcat(m', rest, a);
        AppendAt(m, rs[0], a);
        AtConcat(m + [rs[0]], rest, a);
      }
    }
  }

  lemma SameMap(a: seq<Region>, b: seq<Region>)
    requires forall x: int :: At(a, x) == At(b, x)
    ensures View(a) == View(b)
  {
    forall x: int ensures At(a, x) == Get(View(b), x) {
      assert At(a, x) == At(b, x);
    }
    ViewIs(a, View(b));
  }

  /** Sorting and merging turns any disjoint list into canonical form and leaves every address alone. */
  lemma SortAndMergeCorrect(rs: seq<Region>)
    requires WellFormed(rs)
    ensures Canonical(SortAndMerge(rs)) && View(SortAndMerge(rs)) == View(rs)
    ensures forall a: int :: At(SortAndMerge(rs), a) == At(rs, a)
  {
    var s := Sorting.SortBy(BeginLess(), rs);
    SortRegions(rs);
    assert [] + s == s;
    MergeCanonical([], s);
    SameMap(SortAndMerge(rs), rs);
  }

  lemma {:induction false} MergeNothing(m: seq<Region>, rs: seq<Region>)
    requires forall i :: 0 < i < |m + rs| ==> !Joinable((m + rs)[i - 1], (m + rs)[i])
    ensures MergeInto(m, rs) == m + rs
    decreases |rs|
  {
    if rs == [] {
      assert m + rs == m;
    } else {
      var w, n := m + rs, |m|;
      assert w[n] == rs[0] && (n > 0 ==> w[n - 1] == m[n - 1] && !Joinable(w[n - 1], w[n]));
      assert m + [rs[0]] + rs[1..] == w;
      MergeNothing(m + [rs[0]], rs[1..]);
    }
  }

  /** A list with ascending begins and nothing to join passes through unchanged. */
  lemma SortAndMergeNothing(rs: seq<Region>)
    requires forall i, j :: 0 <= i < j < |rs| ==> rs[i].begin <= rs[j].begin
    requires forall i :: 0 < i < |rs| ==> !Joinable(rs[i - 1], rs[i])
    ensures SortAndMerge(rs) == rs
  {
    Sorting.SortOfSorted(BeginLess(), rs);
    assert [] + rs == rs;
    MergeNothing([], rs);
  }

  /** Canonical lists are fixed points, page counts and offsets included. */
  lemma SortAndMergeIdempotent(rs: seq<Region>)
    requires Canonical(rs)
    ensures SortAndMerge(rs) == rs
  {
    forall i, j | 0 <= i < j < |rs| ensures rs[i].begin <= rs[j].begin {
      assert rs[i].end <= rs[j].begin;
    }
    SortAndMergeNothing(rs);
  }

  // ---------------------------------------------------------------- canonical form is unique

  type Extent = (u64, u64, Identity)

  ghost function Skeleton(rs: seq<Region>): seq<Extent> {
    if rs == [] then [] else [(rs[0].begin, rs[0].end, IdentityOf(rs[0]))] + Skeleton(rs[1..])
  }

  lemma BelowFirst(rs: seq<Region>, a: int)
    requires Ordered(rs) && (rs != [] ==> a < rs[0].begin)
    ensures At(rs, a).None?
  {
    AtMember(rs, a);
    forall i | 0 <= i < |rs| ensures !Contains(rs[i], a) {
      if i > 0 { assert rs[0].end <= rs[i].begin; }
    }
  }

  /** Past the end of the first region, the identity there is not the first region's own. */
  lemma FirstEnds(rs: seq<Region>)
    requires Canonical(rs) && rs != []
    ensures At(rs, rs[0].end) != Some(IdentityOf(rs[0]))
  {
    var a := rs[0].end;
    if |rs| > 1 && rs[1].begin == a {
      assert At(rs[1..], a) == Some(IdentityOf(rs[1]));
      assert rs[1 - 1].end == rs[1].begin;
    } else {
      TailOrdered(rs);
      BelowFirst(rs[1..], a);
    }
  }

  lemma TailOrdered(rs: seq<Region>)
    requires rs != []
    ensures Ordered(rs) ==> Ordered(rs[1..])
    ensures Canonical(rs) ==> Canonical(rs[1..])
  {
    assert forall i :: 0 <= i < |rs[1..]| ==> rs[1..][i] == rs[i + 1];
    if Canonical(rs) {
      forall i | 0 < i < |rs[1..]| && rs[1..][i - 1].end == rs[1..][i].begin
        ensures IdentityOf(rs[1..][i - 1]) != IdentityOf(rs[1..][i])
      {
        assert rs[(i + 1) - 1].end == rs[i + 1].begin;
      }
    }
  }

  lemma FirstNotLater(a: seq<Region>, b: seq<Region>)
    requires Canonical(a) && Canonical(b) && a != []
    requires forall x: int :: At(a, x) == At(b, x)
    ensures b != [] && b[0].begin <= a[0].begin
  {
    assert At(a, a[0].begin).Some?;
    if b == [] || a[0].begin < b[0].begin {
      BelowFirst(b, a[0].begin);
      assert false;
    }
  }

  lemma FirstEndsNotLater(a: seq<Region>, b: seq<Region>)
    requires Canonical(a) && Canonical(b) && a != [] && b != [] && a[0].begin == b[0].begin
    requires forall x: int :: At(a, x) == At(b, x)
    ensures IdentityOf(a[0]) == IdentityOf(b[0]) && b[0].end <= a[0].end
  {
    assert At(a, a[0].begin) == At(b, a[0].begin);
    FirstEnds(a);
    assert At(a, a[0].end) == At(b, a[0].end);
  }

  lemma TailAt(rs: seq<Region>, x: int)
    requires Ordered(rs) && rs != []
    ensures At(rs[1..], x) == if x < rs[0].end then None else At(rs, x)
  {
    if x < rs[0].end {
      TailOrdered(rs);
      BelowFirst(rs[1..], x);
    }
  }

  /** Two canonical lists with one address map have the same begins, ends and identities. */
  lemma {:induction false} CanonicalUnique(a: seq<Region>, b: seq<Region>)
    requires Canonical(a) && Canonical(b)
    requires forall x: int :: At(a, x) == At(b, x)
    ensures Skeleton(a) == Skeleton(b)
    decreases |a|
  {
    if a == [] {
      if b != [] { FirstNotLater(b, a); }
    } else {
      FirstNotLater(a, b);
      FirstNotLater(b, a);
      FirstEndsNotLater(a, b);
      FirstEndsNotLater(b, a);
      TailOrdered(a);
      TailOrdered(b);
      forall x: int ensures At(a[1..], x) == At(b[1..], x) {
        TailAt(a, x);
        TailAt(b, x);
      }
      CanonicalUnique(a[1..], b[1..]);
    }
  }

  lemma SameView(a: seq<Region>, b: seq<Region>)
    requires View(a) == View(b)
    ensures forall x: int :: At(a, x) == At(b, x)
  {
    forall x: int ensures At(a, x) == At(b, x) {
      assert x in View(a) <==> x in View(b);
    }
  }

  // ---------------------------------------------------------------- splitting

  ghost predicate BeginFrom(rs: seq<Region>, from: int) {
    forall i :: 0 <= i < |rs| ==> from <= rs[i].begin
  }

  lemma OrderedConcat(x: seq<Region>, y: seq<Region>, bound: int)
    requires Ordered(x) && Ordered(y)
    requires forall i :: 0 <= i < |x| ==> x[i].end <= bound
    requires forall i :: 0 <= i < |y| ==> bound <= y[i].begin
    ensures Ordered(x + y)
  {
  }

  lemma {:induction false} UnmapAllAt(rs: seq<Region>, begin: u64, end: u64, a: int)
    requires begin < end
    ensures At(UnmapAll(rs, begin, end), a) == if begin <= a < end then None else At(rs, a)
  {
    if rs != [] {
      UnmapAllAt(rs[1..], begin, end, a);
      AtConcat(UnmapPieces(rs[0], begin, end), UnmapAll(rs[1..], begin, end), a);
      AtPieces(UnmapPieces(rs[0], begin, end), a);
    }
  }

  /** At most three pieces: unfold the lookup. */
  lemma AtPieces(ps: seq<Region>, a: int)
    requires |ps| <= 3
    ensures At(ps, a) ==
            if |ps| > 0 && Contains(ps[0], a) then Some(IdentityOf(ps[0]))
            else if |ps| > 1 && Contains(ps[1], a) then Some(IdentityOf(ps[1]))
            else if |ps| > 2 && Contains(ps[2], a) then Some(IdentityOf(ps[2]))
            else None
  {
    if |ps| > 0 {
      var t := ps[1..];
      if |t| > 0 {
        assert t[0] == ps[1];
        if |t[1..]| > 0 { assert t[1..][0] == ps[2] && t[1..][1..] == []; }
      }
    }
  }

  /** Pieces of one region in front of regions behind it. */
  lemma PiecesFirst(pieces: seq<Region>, r: Region, later: seq<Region>, from: int)
    requires Ordered(pieces) && BeginFrom(pieces, r.begin) && from <= r.begin < r.end
    requires forall i :: 0 <= i < |pieces| ==> pieces[i].end <= r.end
    requires Ordered(later) && BeginFrom(later, r.end)
    ensures Ordered(pieces + later) && BeginFrom(pieces + later, from)
  {
    OrderedConcat(pieces, later, r.end);
  }

  lemma UnmapPiecesOrdered(r: Region, begin: u64, end: u64)
    requires r.begin < r.end && begin < end
    ensures var ps := UnmapPieces(r, begin, end);
            && Ordered(ps) && BeginFrom(ps, r.begin)
            && forall i :: 0 <= i < |ps| ==> ps[i].end <= r.end
  {
  }

  lemma PartsOrdered(left: seq<Region>, middle: Region, right: seq<Region>, from: int, to: int)
    requires from <= middle.begin < middle.end <= to
    requires left == [] || (|left| == 1 && from <= left[0].begin < left[0].end <= middle.begin)
    requires right == [] || (|right| == 1 && middle.end <= right[0].begin < right[0].end <= to)
    ensures var ps := left + [middle] + right;
            && Ordered(ps) && BeginFrom(ps, from)
            && forall i :: 0 <= i < |ps| ==> ps[i].end <= to
  {
    OrderedConcat(left, [middle], middle.begin);
    OrderedConcat(left + [middle], right, middle.end);
  }

  lemma ProtectPiecesOrdered(r: Region, begin: u64, end: u64, perms: Perms)
    requires r.begin < r.end && begin < end
    ensures var ps := ProtectPieces(r, begin, end, perms);
            && Ordered(ps) && BeginFrom(ps, r.begin)
            && forall i :: 0 <= i < |ps| ==> ps[i].end <= r.end
  {
    if Overlaps(r, begin, end) {
      var left := if r.begin < begin then [r.(end := begin)] else [];
      var right := if end < r.end then [r.(begin := end)] else [];
      var middle := r.(begin := Max(r.begin, begin), end := Min(r.end, end), perms := perms, provenance := "event");
      PartsOrdered(left, middle, right, r.begin, r.end);
      assert ProtectPieces(r, begin, end, perms) == left + [middle] + right;
    }
  }

  lemma {:induction false} UnmapAllOrdered(rs: seq<Region>, begin: u64, end: u64, from: int)
    requires Ordered(rs) && begin < end && BeginFrom(rs, from)
    ensures Ordered(UnmapAll(rs, begin, end)) && BeginFrom(UnmapAll(rs, begin, end), from)
  {
    if rs != [] {
      var pieces, later := UnmapPieces(rs[0], begin, end), UnmapAll(rs[1..], begin, end);
      TailOrdered(rs);
      assert BeginFrom(rs[1..], rs[0].end);
      UnmapAllOrdered(rs[1..], begin, end, rs[0].end);
      UnmapPiecesOrdered(rs[0], begin, end);
      PiecesFirst(pieces, rs[0], later, from);
    }
  }

  function Reprotected(id: Identity, perms: Perms): Identity {
    id.(perms := perms, provenance := "event")
  }

  lemma {:induction false} ProtectAllAt(rs: seq<Region>, begin: u64, end: u64, perms: Perms, a: int)
    requires begin < end
    ensures At(ProtectAll(rs, begin, end, perms), a) ==
            if begin <= a < end && At(rs, a).Some? then Some(Reprotected(At(rs, a).value, perms)) else At(rs, a)
  {
    if rs != [] {
      ProtectAllAt(rs[1..], begin, end, perms, a);
      AtConcat(ProtectPieces(rs[0], begin, end, perms), ProtectAll(rs[1..], begin, end, perms), a);
      AtPieces(ProtectPieces(rs[0], begin, end, perms), a);
    }
  }

  lemma {:induction false} ProtectAllOrdered(rs: seq<Region>, begin: u64, end: u64, perms: Perms, from: int)
    requires Ordered(rs) && begin < end && BeginFrom(rs, from)
    ensures Ordered(ProtectAll(rs, begin, end, perms)) && BeginFrom(ProtectAll(rs, begin, end, perms), from)
  {
    if rs != [] {
      var pieces, later := ProtectPieces(rs[0], begin, end, perms), ProtectAll(rs[1..], begin, end, perms);
      TailOrdered(rs);
      assert BeginFrom(rs[1..], rs[0].end);
      ProtectAllOrdered(rs[1..], begin, end, perms, rs[0].end);
      ProtectPiecesOrdered(rs[0], begin, end, perms);
      PiecesFirst(pieces, rs[0], later, from);
    }
  }

  // ---------------------------------------------------------------- the range operations, address by address

  lemma UnmapRangeAt(rs: seq<Region>, begin: u64, end: u64)
    requires Canonical(rs)
    ensures Canonical(UnmapRange(rs, begin, end))
    ensures forall a: int :: At(UnmapRange(rs, begin, end), a) == if begin <= a < end then None else At(rs, a)
  {
    if begin < end {
      var ps := UnmapAll(rs, begin, end);
      UnmapAllOrdered(rs, begin, end, 0);
      OrderedIsWellFormed(ps);
      SortAndMergeCorrect(ps);
      forall a: int ensures At(UnmapRange(rs, begin, end), a) == if begin <= a < end then None else At(rs, a) {
        UnmapAllAt(rs, begin, end, a);
      }
    }
  }

  lemma ProtectRangeAt(rs: seq<Region>, begin: u64, end: u64, perms: Perms)
    requires Canonical(rs)
    ensures Canonical(ProtectRange(rs, begin, end, perms))
    ensures forall a: int :: At(ProtectRange(rs, begin, end, perms), a) ==
              if begin <= a < end && At(rs, a).Some? then Some(Reprotected(At(rs, a).value, perms)) else At(rs, a)
  {
    if begin < end {
      var ps := ProtectAll(rs, begin, end, perms);
      ProtectAllOrdered(rs, begin, end, perms, 0);
      OrderedIsWellFormed(ps);
      SortAndMergeCorrect(ps);
      forall a: int ensures At(ProtectRange(rs, begin, end, perms), a) ==
          if begin <= a < end && At(rs, a).Some? then Some(Reprotected(At(rs, a).value, perms)) else At(rs, a)
      {
        ProtectAllAt(rs, begin, end, perms, a);
      }
    }
  }

  lemma WellFormedExtend(rs: seq<Region>, r: Region)
    requires WellFormed(rs) && r.begin < r.end && forall i :: 0 <= i < |rs| ==> Apart(rs[i], r)
    ensures WellFormed(rs + [r])
  {
  }

  lemma MapRegionAt(rs: seq<Region>, r: Region)
    requires Canonical(rs)
    ensures Canonical(MapRegion(rs, r))
    ensures forall a: int :: At(MapRegion(rs, r), a) == if Contains(r, a) then Some(IdentityOf(r)) else At(rs, a)
  {
    if r.begin < r.end {
      var base := UnmapRange(rs, r.begin, r.end);
      UnmapRangeAt(rs, r.begin, r.end);
      forall i | 0 <= i < |base| ensures Apart(base[i], r) {
        AtMember(base, Max(base[i].begin, r.begin));
      }
      OrderedIsWellFormed(base);
      WellFormedExtend(base, r);
      SortAndMergeCorrect(base + [r]);
      forall a: int ensures At(MapRegion(rs, r), a) == if Contains(r, a) then Some(IdentityOf(r)) else At(rs, a) {
        AtConcat(base, [r], a);
        assert At([r], a) == if Contains(r, a) then Some(IdentityOf(r)) else None;
      }
    }
  }
}
