/** Aggregation of a snapshot by region key, and the difference of two snapshots. */
module Diff {
  import opened Machine
  import opened Regions
  import opened Strings
  import opened VmaFunctions
  import Sorting

  datatype Bucket = Bucket(size: u64, rssKb: u64, pssKb: u64, count: nat)

  const EMPTY := Bucket(0, 0, 0, 0)

  type Picker = Region -> bool
  type Field = Region -> u64

  /** The field summed, modulo 2^64, over the regions picked. */
  function Sum(rs: seq<Region>, pick: Picker, field: Field): u64 {
    if rs == [] then 0
    else
      var n := |rs| - 1;
      Add64(Sum(rs[..n], pick, field), if pick(rs[n]) then field(rs[n]) else 0)
  }

  function CountIf(rs: seq<Region>, pick: Picker): nat {
    if rs == [] then 0
    else CountIf(rs[..|rs| - 1], pick) + if pick(rs[|rs| - 1]) then 1 else 0
  }

  function Under(key: string): Picker {
    (r: Region) => RegionKey(r) == key
  }

  function SizeField(): Field { (r: Region) => RegionSize(r) }

  function RssField(): Field { (r: Region) => r.rssKb }

  function PssField(): Field { (r: Region) => r.pssKb }

  function BucketOf(rs: seq<Region>, key: string): Bucket {
    Bucket(Sum(rs, Under(key), SizeField()), Sum(rs, Under(key), RssField()),
           Sum(rs, Under(key), PssField()), CountIf(rs, Under(key)))
  }

  /** One region added to its bucket. */
  function AddRegion(b: Bucket, r: Region): Bucket {
    Bucket(Add64(b.size, RegionSize(r)), Add64(b.rssKb, r.rssKb), Add64(b.pssKb, r.pssKb), b.count + 1)
  }

  lemma BucketStep(rs: seq<Region>, r: Region, key: string)
    ensures BucketOf(rs + [r], key) == if RegionKey(r) == key then AddRegion(BucketOf(rs, key), r) else BucketOf(rs, key)
  {
    assert (rs + [r])[..|rs|] == rs;
    assert Under(key)(r) == (RegionKey(r) == key);
  }

  /** The map holds a bucket for exactly the keys that occur. */
  ghost predicate Buckets(m: map<string, Bucket>, rs: seq<Region>) {
    forall key :: BucketOf(rs, key) == (if key in m then m[key] else EMPTY) && (key in m ==> m[key].count > 0)
  }

  method BucketSnapshot(rs: seq<Region>) returns (buckets: map<string, Bucket>)
    ensures Buckets(buckets, rs)
  {
    buckets := map[];
    for i := 0 to |rs|
      invariant Buckets(buckets, rs[..i])
    {
      var r := rs[i];
      var key := RegionKey(r);
      var bucket := if key in buckets then buckets[key] else EMPTY;
      ghost var before, seen := buckets, rs[..i];
      buckets := buckets[key := AddRegion(bucket, r)];
      BucketsStep(before, buckets, seen, r);
      assert rs[..i + 1] == seen + [r];
    }
    assert rs[..|rs|] == rs;
  }

  lemma BucketsStep(m: map<string, Bucket>, after: map<string, Bucket>, rs: seq<Region>, r: Region)
    requires Buckets(m, rs)
    requires after == m[RegionKey(r) := AddRegion(if RegionKey(r) in m then m[RegionKey(r)] else EMPTY, r)]
    ensures Buckets(after, rs + [r])
  {
    forall key
      ensures BucketOf(rs + [r], key) == (if key in after then after[key] else EMPTY)
      ensures key in after ==> after[key].count > 0
    {
      BucketStep(rs, r, key);
    }
  }

  // ---------------------------------------------------------------- differences

  datatype DiffEntry = DiffEntry(key: string, sizeDelta: int, rssDelta: int, pssDelta: int, countDelta: int)

  /** `static_cast<int64_t>` of an unsigned value. */
  function AsI64(x: u64): int {
    if x < TWO64 / 2 then x else x - TWO64
  }

  function Delta(key: string, a: Bucket, b: Bucket): DiffEntry {
    DiffEntry(key, AsI64(b.size) - AsI64(a.size), AsI64(b.rssKb) - AsI64(a.rssKb),
              AsI64(b.pssKb) - AsI64(a.pssKb), b.count - a.count)
  }

  predicate Changed(e: DiffEntry) {
    e.sizeDelta != 0 || e.rssDelta != 0 || e.pssDelta != 0 || e.countDelta != 0
  }

  function Abs(x: int): int {
    if x < 0 then -x else x
  }

  /** Largest change of size first, then by key. */
  function DiffLess(): (DiffEntry, DiffEntry) -> bool {
    (l: DiffEntry, r: DiffEntry) =>
      if Abs(l.sizeDelta) != Abs(r.sizeDelta) then Abs(l.sizeDelta) > Abs(r.sizeDelta) else StringLess(l.key, r.key)
  }

  /** The order of the growth report: largest resident growth, then largest size growth, then by key. */
  function GrowthLess(): (DiffEntry, DiffEntry) -> bool {
    (l: DiffEntry, r: DiffEntry) =>
      if l.rssDelta != r.rssDelta then l.rssDelta > r.rssDelta
      else if l.sizeDelta != r.sizeDelta then l.sizeDelta > r.sizeDelta
      else StringLess(l.key, r.key)
  }

  /** The entries are exactly the keys that changed, with how much. */
  ghost predicate ListsChanges(before: seq<Region>, after: seq<Region>, d: seq<DiffEntry>) {
    forall e :: e in d <==> e == Delta(e.key, BucketOf(before, e.key), BucketOf(after, e.key)) && Changed(e)
  }

  /** One entry for every key that changed, in order. */
  ghost predicate IsDiff(before: seq<Region>, after: seq<Region>, d: seq<DiffEntry>) {
    Sorting.Ascending(DiffLess(), d) && ListsChanges(before, after, d)
  }

  /** An order that decides any two entries of different keys. */
  ghost predicate EntryOrder(less: (DiffEntry, DiffEntry) -> bool) {
    && Sorting.StrictWeak(less)
    && forall x: DiffEntry, y: DiffEntry :: x.key != y.key ==> less(x, y) || less(y, x)
  }

  lemma EntryOrders()
    ensures EntryOrder(DiffLess()) && EntryOrder(GrowthLess())
  {
    StringOrder();
  }

  /** Entries gathered for the keys in `done`, each key once. */
  ghost predicate Gathered(before: seq<Region>, after: seq<Region>, d: seq<DiffEntry>, done: set<string>) {
    && (forall i, j :: 0 <= i < j < |d| ==> d[i].key != d[j].key)
    && forall e :: e in d <==>
         e.key in done && e == Delta(e.key, BucketOf(before, e.key), BucketOf(after, e.key)) && Changed(e)
  }

  lemma GatheredOneMore(before: seq<Region>, after: seq<Region>, d: seq<DiffEntry>, done: set<string>, key: string)
    requires Gathered(before, after, d, done) && key !in done
    ensures var e := Delta(key, BucketOf(before, key), BucketOf(after, key));
            Gathered(before, after, if Changed(e) then d + [e] else d, done + {key})
  {
    assert forall i :: 0 <= i < |d| ==> d[i] in d && d[i].key in done;
  }

  method DiffSnapshots(before: seq<Region>, after: seq<Region>) returns (d: seq<DiffEntry>)
    ensures IsDiff(before, after, d)
  {
    var left := BucketSnapshot(before);
    var right := BucketSnapshot(after);
    var unsorted := CollectDeltas(left, right, before, after);
    d := Sorting.InsertSort(DiffLess(), unsorted);
    EntryOrders();
    SortedDiff(DiffLess(), before, after, unsorted, d, left.Keys + right.Keys);
  }

  /** The growth detector's use of the same buckets, under its own order. */
  method DiffBuckets(first: seq<Region>, last: seq<Region>) returns (d: seq<DiffEntry>)
    ensures Sorting.Ascending(GrowthLess(), d) && ListsChanges(first, last, d)
  {
    var before := BucketSnapshot(first);
    var after := BucketSnapshot(last);
    var unsorted := CollectDeltas(before, after, first, last);
    d := Sorting.InsertSort(GrowthLess(), unsorted);
    EntryOrders();
    SortedDiff(GrowthLess(), first, last, unsorted, d, before.Keys + after.Keys);
  }

  method CollectDeltas(left: map<string, Bucket>, right: map<string, Bucket>,
                       ghost before: seq<Region>, ghost after: seq<Region>) returns (d: seq<DiffEntry>)
    requires Buckets(left, before) && Buckets(right, after)
    ensures Gathered(before, after, d, left.Keys + right.Keys)
  {
    var rest := left.Keys + right.Keys;
    d := [];
    ghost var done: set<string> := {};
    while rest != {}
      invariant rest + done == left.Keys + right.Keys && rest !! done
      invariant Gathered(before, after, d, done)
      decreases rest
    {
      var key :| key in rest;
      var a := if key in left then left[key] else EMPTY;
      var b := if key in right then right[key] else EMPTY;
      var e := Delta(key, a, b);
      assert a == BucketOf(before, key) && b == BucketOf(after, key);
      GatheredOneMore(before, after, d, done, key);
      if Changed(e) {
        d := d + [e];
      }
      rest, done := rest - {key}, done + {key};
    }
    assert done == left.Keys + right.Keys;
  }

  lemma SortedDiff(less: (DiffEntry, DiffEntry) -> bool, before: seq<Region>, after: seq<Region>,
                   unsorted: seq<DiffEntry>, d: seq<DiffEntry>, keys: set<string>)
    requires EntryOrder(less)
    requires Gathered(before, after, unsorted, keys) && d == Sorting.SortBy(less, unsorted)
    requires forall key :: key !in keys ==> BucketOf(before, key) == EMPTY == BucketOf(after, key)
    ensures Sorting.Ascending(less, d) && ListsChanges(before, after, d)
  {
    Sorting.SortSorts(less, unsorted);
    Sorting.SortPermutes(less, unsorted);
    Sorting.SameElements(d, unsorted);
    forall i, j | 0 <= i < j < |d| ensures less(d[i], d[j]) {
      Sorting.KeysStayDistinct((e: DiffEntry) => e.key, unsorted, d, i, j);
    }
  }

  // ---------------------------------------------------------------- laws of differences

  /** A snapshot does not differ from itself. */
  lemma DiffOfSame(rs: seq<Region>, d: seq<DiffEntry>)
    requires IsDiff(rs, rs, d)
    ensures d == []
  {
    assert multiset(d) == multiset{};
    assert |d| == |multiset(d)|;
  }

  function Negate(e: DiffEntry): DiffEntry {
    DiffEntry(e.key, -e.sizeDelta, -e.rssDelta, -e.pssDelta, -e.countDelta)
  }

  function Negated(d: seq<DiffEntry>): (n: seq<DiffEntry>)
    ensures |n| == |d|
  {
    seq(|d|, i requires 0 <= i < |d| => Negate(d[i]))
  }

  /** Swapping the snapshots negates every entry and keeps the order. */
  lemma DiffOfSwapped(a: seq<Region>, b: seq<Region>, d: seq<DiffEntry>, e: seq<DiffEntry>)
    requires IsDiff(a, b, d) && IsDiff(b, a, e)
    ensures e == Negated(d)
  {
    EntryOrders();
    NegatedAscends(d);
    forall x ensures x in Negated(d) <==> x in e {
      NegatedMember(d, x);
      assert Negate(Negate(x)) == x;
    }
    Sorting.AscendingUnique(DiffLess(), e, Negated(d));
  }

  lemma NegatedAscends(d: seq<DiffEntry>)
    requires Sorting.Ascending(DiffLess(), d)
    ensures Sorting.Ascending(DiffLess(), Negated(d))
  {
    var n := Negated(d);
    forall i, j | 0 <= i < j < |n| ensures DiffLess()(n[i], n[j]) {
      assert DiffLess()(d[i], d[j]);
    }
  }

  lemma NegatedMember(d: seq<DiffEntry>, x: DiffEntry)
    ensures x in Negated(d) <==> Negate(x) in d
  {
    if Negate(x) in d {
      var i :| 0 <= i < |d| && d[i] == Negate(x);
      assert Negated(d)[i] == x;
    }
  }

  /** The entry listed for a key, or no change. */
  function EntryFor(d: seq<DiffEntry>, key: string): DiffEntry {
    if d == [] then DiffEntry(key, 0, 0, 0, 0)
    else if d[0].key == key then d[0]
    else EntryFor(d[1..], key)
  }

  lemma {:induction false} EntryForMember(d: seq<DiffEntry>, key: string)
    ensures EntryFor(d, key) in d || EntryFor(d, key) == DiffEntry(key, 0, 0, 0, 0)
    ensures EntryFor(d, key).key == key
    ensures (exists e :: e in d && e.key == key) ==> EntryFor(d, key) in d
  {
    if d != [] && d[0].key != key {
      EntryForMember(d[1..], key);
      assert forall e :: e in d <==> e == d[0] || e in d[1..];
    }
  }

  lemma EntryIsDelta(a: seq<Region>, b: seq<Region>, d: seq<DiffEntry>, key: string)
    requires ListsChanges(a, b, d)
    ensures EntryFor(d, key) == Delta(key, BucketOf(a, key), BucketOf(b, key))
  {
    var e := Delta(key, BucketOf(a, key), BucketOf(b, key));
    EntryForMember(d, key);
    if Changed(e) {
      assert e in d;
    }
  }

  /** Over three snapshots the differences of each key add up. */
  lemma DiffsTelescope(a: seq<Region>, b: seq<Region>, c: seq<Region>,
                       ab: seq<DiffEntry>, bc: seq<DiffEntry>, ac: seq<DiffEntry>, key: string)
    requires ListsChanges(a, b, ab) && ListsChanges(b, c, bc) && ListsChanges(a, c, ac)
    ensures var x, y, z := EntryFor(ab, key), EntryFor(bc, key), EntryFor(ac, key);
            && x.sizeDelta + y.sizeDelta == z.sizeDelta && x.rssDelta + y.rssDelta == z.rssDelta
            && x.pssDelta + y.pssDelta == z.pssDelta && x.countDelta + y.countDelta == z.countDelta
  {
    EntryIsDelta(a, b, ab, key);
    EntryIsDelta(b, c, bc, key);
    EntryIsDelta(a, c, ac, key);
  }

  // ---------------------------------------------------------------- what the numbers mean

  /** The signed number a 64-bit word stands for. */
  predicate ReadsAs(word: u64, n: int) {
    -0x8000_0000_0000_0000 <= n < 0x8000_0000_0000_0000 && (n == word || n == word - TWO64)
  }

  /** The earlier value and the delta give the later value: modulo 2^64, and as signed words exactly. */
  ghost predicate LeadsTo(earlier: u64, delta: int, later: u64) {
    && (earlier + delta) % TWO64 == later
    && (forall m, n :: ReadsAs(earlier, m) && ReadsAs(later, n) ==> m + delta == n)
    && (earlier < 0x8000_0000_0000_0000 && later < 0x8000_0000_0000_0000 ==> earlier + delta == later)
  }

  lemma SignedDifference(a: u64, b: u64)
    ensures LeadsTo(a, AsI64(b) - AsI64(a), b)
  {
    var sum := a + (AsI64(b) - AsI64(a));
    assert sum == b || sum == b + TWO64 || sum == b - TWO64;
  }

  /** In every field the earlier bucket plus the listed change is the later bucket. */
  lemma ChangeLeadsTo(a: seq<Region>, b: seq<Region>, d: seq<DiffEntry>, key: string)
    requires ListsChanges(a, b, d)
    ensures var e, x, y := EntryFor(d, key), BucketOf(a, key), BucketOf(b, key);
            && LeadsTo(x.size, e.sizeDelta, y.size) && LeadsTo(x.rssKb, e.rssDelta, y.rssKb)
            && LeadsTo(x.pssKb, e.pssDelta, y.pssKb) && x.count + e.countDelta == y.count
  {
    EntryIsDelta(a, b, d, key);
    BucketLeadsTo(key, BucketOf(a, key), BucketOf(b, key));
  }

  lemma BucketLeadsTo(key: string, x: Bucket, y: Bucket)
    ensures var e := Delta(key, x, y);
            && LeadsTo(x.size, e.sizeDelta, y.size) && LeadsTo(x.rssKb, e.rssDelta, y.rssKb)
            && LeadsTo(x.pssKb, e.pssDelta, y.pssKb) && x.count + e.countDelta == y.count
  {
    SignedDifference(x.size, y.size);
    SignedDifference(x.rssKb, y.rssKb);
    SignedDifference(x.pssKb, y.pssKb);
  }

  /** A key that only the second snapshot has is listed as growth. */
  lemma NewKeyGrows(a: seq<Region>, b: seq<Region>, d: seq<DiffEntry>, i: nat)
    requires ListsChanges(a, b, d) && i < |b|
    requires forall j :: 0 <= j < |a| ==> RegionKey(a[j]) != RegionKey(b[i])
    requires 0 < BucketOf(b, RegionKey(b[i])).size < 0x8000_0000_0000_0000
    ensures exists e :: e in d && e.key == RegionKey(b[i]) && e.sizeDelta > 0 && e.countDelta > 0
  {
    var key := RegionKey(b[i]);
    var e := EntryFor(d, key);
    KeyAbsent(a, key);
    PresentCounts(b, i);
    ChangeLeadsTo(a, b, d, key);
    EntryForMember(d, key);
    assert e.sizeDelta > 0 && e in d;
  }

  lemma {:induction false} KeyAbsent(rs: seq<Region>, key: string)
    requires forall i :: 0 <= i < |rs| ==> RegionKey(rs[i]) != key
    ensures BucketOf(rs, key) == EMPTY
  {
    if rs != [] {
      KeyAbsent(rs[..|rs| - 1], key);
    }
  }

  /** The bucket of one region: its size, its resident and proportional sizes, and one. */
  lemma OneRegionBucket(r: Region, key: string)
    ensures BucketOf([r], key) == if RegionKey(r) != key then EMPTY
                                  else Bucket(Max(r.end - r.begin, 0), r.rssKb, r.pssKb, 1)
  {
    assert BucketOf([], key) == EMPTY;
    BucketStep([], r, key);
    assert [] + [r] == [r];
  }

  predicate IsSum(a: u64, b: u64, c: u64) {
    c == (a + b) % TWO64
  }

  /** The buckets of two lists together are the sums, modulo 2^64, of their buckets. */
  lemma BucketsAdd(x: seq<Region>, y: seq<Region>, key: string)
    ensures var a, b, c := BucketOf(x, key), BucketOf(y, key), BucketOf(x + y, key);
            && IsSum(a.size, b.size, c.size) && IsSum(a.rssKb, b.rssKb, c.rssKb)
            && IsSum(a.pssKb, b.pssKb, c.pssKb) && c.count == a.count + b.count
  {
    var pick := Under(key);
    SumAdds(x, y, pick, SizeField());
    SumAdds(x, y, pick, RssField());
    SumAdds(x, y, pick, PssField());
    CountConcat(x, y, pick);
  }

  lemma SumAdds(x: seq<Region>, y: seq<Region>, pick: Picker, field: Field)
    ensures IsSum(Sum(x, pick, field), Sum(y, pick, field), Sum(x + y, pick, field))
  {
    SumConcat(x, y, pick, field);
  }

  lemma {:induction false} CountConcat(x: seq<Region>, y: seq<Region>, pick: Picker)
    ensures CountIf(x + y, pick) == CountIf(x, pick) + CountIf(y, pick)
    decreases |y|
  {
    if y == [] {
      assert x + y == x;
    } else {
      assert (x + y)[..|x + y| - 1] == x + y[..|y| - 1];
      CountConcat(x, y[..|y| - 1], pick);
    }
  }

  /** The larger change first, whichever way it goes; ties by key. */
  lemma DiffOrder(a: seq<Region>, b: seq<Region>, d: seq<DiffEntry>)
    requires IsDiff(a, b, d)
    ensures forall i, j :: 0 <= i < j < |d| ==>
              var x, y := Max(d[i].sizeDelta, -d[i].sizeDelta), Max(d[j].sizeDelta, -d[j].sizeDelta);
              x > y || (x == y && StringLess(d[i].key, d[j].key))
  {
    forall i, j | 0 <= i < j < |d|
      ensures var x, y := Max(d[i].sizeDelta, -d[i].sizeDelta), Max(d[j].sizeDelta, -d[j].sizeDelta);
              x > y || (x == y && StringLess(d[i].key, d[j].key))
    {
      assert DiffLess()(d[i], d[j]);
    }
  }

  /** The larger growth first: resident, then in size; ties by key. */
  lemma GrowthOrder(d: seq<DiffEntry>)
    requires Sorting.Ascending(GrowthLess(), d)
    ensures forall i, j :: 0 <= i < j < |d| ==>
              || d[i].rssDelta > d[j].rssDelta
              || (d[i].rssDelta == d[j].rssDelta && d[i].sizeDelta > d[j].sizeDelta)
              || (d[i].rssDelta == d[j].rssDelta && d[i].sizeDelta == d[j].sizeDelta
                  && StringLess(d[i].key, d[j].key))
  {
    forall i, j | 0 <= i < j < |d| ensures GrowthLess()(d[i], d[j]) {}
  }

  // ---------------------------------------------------------------- merging keeps the buckets

  lemma {:induction false} SumConcat(x: seq<Region>, y: seq<Region>, pick: Picker, field: Field)
    ensures Sum(x + y, pick, field) == Add64(Sum(x, pick, field), Sum(y, pick, field))
    decreases |y|
  {
    if y == [] {
      assert x + y == x;
    } else {
      var n := |y| - 1;
      SumConcat(x, y[..n], pick, field);
      assert (x + y)[..|x| + n] == x + y[..n];
    }
  }

  lemma SumOne(r: Region, pick: Picker, field: Field)
    ensures Sum([r], pick, field) == if pick(r) then field(r) else 0
  {
    assert [r][..0] == [];
  }

  lemma {:induction false} InsertKeepsSum(x: Region, s: seq<Region>, pick: Picker, field: Field)
    ensures Sum(Sorting.InsertBy(BeginLess(), x, s), pick, field) == Sum([x] + s, pick, field)
  {
    if s != [] && s[0].begin < x.begin {
      var rest := s[1..];
      InsertKeepsSum(x, rest, pick, field);
      SumConcat([s[0]], Sorting.InsertBy(BeginLess(), x, rest), pick, field);
      SumConcat([x], rest, pick, field);
      SumConcat([s[0]], rest, pick, field);
      SumConcat([x], s, pick, field);
      assert [s[0]] + rest == s;
    }
  }

  lemma {:induction false} SortKeepsSum(rs: seq<Region>, pick: Picker, field: Field)
    ensures Sum(Sorting.SortBy(BeginLess(), rs), pick, field) == Sum(rs, pick, field)
  {
    if rs != [] {
      var rest := Sorting.SortBy(BeginLess(), rs[1..]);
      SortKeepsSum(rs[1..], pick, field);
      InsertKeepsSum(rs[0], rest, pick, field);
      SumConcat([rs[0]], rest, pick, field);
      SumConcat([rs[0]], rs[1..], pick, field);
      assert [rs[0]] + rs[1..] == rs;
    }
  }

  /** Joining these two keeps the sum, and the pick sees no difference. */
  ghost predicate JoinAdds(pick: Picker, field: Field, l: Region, r: Region) {
    Joinable(l, r) && l.begin < l.end && r.begin < r.end ==>
      pick(Join(l, r)) == pick(l) == pick(r) && field(Join(l, r)) == Add64(field(l), field(r))
  }

  lemma AddAssociative(a: u64, b: u64, c: u64)
    ensures Add64(Add64(a, b), c) == Add64(a, Add64(b, c))
  {
  }

  lemma AppendKeepsSum(m: seq<Region>, r: Region, pick: Picker, field: Field)
    requires r.begin < r.end && (m != [] ==> m[|m| - 1].begin < m[|m| - 1].end)
    requires m != [] ==> JoinAdds(pick, field, m[|m| - 1], r)
    ensures Sum(Append(m, r), pick, field) == Sum(m + [r], pick, field)
  {
    var k := |m| - 1;
    if m != [] && Joinable(m[k], r) {
      var front, joined := m[..k], Join(m[k], r);
      SumConcat(front, [joined], pick, field);
      SumOne(joined, pick, field);
      SumConcat(m, [r], pick, field);
      SumOne(r, pick, field);
      assert Sum(m, pick, field) == Add64(Sum(front, pick, field), if pick(m[k]) then field(m[k]) else 0);
      AddAssociative(Sum(front, pick, field), field(m[k]), field(r));
    }
  }

  lemma AppendLast(m: seq<Region>, r: Region)
    requires r.begin < r.end && (m != [] ==> m[|m| - 1].begin < m[|m| - 1].end)
    ensures var next := Append(m, r); next != [] && next[|next| - 1].begin < next[|next| - 1].end
  {
  }

  lemma MergeStep(m: seq<Region>, rs: seq<Region>, pick: Picker, field: Field)
    requires rs != [] && rs[0].begin < rs[0].end && (m != [] ==> m[|m| - 1].begin < m[|m| - 1].end)
    requires m != [] ==> JoinAdds(pick, field, m[|m| - 1], rs[0])
    ensures Sum(Append(m, rs[0]) + rs[1..], pick, field) == Sum(m + rs, pick, field)
  {
    SplitFirst(m, rs);
    AppendKeepsSum(m, rs[0], pick, field);
    SameSumThen(Append(m, rs[0]), m + [rs[0]], rs[1..], pick, field);
  }

  lemma SplitFirst<T>(m: seq<T>, rs: seq<T>)
    requires rs != []
    ensures m + [rs[0]] + rs[1..] == m + rs
  {
  }

  lemma SameSumThen(x: seq<Region>, y: seq<Region>, rest: seq<Region>, pick: Picker, field: Field)
    requires Sum(x, pick, field) == Sum(y, pick, field)
    ensures Sum(x + rest, pick, field) == Sum(y + rest, pick, field)
  {
    SumConcat(x, rest, pick, field);
    SumConcat(y, rest, pick, field);
  }

  lemma {:induction false} MergeKeepsSum(m: seq<Region>, rs: seq<Region>, pick: Picker, field: Field)
    requires forall l: Region, r: Region :: JoinAdds(pick, field, l, r)
    requires m != [] ==> m[|m| - 1].begin < m[|m| - 1].end
    requires forall i :: 0 <= i < |rs| ==> rs[i].begin < rs[i].end
    ensures Sum(MergeInto(m, rs), pick, field) == Sum(m + rs, pick, field)
    decreases |rs|
  {
    if rs == [] {
      assert m + rs == m;
    } else {
      MergeStep(m, rs, pick, field);
      AppendLast(m, rs[0]);
      MergeKeepsSum(Append(m, rs[0]), rs[1..], pick, field);
    }
  }

  lemma SameKey(l: Region, r: Region)
    requires SameMappingIdentity(l, r)
    ensures RegionKey(l) == RegionKey(r) == RegionKey(Join(l, r))
  {
  }

  lemma FieldsJoin(key: string, l: Region, r: Region)
    ensures JoinAdds(Under(key), SizeField(), l, r)
    ensures JoinAdds(Under(key), RssField(), l, r)
    ensures JoinAdds(Under(key), PssField(), l, r)
  {
    if Joinable(l, r) {
      SameKey(l, r);
    }
  }

  lemma SortKeepsNonEmpty(rs: seq<Region>, s: seq<Region>)
    requires forall i :: 0 <= i < |rs| ==> rs[i].begin < rs[i].end
    requires s == Sorting.SortBy(BeginLess(), rs)
    ensures forall i :: 0 <= i < |s| ==> s[i].begin < s[i].end
  {
    Sorting.SortPermutes(BeginLess(), rs);
    Sorting.SameElements(s, rs);
    forall i | 0 <= i < |s| ensures s[i].begin < s[i].end {
      assert s[i] in rs;
    }
  }

  lemma MergeKeepsField(rs: seq<Region>, pick: Picker, field: Field)
    requires forall l: Region, r: Region :: JoinAdds(pick, field, l, r)
    requires forall i :: 0 <= i < |rs| ==> rs[i].begin < rs[i].end
    ensures Sum(SortAndMerge(rs), pick, field) == Sum(rs, pick, field)
  {
    var s := Sorting.SortBy(BeginLess(), rs);
    SortKeepsNonEmpty(rs, s);
    MergeKeepsSum([], s, pick, field);
    assert [] + s == s;
    SortKeepsSum(rs, pick, field);
  }

  /** Sorting and merging changes no bucket's size, resident or proportional total. */
  lemma MergeKeepsBuckets(rs: seq<Region>, key: string)
    requires forall i :: 0 <= i < |rs| ==> rs[i].begin < rs[i].end
    ensures var a, b := BucketOf(SortAndMerge(rs), key), BucketOf(rs, key);
            a.size == b.size && a.rssKb == b.rssKb && a.pssKb == b.pssKb
  {
    forall l: Region, r: Region
      ensures JoinAdds(Under(key), SizeField(), l, r)
      ensures JoinAdds(Under(key), RssField(), l, r)
      ensures JoinAdds(Under(key), PssField(), l, r)
    {
      FieldsJoin(key, l, r);
    }
    MergeKeepsField(rs, Under(key), SizeField());
    MergeKeepsField(rs, Under(key), RssField());
    MergeKeepsField(rs, Under(key), PssField());
  }

  // ---------------------------------------------------------------- the summary

  datatype SummaryEntry = SummaryEntry(key: string, bucket: Bucket)

  function SummaryLess(): (SummaryEntry, SummaryEntry) -> bool {
    (l: SummaryEntry, r: SummaryEntry) =>
      if l.bucket.size != r.bucket.size then l.bucket.size > r.bucket.size else StringLess(l.key, r.key)
  }

  function SummarySize(s: seq<SummaryEntry>): u64 {
    if s == [] then 0 else Add64(s[0].bucket.size, SummarySize(s[1..]))
  }

  function Everything(): Picker { (r: Region) => true }

  function Among(keys: set<string>): Picker {
    (r: Region) => RegionKey(r) in keys
  }

  lemma {:induction false} InsertKeepsSize(e: SummaryEntry, s: seq<SummaryEntry>)
    ensures SummarySize(Sorting.InsertBy(SummaryLess(), e, s)) == Add64(e.bucket.size, SummarySize(s))
  {
    if s != [] && SummaryLess()(s[0], e) {
      InsertKeepsSize(e, s[1..]);
    }
  }

  lemma {:induction false} SortKeepsSize(s: seq<SummaryEntry>)
    ensures SummarySize(Sorting.SortBy(SummaryLess(), s)) == SummarySize(s)
  {
    if s != [] {
      SortKeepsSize(s[1..]);
      InsertKeepsSize(s[0], Sorting.SortBy(SummaryLess(), s[1..]));
    }
  }

  lemma {:induction false} SummaryAppend(s: seq<SummaryEntry>, e: SummaryEntry)
    ensures SummarySize(s + [e]) == Add64(SummarySize(s), e.bucket.size)
  {
    if s == [] {
      assert [e][1..] == [];
    } else {
      assert (s + [e])[1..] == s[1..] + [e];
      SummaryAppend(s[1..], e);
    }
  }

  lemma {:induction false} AmongOneMore(rs: seq<Region>, keys: set<string>, key: string)
    requires key !in keys
    ensures Sum(rs, Among(keys + {key}), SizeField())
            == Add64(Sum(rs, Among(keys), SizeField()), Sum(rs, Under(key), SizeField()))
  {
    if rs != [] {
      AmongOneMore(rs[..|rs| - 1], keys, key);
    }
  }

  lemma {:induction false} SamePicks(rs: seq<Region>, p: Picker, q: Picker, field: Field)
    requires forall i :: 0 <= i < |rs| ==> p(rs[i]) == q(rs[i])
    ensures Sum(rs, p, field) == Sum(rs, q, field)
  {
    if rs != [] {
      SamePicks(rs[..|rs| - 1], p, q, field);
    }
  }

  lemma {:induction false} NothingPicked(rs: seq<Region>, field: Field)
    ensures Sum(rs, Among({}), field) == 0
  {
    if rs != [] {
      NothingPicked(rs[..|rs| - 1], field);
    }
  }

  lemma {:induction false} PresentCounts(rs: seq<Region>, i: nat)
    requires i < |rs|
    ensures CountIf(rs, Under(RegionKey(rs[i]))) > 0
  {
    if i < |rs| - 1 {
      PresentCounts(rs[..|rs| - 1], i);
    }
  }

  /** The sizes listed add up to the size of all regions. */
  method SummarizeSnapshot(rs: seq<Region>) returns (entries: seq<SummaryEntry>)
    ensures forall e :: e in entries <==> e.bucket == BucketOf(rs, e.key) && e.bucket.count > 0
    ensures Sorting.Ascending(SummaryLess(), entries)
    ensures SummarySize(entries) == Sum(rs, Everything(), SizeField())
  {
    var buckets := BucketSnapshot(rs);
    var unsorted := ListBuckets(buckets, rs);
    SummaryComplete(buckets, rs, unsorted);
    entries := Sorting.InsertSort(SummaryLess(), unsorted);
    SortedSummary(unsorted, entries);
  }

  lemma SortedSummary(unsorted: seq<SummaryEntry>, sorted: seq<SummaryEntry>)
    requires DistinctKeys(unsorted) && sorted == Sorting.SortBy(SummaryLess(), unsorted)
    ensures forall e :: e in sorted <==> e in unsorted
    ensures Sorting.Ascending(SummaryLess(), sorted) && SummarySize(sorted) == SummarySize(unsorted)
  {
    Sorting.SortPermutes(SummaryLess(), unsorted);
    Sorting.SameElements(sorted, unsorted);
    SortKeepsSize(unsorted);
    StringOrder();
    Sorting.SortSorts(SummaryLess(), unsorted);
    forall i, j | 0 <= i < j < |sorted| ensures SummaryLess()(sorted[i], sorted[j]) {
      Sorting.KeysStayDistinct((e: SummaryEntry) => e.key, unsorted, sorted, i, j);
    }
  }

  /** The larger bucket first; ties by key. */
  lemma SummaryOrder(s: seq<SummaryEntry>)
    requires Sorting.Ascending(SummaryLess(), s)
    ensures forall i, j :: 0 <= i < j < |s| ==>
              || s[i].bucket.size > s[j].bucket.size
              || (s[i].bucket.size == s[j].bucket.size && StringLess(s[i].key, s[j].key))
  {
    forall i, j | 0 <= i < j < |s| ensures SummaryLess()(s[i], s[j]) {}
  }

  ghost predicate DistinctKeys(s: seq<SummaryEntry>) {
    forall i, j :: 0 <= i < j < |s| ==> s[i].key != s[j].key
  }

  method ListBuckets(buckets: map<string, Bucket>, ghost rs: seq<Region>) returns (s: seq<SummaryEntry>)
    requires Buckets(buckets, rs)
    ensures forall e :: e in s <==> e.key in buckets && e.bucket == buckets[e.key]
    ensures DistinctKeys(s)
    ensures SummarySize(s) == Sum(rs, Among(buckets.Keys), SizeField())
  {
    var rest := buckets.Keys;
    s := [];
    ghost var done: set<string> := {};
    NothingPicked(rs, SizeField());
    while rest != {}
      invariant rest + done == buckets.Keys && rest !! done
      invariant forall e :: e in s <==> e.key in done && e.bucket == buckets[e.key]
      invariant DistinctKeys(s)
      invariant SummarySize(s) == Sum(rs, Among(done), SizeField())
      decreases rest
    {
      var key :| key in rest;
      var e := SummaryEntry(key, buckets[key]);
      SummaryAppend(s, e);
      AmongOneMore(rs, done, key);
      assert e.bucket == BucketOf(rs, key);
      assert forall i :: 0 <= i < |s| ==> s[i] in s;
      s := s + [e];
      rest, done := rest - {key}, done + {key};
    }
    assert done == buckets.Keys;
  }

  lemma SummaryComplete(buckets: map<string, Bucket>, rs: seq<Region>, s: seq<SummaryEntry>)
    requires Buckets(buckets, rs)
    requires forall e :: e in s <==> e.key in buckets && e.bucket == buckets[e.key]
    requires SummarySize(s) == Sum(rs, Among(buckets.Keys), SizeField())
    ensures forall e :: e in s <==> e.bucket == BucketOf(rs, e.key) && e.bucket.count > 0
    ensures SummarySize(s) == Sum(rs, Everything(), SizeField())
  {
    forall i | 0 <= i < |rs| ensures Among(buckets.Keys)(rs[i]) == Everything()(rs[i]) {
      PresentCounts(rs, i);
      assert BucketOf(rs, RegionKey(rs[i])).count > 0;
    }
    SamePicks(rs, Among(buckets.Keys), Everything(), SizeField());
  }
}
