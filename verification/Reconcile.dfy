/** An observed snapshot checked against the kernel's own list of mappings. */
module Reconcile {
  import opened Machine
  import opened Regions
  import opened Strings
  import opened RegionNames
  import Sorting

  type RangeKey = (u64, u64)
  type Index<K, V> = map<K, V>

  function RangeOf(r: Region): RangeKey { (r.begin, r.end) }

  /** Non-empty regions by range; of several with one range the last stands. */
  function IndexOf(rs: seq<Region>): Index<RangeKey, Region> {
    if rs == [] then map[]
    else
      var n := |rs| - 1;
      var before := IndexOf(rs[..n]);
      if rs[n].end > rs[n].begin then before[RangeOf(rs[n]) := rs[n]] else before
  }

  method IndexRegions(rs: seq<Region>) returns (index: Index<RangeKey, Region>)
    ensures index == IndexOf(rs)
  {
    index := map[];
    for i := 0 to |rs|
      invariant index == IndexOf(rs[..i])
    {
      assert rs[..i + 1][..i] == rs[..i];
      if rs[i].end > rs[i].begin {
        index := index[RangeOf(rs[i]) := rs[i]];
      }
    }
    assert rs[..|rs|] == rs;
  }

  function DescribeRegion(r: Region): string {
    KindName(r.kind) + " " + PermsString(r.perms) + " " + SourceKey(r)
    + if r.labelText != "" && r.labelText != r.source.path then " label=" + r.labelText else ""
  }

  predicate SameMetadata(observed: Region, truth: Region) {
    && observed.kind == truth.kind
    && PermsString(observed.perms) == PermsString(truth.perms)
    && SourceKey(observed) == SourceKey(truth)
  }

  /** Regions agree exactly when kind, all four permissions and the source name do. */
  lemma SameMetadataMeans(observed: Region, truth: Region)
    ensures SameMetadata(observed, truth) <==>
              && observed.kind == truth.kind && observed.perms == truth.perms
              && SourceKey(observed) == SourceKey(truth)
  {
    PermsDiffer(observed.perms, truth.perms);
  }

  /** A description shows kind and permissions. */
  lemma DescriptionsDiffer(l: Region, r: Region)
    requires DescribeRegion(l) == DescribeRegion(r)
    ensures l.kind == r.kind && l.perms == r.perms
  {
    KindNamesDiffer(l.kind, r.kind);
    KindNamesDiffer(r.kind, l.kind);
    PermsDiffer(l.perms, r.perms);
    PermsDiffer(r.perms, l.perms);
    var x, y := DescribeSource(l), DescribeSource(r);
    DescriptionParts(l);
    DescriptionParts(r);
    SplitUnique(' ', KindName(l.kind), KindName(r.kind),
                PermsString(l.perms) + ([' '] + x), PermsString(r.perms) + ([' '] + y));
    SplitUnique(' ', PermsString(l.perms), PermsString(r.perms), x, y);
  }

  function DescribeSource(r: Region): string {
    SourceKey(r) + if r.labelText != "" && r.labelText != r.source.path then " label=" + r.labelText else ""
  }

  lemma DescriptionParts(r: Region)
    ensures DescribeRegion(r) == KindName(r.kind) + ([' '] + (PermsString(r.perms) + ([' '] + DescribeSource(r))))
  {
  }

  /** The region indexed for a range is the last non-empty one that has it. */
  lemma {:induction false} IndexHolds(rs: seq<Region>, k: RangeKey)
    ensures k in IndexOf(rs) <==> exists i :: HasRange(rs, i, k)
    ensures forall i :: HasRange(rs, i, k) && (forall j :: i < j < |rs| ==> !HasRange(rs, j, k)) ==>
              k in IndexOf(rs) && IndexOf(rs)[k] == rs[i]
  {
    if rs != [] {
      var n := |rs| - 1;
      IndexHolds(rs[..n], k);
      forall i ensures HasRange(rs, i, k) <==> if i == n then HasRange(rs, n, k) else HasRange(rs[..n], i, k) {}
      if HasRange(rs, n, k) {
        assert RangeOf(rs[n]) == k;
      }
    }
  }

  predicate HasRange(rs: seq<Region>, i: int, k: RangeKey) {
    0 <= i < |rs| && rs[i].begin == k.0 && rs[i].end == k.1 && k.0 < k.1
  }

  /** How entries are compared and described. */
  datatype Policy<!V> = Policy(same: (V, V) -> bool, describe: V -> string)

  function RegionPolicy(): Policy<Region> {
    Policy((o: Region, t: Region) => SameMetadata(o, t), (r: Region) => DescribeRegion(r))
  }

  datatype MismatchKind = Extra | Metadata | Missing

  datatype Mismatch<K> = Mismatch(kind: MismatchKind, key: K, observed: string, truth: string)

  datatype Report<K> = Report(missing: nat, extra: nat, metadata: nat, mismatches: seq<Mismatch<K>>)

  function TypeText(k: MismatchKind): string {
    match k
    case Extra => "extra"
    case Metadata => "metadata"
    case Missing => "missing"
  }

  type MismatchOrder<!K> = (Mismatch<K>, Mismatch<K>) -> bool

  function MismatchLess(): MismatchOrder<RangeKey> {
    (l: Mismatch<RangeKey>, r: Mismatch<RangeKey>) =>
      if l.key.0 != r.key.0 then l.key.0 < r.key.0
      else if l.key.1 != r.key.1 then l.key.1 < r.key.1
      else StringLess(TypeText(l.kind), TypeText(r.kind))
  }

  /** What is reported for a range, if anything. */
  function MismatchAt<K(!new), V>(c: Policy<V>, o: Index<K, V>, t: Index<K, V>, k: K): Option<Mismatch<K>> {
    if k in t then
      if k !in o then Some(Mismatch(Missing, k, "", c.describe(t[k])))
      else if !c.same(o[k], t[k]) then Some(Mismatch(Metadata, k, c.describe(o[k]), c.describe(t[k])))
      else None
    else if k in o then Some(Mismatch(Extra, k, c.describe(o[k]), ""))
    else None
  }

  function Filter<K>(s: set<K>, p: K -> bool): set<K> {
    set k | k in s && p(k)
  }

  function IsMissing<K, V>(o: Index<K, V>, t: Index<K, V>): K -> bool { (k: K) => k in t && k !in o }

  function IsExtra<K, V>(o: Index<K, V>, t: Index<K, V>): K -> bool { (k: K) => k in o && k !in t }

  /** Both sides have the range, and their metadata disagrees. */
  function Differs<K, V>(c: Policy<V>, o: Index<K, V>, t: Index<K, V>): K -> bool {
    (k: K) => k in o && k in t && !c.same(o[k], t[k])
  }

  function Agrees<K, V>(c: Policy<V>, o: Index<K, V>, t: Index<K, V>): K -> bool {
    (k: K) => k in o && k in t && c.same(o[k], t[k])
  }

  /** One mismatch for every range of `done` that has one. */
  ghost predicate Lists<K(!new), V>(c: Policy<V>, ms: seq<Mismatch<K>>, o: Index<K, V>, t: Index<K, V>, done: set<K>) {
    && (forall i, j :: 0 <= i < j < |ms| ==> ms[i].key != ms[j].key)
    && (forall i :: 0 <= i < |ms| ==> ms[i].key in done && MismatchAt(c, o, t, ms[i].key) == Some(ms[i]))
    && forall k :: k in done && MismatchAt(c, o, t, k).Some? ==> MismatchAt(c, o, t, k).value in ms
  }

  /** The tallies are the numbers of ranges of each kind in `done`. */
  ghost predicate Counts<K(!new), V>(c: Policy<V>, r: Report<K>, o: Index<K, V>, t: Index<K, V>, done: set<K>) {
    && r.missing == |Filter(done, IsMissing(o, t))|
    && r.extra == |Filter(done, IsExtra(o, t))|
    && r.metadata == |Filter(done, Differs(c, o, t))|
  }

  ghost predicate Tallies<K(!new), V>(c: Policy<V>, r: Report<K>, o: Index<K, V>, t: Index<K, V>, done: set<K>) {
    Counts(c, r, o, t, done) && Lists(c, r.mismatches, o, t, done)
  }

  function Tally<K>(r: Report<K>, m: Option<Mismatch<K>>): Report<K> {
    if m.None? then r
    else
      var r := r.(mismatches := r.mismatches + [m.value]);
      match m.value.kind
      case Missing => r.(missing := r.missing + 1)
      case Extra => r.(extra := r.extra + 1)
      case Metadata => r.(metadata := r.metadata + 1)
  }

  lemma OneMore<K>(done: set<K>, k: K, p: K -> bool)
    requires k !in done
    ensures |Filter(done + {k}, p)| == |Filter(done, p)| + if p(k) then 1 else 0
  {
    if p(k) {
      assert Filter(done + {k}, p) == Filter(done, p) + {k};
    } else {
      assert Filter(done + {k}, p) == Filter(done, p);
    }
  }

  lemma ListsStep<K(!new), V>(c: Policy<V>, ms: seq<Mismatch<K>>, o: Index<K, V>, t: Index<K, V>, done: set<K>, k: K)
    requires Lists(c, ms, o, t, done) && k !in done
    ensures var m := MismatchAt(c, o, t, k);
            Lists(c, if m.Some? then ms + [m.value] else ms, o, t, done + {k})
  {
  }

  lemma TallyStep<K(!new), V>(c: Policy<V>, r: Report<K>, o: Index<K, V>, t: Index<K, V>, done: set<K>, k: K)
    requires Tallies(c, r, o, t, done) && k !in done
    ensures Tallies(c, Tally(r, MismatchAt(c, o, t, k)), o, t, done + {k})
  {
    CountsStep(c, r, o, t, done, k);
    ListsStep(c, r.mismatches, o, t, done, k);
  }

  lemma CountsStep<K(!new), V>(c: Policy<V>, r: Report<K>, o: Index<K, V>, t: Index<K, V>, done: set<K>, k: K)
    requires Counts(c, r, o, t, done) && k !in done
    ensures Counts(c, Tally(r, MismatchAt(c, o, t, k)), o, t, done + {k})
  {
    OneMore(done, k, IsMissing(o, t));
    OneMore(done, k, IsExtra(o, t));
    OneMore(done, k, Differs(c, o, t));
  }

  lemma TalliesNothing<K(!new), V>(c: Policy<V>, o: Index<K, V>, t: Index<K, V>)
    ensures Tallies(c, Report(0, 0, 0, []), o, t, {})
  {
    assert forall p: K -> bool :: Filter({}, p) == {};
  }

  /** All ranges of either side. */
  function AllKeys<K, V>(o: Index<K, V>, t: Index<K, V>): set<K> {
    t.Keys + o.Keys
  }

  /** The mismatches listed are those there are. */
  ghost predicate Reports<K(!new), V>(c: Policy<V>, ms: seq<Mismatch<K>>, o: Index<K, V>, t: Index<K, V>) {
    && (forall m :: m in ms ==> MismatchAt(c, o, t, m.key) == Some(m))
    && forall k :: k in AllKeys(o, t) && MismatchAt(c, o, t, k).Some? ==> MismatchAt(c, o, t, k).value in ms
  }

  /** What the report says of the two indexes. */
  ghost predicate Describes<K(!new), V>(c: Policy<V>, r: Report<K>, o: Index<K, V>, t: Index<K, V>) {
    Counts(c, r, o, t, AllKeys(o, t)) && Reports(c, r.mismatches, o, t)
  }

  /** The report as it is printed. */
  datatype ReconcileReport = ReconcileReport(
    pid: i32, truthSource: string, observedRegions: nat, truthRegions: nat, findings: Report<RangeKey>)

  method ReconcileSnapshots(observed: Snapshot, truth: Snapshot) returns (report: ReconcileReport)
    ensures Describes(RegionPolicy(), report.findings, IndexOf(observed.regions), IndexOf(truth.regions))
    ensures Sorting.Ascending(MismatchLess(), report.findings.mismatches)
    ensures report.pid == observed.pid && report.truthSource == "proc-maps"
    ensures report.observedRegions == |observed.regions| && report.truthRegions == |truth.regions|
  {
    var findings := CompareSnapshots(observed.regions, truth.regions);
    report := ReconcileReport(observed.pid, "proc-maps", |observed.regions|, |truth.regions|, findings);
  }

  method CompareSnapshots(observed: seq<Region>, truth: seq<Region>) returns (findings: Report<RangeKey>)
    ensures Describes(RegionPolicy(), findings, IndexOf(observed), IndexOf(truth))
    ensures Sorting.Ascending(MismatchLess(), findings.mismatches)
  {
    var o := IndexRegions(observed);
    var t := IndexRegions(truth);
    var unsorted := CompareTruth(RegionPolicy(), o, t);
    unsorted := FindExtra(RegionPolicy(), o, t, unsorted);
    var sorted := Sorting.InsertSort(MismatchLess(), unsorted.mismatches);
    findings := unsorted.(mismatches := sorted);
    MismatchesOrdered();
    SortedReport(RegionPolicy(), MismatchLess(), unsorted, findings, o, t);
  }

  /** The loop over the truth: missing ranges and metadata that disagrees. */
  method CompareTruth<K(!new), V>(c: Policy<V>, o: Index<K, V>, t: Index<K, V>) returns (report: Report<K>)
    ensures Tallies(c, report, o, t, t.Keys)
  {
    report := Report(0, 0, 0, []);
    var rest := t.Keys;
    ghost var done: set<K> := {};
    TalliesNothing(c, o, t);
    while rest != {}
      invariant rest <= t.Keys && done <= t.Keys
      invariant forall k :: k in t ==> (k in done <==> k !in rest)
      invariant Tallies(c, report, o, t, done)
      decreases rest
    {
      var k :| k in rest;
      TallyStep(c, report, o, t, done, k);
      report := CompareOne(c, o, t, k, report);
      rest, done := rest - {k}, done + {k};
    }
    assert done == t.Keys;
  }

  method CompareOne<K(!new), V>(c: Policy<V>, o: Index<K, V>, t: Index<K, V>, k: K, report: Report<K>) returns (next: Report<K>)
    requires k in t
    ensures next == Tally(report, MismatchAt(c, o, t, k))
  {
    next := report;
    if k !in o {
      next := next.(missing := next.missing + 1);
      next := next.(mismatches := next.mismatches + [Mismatch(Missing, k, "", c.describe(t[k]))]);
      return;
    }
    if !c.same(o[k], t[k]) {
      next := next.(metadata := next.metadata + 1);
      next := next.(mismatches := next.mismatches
                                  + [Mismatch(Metadata, k, c.describe(o[k]), c.describe(t[k]))]);
    }
  }

  /** The loop over the observed regions: ranges the truth does not have. */
  method FindExtra<K(!new), V>(c: Policy<V>, o: Index<K, V>, t: Index<K, V>, start: Report<K>) returns (report: Report<K>)
    requires Tallies(c, start, o, t, t.Keys)
    ensures Tallies(c, report, o, t, AllKeys(o, t))
  {
    report := start;
    var rest := o.Keys;
    ghost var visited := t.Keys;
    while rest != {}
      invariant rest <= o.Keys && t.Keys <= visited <= AllKeys(o, t)
      invariant forall k :: k in o ==> (k in visited <==> k in t || k !in rest)
      invariant Tallies(c, report, o, t, visited)
      decreases rest
    {
      var k :| k in rest;
      if k !in t {
        TallyStep(c, report, o, t, visited, k);
        visited := visited + {k};
        report := ExtraOne(c, o, t, k, report);
      }
      rest := rest - {k};
    }
    assert visited == AllKeys(o, t);
  }

  method ExtraOne<K(!new), V>(c: Policy<V>, o: Index<K, V>, t: Index<K, V>, k: K, report: Report<K>) returns (next: Report<K>)
    requires k in o && k !in t
    ensures next == Tally(report, MismatchAt(c, o, t, k))
  {
    next := report.(extra := report.extra + 1);
    next := next.(mismatches := next.mismatches + [Mismatch(Extra, k, c.describe(o[k]), "")]);
  }

  /** An order that decides any two mismatches of different ranges. */
  ghost predicate DecidesKeys<K(!new)>(less: MismatchOrder<K>) {
    && Sorting.StrictWeak(less)
    && forall x: Mismatch<K>, y: Mismatch<K> :: x.key != y.key ==> less(x, y) || less(y, x)
  }

  lemma MismatchesOrdered()
    ensures DecidesKeys(MismatchLess())
  {
    StringOrder();
  }

  lemma SortedReport<K(!new), V>(c: Policy<V>, less: MismatchOrder<K>, r: Report<K>, s: Report<K>,
                                 o: Index<K, V>, t: Index<K, V>)
    requires DecidesKeys(less) && Tallies(c, r, o, t, AllKeys(o, t))
    requires s == r.(mismatches := Sorting.SortBy(less, r.mismatches))
    ensures Describes(c, s, o, t) && Sorting.Ascending(less, s.mismatches)
  {
    MismatchesAscend(less, r.mismatches, s.mismatches);
    MismatchesKept(c, r.mismatches, s.mismatches, o, t);
  }

  lemma MismatchesAscend<K(!new)>(less: MismatchOrder<K>, ms: seq<Mismatch<K>>, sorted: seq<Mismatch<K>>)
    requires DecidesKeys(less) && sorted == Sorting.SortBy(less, ms)
    requires forall i, j :: 0 <= i < j < |ms| ==> ms[i].key != ms[j].key
    ensures Sorting.Ascending(less, sorted) && forall m :: m in sorted <==> m in ms
  {
    Sorting.SortSorts(less, ms);
    Sorting.SortPermutes(less, ms);
    Sorting.SameElements(ms, sorted);
    forall i, j | 0 <= i < j < |sorted| ensures less(sorted[i], sorted[j]) {
      Sorting.KeysStayDistinct((m: Mismatch<K>) => m.key, ms, sorted, i, j);
    }
  }

  lemma MismatchesKept<K(!new), V>(c: Policy<V>, ms: seq<Mismatch<K>>, sorted: seq<Mismatch<K>>,
                                   o: Index<K, V>, t: Index<K, V>)
    requires Lists(c, ms, o, t, AllKeys(o, t)) && forall m :: m in sorted <==> m in ms
    ensures Reports(c, sorted, o, t)
  {
    forall m | m in sorted ensures MismatchAt(c, o, t, m.key) == Some(m) {
      var i :| 0 <= i < |ms| && ms[i] == m;
    }
  }

  // ---------------------------------------------------------------- laws of the report

  lemma SplitSize<T>(whole: set<T>, a: set<T>, b: set<T>)
    requires forall x :: x in whole <==> x in a || x in b
    requires forall x :: !(x in a && x in b)
    ensures |whole| == |a| + |b|
  {
    assert whole == a + b && a !! b;
  }

  /** What each side has, less what only it has, is what both have: agreeing or not. */
  lemma ReportPartitions<K(!new), V>(c: Policy<V>, r: Report<K>, o: Index<K, V>, t: Index<K, V>)
    requires Describes(c, r, o, t)
    ensures |t| - r.missing == |o| - r.extra == |Filter(AllKeys(o, t), Agrees(c, o, t))| + r.metadata
  {
    var all := AllKeys(o, t);
    var both := Filter(all, (k: K) => k in o && k in t);
    SplitSize(both, Filter(all, Agrees(c, o, t)), Filter(all, Differs(c, o, t)));
    SplitSize(t.Keys, Filter(all, IsMissing(o, t)), both);
    SplitSize(o.Keys, Filter(all, IsExtra(o, t)), both);
    assert |t| == |t.Keys| && |o| == |o.Keys|;
  }

  /** Nothing is reported exactly when both sides have the same ranges with the same metadata. */
  lemma CleanReport<K(!new), V>(c: Policy<V>, r: Report<K>, o: Index<K, V>, t: Index<K, V>)
    requires Describes(c, r, o, t)
    ensures r.mismatches == [] <==> forall k :: k in AllKeys(o, t) ==> Agrees(c, o, t)(k)
  {
    if r.mismatches == [] {
      forall k | k in AllKeys(o, t) ensures Agrees(c, o, t)(k) {
        assert MismatchAt(c, o, t, k).None?;
      }
    } else {
      var m := r.mismatches[0];
      assert m in r.mismatches;
      assert m.key in AllKeys(o, t) && !Agrees(c, o, t)(m.key);
    }
  }

  lemma SameFilter<K>(s: set<K>, u: set<K>, p: K -> bool, q: K -> bool)
    requires s == u && forall k :: k in s ==> p(k) == q(k)
    ensures |Filter(s, p)| == |Filter(u, q)|
  {
    assert Filter(s, p) == Filter(u, q);
  }

  /** Of two snapshots: the same ranges, each with the same kind, permissions and source name. */
  lemma CleanSnapshots(r: Report<RangeKey>, observed: seq<Region>, truth: seq<Region>)
    requires Describes(RegionPolicy(), r, IndexOf(observed), IndexOf(truth))
    ensures r.mismatches == [] <==>
              var o, t := IndexOf(observed), IndexOf(truth);
              && o.Keys == t.Keys
              && forall k :: k in o && k in t ==>
                   o[k].kind == t[k].kind && o[k].perms == t[k].perms && SourceKey(o[k]) == SourceKey(t[k])
  {
    var o, t := IndexOf(observed), IndexOf(truth);
    CleanReport(RegionPolicy(), r, o, t);
    forall k | k in o && k in t
      ensures Agrees(RegionPolicy(), o, t)(k) <==>
                o[k].kind == t[k].kind && o[k].perms == t[k].perms && SourceKey(o[k]) == SourceKey(t[k])
    {
      SameMetadataMeans(o[k], t[k]);
    }
    if r.mismatches == [] {
      forall k ensures k in o <==> k in t {
        assert k in AllKeys(o, t) ==> Agrees(RegionPolicy(), o, t)(k);
      }
    }
  }

  /** By begin, then end. */
  lemma MismatchesByRange(ms: seq<Mismatch<RangeKey>>)
    requires Sorting.Ascending(MismatchLess(), ms)
    ensures forall i, j :: 0 <= i < j < |ms| ==>
              ms[i].key.0 < ms[j].key.0 || (ms[i].key.0 == ms[j].key.0 && ms[i].key.1 <= ms[j].key.1)
  {
    forall i, j | 0 <= i < j < |ms| ensures MismatchLess()(ms[i], ms[j]) {}
  }

  /** Exchanging the two snapshots exchanges missing and extra and keeps the metadata count. */
  lemma SwappedReport<K(!new), V>(c: Policy<V>, r: Report<K>, s: Report<K>, o: Index<K, V>, t: Index<K, V>)
    requires Describes(c, r, o, t) && Describes(c, s, t, o)
    requires forall k :: k in o && k in t ==> c.same(o[k], t[k]) == c.same(t[k], o[k])
    ensures r.missing == s.extra && r.extra == s.missing && r.metadata == s.metadata
  {
    assert AllKeys(o, t) == AllKeys(t, o);
    SameFilter(AllKeys(o, t), AllKeys(t, o), IsMissing(o, t), IsExtra(t, o));
    SameFilter(AllKeys(o, t), AllKeys(t, o), IsExtra(o, t), IsMissing(t, o));
    SameFilter(AllKeys(o, t), AllKeys(t, o), Differs(c, o, t), Differs(c, t, o));
  }

  /** The comparison of regions is symmetric, so the law above holds of every pair of snapshots. */
  lemma SwappedSnapshots(r: Report<RangeKey>, s: Report<RangeKey>, observed: seq<Region>, truth: seq<Region>)
    requires Describes(RegionPolicy(), r, IndexOf(observed), IndexOf(truth))
    requires Describes(RegionPolicy(), s, IndexOf(truth), IndexOf(observed))
    ensures r.missing == s.extra && r.extra == s.missing && r.metadata == s.metadata
  {
    SwappedReport(RegionPolicy(), r, s, IndexOf(observed), IndexOf(truth));
  }
}
