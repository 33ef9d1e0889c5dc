/** When two regions go by one name: the keys of diffs, summaries, samples and reconciliation. */
module RegionNames {
  import opened Regions
  import opened Strings
  import opened Numerals

  lemma KindNamesDiffer(k: Kind, l: Kind)
    ensures KindName(k) == KindName(l) <==> k == l
    ensures ':' !in KindName(k) && ' ' !in KindName(k)
  {
    var x, y := KindName(k), KindName(l);
    assert |x| == |y| && k != l ==> x[0] != y[0] || x[1] != y[1];
  }

  lemma PermsDiffer(p: Perms, q: Perms)
    ensures PermsString(p) == PermsString(q) <==> p == q
    ensures ' ' !in PermsString(p)
  {
    var x, y := PermsString(p), PermsString(q);
    if x == y {
      assert x[0] == y[0] && x[1] == y[1] && x[2] == y[2] && x[3] == y[3];
    }
  }

  /** A region goes by its path, else by its label, else by its inode, else by no name. */
  lemma SourceNames(r: Region)
    ensures r.source.path != "" ==> SourceKey(r) == r.source.path
    ensures r.source.path == "" && r.labelText != "" ==> SourceKey(r) == r.labelText
    ensures r.source.path == r.labelText == "" && r.source.inode != 0 ==>
              && "inode:" <= SourceKey(r) && AllDigits(SourceKey(r)[6..], 10)
              && Value(SourceKey(r)[6..], 10) == r.source.inode
    ensures r.source.path == r.labelText == "" && r.source.inode == 0 ==> SourceKey(r) == "[anon]"
  {
    if r.source.path == "" && r.labelText == "" && r.source.inode != 0 {
      PrintRoundTrip(r.source.inode, 10);
      assert SourceKey(r)[6..] == Print(r.source.inode, 10);
    }
  }

  /** Two regions share a key exactly when they share their kind and their source name. */
  lemma SharedKey(l: Region, r: Region)
    ensures RegionKey(l) == RegionKey(r) <==> l.kind == r.kind && SourceKey(l) == SourceKey(r)
  {
    KindNamesDiffer(l.kind, r.kind);
    KindNamesDiffer(r.kind, l.kind);
    SplitUnique(':', KindName(l.kind), KindName(r.kind), SourceKey(l), SourceKey(r));
    assert RegionKey(l) == KindName(l.kind) + ([':'] + SourceKey(l));
    assert RegionKey(r) == KindName(r.kind) + ([':'] + SourceKey(r));
  }
}
