/** Memory regions, their mapping identity, and the address map a region list denotes. */
module Regions {
  import opened Machine
  import Numerals

  datatype Kind =
    | Text | Data | Heap | Stack | ThreadStack | SharedLibrary
    | FileMapping | Anonymous | Vdso | Vvar | Vsyscall | Unknown

  datatype Perms = Perms(read: bool, write: bool, exec: bool, shared: bool)

  datatype Source = Source(fd: i32, inode: u64, device: u64, offset: u64, path: string, deleted: bool)

  datatype Probe = Probe(attempted: bool, readable: bool, hasElfHeader: bool, bytesRead: u64)

  datatype Region = Region(
    begin: u64, end: u64, perms: Perms, kind: Kind, source: Source,
    rssKb: u64, pssKb: u64, privateDirtyKb: u64,
    labelText: string, provenance: string, probe: Probe)

  datatype Snapshot = Snapshot(pid: i32, timestampNs: u64, regions: seq<Region>)

  const NO_SOURCE := Source(-1, 0, 0, 0, "", false)
  const NO_PROBE := Probe(false, false, false, 0)

  /** What a merge compares: `offset`, `fd`, `deleted` and the page counts are not part of it. */
  datatype Identity = Identity(
    kind: Kind, perms: Perms, inode: u64, device: u64, path: string, labelText: string, provenance: string)

  function IdentityOf(r: Region): Identity {
    Identity(r.kind, r.perms, r.source.inode, r.source.device, r.source.path, r.labelText, r.provenance)
  }

  predicate SameMappingIdentity(l: Region, r: Region)
    ensures SameMappingIdentity(l, r) <==> IdentityOf(l) == IdentityOf(r)
  {
    && l.kind == r.kind && l.perms.read == r.perms.read
    && l.perms.write == r.perms.write && l.perms.exec == r.perms.exec
    && l.perms.shared == r.perms.shared && l.source.inode == r.source.inode
    && l.source.device == r.source.device && l.source.path == r.source.path
    && l.labelText == r.labelText && l.provenance == r.provenance
  }

  function RegionSize(r: Region): u64 {
    if r.end > r.begin then r.end - r.begin else 0
  }

  predicate StartsWith(value: string, prefix: string) {
    prefix <= value
  }

  predicate HasSubstring(value: string, part: string) {
    exists i :: 0 <= i <= |value| && StartsWith(value[i..], part)
  }

  function ClassifyRegion(r: Region): Kind {
    var tag := if r.labelText != "" then r.labelText else r.source.path;
    if tag == "[heap]" then Heap
    else if tag == "[stack]" then Stack
    else if StartsWith(tag, "[stack:") then ThreadStack
    else if tag == "[vdso]" then Vdso
    else if tag == "[vvar]" then Vvar
    else if tag == "[vsyscall]" then Vsyscall
    else if r.source.path != "" then
      if r.perms.exec && r.source.offset == 0 then Text
      else if HasSubstring(r.source.path, ".so") || StartsWith(r.source.path, "/lib")
              || StartsWith(r.source.path, "/usr/lib") then SharedLibrary
      else FileMapping
    else Anonymous
  }

  function KindName(k: Kind): string {
    match k
    case Text => "text"
    case Data => "data"
    case Heap => "heap"
    case Stack => "stack"
    case ThreadStack => "thread_stack"
    case SharedLibrary => "library"
    case FileMapping => "file"
    case Anonymous => "anonymous"
    case Vdso => "vdso"
    case Vvar => "vvar"
    case Vsyscall => "vsyscall"
    case Unknown => "unknown"
  }

  function PermsString(p: Perms): string {
    [if p.read then 'r' else '-', if p.write then 'w' else '-',
     if p.exec then 'x' else '-', if p.shared then 's' else 'p']
  }

  function SourceKey(r: Region): string {
    if r.source.path != "" then r.source.path
    else if r.labelText != "" then r.labelText
    else if r.source.inode != 0 then "inode:" + Numerals.Print(r.source.inode, 10)
    else "[anon]"
  }

  /** The name regions are aggregated under. */
  function RegionKey(r: Region): string {
    KindName(r.kind) + ":" + SourceKey(r)
  }

  // ---------------------------------------------------------------- address maps

  predicate Contains(r: Region, a: int) {
    r.begin <= a < r.end
  }

  predicate Apart(r: Region, s: Region) {
    r.end <= s.begin || s.end <= r.begin
  }

  /** Non-empty and pairwise disjoint, in any order: what reading `/proc/<pid>/maps` gives. */
  ghost predicate WellFormed(rs: seq<Region>) {
    && (forall i :: 0 <= i < |rs| ==> rs[i].begin < rs[i].end)
    && (forall i, j :: 0 <= i < j < |rs| ==> Apart(rs[i], rs[j]))
  }

  /** Ascending, disjoint, non-empty. */
  ghost predicate Ordered(rs: seq<Region>) {
    && (forall i :: 0 <= i < |rs| ==> rs[i].begin < rs[i].end)
    && (forall i, j :: 0 <= i < j < |rs| ==> rs[i].end <= rs[j].begin)
  }

  /** Ordered, and no two touching neighbours could be merged. */
  ghost predicate Canonical(rs: seq<Region>) {
    && Ordered(rs)
    && forall i :: 0 < i < |rs| && rs[i - 1].end == rs[i].begin ==> IdentityOf(rs[i - 1]) != IdentityOf(rs[i])
  }

  /** The identity mapped at address `a`. */
  function At(rs: seq<Region>, a: int): Option<Identity> {
    if rs == [] then None
    else if Contains(rs[0], a) then Some(IdentityOf(rs[0]))
    else At(rs[1..], a)
  }

  type AddressMap = imap<int, Identity>

  ghost function View(rs: seq<Region>): AddressMap {
    imap a: int | At(rs, a).Some? :: At(rs, a).value
  }

  ghost function Get(m: AddressMap, a: int): Option<Identity> {
    if a in m then Some(m[a]) else None
  }

  lemma ViewIs(rs: seq<Region>, m: AddressMap)
    requires forall a: int :: At(rs, a) == Get(m, a)
    ensures View(rs) == m
  {
    forall a: int ensures a in View(rs) <==> a in m {
      assert At(rs, a) == Get(m, a);
    }
    forall a: int | a in m ensures View(rs)[a] == m[a] {
      assert At(rs, a) == Get(m, a);
    }
  }

  lemma {:induction false} AtConcat(x: seq<Region>, y: seq<Region>, a: int)
    ensures At(x + y, a) == if At(x, a).Some? then At(x, a) else At(y, a)
  {
    if x == [] {
      assert x + y == y;
    } else {
      assert (x + y)[1..] == x[1..] + y;
      AtConcat(x[1..], y, a);
    }
  }

  /** In a disjoint list the address map is decided by membership alone. */
  lemma {:induction false} AtMember(rs: seq<Region>, a: int)
    ensures At(rs, a).None? <==> forall i :: 0 <= i < |rs| ==> !Contains(rs[i], a)
    ensures WellFormed(rs) ==>
              forall i :: 0 <= i < |rs| && Contains(rs[i], a) ==> At(rs, a) == Some(IdentityOf(rs[i]))
  {
    if rs != [] {
      AtMember(rs[1..], a);
      assert forall i :: 0 < i < |rs| ==> rs[i] == rs[1..][i - 1];
      if Contains(rs[0], a) {
        assert At(rs, a).Some?;
      } else if At(rs, a).None? {
        forall i | 0 <= i < |rs| ensures !Contains(rs[i], a) {
          if i > 0 { assert !Contains(rs[1..][i - 1], a); }
        }
      } else {
        var k :| 0 <= k < |rs[1..]| && Contains(rs[1..][k], a);
        assert Contains(rs[k + 1], a);
      }
      if WellFormed(rs) {
        assert WellFormed(rs[1..]);
        forall i | 0 <= i < |rs| && Contains(rs[i], a) ensures At(rs, a) == Some(IdentityOf(rs[i])) {
          if i > 0 {
            assert Apart(rs[0], rs[i]);
            assert Contains(rs[1..][i - 1], a);
          }
        }
      }
    }
  }

  lemma OrderedIsWellFormed(rs: seq<Region>)
    requires Ordered(rs)
    ensures WellFormed(rs)
  {
    forall i, j | 0 <= i < j < |rs| ensures Apart(rs[i], rs[j]) {
      assert rs[i].end <= rs[j].begin;
    }
  }
}
