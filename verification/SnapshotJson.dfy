/** Snapshots printed as JSON and parsed back by pattern searches. */
module SnapshotJson {
  import opened Machine
  import opened Regions
  import opened JsonText
  import opened JsonFields

  // ---------------------------------------------------------------- printing

  function TextField(name: string, s: string): Field {
    Field(",", name, Quoted(Escape(s)))
  }

  function LabelField(r: Region): Field { TextField("label", r.labelText) }

  function ProvenanceField(r: Region): Field { TextField("provenance", r.provenance) }

  function PathField(r: Region): Field { TextField("path", r.source.path) }

  function RangeFields(r: Region): seq<Field> {
    [Field("{", "begin", Hex(r.begin)),
     Field(",", "end", Hex(r.end)),
     Field(",", "size", Number(RegionSize(r)))]
  }

  function KindFields(r: Region): seq<Field> {
    [Field(",", "kind", Quoted(KindName(r.kind))),
     Field(",", "perms", Quoted(PermsString(r.perms)))]
  }

  function CountFields(r: Region): seq<Field> {
    [Field(",", "rss_kb", Number(r.rssKb)),
     Field(",", "pss_kb", Number(r.pssKb)),
     Field(",", "private_dirty_kb", Number(r.privateDirtyKb))]
  }

  /** The fields before the label. */
  function Leading(r: Region): seq<Field> {
    RangeFields(r) + KindFields(r) + CountFields(r)
  }

  function SourceFields(r: Region): seq<Field> {
    [Field(",", "source", Bracket('{')),
     Field("", "fd", Signed(r.source.fd)),
     Field(",", "inode", Number(r.source.inode)),
     Field(",", "device", Number(r.source.device)),
     Field(",", "offset", Number(r.source.offset))]
  }

  function Trailing(r: Region): seq<Field> {
    [Field(",", "deleted", Flag(r.source.deleted)),
     Field("},", "probe", Bracket('{')),
     Field("", "attempted", Flag(r.probe.attempted)),
     Field(",", "readable", Flag(r.probe.readable)),
     Field(",", "has_elf_header", Flag(r.probe.hasElfHeader)),
     Field(",", "bytes_read", Number(r.probe.bytesRead))]
  }

  function RegionFields(r: Region): seq<Field> {
    Leading(r) + [LabelField(r), ProvenanceField(r)] + SourceFields(r) + [PathField(r)] + Trailing(r)
  }

  function RegionText(r: Region, rest: string): string {
    FieldsText(RegionFields(r), "}}" + rest)
  }

  const LIST_END := "]}"

  function RegionsText(rs: seq<Region>): string
    decreases |rs|, 0
  {
    if rs == [] then LIST_END + "\n" else RegionText(rs[0], MoreRegionsText(rs[1..]))
  }

  function MoreRegionsText(rs: seq<Region>): string
    decreases |rs|, 1
  {
    if rs == [] then LIST_END + "\n" else "," + RegionsText(rs)
  }

  function HeaderFields(s: Snapshot): seq<Field> {
    [Field("{", "pid", Signed(s.pid)),
     Field(",", "timestamp_ns", Number(s.timestampNs)),
     Field(",", "regions", Bracket('['))]
  }

  function SnapshotText(s: Snapshot): string {
    FieldsText(HeaderFields(s), RegionsText(s.regions))
  }

  /** The output stream, with the fields written to it since it was opened. */
  class Writer {
    var text: string
    ghost var fields: seq<Field>

    ghost predicate Valid()
      reads this
    {
      text == FieldsText(fields, "")
    }

    constructor ()
      ensures Valid() && fields == []
    {
      text, fields := "", [];
    }

    method Put(before: string, name: string, value: Datum)
      requires Valid()
      modifies this
      ensures Valid() && fields == old(fields) + [Field(before, name, value)]
    {
      var f := Field(before, name, value);
      assert text == FieldsText(fields, "") && [f][1..] == [];
      FieldsConcat(fields, [f], "");
      FieldsAppend(fields, "", FieldThen(f, ""));
      assert "" + FieldThen(f, "") == FieldThen(f, "");
      text := text + FieldThen(f, "");
      fields := fields + [f];
    }

    method PutSource(r: Region)
      requires Valid()
      modifies this
      ensures Valid() && fields == old(fields) + SourceFields(r) + [PathField(r)]
    {
      Put(",", "source", Bracket('{'));
      Put("", "fd", Signed(r.source.fd));
      Put(",", "inode", Number(r.source.inode));
      Put(",", "device", Number(r.source.device));
      Put(",", "offset", Number(r.source.offset));
      PutText("path", r.source.path);
    }

    method PutLeading(r: Region)
      requires Valid()
      modifies this
      ensures Valid() && fields == old(fields) + Leading(r)
    {
      PutMapping(r);
      Put(",", "rss_kb", Number(r.rssKb));
      Put(",", "pss_kb", Number(r.pssKb));
      Put(",", "private_dirty_kb", Number(r.privateDirtyKb));
    }

    method PutMapping(r: Region)
      requires Valid()
      modifies this
      ensures Valid() && fields == old(fields) + RangeFields(r) + KindFields(r)
    {
      Put("{", "begin", Hex(r.begin));
      Put(",", "end", Hex(r.end));
      Put(",", "size", Number(RegionSize(r)));
      Put(",", "kind", Quoted(KindName(r.kind)));
      Put(",", "perms", Quoted(PermsString(r.perms)));
    }

    method PutTrailing(r: Region)
      requires Valid()
      modifies this
      ensures Valid() && fields == old(fields) + Trailing(r)
    {
      Put(",", "deleted", Flag(r.source.deleted));
      Put("},", "probe", Bracket('{'));
      Put("", "attempted", Flag(r.probe.attempted));
      Put(",", "readable", Flag(r.probe.readable));
      Put(",", "has_elf_header", Flag(r.probe.hasElfHeader));
      Put(",", "bytes_read", Number(r.probe.bytesRead));
    }

    method PutText(name: string, s: string)
      requires Valid()
      modifies this
      ensures Valid() && fields == old(fields) + [TextField(name, s)]
    {
      var escaped := JsonEscape(s);
      Put(",", name, Quoted(escaped));
    }

    method PutRegion(r: Region)
      requires Valid()
      modifies this
      ensures Valid() && fields == old(fields) + RegionFields(r)
    {
      PutLeading(r);
      PutText("label", r.labelText);
      PutText("provenance", r.provenance);
      PutSource(r);
      PutTrailing(r);
      InOrder(old(fields), Leading(r), LabelField(r), ProvenanceField(r), SourceFields(r), PathField(r), Trailing(r));
    }
  }

  lemma InOrder<T>(w: seq<T>, a: seq<T>, l: T, p: T, s: seq<T>, q: T, t: seq<T>)
    ensures ((((w + a) + [l]) + [p]) + s + [q]) + t == w + (a + [l, p] + s + [q] + t)
  {
  }

  lemma RegionTextIs(r: Region)
    ensures FieldsText(RegionFields(r), "") + "}}" == RegionText(r, "")
  {
    FieldsAppend(RegionFields(r), "", "}}");
    assert "" + "}}" == "}}" && "}}" + "" == "}}";
  }

  method PrintRegionJson(out: string, r: Region) returns (next: string)
    ensures next == out + RegionText(r, "")
  {
    var w := new Writer();
    w.PutRegion(r);
    assert w.fields == RegionFields(r);
    RegionTextIs(r);
    next := out + (w.text + "}}");
  }

  lemma RegionThen(fs: seq<Field>, more: string)
    ensures FieldsText(fs, "}}" + "") + more == FieldsText(fs, "}}" + more)
  {
    FieldsAppend(fs, "}}" + "", more);
    assert "}}" + "" + more == "}}" + more;
  }

  /** What the loop still has to print from region `i` on. */
  function Remaining(rs: seq<Region>, i: nat): string
    requires i <= |rs|
  {
    if i == 0 then RegionsText(rs) else MoreRegionsText(rs[i..])
  }

  lemma RegionsSplit(rs: seq<Region>, i: nat)
    requires i < |rs|
    ensures RegionsText(rs[i..]) == RegionText(rs[i], "") + MoreRegionsText(rs[i + 1..])
  {
    assert rs[i..][1..] == rs[i + 1..] && rs[i..][0] == rs[i];
    RegionThen(RegionFields(rs[i]), MoreRegionsText(rs[i + 1..]));
  }

  lemma RegionStep(out: string, rs: seq<Region>, i: nat)
    requires i < |rs|
    ensures var comma := if i == 0 then out else out + ",";
            out + Remaining(rs, i) == (comma + RegionText(rs[i], "")) + Remaining(rs, i + 1)
  {
    var text, more := RegionText(rs[i], ""), MoreRegionsText(rs[i + 1..]);
    assert rs[0..] == rs;
    RegionsSplit(rs, i);
    Regroup(out, ",", text + more);
    Regroup(if i == 0 then out else out + ",", text, more);
  }

  method PrintHeader(s: Snapshot) returns (out: string)
    ensures out + RegionsText(s.regions) == SnapshotText(s)
  {
    var w := new Writer();
    w.Put("{", "pid", Signed(s.pid));
    w.Put(",", "timestamp_ns", Number(s.timestampNs));
    w.Put(",", "regions", Bracket('['));
    assert w.fields == HeaderFields(s);
    HeaderThen(s);
    out := w.text;
  }

  lemma HeaderThen(s: Snapshot)
    ensures FieldsText(HeaderFields(s), "") + RegionsText(s.regions) == SnapshotText(s)
  {
    FieldsAppend(HeaderFields(s), "", RegionsText(s.regions));
    assert "" + RegionsText(s.regions) == RegionsText(s.regions);
  }

  method PrintSnapshotJson(s: Snapshot) returns (out: string)
    ensures out == SnapshotText(s)
  {
    out := PrintHeader(s);
    for i := 0 to |s.regions|
      invariant out + Remaining(s.regions, i) == SnapshotText(s)
    {
      RegionStep(out, s.regions, i);
      if i != 0 { out := out + ","; }
      out := PrintRegionJson(out, s.regions[i]);
    }
    out := out + (LIST_END + "\n");
  }

  // ---------------------------------------------------------------- parsing

  const REGION_START := "{\"begin\":\"0x"
  const NEXT_REGION := "{\"begin\""

  predicate IsSpace(c: char) {
    c == ' ' || '\t' <= c <= '\r'
  }

  predicate LineEnd(c: char) {
    c == '\n' || c == '\r'
  }

  function SpaceRun(text: string): (run: string)
    ensures run <= text
  {
    if text == "" || !IsSpace(text[0]) then "" else [text[0]] + SpaceRun(text[1..])
  }

  /** An optional comma and the white space after it. */
  function Separator(text: string): (sep: string)
    ensures sep <= text
  {
    if "," <= text then "," + SpaceRun(text[1..]) else SpaceRun(text)
  }

  /** The look-ahead behind a closing brace: neither a comma nor a space can start what it looks for. */
  predicate Closes(text: string) {
    var rest := text[|Separator(text)|..];
    NEXT_REGION <= rest || LIST_END <= rest
  }

  /** The shortest text up to a closing brace with its separator; empty if there is none on the line. */
  function Cut(text: string): (cut: string)
    ensures cut <= text
  {
    if text == "" then ""
    else if text[0] == '}' && Closes(text[1..]) then "}" + Separator(text[1..])
    else if LineEnd(text[0]) then ""
    else
      var cut := Cut(text[1..]);
      if cut == "" then "" else [text[0]] + cut
  }

  /** The region pattern up to the end of the `begin` value. */
  function HeadAt(text: string): (head: string)
    ensures head <= text
  {
    if REGION_START <= text then
      var run := DigitRun(text[|REGION_START|..], 16);
      if run != "" && "\"" <= text[|REGION_START| + |run|..] then text[..|REGION_START| + |run| + 1] else ""
    else ""
  }

  /** The region pattern, matched at the front of a text. */
  function ItemAt(text: string): (item: string)
    ensures item <= text
  {
    var head := HeadAt(text);
    var cut := Cut(text[|head|..]);
    if head == "" || cut == "" then "" else text[..|head| + |cut|]
  }

  /** All matches of the region pattern, from left to right. */
  function Items(text: string): seq<string>
    decreases |text|
  {
    if text == "" then []
    else
      var item := ItemAt(text);
      if item != "" then [item] + Items(text[|item|..]) else Items(text[1..])
  }

  function ParseKind(value: string): Kind {
    if value == "text" then Text
    else if value == "data" then Data
    else if value == "heap" then Heap
    else if value == "stack" then Stack
    else if value == "thread_stack" then ThreadStack
    else if value == "library" then SharedLibrary
    else if value == "file" then FileMapping
    else if value == "anonymous" then Anonymous
    else if value == "vdso" then Vdso
    else if value == "vvar" then Vvar
    else if value == "vsyscall" then Vsyscall
    else Unknown
  }

  function ParsePerms(text: string): Perms {
    if |text| >= 4 then Perms(text[0] == 'r', text[1] == 'w', text[2] == 'x', text[3] == 's')
    else Perms(false, false, false, false)
  }

  function ParseProvenance(text: string): string {
    if text == "" then "unknown" else text
  }

  function ParseSource(item: string): Source {
    Source(ParseIntField(item, "fd", -1),
           ParseU64Field(item, "inode"),
           ParseU64Field(item, "device"),
           ParseU64Field(item, "offset"),
           ParseStringField(item, "path"),
           ParseBoolField(item, "deleted"))
  }

  function ParseRegion(item: string): Region {
    Region(ParseHexField(item, "begin"),
           ParseHexField(item, "end"),
           ParsePerms(ParseStringField(item, "perms")),
           ParseKind(ParseStringField(item, "kind")),
           ParseSource(item),
           ParseU64Field(item, "rss_kb"),
           ParseU64Field(item, "pss_kb"),
           ParseU64Field(item, "private_dirty_kb"),
           ParseStringField(item, "label"),
           ParseProvenance(ParseStringField(item, "provenance")),
           NO_PROBE)
  }

  /** Empty regions are dropped. */
  function Kept(r: Region): seq<Region> {
    if r.begin < r.end then [r] else []
  }

  function ParseRegions(items: seq<string>): seq<Region> {
    if items == [] then [] else Kept(ParseRegion(items[0])) + ParseRegions(items[1..])
  }

  /** `static_cast<int>` of a 64-bit value. */
  function ToI32(x: u64): i32 {
    var low := x % TWO32;
    if low < 0x8000_0000 then low else low - TWO32
  }

  function ParseSnapshot(text: string): Option<Snapshot> {
    var regions := ParseRegions(Items(text));
    if regions == [] && !HasSubstring(text, "\"regions\"") then None
    else Some(Snapshot(ToI32(ParseU64Field(text, "pid")), ParseU64Field(text, "timestamp_ns"), regions))
  }

  method ParseSnapshotJson(text: string) returns (r: Option<Snapshot>)
    ensures r == ParseSnapshot(text)
  {
    var regions := CollectRegions(Items(text));
    if regions == [] && !HasSubstring(text, "\"regions\"") {
      return None;
    }
    return Some(Snapshot(ToI32(ParseU64Field(text, "pid")), ParseU64Field(text, "timestamp_ns"), regions));
  }

  method CollectRegions(items: seq<string>) returns (regions: seq<Region>)
    ensures regions == ParseRegions(items)
  {
    regions := [];
    assert items[0..] == items;
    for i := 0 to |items|
      invariant regions + ParseRegions(items[i..]) == ParseRegions(items)
    {
      ParseStep(regions, items, i);
      var region := ParseRegion(items[i]);
      if region.begin < region.end {
        regions := regions + [region];
      }
    }
  }

  lemma ParseStep(regions: seq<Region>, items: seq<string>, i: nat)
    requires i < |items|
    ensures var r := ParseRegion(items[i]);
            regions + ParseRegions(items[i..])
            == (if r.begin < r.end then regions + [r] else regions) + ParseRegions(items[i + 1..])
  {
    assert items[i..][0] == items[i] && items[i..][1..] == items[i + 1..];
    KeptThen(regions, ParseRegion(items[i]), ParseRegions(items[i + 1..]));
  }

  lemma KeptThen(regions: seq<Region>, r: Region, more: seq<Region>)
    ensures regions + (Kept(r) + more) == (if r.begin < r.end then regions + [r] else regions) + more
  {
  }

  // ---------------------------------------------------------------- where a region's text ends

  /** Free of closing braces and line ends: the search for the end runs through. */
  predicate Braceless(s: string) {
    '}' !in s && '\n' !in s && '\r' !in s
  }

  lemma CutStep(text: string)
    requires text != "" && !LineEnd(text[0]) && Cut(text[1..]) != ""
    requires !(text[0] == '}' && Closes(text[1..]))
    ensures Cut(text) == [text[0]] + Cut(text[1..])
  {
  }

  lemma FirstApart(p: string, rest: string)
    requires p != ""
    ensures p + rest == [p[0]] + (p[1..] + rest) && (p + rest)[1..] == p[1..] + rest
  {
  }

  lemma {:induction false} CutPlain(p: string, rest: string)
    requires Braceless(p) && Cut(rest) != ""
    ensures Cut(p + rest) == p + Cut(rest)
  {
    if p == "" {
      assert p + rest == rest && p + Cut(rest) == Cut(rest);
    } else {
      CutPlain(p[1..], rest);
      FirstApart(p, rest);
      FirstApart(p, Cut(rest));
      CutStep(p + rest);
    }
  }

  lemma {:induction false} CutSome(p: string, rest: string)
    requires '\n' !in p && '\r' !in p && Cut(rest) != ""
    ensures Cut(p + rest) != ""
  {
    if p == "" {
      assert p + rest == rest;
    } else {
      assert (p + rest)[1..] == p[1..] + rest;
      CutSome(p[1..], rest);
    }
  }

  lemma {:induction false} SpacesStop(s: string, after: string)
    requires after != "" && !IsSpace(after[0])
    ensures SpaceRun(s + after) == SpaceRun(s)
  {
    if s == "" {
      assert s + after == after;
    } else {
      assert (s + after)[1..] == s[1..] + after;
      SpacesStop(s[1..], after);
    }
  }

  /** A look-ahead never sees past the quote that ends a string. */
  lemma ClosesInside(s: string, rest: string)
    requires QuoteFree(s) && Follows(rest)
    ensures Separator(s + ("\"" + rest)) == Separator(s)
    ensures Closes(s + ("\"" + rest)) <==> Closes(s)
  {
    var after := "\"" + rest;
    var text, sep := s + after, Separator(s);
    if s != "" && s[0] == ',' {
      assert text[1..] == s[1..] + after;
      SpacesStop(s[1..], after);
    } else {
      SpacesStop(s, after);
    }
    LookAhead(s[|sep|..], rest);
    DropInside(s, after, |sep|);
  }

  lemma DropInside(s: string, after: string, n: nat)
    requires n <= |s|
    ensures (s + after)[n..] == s[n..] + after
  {
  }

  lemma LookAhead(s: string, rest: string)
    requires QuoteFree(s) && Follows(rest)
    ensures !(NEXT_REGION <= s + ("\"" + rest)) && !(NEXT_REGION <= s)
    ensures LIST_END <= s + ("\"" + rest) <==> LIST_END <= s
  {
    var text := s + ("\"" + rest);
    if |s| == 0 {
      Differ(NEXT_REGION, text, 0);
    } else if |s| == 1 {
      assert text[2] == rest[0] && text[1] == '"';
      Differ(NEXT_REGION, text, 2);
      Differ(LIST_END, text, 1);
    } else {
      assert text[0] == s[0] && text[1] == s[1];
      Differ(NEXT_REGION, text, 1);
      Differ(NEXT_REGION, s, 1);
    }
  }

  lemma Differ(p: string, text: string, i: nat)
    requires i < |p| && (i < |text| ==> p[i] != text[i])
    ensures !(p <= text)
  {
  }

  /** A string value lets the search through exactly when no end lies inside it. */
  lemma {:induction false} CutString(s: string, rest: string)
    requires Printable(s) && Follows(rest) && Cut(rest) != ""
    ensures Cut(s + ("\"" + rest)) == if Cut(s) == "" then s + ("\"" + Cut(rest)) else Cut(s)
  {
    var after := "\"" + rest;
    if s == "" {
      assert s + after == after && s + ("\"" + Cut(rest)) == "\"" + Cut(rest);
      CutPlain("\"", rest);
    } else {
      FirstApart(s, after);
      FirstApart(s, "\"" + Cut(rest));
      ClosesInside(s[1..], rest);
      CutString(s[1..], rest);
      if !(s[0] == '}' && Closes(s[1..])) {
        CutStep(s + after);
      }
    }
  }
}
