/** Which snapshots survive being printed as JSON and parsed again. */
module SnapshotRoundTrip {
  import opened Machine
  import opened Regions
  import opened Numerals
  import opened JsonText
  import opened JsonFields
  import opened SnapshotJson

  /** Nothing in the string needs an escape, and nothing in it looks like the end of the region list. */
  predicate Clean(s: string) {
    Printable(s) && Cut(s) == ""
  }

  /** An end lies at place `i` of the string. */
  predicate EndsAt(s: string, i: int) {
    0 <= i < |s| && s[i] == '}' && Closes(s[i + 1..])
  }

  lemma EndsLater(s: string, i: int)
    requires s != ""
    ensures EndsAt(s[1..], i) <==> EndsAt(s, i + 1) && i + 1 > 0
  {
    if 0 <= i < |s| - 1 {
      assert s[1..][i + 1..] == s[i + 2..];
    }
  }

  /** The condition on closing braces, place by place. */
  lemma {:induction false} CutMeans(s: string)
    requires Printable(s)
    ensures Cut(s) != "" <==> exists i :: EndsAt(s, i)
  {
    if s != "" {
      CutMeans(s[1..]);
      if EndsAt(s, 0) {
        assert Cut(s) != "";
      } else {
        forall i ensures EndsAt(s[1..], i) <==> EndsAt(s, i + 1) && i + 1 > 0 {
          EndsLater(s, i);
        }
        if i :| EndsAt(s, i) {
          assert EndsAt(s[1..], i - 1);
        }
      }
    }
  }

  /** A string is clean when it has no character to escape and no closing brace. */
  lemma BracelessIsClean(s: string)
    requires Printable(s) && '}' !in s
    ensures Clean(s)
  {
    CutMeans(s);
  }

  /** What a region's strings must be to come back. */
  predicate CleanRegion(r: Region) {
    CleanStrings(r) && r.provenance != ""
  }

  predicate CleanStrings(r: Region) {
    Clean(r.labelText) && Clean(r.provenance) && Clean(r.source.path)
  }

  // ---------------------------------------------------------------- one string value

  lemma {:induction false} UpToQuoteOfPrefix(t: string, text: string)
    requires t <= text && UpToQuote(t).Some?
    ensures UpToQuote(t) == UpToQuote(text)
  {
    if t[0] != '"' {
      assert t[1..] <= text[1..];
      UpToQuoteOfPrefix(t[1..], text[1..]);
    }
  }

  lemma {:induction false} UpToQuoteFree(t: string)
    ensures UpToQuote(t).None? <==> QuoteFree(t)
    ensures UpToQuote(t).Some? ==> QuoteFree(UpToQuote(t).value)
  {
    if t != "" && t[0] != '"' {
      UpToQuoteFree(t[1..]);
      assert t == [t[0]] + t[1..];
    }
  }

  lemma EscapeCharKeepsLine(c: char)
    ensures '\n' !in EscapeChar(c) && '\r' !in EscapeChar(c)
    ensures c != '"' ==> QuoteFree(EscapeChar(c))
  {
  }

  lemma {:induction false} EscapeKeepsLine(s: string)
    ensures '\n' !in Escape(s) && '\r' !in Escape(s)
    ensures QuoteFree(s) ==> QuoteFree(Escape(s))
  {
    if s != "" {
      EscapeKeepsLine(s[1..]);
      EscapeCharKeepsLine(s[0]);
    }
  }

  /** An escaped string is never read back as the string it stands for. */
  lemma EscapedMisread(s: string, rest: string)
    requires !Printable(s)
    ensures UpToQuote(Escape(s) + ("\"" + rest)) != Some(s)
  {
    if QuoteFree(s) {
      EscapeKeepsLine(s);
      UpToQuoteIs(Escape(s), rest);
      EscapeIsIdentity(s);
    } else {
      UpToQuoteFree(Escape(s) + ("\"" + rest));
    }
  }

  function ValueOr(o: Option<string>): string {
    if o.Some? then o.value else ""
  }

  /** A string value, cut where the region seems to end, reads back right exactly if the string is clean. */
  lemma StringSurvives(s: string, rest: string)
    requires Follows(rest) && Cut(rest) != ""
    ensures var cut := Cut(Escape(s) + ("\"" + rest));
            cut != "" && (ValueOr(UpToQuote(cut)) == s <==> Clean(s))
    ensures Clean(s) ==> Cut(Escape(s) + ("\"" + rest)) == s + ("\"" + Cut(rest))
  {
    var after := "\"" + rest;
    var text := Escape(s) + after;
    EscapeIsIdentity(s);
    EscapeKeepsLine(s);
    CutPlain("\"", rest);
    CutSome(Escape(s), after);
    if !Printable(s) {
      EscapedMisread(s, rest);
      if UpToQuote(Cut(text)).Some? {
        UpToQuoteOfPrefix(Cut(text), text);
      }
    } else {
      CutString(s, rest);
      if Cut(s) == "" {
        UpToQuoteIs(s, Cut(rest));
      } else {
        UpToQuoteFree(Cut(s));
      }
    }
  }

  // ---------------------------------------------------------------- one field

  lemma NotFound(before: string, name: string, c: string)
    requires QuoteFree(before) && Word(name) && QuoteFree(c)
    ensures Search(before + InQuotes(name, ":" + ("\"" + c)), name, ReadString) == None
  {
    var opening := "\"" + c;
    var text := InQuotes(name, ":" + opening);
    SkipPlain(before, text, name, ReadString);
    assert text == Key(name) + opening && text[|Key(name)|..] == opening && opening[1..] == c;
    UpToQuoteFree(c);
    assert text[1..] == name + ("\"" + (":" + opening));
    PastName(name, c);
  }

  /** Behind the opening quote of a key whose value is not closed, nothing is found. */
  lemma PastName(name: string, c: string)
    requires Word(name) && QuoteFree(c)
    ensures Search(name + ("\"" + (":" + ("\"" + c))), name, ReadString) == None
  {
    var opening := "\"" + c;
    var closing := "\"" + (":" + opening);
    SkipPlain(name, closing, name, ReadString);
    assert Key(name)[1] == name[0] && closing[1] == ':' && closing[1..] == ":" + opening;
    SkipPlain(":", opening, name, ReadString);
    NoKeyHere(name, c);
    SkipPlain(c, "", name, ReadString);
    assert opening[1..] == c == c + "";
  }

  lemma NoKeyHere(name: string, c: string)
    requires QuoteFree(c)
    ensures !(Key(name) <= "\"" + c)
  {
    var key, text := Key(name), "\"" + c;
    assert key[|name| + 1] == '"';
    if |c| > |name| {
      assert text[|name| + 1] == c[|name|];
    }
  }

  /** A printed string field, cut where the region seems to end. */
  lemma TextFieldSurvives(name: string, s: string, rest: string)
    requires Word(name) && Braceless(name) && Follows(rest) && Cut(rest) != ""
    ensures var cut := Cut(FieldThen(TextField(name, s), rest));
            && Follows(cut)
            && (ParseStringField(cut, name) == s <==> Clean(s))
            && (Clean(s) ==> cut == FieldThen(TextField(name, s), Cut(rest)))
  {
    var c := Cut(Escape(s) + ("\"" + rest));
    StringSurvives(s, rest);
    TextFieldCut(name, s, rest);
    assert ReadString("\"" + c) == UpToQuote(c) by {
      assert ("\"" + c)[1..] == c;
    }
    if UpToQuote(c).Some? {
      Found(",", name, "\"" + c, ReadString);
    } else {
      UpToQuoteFree(c);
      NotFound(",", name, c);
    }
    EscapeIsIdentity(s);
  }

  lemma TextFieldCut(name: string, s: string, rest: string)
    requires Braceless(name) && Cut(Escape(s) + ("\"" + rest)) != ""
    ensures Cut(FieldThen(TextField(name, s), rest))
            == "," + InQuotes(name, ":" + ("\"" + Cut(Escape(s) + ("\"" + rest))))
  {
    var value := Escape(s) + ("\"" + rest);
    CutPlain("\"", value);
    CutPlain(":", "\"" + value);
    CutPlain("\"", ":" + ("\"" + value));
    CutPlain(name, "\"" + (":" + ("\"" + value)));
    CutPlain("\"", name + ("\"" + (":" + ("\"" + value))));
    CutPlain(",", InQuotes(name, ":" + ("\"" + value)));
  }

  // ---------------------------------------------------------------- many fields

  /** A field whose text the search for the end runs through. */
  predicate Passes(f: Field) {
    && TidyField(f) && Braceless(f.name)
    && (Braceless(f.before) || f.before == "},")
    && (f.value.Bracket? ==> Braceless([f.value.c]))
    && (f.value.Quoted? ==> Clean(f.value.s))
  }

  lemma DigitsBraceless(n: nat, base: Base)
    ensures Braceless(Print(n, base))
  {
    PrintRoundTrip(n, base);
  }

  lemma CutDatum(v: Datum, rest: string)
    requires v.Quoted? ==> Clean(v.s)
    requires v.Bracket? ==> Braceless([v.c])
    requires v.Bracket? || Follows(rest)
    requires Cut(rest) != ""
    ensures Cut(DatumThen(v, rest)) == DatumThen(v, Cut(rest))
  {
    match v {
      case Quoted(s) =>
        CutString(s, rest);
        CutPlain("\"", s + ("\"" + rest));
      case Hex(n) =>
        DigitsBraceless(n, 16);
        CutPlain("\"", rest);
        CutPlain("0x" + Print(n, 16), "\"" + rest);
        CutPlain("\"", "0x" + Print(n, 16) + ("\"" + rest));
      case Number(n) => DigitsBraceless(n, 10); CutPlain(Print(n, 10), rest);
      case Signed(i) => DigitsBraceless(Magnitude(i), 10); CutPlain(SignedText(i), rest);
      case Flag(b) => CutPlain(FlagText(b), rest);
      case Bracket(c) => CutPlain([c], rest);
    }
  }

  lemma GoesOn(rest: string)
    requires rest != "" && rest[0] == '"'
    ensures !Closes("," + rest)
  {
    var behind := "," + rest;
    assert behind[1..] == rest && SpaceRun(rest) == "";
    assert Separator(behind) == ",";
  }

  /** The brace that ends a nested object is followed by another field. */
  lemma CutNested(rest: string)
    requires rest != "" && rest[0] == '"' && Cut(rest) != ""
    ensures Cut("}," + rest) == "}," + Cut(rest)
  {
    GoesOn(rest);
    CutPlain(",", rest);
    FirstApart("},", rest);
    FirstApart("},", Cut(rest));
    assert "},"[1..] == ",";
    CutStep("}," + rest);
  }

  lemma CutField(f: Field, rest: string)
    requires Passes(f) && (f.value.Bracket? || Follows(rest)) && Cut(rest) != ""
    ensures Cut(FieldThen(f, rest)) == FieldThen(f, Cut(rest))
  {
    var value := DatumThen(f.value, rest);
    CutDatum(f.value, rest);
    assert Cut(value) != "";
    CutPlain(":", value);
    CutPlain("\"", ":" + value);
    CutPlain(f.name, "\"" + (":" + value));
    CutPlain("\"", f.name + ("\"" + (":" + value)));
    var quoted := InQuotes(f.name, ":" + value);
    if f.before == "}," {
      CutNested(quoted);
    } else {
      CutPlain(f.before, quoted);
    }
  }

  lemma {:induction false} CutFields(fs: seq<Field>, rest: string)
    requires Tidy(fs, rest) && Cut(rest) != ""
    requires forall i :: 0 <= i < |fs| ==> Passes(fs[i])
    ensures Cut(FieldsText(fs, rest)) == FieldsText(fs, Cut(rest))
  {
    if fs != [] {
      TidyTail(fs, rest);
      CutFields(fs[1..], rest);
      var tail := FieldsText(fs[1..], rest);
      assert Cut(tail) != "" by { FieldsNotEmpty(fs[1..], Cut(rest)); }
      CutField(fs[0], tail);
    }
  }

  lemma FieldsNotEmpty(fs: seq<Field>, rest: string)
    requires rest != ""
    ensures FieldsText(fs, rest) != ""
  {
  }

  // ---------------------------------------------------------------- one region

  const NAMES := [
    "begin", "end", "size", "kind", "perms", "rss_kb", "pss_kb", "private_dirty_kb", "label", "provenance",
    "source", "fd", "inode", "device", "offset", "path",
    "deleted", "probe", "attempted", "readable", "has_elf_header", "bytes_read"]

  lemma NamesDistinct()
    ensures forall i, j :: 0 <= i < j < |NAMES| ==> NAMES[i] != NAMES[j]
  {
  }

  lemma NamesUnbraced()
    ensures forall i :: 0 <= i < |NAMES| ==> '}' !in NAMES[i]
  {
  }

  lemma NamesOnOneLine()
    ensures forall i :: 0 <= i < |NAMES| ==> '\n' !in NAMES[i] && '\r' !in NAMES[i]
  {
  }

  lemma NamesPlain()
    ensures forall i :: 0 <= i < |NAMES| ==> Braceless(NAMES[i])
  {
    NamesUnbraced();
    NamesOnOneLine();
  }

  lemma NamesAreWords()
    ensures forall i :: 0 <= i < |NAMES| ==> Word(NAMES[i])
  {
    assert forall i :: 0 <= i < |NAMES| ==> QuoteFree(NAMES[i]);
  }

  lemma NamedPasses(f: Field, i: nat)
    requires i < |NAMES| && f.name == NAMES[i]
    requires f.before == "{" || f.before == "," || f.before == "" || f.before == "},"
    requires f.value.Quoted? ==> Clean(f.value.s)
    requires f.value.Bracket? ==> f.value.c == '{'
    ensures Passes(f)
  {
    NamesPlain();
    NamesAreWords();
  }

  lemma LeadingNamed(r: Region)
    ensures |Leading(r)| == 8 && forall i :: 0 <= i < 8 ==> Leading(r)[i].name == NAMES[i]
  {
  }

  lemma SourceNamed(r: Region)
    ensures |SourceFields(r)| == 5 && forall i :: 0 <= i < 5 ==> SourceFields(r)[i].name == NAMES[i + 10]
  {
  }

  lemma TrailingNamed(r: Region)
    ensures |Trailing(r)| == 6 && forall i :: 0 <= i < 6 ==> Trailing(r)[i].name == NAMES[i + 16]
  {
  }

  lemma FieldNames(r: Region)
    ensures |RegionFields(r)| == |NAMES|
    ensures forall i :: 0 <= i < |NAMES| ==> RegionFields(r)[i].name == NAMES[i]
  {
    LeadingNamed(r);
    SourceNamed(r);
    TrailingNamed(r);
    Named(Leading(r), LabelField(r), ProvenanceField(r), SourceFields(r), PathField(r), Trailing(r));
  }

  lemma Named(a: seq<Field>, l: Field, p: Field, s: seq<Field>, q: Field, t: seq<Field>)
    requires |a| == 8 && |s| == 5 && |t| == 6
    requires l.name == NAMES[8] && p.name == NAMES[9] && q.name == NAMES[15]
    requires forall i :: 0 <= i < 8 ==> a[i].name == NAMES[i]
    requires forall i :: 0 <= i < 5 ==> s[i].name == NAMES[i + 10]
    requires forall i :: 0 <= i < 6 ==> t[i].name == NAMES[i + 16]
    ensures var fs := a + [l, p] + s + [q] + t; |fs| == 22 && forall i :: 0 <= i < 22 ==> fs[i].name == NAMES[i]
  {
    var fs := a + [l, p] + s + [q] + t;
    assert forall i :: 10 <= i < 15 ==> fs[i] == s[i - 10];
    assert forall i :: 16 <= i < 22 ==> fs[i] == t[i - 16];
  }

  lemma TidyConcat(a: seq<Field>, b: seq<Field>, rest: string)
    requires b != [] && Tidy(a, b[0].before) && Tidy(b, rest)
    ensures Tidy(a + b, rest)
  {
    var fs := a + b;
    forall i | 0 <= i < |fs|
      ensures TidyField(fs[i]) && (fs[i].value.Bracket? || Follows(After(fs, i, rest)))
    {
      if i < |a| {
        assert fs[i] == a[i] && After(fs, i, rest) == After(a, i, b[0].before);
      } else {
        assert fs[i] == b[i - |a|] && After(fs, i, rest) == After(b, i - |a|, rest);
      }
    }
  }

  lemma KindPrints(k: Kind)
    ensures Printable(KindName(k))
  {
  }

  lemma KindUnbraced(k: Kind)
    ensures '}' !in KindName(k)
  {
  }

  lemma KindParses(k: Kind)
    ensures ParseKind(KindName(k)) == k
  {
  }

  lemma KindNames(k: Kind)
    ensures Clean(KindName(k)) && ParseKind(KindName(k)) == k
  {
    KindPrints(k);
    KindUnbraced(k);
    KindParses(k);
    BracelessIsClean(KindName(k));
  }

  /** Every other word is read as no kind in particular. */
  lemma OtherKinds(value: string)
    requires forall k :: k != Unknown ==> KindName(k) != value
    ensures ParseKind(value) == Unknown
  {
    assert value != KindName(Text) && value != KindName(Data) && value != KindName(Heap) && value != KindName(Stack);
    assert value != KindName(ThreadStack) && value != KindName(SharedLibrary) && value != KindName(FileMapping);
    assert value != KindName(Anonymous) && value != KindName(Vdso) && value != KindName(Vvar) && value != KindName(Vsyscall);
  }

  lemma PermNames(p: Perms)
    ensures Clean(PermsString(p)) && ParsePerms(PermsString(p)) == p
  {
    BracelessIsClean(PermsString(p));
  }

  ghost predicate AllPass(fs: seq<Field>) {
    forall i :: 0 <= i < |fs| ==> Passes(fs[i])
  }

  /** Complete values are followed by punctuation. */
  ghost predicate Punctuated(fs: seq<Field>, rest: string) {
    forall i :: 0 <= i < |fs| ==> fs[i].value.Bracket? || Follows(After(fs, i, rest))
  }

  lemma PassingIsTidy(fs: seq<Field>, rest: string)
    requires AllPass(fs) && Punctuated(fs, rest)
    ensures Tidy(fs, rest)
  {
  }

  lemma RangePasses(begin: u64, end: u64, size: u64)
    ensures AllPass([Field("{", "begin", Hex(begin)), Field(",", "end", Hex(end)), Field(",", "size", Number(size))])
  {
    NamedPasses(Field("{", "begin", Hex(begin)), 0);
    NamedPasses(Field(",", "end", Hex(end)), 1);
    NamedPasses(Field(",", "size", Number(size)), 2);
  }

  lemma KindPasses(kind: string, perms: string)
    requires Clean(kind) && Clean(perms)
    ensures AllPass([Field(",", "kind", Quoted(kind)), Field(",", "perms", Quoted(perms))])
  {
    var k, p := Field(",", "kind", Quoted(kind)), Field(",", "perms", Quoted(perms));
    NamedPasses(k, 3);
    NamedPasses(p, 4);
    AllPassTwo(k, p);
  }

  lemma AllPassTwo(f: Field, g: Field)
    requires Passes(f) && Passes(g)
    ensures AllPass([f, g])
  {
  }

  lemma CountsPass(rss: u64, pss: u64, dirty: u64)
    ensures AllPass([Field(",", "rss_kb", Number(rss)), Field(",", "pss_kb", Number(pss)),
                     Field(",", "private_dirty_kb", Number(dirty))])
  {
    NamedPasses(Field(",", "rss_kb", Number(rss)), 5);
    NamedPasses(Field(",", "pss_kb", Number(pss)), 6);
    NamedPasses(Field(",", "private_dirty_kb", Number(dirty)), 7);
  }

  lemma LeadingPasses(r: Region)
    ensures AllPass(Leading(r))
  {
    KindNames(r.kind);
    PermNames(r.perms);
    RangePasses(r.begin, r.end, RegionSize(r));
    KindPasses(KindName(r.kind), PermsString(r.perms));
    CountsPass(r.rssKb, r.pssKb, r.privateDirtyKb);
    AllPassConcat(RangeFields(r), KindFields(r));
    AllPassConcat(RangeFields(r) + KindFields(r), CountFields(r));
  }

  lemma AllPassConcat(a: seq<Field>, b: seq<Field>)
    requires AllPass(a) && AllPass(b)
    ensures AllPass(a + b)
  {
  }

  lemma SourcePasses(r: Region)
    ensures AllPass(SourceFields(r))
  {
    var fs := SourceFields(r);
    forall i | 0 <= i < |fs| ensures Passes(fs[i]) {
      NamedPasses(fs[i], i + 10);
    }
  }

  lemma TrailingPasses(r: Region)
    ensures AllPass(Trailing(r))
  {
    var fs := Trailing(r);
    forall i | 0 <= i < |fs| ensures Passes(fs[i]) {
      NamedPasses(fs[i], i + 16);
    }
  }

  lemma FieldsPunctuated(r: Region, rest: string)
    requires Follows(rest)
    ensures Punctuated(Leading(r), rest) && Punctuated(SourceFields(r), rest) && Punctuated(Trailing(r), rest)
  {
  }

  lemma TextFieldPasses(name: string, s: string, rest: string)
    requires Word(name) && Braceless(name) && Clean(s) && Follows(rest)
    ensures Passes(TextField(name, s)) && Tidy([TextField(name, s)], rest)
  {
    EscapeIsIdentity(s);
  }

  // A region's text from each of its three strings on.

  function TrailingOn(r: Region, rest: string): string {
    FieldsText(Trailing(r), "}}" + rest)
  }

  function PathOn(r: Region, rest: string): string {
    FieldThen(PathField(r), TrailingOn(r, rest))
  }

  function SourceOn(r: Region, rest: string): string {
    FieldsText(SourceFields(r), PathOn(r, rest))
  }

  function ProvenanceOn(r: Region, rest: string): string {
    FieldThen(ProvenanceField(r), SourceOn(r, rest))
  }

  function LabelOn(r: Region, rest: string): string {
    FieldThen(LabelField(r), ProvenanceOn(r, rest))
  }

  lemma OneField(f: Field, rest: string)
    ensures FieldsText([f], rest) == FieldThen(f, rest)
  {
    assert FieldsText([f][1..], rest) == rest;
  }

  /** Putting the parts of a region's text together. */
  lemma Assemble(a: seq<Field>, l: Field, p: Field, s: seq<Field>, q: Field, t: seq<Field>, rest: string)
    ensures FieldsText(a + [l, p] + s + [q] + t, rest)
            == FieldsText(a, FieldThen(l, FieldThen(p, FieldsText(s, FieldThen(q, FieldsText(t, rest))))))
  {
    FieldsConcat(a + [l, p] + s + [q], t, rest);
    var atPath := FieldsText(t, rest);
    FieldsConcat(a + [l, p] + s, [q], atPath);
    OneField(q, atPath);
    FieldsConcat(a + [l, p], s, FieldThen(q, atPath));
    var atProvenance := FieldsText(s, FieldThen(q, atPath));
    assert a + [l, p] == a + [l] + [p];
    FieldsConcat(a + [l], [p], atProvenance);
    OneField(p, atProvenance);
    FieldsConcat(a, [l], FieldThen(p, atProvenance));
    OneField(l, FieldThen(p, atProvenance));
  }

  lemma RegionParts(r: Region, rest: string)
    ensures RegionText(r, rest) == FieldsText(Leading(r), LabelOn(r, rest))
  {
    Assemble(Leading(r), LabelField(r), ProvenanceField(r), SourceFields(r), PathField(r), Trailing(r), "}}" + rest);
  }

  /** The two braces that end a region, before the next region or the end of the list. */
  lemma CutClosing(rest: string)
    requires Closes(rest) && rest != "" && rest[0] != '}'
    ensures Cut("}}" + rest) == "}}" + Separator(rest)
  {
    var inner := "}" + rest;
    assert inner[1..] == rest;
    assert Cut(inner) == "}" + Separator(rest);
    assert Separator(inner) == "" && !Closes(inner);
    FirstApart("}}", rest);
    FirstApart("}}", Separator(rest));
    assert "}}"[1..] == "}";
    CutStep("}}" + rest);
  }

  /** What may follow a region in the list. */
  predicate EndsRegion(rest: string) {
    Closes(rest) && rest != "" && rest[0] != '}'
  }

  lemma CutTrailing(r: Region, rest: string)
    requires EndsRegion(rest)
    ensures Cut(TrailingOn(r, rest)) == FieldsText(Trailing(r), "}}" + Separator(rest))
    ensures Follows(TrailingOn(r, rest)) && Cut(TrailingOn(r, rest)) != ""
  {
    var closing := "}}" + rest;
    CutClosing(rest);
    TrailingPasses(r);
    FieldsPunctuated(r, closing);
    PassingIsTidy(Trailing(r), closing);
    CutFields(Trailing(r), closing);
    FieldsNotEmpty(Trailing(r), Cut(closing));
    FirstBefore(Trailing(r), closing);
  }

  lemma FirstBefore(fs: seq<Field>, rest: string)
    requires fs != [] && Follows(fs[0].before)
    ensures Follows(FieldsText(fs, rest))
  {
    assert FieldsText(fs, rest)[0] == fs[0].before[0];
  }

  /** The text of a string field, as the parser will see it. */
  ghost predicate Survives(f: Field, s: string, text: string, rest: string) {
    && Follows(Cut(text)) && Follows(text)
    && (ParseStringField(Cut(text), f.name) == s <==> Clean(s))
    && (Clean(s) ==> Cut(text) == FieldThen(f, Cut(rest)))
  }

  lemma StringNames()
    ensures Word("label") && Word("provenance") && Word("path")
    ensures Braceless("label") && Braceless("provenance") && Braceless("path")
  {
  }

  lemma TextFieldFollows(name: string, s: string, rest: string)
    ensures Follows(FieldThen(TextField(name, s), rest))
  {
  }

  lemma CutPath(r: Region, rest: string)
    requires EndsRegion(rest)
    ensures Survives(PathField(r), r.source.path, PathOn(r, rest), TrailingOn(r, rest))
  {
    CutTrailing(r, rest);
    StringNames();
    TextFieldSurvives("path", r.source.path, TrailingOn(r, rest));
    TextFieldFollows("path", r.source.path, TrailingOn(r, rest));
  }

  lemma CutSource(r: Region, rest: string)
    requires EndsRegion(rest)
    ensures Cut(SourceOn(r, rest)) == FieldsText(SourceFields(r), Cut(PathOn(r, rest)))
    ensures Follows(SourceOn(r, rest)) && Cut(SourceOn(r, rest)) != ""
  {
    var path := PathOn(r, rest);
    CutPath(r, rest);
    SourcePasses(r);
    FieldsPunctuated(r, path);
    PassingIsTidy(SourceFields(r), path);
    CutFields(SourceFields(r), path);
    FieldsNotEmpty(SourceFields(r), Cut(path));
    FirstBefore(SourceFields(r), path);
  }

  lemma CutProvenance(r: Region, rest: string)
    requires EndsRegion(rest)
    ensures Survives(ProvenanceField(r), r.provenance, ProvenanceOn(r, rest), SourceOn(r, rest))
  {
    CutSource(r, rest);
    StringNames();
    TextFieldSurvives("provenance", r.provenance, SourceOn(r, rest));
    TextFieldFollows("provenance", r.provenance, SourceOn(r, rest));
  }

  lemma CutLabel(r: Region, rest: string)
    requires EndsRegion(rest)
    ensures Survives(LabelField(r), r.labelText, LabelOn(r, rest), ProvenanceOn(r, rest))
  {
    CutProvenance(r, rest);
    StringNames();
    TextFieldSurvives("label", r.labelText, ProvenanceOn(r, rest));
    TextFieldFollows("label", r.labelText, ProvenanceOn(r, rest));
  }

  lemma CutRegion(r: Region, rest: string)
    requires EndsRegion(rest)
    ensures Cut(RegionText(r, rest)) == FieldsText(Leading(r), Cut(LabelOn(r, rest)))
  {
    CutLabel(r, rest);
    LeadingPasses(r);
    FieldsPunctuated(r, LabelOn(r, rest));
    PassingIsTidy(Leading(r), LabelOn(r, rest));
    CutFields(Leading(r), LabelOn(r, rest));
    RegionParts(r, rest);
  }

  /** A clean region is cut at its end. */
  lemma CutWhole(r: Region, rest: string)
    requires EndsRegion(rest) && CleanStrings(r)
    ensures Cut(RegionText(r, rest)) == FieldsText(RegionFields(r), "}}" + Separator(rest))
  {
    CutRegion(r, rest);
    CutLabel(r, rest);
    CutProvenance(r, rest);
    CutSource(r, rest);
    CutPath(r, rest);
    CutTrailing(r, rest);
    Assemble(Leading(r), LabelField(r), ProvenanceField(r), SourceFields(r), PathField(r), Trailing(r),
             "}}" + Separator(rest));
  }

  // ---------------------------------------------------------------- parsing a region back

  ghost predicate AllAnswer(text: string, fs: seq<Field>) {
    forall i :: 0 <= i < |fs| ==> Answers(text, fs[i])
  }

  lemma LeadingParsed(text: string, r: Region)
    requires AllAnswer(text, Leading(r))
    ensures var p := ParseRegion(text);
            p.begin == r.begin && p.end == r.end && p.kind == r.kind && p.perms == r.perms
            && p.rssKb == r.rssKb && p.pssKb == r.pssKb && p.privateDirtyKb == r.privateDirtyKb
  {
    var fs := Leading(r);
    assert Answers(text, fs[0]) && Answers(text, fs[1]) && Answers(text, fs[3]) && Answers(text, fs[4]);
    assert Answers(text, fs[5]) && Answers(text, fs[6]) && Answers(text, fs[7]);
    KindNames(r.kind);
    PermNames(r.perms);
  }

  lemma SourceParsed(text: string, r: Region)
    requires AllAnswer(text, SourceFields(r)) && AllAnswer(text, Trailing(r))
    requires ParseStringField(text, "path") == r.source.path
    ensures ParseSource(text) == r.source
  {
    var fs := SourceFields(r);
    assert Answers(text, fs[1]) && Answers(text, fs[2]) && Answers(text, fs[3]) && Answers(text, fs[4]);
    assert Answers(text, Trailing(r)[0]);
  }

  lemma NamesOfRegionDistinct(r: Region)
    ensures DistinctNames(RegionFields(r)) && DistinctNames(Leading(r))
    ensures forall i :: 0 <= i < |Leading(r)| ==> Leading(r)[i].name != "label"
  {
    FieldNames(r);
    NamesDistinct();
    assert forall i :: 0 <= i < |Leading(r)| ==> Leading(r)[i] == RegionFields(r)[i];
    assert NAMES[8] == "label";
  }

  lemma TidyParts(a: seq<Field>, l: Field, p: Field, s: seq<Field>, q: Field, t: seq<Field>, rest: string)
    requires Tidy(a, l.before) && Tidy([l], p.before) && s != [] && Tidy([p], s[0].before)
    requires Tidy(s, q.before) && t != [] && Tidy([q], t[0].before) && Tidy(t, rest)
    ensures Tidy(a + [l, p] + s + [q] + t, rest)
  {
    TidyConcat([q], t, rest);
    TidyConcat(s, [q] + t, rest);
    var fromSource := s + ([q] + t);
    TidyConcat([p], fromSource, rest);
    TidyConcat([l], [p] + fromSource, rest);
    TidyConcat(a, [l] + ([p] + fromSource), rest);
    assert a + [l, p] + s + [q] + t == a + ([l] + ([p] + fromSource));
  }

  lemma RegionTidy(r: Region, rest: string)
    requires CleanStrings(r) && Follows(rest)
    ensures Tidy(RegionFields(r), rest)
  {
    StringNames();
    TextFieldPasses("label", r.labelText, ",");
    TextFieldPasses("provenance", r.provenance, ",");
    TextFieldPasses("path", r.source.path, ",");
    LeadingTidy(r, ",");
    SourcePasses(r);
    TrailingPasses(r);
    FieldsPunctuated(r, ",");
    FieldsPunctuated(r, rest);
    PassingIsTidy(SourceFields(r), ",");
    PassingIsTidy(Trailing(r), rest);
    TidyParts(Leading(r), LabelField(r), ProvenanceField(r), SourceFields(r), PathField(r), Trailing(r), rest);
  }

  lemma PartsAnswer(text: string, a: seq<Field>, l: Field, p: Field, s: seq<Field>, q: Field, t: seq<Field>)
    requires AllAnswer(text, a + [l, p] + s + [q] + t)
    ensures AllAnswer(text, a) && AllAnswer(text, s) && AllAnswer(text, t)
    ensures Answers(text, l) && Answers(text, p) && Answers(text, q)
  {
    var fs := a + [l, p] + s + [q] + t;
    assert forall i :: 0 <= i < |a| ==> a[i] == fs[i];
    assert l == fs[|a|] && p == fs[|a| + 1] && q == fs[|a| + 2 + |s|];
    assert forall i :: 0 <= i < |s| ==> s[i] == fs[|a| + 2 + i];
    assert forall i :: 0 <= i < |t| ==> t[i] == fs[|a| + 3 + |s| + i];
  }

  /** A region of clean strings is read back in full; an empty provenance becomes "unknown". */
  lemma CleanRegionParsed(r: Region, rest: string)
    requires EndsRegion(rest) && CleanStrings(r)
    ensures ParseRegion(Cut(RegionText(r, rest)))
            == r.(probe := NO_PROBE, provenance := if r.provenance == "" then "unknown" else r.provenance)
  {
    var closing := "}}" + Separator(rest);
    var text := FieldsText(RegionFields(r), closing);
    CutWhole(r, rest);
    RegionTidy(r, closing);
    NamesOfRegionDistinct(r);
    FieldsAnswer(RegionFields(r), closing);
    PartsAnswer(text, Leading(r), LabelField(r), ProvenanceField(r), SourceFields(r), PathField(r), Trailing(r));
    EscapeIsIdentity(r.labelText);
    EscapeIsIdentity(r.provenance);
    EscapeIsIdentity(r.source.path);
    LeadingParsed(text, r);
    SourceParsed(text, r);
  }

  /** The parts of a region that the parser passes over are printed all the same. */
  lemma UnreadFields(r: Region, rest: string)
    requires EndsRegion(rest) && CleanStrings(r)
    ensures var text := Cut(RegionText(r, rest));
            && ParseU64Field(text, "size") == Max(r.end - r.begin, 0)
            && ParseBoolField(text, "attempted") == r.probe.attempted
            && ParseBoolField(text, "readable") == r.probe.readable
            && ParseBoolField(text, "has_elf_header") == r.probe.hasElfHeader
            && ParseU64Field(text, "bytes_read") == r.probe.bytesRead
  {
    var closing := "}}" + Separator(rest);
    var text, leading, trailing := FieldsText(RegionFields(r), closing), Leading(r), Trailing(r);
    CutWhole(r, rest);
    RegionTidy(r, closing);
    NamesOfRegionDistinct(r);
    FieldsAnswer(RegionFields(r), closing);
    PartsAnswer(text, leading, LabelField(r), ProvenanceField(r), SourceFields(r), PathField(r), trailing);
    assert Answers(text, leading[2]) && Answers(text, trailing[2]) && Answers(text, trailing[3]);
    assert Answers(text, trailing[4]) && Answers(text, trailing[5]);
  }

  lemma SkipToString(fs: seq<Field>, rest: string, name: string)
    requires Tidy(fs, rest) && Word(name)
    requires forall i :: 0 <= i < |fs| ==> fs[i].name != name
    ensures ParseStringField(FieldsText(fs, rest), name) == ParseStringField(rest, name)
  {
    SkipFields(fs, rest, name, ReadString);
  }

  lemma LeadingTidy(r: Region, rest: string)
    requires Follows(rest)
    ensures Tidy(Leading(r), rest)
  {
    LeadingPasses(r);
    FieldsPunctuated(r, rest);
    PassingIsTidy(Leading(r), rest);
  }

  /** Everything before the label is read back whatever the strings are. */
  lemma RangeParsed(r: Region, rest: string)
    requires EndsRegion(rest)
    ensures var p := ParseRegion(Cut(RegionText(r, rest))); p.begin == r.begin && p.end == r.end
  {
    var atLabel := Cut(LabelOn(r, rest));
    CutRegion(r, rest);
    CutLabel(r, rest);
    LeadingTidy(r, atLabel);
    NamesOfRegionDistinct(r);
    FieldsAnswer(Leading(r), atLabel);
    LeadingParsed(FieldsText(Leading(r), atLabel), r);
  }

  lemma LabelParsed(r: Region, rest: string)
    requires EndsRegion(rest)
    ensures ParseStringField(Cut(RegionText(r, rest)), "label") == r.labelText <==> Clean(r.labelText)
  {
    var atLabel := Cut(LabelOn(r, rest));
    CutRegion(r, rest);
    CutLabel(r, rest);
    StringNames();
    LeadingTidy(r, atLabel);
    NamesOfRegionDistinct(r);
    SkipToString(Leading(r), atLabel, "label");
  }

  lemma LeadingNames(r: Region)
    ensures forall i :: 0 <= i < |Leading(r)| ==> Leading(r)[i].name != "provenance" && Leading(r)[i].name != "path"
  {
    FieldNames(r);
    NamesDistinct();
    assert forall i :: 0 <= i < |Leading(r)| ==> Leading(r)[i] == RegionFields(r)[i];
    assert NAMES[9] == "provenance" && NAMES[15] == "path";
  }

  lemma SourceNames(r: Region)
    ensures forall i :: 0 <= i < |SourceFields(r)| ==> SourceFields(r)[i].name != "path"
  {
  }

  lemma OtherNames(r: Region)
    ensures forall i :: 0 <= i < |Leading(r)| ==> Leading(r)[i].name != "provenance" && Leading(r)[i].name != "path"
    ensures forall i :: 0 <= i < |SourceFields(r)| ==> SourceFields(r)[i].name != "path"
    ensures LabelField(r).name != "provenance" && LabelField(r).name != "path" && ProvenanceField(r).name != "path"
  {
    LeadingNames(r);
    SourceNames(r);
  }

  /** A search for a later string passes the leading fields and a clean label. */
  lemma PastLabel(r: Region, rest: string, name: string)
    requires EndsRegion(rest) && Clean(r.labelText)
    requires name == "provenance" || name == "path"
    ensures ParseStringField(Cut(RegionText(r, rest)), name)
            == ParseStringField(Cut(ProvenanceOn(r, rest)), name)
  {
    var atProvenance := Cut(ProvenanceOn(r, rest));
    CutRegion(r, rest);
    CutLabel(r, rest);
    CutProvenance(r, rest);
    StringNames();
    OtherNames(r);
    LeadingTidy(r, Cut(LabelOn(r, rest)));
    SkipToString(Leading(r), Cut(LabelOn(r, rest)), name);
    TextFieldPasses("label", r.labelText, atProvenance);
    SkipToString([LabelField(r)], atProvenance, name);
    OneField(LabelField(r), atProvenance);
  }

  lemma ProvenanceParsed(r: Region, rest: string)
    requires EndsRegion(rest) && Clean(r.labelText)
    ensures ParseStringField(Cut(RegionText(r, rest)), "provenance") == r.provenance <==> Clean(r.provenance)
  {
    PastLabel(r, rest, "provenance");
    CutProvenance(r, rest);
  }

  lemma PathParsed(r: Region, rest: string)
    requires EndsRegion(rest) && Clean(r.labelText) && Clean(r.provenance)
    ensures ParseStringField(Cut(RegionText(r, rest)), "path") == r.source.path <==> Clean(r.source.path)
  {
    var atPath := Cut(PathOn(r, rest));
    var atSource := FieldsText(SourceFields(r), atPath);
    PastLabel(r, rest, "path");
    CutProvenance(r, rest);
    CutSource(r, rest);
    CutPath(r, rest);
    StringNames();
    OtherNames(r);
    SourcePasses(r);
    FieldsPunctuated(r, atPath);
    PassingIsTidy(SourceFields(r), atPath);
    FirstBefore(SourceFields(r), atPath);
    TextFieldPasses("provenance", r.provenance, atSource);
    SkipToString([ProvenanceField(r)], atSource, "path");
    OneField(ProvenanceField(r), atSource);
    SkipToString(SourceFields(r), atPath, "path");
  }

  /** A region comes back, all but its probe, exactly when its strings are clean. */
  lemma RegionSurvives(r: Region, rest: string)
    requires EndsRegion(rest)
    ensures ParseRegion(Cut(RegionText(r, rest))) == r.(probe := NO_PROBE) <==> CleanRegion(r)
  {
    if CleanRegion(r) {
      CleanRegionParsed(r, rest);
    } else if !Clean(r.labelText) {
      LabelParsed(r, rest);
    } else if !Clean(r.provenance) || r.provenance == "" {
      ProvenanceMisread(r, rest);
    } else {
      PathParsed(r, rest);
    }
  }

  lemma ProvenanceMisread(r: Region, rest: string)
    requires EndsRegion(rest) && Clean(r.labelText)
    requires !Clean(r.provenance) || r.provenance == ""
    ensures ParseRegion(Cut(RegionText(r, rest))).provenance != r.provenance
  {
    ProvenanceParsed(r, rest);
    UnknownProvenance(Cut(RegionText(r, rest)), r.provenance);
  }

  lemma UnknownProvenance(text: string, provenance: string)
    requires ParseStringField(text, "provenance") == provenance <==> Clean(provenance)
    requires !Clean(provenance) || provenance == ""
    ensures ParseProvenance(ParseStringField(text, "provenance")) != provenance
  {
    BracelessIsClean("unknown");
  }

  // ---------------------------------------------------------------- a whole snapshot

  function WithoutProbes(rs: seq<Region>): seq<Region> {
    if rs == [] then [] else [rs[0].(probe := NO_PROBE)] + WithoutProbes(rs[1..])
  }

  ghost predicate AllClean(rs: seq<Region>) {
    forall i :: 0 <= i < |rs| ==> CleanRegion(rs[i])
  }

  ghost predicate NonEmptyRegions(rs: seq<Region>) {
    forall i :: 0 <= i < |rs| ==> rs[i].begin < rs[i].end
  }

  lemma {:induction false} CutNothing(p: string, rest: string)
    requires Braceless(p) && Cut(rest) == ""
    ensures Cut(p + rest) == ""
  {
    if p == "" {
      assert p + rest == rest;
    } else {
      CutNothing(p[1..], rest);
      FirstApart(p, rest);
    }
  }

  function BeginHead(r: Region): string {
    REGION_START + (Print(r.begin, 16) + "\"")
  }

  lemma RegionStarts(r: Region, rest: string) returns (more: string)
    ensures RegionText(r, rest) == BeginHead(r) + more
    ensures Braceless(BeginHead(r)) && HeadAt(RegionText(r, rest)) == BeginHead(r)
  {
    more := FieldsText(Leading(r)[1..], LabelOn(r, rest));
    RegionParts(r, rest);
    var digits := Print(r.begin, 16);
    PrintRoundTrip(r.begin, 16);
    BeginText(digits, more);
    BeginFound(digits, more);
  }

  lemma BeginText(digits: string, more: string)
    ensures "{" + InQuotes("begin", ":" + InQuotes("0x" + digits, more)) == REGION_START + (digits + "\"") + more
  {
  }

  lemma HeadFound(digits: string, more: string)
    requires AllDigits(digits, 16) && digits != ""
    ensures HeadAt(REGION_START + (digits + ("\"" + more))) == REGION_START + (digits + "\"")
  {
    var behind := "\"" + more;
    var text := REGION_START + (digits + behind);
    assert text[|REGION_START|..] == digits + behind;
    DigitRunIs(digits, behind, 16);
    assert text[|REGION_START| + |digits|..] == behind;
  }

  lemma BeginFound(digits: string, more: string)
    requires AllDigits(digits, 16) && digits != ""
    ensures HeadAt(REGION_START + (digits + "\"") + more) == REGION_START + (digits + "\"")
    ensures Braceless(REGION_START + (digits + "\""))
  {
    HeadFound(digits, more);
    Regroup(REGION_START, digits + "\"", more);
    Regroup(digits, "\"", more);
    DigitsInLine(digits);
  }

  lemma DigitsInLine(digits: string)
    requires AllDigits(digits, 16)
    ensures Braceless(REGION_START + (digits + "\""))
  {
    assert Braceless(digits);
  }

  /** The pattern matches a region at its start. */
  lemma RegionFound(r: Region, rest: string)
    requires EndsRegion(rest)
    ensures ItemAt(RegionText(r, rest)) == Cut(RegionText(r, rest)) != ""
  {
    var text := RegionText(r, rest);
    var more := RegionStarts(r, rest);
    var head := BeginHead(r);
    CutRegion(r, rest);
    CutLabel(r, rest);
    FieldsNotEmpty(Leading(r), Cut(LabelOn(r, rest)));
    assert text[|head|..] == more;
    if Cut(more) == "" {
      CutNothing(head, more);
    } else {
      CutPlain(head, more);
    }
  }

  lemma ListStarts(rs: seq<Region>)
    requires rs != []
    ensures var text := RegionsText(rs); NEXT_REGION <= text && text[0] == '{' && SpaceRun(text) == ""
  {
    var behind := RegionStarts(rs[0], MoreRegionsText(rs[1..]));
    assert NEXT_REGION <= REGION_START <= BeginHead(rs[0]) <= RegionsText(rs);
  }

  lemma MoreEnds(rs: seq<Region>)
    ensures EndsRegion(MoreRegionsText(rs))
    ensures MoreRegionsText(rs)[|Separator(MoreRegionsText(rs))|..] == RegionsText(rs)
  {
    var more := MoreRegionsText(rs);
    if rs == [] {
      assert more[0] == ']' && SpaceRun(more) == "";
      assert LIST_END <= more;
    } else {
      ListStarts(rs);
      assert more[1..] == RegionsText(rs);
    }
  }

  lemma FieldsLeave(fs: seq<Field>, sep: string, rest: string, more: string, cut: string)
    requires more == sep + rest && cut == FieldsText(fs, "}}" + sep)
    ensures cut <= FieldsText(fs, "}}" + more) && FieldsText(fs, "}}" + more)[|cut|..] == rest
  {
    Regroup("}}", sep, rest);
    FieldsAppend(fs, "}}" + sep, rest);
  }

  /** Behind a clean region the list goes on. */
  lemma CleanRegionLeaves(r: Region, rs: seq<Region>)
    requires CleanRegion(r)
    ensures var text := RegionText(r, MoreRegionsText(rs)); text[|Cut(text)|..] == RegionsText(rs)
  {
    var more, rest := MoreRegionsText(rs), RegionsText(rs);
    MoreEnds(rs);
    CutWhole(r, more);
    SeparatorThen(more);
    FieldsLeave(RegionFields(r), Separator(more), rest, more, Cut(RegionText(r, more)));
  }

  lemma SeparatorThen(more: string)
    ensures more == Separator(more) + more[|Separator(more)|..]
  {
  }

  lemma NothingToFind()
    ensures Items(RegionsText([])) == []
  {
    var text := LIST_END + "\n";
    assert text[0] != '{' && text[1..][0] != '{' && text[1..][1..][0] != '{';
    assert text[1..][1..][1..] == "";
  }

  lemma FirstRegionParsed(rs: seq<Region>)
    requires rs != [] && rs[0].begin < rs[0].end
    ensures var text := RegionsText(rs);
            var p := ParseRegion(Cut(text));
            && ParseRegions(Items(text)) == [p] + ParseRegions(Items(text[|Cut(text)|..]))
            && (p == rs[0].(probe := NO_PROBE) <==> CleanRegion(rs[0]))
  {
    var more := MoreRegionsText(rs[1..]);
    MoreEnds(rs[1..]);
    RegionFound(rs[0], more);
    RangeParsed(rs[0], more);
    RegionSurvives(rs[0], more);
    FirstItem(RegionsText(rs));
  }

  lemma FirstItem(text: string)
    requires text != "" && ItemAt(text) == Cut(text) != ""
    requires ParseRegion(Cut(text)).begin < ParseRegion(Cut(text)).end
    ensures ParseRegions(Items(text)) == [ParseRegion(Cut(text))] + ParseRegions(Items(text[|Cut(text)|..]))
  {
    assert Items(text)[1..] == Items(text[|Cut(text)|..]);
  }

  lemma AllCleanFirst(rs: seq<Region>)
    requires rs != []
    ensures AllClean(rs) <==> CleanRegion(rs[0]) && AllClean(rs[1..])
  {
    assert forall i :: 0 <= i < |rs[1..]| ==> rs[1..][i] == rs[i + 1];
    assert forall i :: 0 < i < |rs| ==> rs[i] == rs[1..][i - 1];
  }

  lemma SameList<T>(p: T, x: seq<T>, q: T, y: seq<T>)
    ensures [p] + x == [q] + y <==> p == q && x == y
  {
    if [p] + x == [q] + y {
      assert ([p] + x)[0] == p && ([q] + y)[0] == q;
      assert ([p] + x)[1..] == x && ([q] + y)[1..] == y;
    }
  }

  lemma {:induction false} RegionsSurvive(rs: seq<Region>)
    requires NonEmptyRegions(rs)
    ensures ParseRegions(Items(RegionsText(rs))) == WithoutProbes(rs) <==> AllClean(rs)
  {
    if rs == [] {
      NothingToFind();
    } else {
      RegionsSurvive(rs[1..]);
      FirstSurvives(rs);
      AllCleanFirst(rs);
    }
  }

  /** The list is read back right if its first region is clean and the rest is read back right. */
  lemma FirstSurvives(rs: seq<Region>)
    requires rs != [] && rs[0].begin < rs[0].end
    ensures ParseRegions(Items(RegionsText(rs))) == WithoutProbes(rs)
            <==> CleanRegion(rs[0]) && ParseRegions(Items(RegionsText(rs[1..]))) == WithoutProbes(rs[1..])
  {
    var text := RegionsText(rs);
    FirstRegionParsed(rs);
    SameList(ParseRegion(Cut(text)), ParseRegions(Items(text[|Cut(text)|..])),
             rs[0].(probe := NO_PROBE), WithoutProbes(rs[1..]));
    if CleanRegion(rs[0]) {
      CleanRegionLeaves(rs[0], rs[1..]);
    }
  }

  lemma {:induction false} ItemsSkip(p: string, rest: string)
    requires '{' !in p
    ensures Items(p + rest) == Items(rest)
  {
    if p == "" {
      assert p + rest == rest;
    } else {
      FirstApart(p, rest);
      assert (p + rest)[0] != '{' && HeadAt(p + rest) == "";
      ItemsSkip(p[1..], rest);
    }
  }

  lemma ThreeFields(f: Field, g: Field, h: Field, rest: string)
    ensures FieldsText([f, g, h], rest) == FieldThen(f, FieldThen(g, FieldThen(h, rest)))
  {
    OneField(h, rest);
    assert [g, h][1..] == [h] && [f, g, h][1..] == [g, h];
    assert FieldsText([g, h], rest) == FieldThen(g, FieldThen(h, rest));
  }

  function TimeField(s: Snapshot): Field { Field(",", "timestamp_ns", Number(s.timestampNs)) }

  function ListField(): Field { Field(",", "regions", Bracket('[')) }

  /** The header of a snapshot behind its opening brace. */
  function HeaderTail(s: Snapshot): string {
    InQuotes("pid", ":" + DatumThen(Signed(s.pid), FieldThen(TimeField(s), FieldThen(ListField(), ""))))
  }

  lemma HeaderSplits(s: Snapshot)
    ensures SnapshotText(s) == "{" + (HeaderTail(s) + RegionsText(s.regions))
  {
    var rest := RegionsText(s.regions);
    var pid := Field("{", "pid", Signed(s.pid));
    assert "" + rest == rest;
    FieldsAppend(HeaderFields(s), "", rest);
    ThreeFields(pid, TimeField(s), ListField(), "");
    assert FieldsText(HeaderFields(s), "") == "{" + HeaderTail(s);
    Regroup("{", HeaderTail(s), rest);
  }

  lemma DigitsUnnested(n: nat)
    ensures '{' !in Print(n, 10)
  {
    PrintRoundTrip(n, 10);
    assert !IsDigit('{', 10);
  }

  lemma FieldUnnested(f: Field, rest: string)
    requires '{' !in f.before && '{' !in f.name && '{' !in rest
    requires f.value.Number? || f.value == Bracket('[')
    ensures '{' !in FieldThen(f, rest)
  {
    if f.value.Number? {
      DigitsUnnested(f.value.n);
    }
  }

  lemma HeaderUnnested(s: Snapshot)
    ensures '{' !in HeaderTail(s)
  {
    FieldUnnested(ListField(), "");
    FieldUnnested(TimeField(s), FieldThen(ListField(), ""));
    DigitsUnnested(Magnitude(s.pid));
    assert '{' !in SignedText(s.pid);
  }

  lemma NoItemAt(text: string)
    requires |text| > 2 && text[2] != 'b'
    ensures ItemAt(text) == ""
  {
    assert REGION_START[2] == 'b';
  }

  /** The search for regions passes the header. */
  lemma HeaderHasNoItem(s: Snapshot)
    ensures Items(SnapshotText(s)) == Items(RegionsText(s.regions))
  {
    var text, tail, rest := SnapshotText(s), HeaderTail(s), RegionsText(s.regions);
    HeaderSplits(s);
    HeaderUnnested(s);
    assert tail[1] == 'p';
    assert text[2] == 'p' && text[1..] == tail + rest;
    NoItemAt(text);
    ItemsSkip(tail, rest);
  }

  /** A process id is not negative, so it is printed as the digits the parser looks for. */
  lemma PidIsNumber(pid: i32, rest: string)
    requires pid >= 0
    ensures FieldThen(Field("{", "pid", Signed(pid)), rest) == FieldThen(Field("{", "pid", Number(pid)), rest)
  {
    assert SignedText(pid) == Print(pid, 10);
  }

  lemma HeaderText(s: Snapshot)
    requires s.pid >= 0
    ensures SnapshotText(s) == FieldThen(Field("{", "pid", Number(s.pid)),
                                         FieldThen(TimeField(s), FieldThen(ListField(), RegionsText(s.regions))))
  {
    var rest := RegionsText(s.regions);
    ThreeFields(Field("{", "pid", Signed(s.pid)), TimeField(s), ListField(), rest);
    PidIsNumber(s.pid, FieldThen(TimeField(s), FieldThen(ListField(), rest)));
  }

  lemma PidFits(pid: i32)
    requires pid >= 0
    ensures ToI32(pid) == pid
  {
  }

  lemma HeaderParsed(s: Snapshot)
    requires s.pid >= 0
    ensures ToI32(ParseU64Field(SnapshotText(s), "pid")) == s.pid
    ensures ParseU64Field(SnapshotText(s), "timestamp_ns") == s.timestampNs
  {
    HeaderText(s);
    HeaderAnswers(SnapshotText(s), s.pid, s.timestampNs, RegionsText(s.regions));
    PidFits(s.pid);
  }

  lemma HeaderAnswers(text: string, pid: u64, time: u64, rest: string)
    requires text == FieldThen(Field("{", "pid", Number(pid)),
                               FieldThen(Field(",", "timestamp_ns", Number(time)), FieldThen(ListField(), rest)))
    ensures ParseU64Field(text, "pid") == pid && ParseU64Field(text, "timestamp_ns") == time
  {
    var fs := [Field("{", "pid", Number(pid)), Field(",", "timestamp_ns", Number(time)), ListField()];
    ThreeFields(fs[0], fs[1], fs[2], rest);
    HeaderTidy(fs, rest);
    FieldsAnswer(fs, rest);
    assert Answers(text, fs[0]) && Answers(text, fs[1]);
  }

  lemma HeaderTidy(fs: seq<Field>, rest: string)
    requires |fs| == 3 && fs[0].value.Number? && fs[1].value.Number? && fs[2].value == Bracket('[')
    requires fs[0].name == "pid" && fs[1].name == "timestamp_ns" && fs[2].name == "regions"
    requires fs[0].before == "{" && fs[1].before == "," && fs[2].before == ","
    ensures Tidy(fs, rest) && DistinctNames(fs)
  {
    assert fs[0].name[0] != fs[1].name[0] && fs[2].name[0] == 'r';
  }

  lemma SubstringBehind(before: string, part: string, more: string)
    ensures HasSubstring(before + (part + more), part)
  {
    var text := before + (part + more);
    assert text[|before|..] == part + more && StartsWith(text[|before|..], part);
  }

  lemma ListText(rest: string)
    ensures FieldThen(ListField(), rest) == "," + ("\"regions\"" + (":[" + rest))
  {
  }

  lemma NamesRegions(s: Snapshot)
    ensures HasSubstring(SnapshotText(s), "\"regions\"")
  {
    var rest := RegionsText(s.regions);
    var pid, time := Field("{", "pid", Signed(s.pid)), TimeField(s);
    var list := "\"regions\"" + (":[" + rest);
    ThreeFields(pid, time, ListField(), rest);
    ListText(rest);
    FieldAppend(time, ",", list);
    FieldAppend(pid, FieldThen(time, ","), list);
    SubstringBehind(FieldThen(pid, FieldThen(time, ",")), "\"regions\"", ":[" + rest);
  }

  // ---------------------------------------------------------------- a process id that is not one

  lemma {:induction false} ParsedNotEmpty(items: seq<string>)
    ensures NonEmptyRegions(ParseRegions(items))
  {
    if items != [] {
      ParsedNotEmpty(items[1..]);
    }
  }

  lemma NoPidField(r: Region)
    ensures forall i :: 0 <= i < |RegionFields(r)| ==> RegionFields(r)[i].name != "pid"
  {
    FieldNames(r);
    assert forall i :: 0 <= i < |NAMES| ==> |NAMES[i]| != 3 || NAMES[i][0] != 'p';
  }

  /** No region of clean strings holds anything that reads as a process id. */
  lemma {:induction false} NoPidInRegions(rs: seq<Region>)
    requires AllClean(rs)
    ensures Search(RegionsText(rs), "pid", ReadNumber) == None
    decreases |rs|
  {
    if rs == [] {
      SkipPlain(LIST_END + "\n", "", "pid", ReadNumber);
      assert LIST_END + "\n" + "" == LIST_END + "\n";
    } else {
      AllCleanFirst(rs);
      var more, later := MoreRegionsText(rs[1..]), RegionsText(rs[1..]);
      NoPidInRegions(rs[1..]);
      SkipPlain(",", later, "pid", ReadNumber);
      SkipPlain("}}", more, "pid", ReadNumber);
      RegionTidy(rs[0], "}}" + more);
      NoPidField(rs[0]);
      SkipFields(RegionFields(rs[0]), "}}" + more, "pid", ReadNumber);
    }
  }

  lemma SignIsNoDigit(i: int, rest: string)
    requires i < 0
    ensures ReadNumber(SignedText(i) + rest) == None
  {
    assert (SignedText(i) + rest)[0] == '-';
  }

  /** The search passes a key whose value has a sign. */
  lemma SkipSigned(pid: i32, rest: string)
    requires pid < 0
    ensures Search(FieldThen(Field("{", "pid", Signed(pid)), rest), "pid", ReadNumber)
            == Search(rest, "pid", ReadNumber)
  {
    var value := SignedText(pid) + rest;
    var text, closing := InQuotes("pid", ":" + value), "\"" + (":" + value);
    SignIsNoDigit(pid, rest);
    SkipPlain("{", text, "pid", ReadNumber);
    assert text == Key("pid") + value && text[|Key("pid")|..] == value;
    assert text[1..] == "pid" + closing;
    SkipPlain("pid", closing, "pid", ReadNumber);
    assert Key("pid")[1] == 'p' && closing[1] == ':' && closing[1..] == ":" + value;
    SkipPlain(":", value, "pid", ReadNumber);
    DigitsPlain(Magnitude(pid), 10);
    SkipPlain(SignedText(pid), rest, "pid", ReadNumber);
  }

  /** A negative process id is printed with its sign and read back as 0. */
  lemma NegativePidLost(s: Snapshot)
    requires s.pid < 0 && AllClean(s.regions)
    ensures ParseU64Field(SnapshotText(s), "pid") == 0
  {
    var rest := RegionsText(s.regions);
    ThreeFields(Field("{", "pid", Signed(s.pid)), TimeField(s), ListField(), rest);
    SkipSigned(s.pid, FieldThen(TimeField(s), FieldThen(ListField(), rest)));
    SkipTime(s, rest);
    NoPidInRegions(s.regions);
  }

  lemma SkipTime(s: Snapshot, rest: string)
    ensures Search(FieldThen(TimeField(s), FieldThen(ListField(), rest)), "pid", ReadNumber)
            == Search(rest, "pid", ReadNumber)
  {
    ListText(rest);
    SkipField(TimeField(s), FieldThen(ListField(), rest), "pid", ReadNumber);
    SkipField(ListField(), rest, "pid", ReadNumber);
  }

  // ---------------------------------------------------------------- the round trip

  /** Snapshots that printing and parsing keep. */
  ghost predicate Survivor(s: Snapshot) {
    s.pid >= 0 && NonEmptyRegions(s.regions) && AllClean(s.regions)
  }

  /** What a parsed snapshot can at best be: probes are printed but not read. */
  function Unprobed(s: Snapshot): Snapshot {
    s.(regions := WithoutProbes(s.regions))
  }

  lemma {:induction false} ProbesAside(rs: seq<Region>)
    ensures NonEmptyRegions(WithoutProbes(rs)) <==> NonEmptyRegions(rs)
  {
    if rs != [] {
      ProbesAside(rs[1..]);
      assert forall i :: 0 < i < |rs| ==> rs[i] == rs[1..][i - 1];
      var w := WithoutProbes(rs);
      assert w[0].begin == rs[0].begin && w[0].end == rs[0].end && w[1..] == WithoutProbes(rs[1..]);
      NonEmptyFirst(rs);
      NonEmptyFirst(w);
    }
  }

  lemma NonEmptyFirst(rs: seq<Region>)
    requires rs != []
    ensures NonEmptyRegions(rs) <==> rs[0].begin < rs[0].end && NonEmptyRegions(rs[1..])
  {
    assert forall i :: 0 < i < |rs| ==> rs[i] == rs[1..][i - 1];
    assert forall i :: 0 <= i < |rs[1..]| ==> rs[1..][i] == rs[i + 1];
  }

  /**
   * Parsing a printed snapshot gives it back, all but the probes, exactly when its process id is not
   * negative, its regions are not empty, their strings are clean and their provenance is not empty.
   */
  lemma SnapshotSurvives(s: Snapshot)
    ensures ParseSnapshot(SnapshotText(s)) == Some(Unprobed(s)) <==> Survivor(s)
  {
    var items := Items(SnapshotText(s));
    HeaderHasNoItem(s);
    NamesRegions(s);
    ParsedNotEmpty(items);
    ProbesAside(s.regions);
    if NonEmptyRegions(s.regions) {
      RegionsSurvive(s.regions);
      if s.pid >= 0 {
        HeaderParsed(s);
      } else if AllClean(s.regions) {
        NegativePidLost(s);
      }
    }
  }

  /** A label that looks like the end of the list is lost, though nothing in it needs an escape. */
  lemma ListEndIsLost(r: Region, s: Snapshot)
    requires s.regions == [r] && r.labelText == "}]}"
    ensures Printable(r.labelText)
    ensures ParseSnapshot(SnapshotText(s)) != Some(Unprobed(s))
  {
    var l := r.labelText;
    assert l[1..][0] == ']' && SpaceRun(l[1..]) == "" && LIST_END <= l[1..];
    assert Closes(l[1..]) && Cut(l) != "";
    assert !CleanRegion(s.regions[0]);
    SnapshotSurvives(s);
  }

  /** Printing and parsing, as one run of the program does them. */
  method PrintAndParse(s: Snapshot) returns (r: Option<Snapshot>)
    ensures r == Some(Unprobed(s)) <==> Survivor(s)
  {
    var text := PrintSnapshotJson(s);
    r := ParseSnapshotJson(text);
    SnapshotSurvives(s);
  }
}
