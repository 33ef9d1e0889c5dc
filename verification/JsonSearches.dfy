/** What the searches of the parser match, in the terms of their patterns, on any text. */
module JsonSearches {
  import opened Machine
  import opened Regions
  import opened Numerals
  import opened JsonText
  import opened JsonFields
  import opened SnapshotJson

  // ---------------------------------------------------------------- fields

  /** The key and a value of the right form stand at place `i`. */
  predicate MatchesAt(text: string, i: int, name: string, read: Reader) {
    0 <= i < |text| && Key(name) <= text[i..] && read(text[i..][|Key(name)|..]).Some?
  }

  lemma MatchesLater(text: string, i: int, name: string, read: Reader)
    requires text != ""
    ensures MatchesAt(text[1..], i, name, read) <==> i >= 0 && MatchesAt(text, i + 1, name, read)
  {
    if 0 <= i < |text| - 1 {
      assert text[1..][i..] == text[i + 1..];
    }
  }

  /** The search captures at the leftmost match, and fails only if there is none. */
  lemma {:induction false} SearchIsLeftmost(text: string, name: string, read: Reader)
    ensures match Search(text, name, read)
            case None => forall i :: !MatchesAt(text, i, name, read)
            case Some(v) =>
              exists i :: MatchesAt(text, i, name, read) && read(text[i..][|Key(name)|..]) == Some(v)
                          && forall j :: j < i ==> !MatchesAt(text, j, name, read)
  {
    if text != "" {
      assert text[0..] == text;
      if !MatchesAt(text, 0, name, read) {
        var tail := text[1..];
        SearchIsLeftmost(tail, name, read);
        forall i ensures MatchesAt(tail, i, name, read) <==> i >= 0 && MatchesAt(text, i + 1, name, read) {
          MatchesLater(text, i, name, read);
        }
        match Search(tail, name, read)
        case None =>
          forall i ensures !MatchesAt(text, i, name, read) {
            assert !MatchesAt(tail, i - 1, name, read);
          }
        case Some(v) =>
          var i :| MatchesAt(tail, i, name, read) && read(tail[i..][|Key(name)|..]) == Some(v)
                   && forall j :: j < i ==> !MatchesAt(tail, j, name, read);
          assert tail[i..] == text[i + 1..];
          forall j | j < i + 1 ensures !MatchesAt(text, j, name, read) {
            assert !MatchesAt(tail, j - 1, name, read);
          }
      }
    }
  }

  /** A run of digits is taken whole. */
  lemma {:induction false} DigitRunIsLongest(text: string, base: Base)
    ensures var run := DigitRun(text, base);
            run <= text && AllDigits(run, base) && (|run| < |text| ==> !IsDigit(text[|run|], base))
  {
    if text != "" && IsDigit(text[0], base) {
      DigitRunIsLongest(text[1..], base);
    }
  }

  /** The text of a field whose value is followed by punctuation. */
  function FieldText(before: string, name: string, value: string, rest: string): string {
    before + InQuotes(name, ":" + (value + rest))
  }

  /** Decimal and hexadecimal values stop at the largest 64-bit number. */
  lemma LargeDecimal(before: string, name: string, n: nat, rest: string)
    requires QuoteFree(before) && Follows(rest)
    ensures ParseU64Field(FieldText(before, name, Print(n, 10), rest), name) == Min(n, U64_MAX)
  {
    NumberFound(n, rest);
    Found(before, name, Print(n, 10) + rest, ReadNumber);
  }

  lemma LargeHexadecimal(before: string, name: string, n: nat, rest: string)
    requires QuoteFree(before)
    ensures ParseHexField(before + InQuotes(name, ":" + InQuotes("0x" + Print(n, 16), rest)), name) == Min(n, U64_MAX)
  {
    HexFound(n, rest);
    Found(before, name, InQuotes("0x" + Print(n, 16), rest), ReadHex);
  }

  /** A signed value that does not fit 32 bits is the fallback. */
  lemma LargeSignedValues(before: string, name: string, i: int, rest: string, fallback: i32)
    requires QuoteFree(before) && Follows(rest)
    ensures ParseIntField(FieldText(before, name, SignedText(i), rest), name, fallback)
            == if -0x8000_0000 <= i <= 0x7FFF_FFFF then i else fallback
  {
    SignedFound(i, rest);
    Found(before, name, SignedText(i) + rest, ReadSigned);
  }

  /** A field that is not there has its default. */
  lemma AbsentField(text: string, name: string, fallback: i32)
    requires QuoteFree(text)
    ensures ParseU64Field(text, name) == 0 && ParseHexField(text, name) == 0 && ParseIntField(text, name, fallback) == fallback
    ensures !ParseBoolField(text, name) && ParseStringField(text, name) == ""
  {
    assert text + "" == text;
    SkipPlain(text, "", name, ReadNumber);
    SkipPlain(text, "", name, ReadHex);
    SkipPlain(text, "", name, ReadSigned);
    SkipPlain(text, "", name, ReadFlag);
    SkipPlain(text, "", name, ReadString);
  }

  /** The process id keeps the low 32 bits of what was read. */
  lemma PidKeepsLowBits(x: u64)
    ensures (ToI32(x) - x) % 0x1_0000_0000 == 0
  {
    assert ToI32(x) - x == -(x / TWO32) * TWO32 || ToI32(x) - x == -(x / TWO32 + 1) * TWO32;
    MultipleOf32(-(x / TWO32));
    MultipleOf32(-(x / TWO32 + 1));
  }

  lemma MultipleOf32(q: int)
    ensures q * TWO32 % TWO32 == 0
  {
  }

  // ---------------------------------------------------------------- regions

  predicate Blank(s: string) {
    forall i :: 0 <= i < |s| ==> s[i] == ' ' || s[i] == '\t' || s[i] == '\n' || s[i] as int == 11 || s[i] as int == 12 || s[i] == '\r'
  }

  /** An optional comma and any white space end at `n`, and there the next region or the end of the list begins. */
  predicate SeparatedAt(text: string, comma: int, n: int) {
    && 0 <= comma <= 1 && comma <= n <= |text| && (comma == 1 ==> text[0] == ',')
    && Blank(text[comma..n])
    && ("{\"begin\"" <= text[n..] || "]}" <= text[n..])
  }

  lemma {:induction false} SpaceRunIsBlank(text: string)
    ensures Blank(SpaceRun(text)) && (|SpaceRun(text)| < |text| ==> !IsSpace(text[|SpaceRun(text)|]))
  {
    if text != "" && IsSpace(text[0]) {
      SpaceRunIsBlank(text[1..]);
    }
  }

  lemma {:induction false} BlankThen(text: string, n: nat)
    requires n <= |text| && Blank(text[..n]) && (n < |text| ==> !IsSpace(text[n]))
    ensures SpaceRun(text) == text[..n]
  {
    if n > 0 {
      var run := text[..n];
      assert run[0] == text[0] && run[1..] == text[1..][..n - 1];
      assert forall i :: 0 <= i < |run[1..]| ==> run[1..][i] == run[i + 1];
      BlankThen(text[1..], n - 1);
      assert text[..n] == [text[0]] + text[1..][..n - 1];
    }
  }

  /** The look-ahead of the region pattern, however its optional parts are chosen. */
  lemma ClosesMeans(text: string)
    ensures Closes(text) <==> exists comma, n :: SeparatedAt(text, comma, n)
  {
    var sep := Separator(text);
    if Closes(text) {
      var comma := if "," <= text then 1 else 0;
      SpaceRunIsBlank(text[comma..]);
      assert text[comma..|sep|] == SpaceRun(text[comma..]);
      assert SeparatedAt(text, comma, |sep|);
    }
    if comma, n :| SeparatedAt(text, comma, n) {
      SeparatorEnds(text, comma, n);
    }
  }

  lemma SeparatorEnds(text: string, comma: int, n: int)
    requires SeparatedAt(text, comma, n)
    ensures |Separator(text)| == n
  {
    var tail := text[comma..];
    assert text[n..][0] == text[n] && (text[n] == '{' || text[n] == ']');
    assert tail[..n - comma] == text[comma..n] && tail[n - comma] == text[n];
    assert n > 0 ==> text[0..n][0] == text[0];
    assert comma == 0 ==> tail == text;
    BlankThen(tail, n - comma);
  }

  /** A closing brace that ends a region stands at `i`, with no line end before it. */
  predicate EndsRegionAt(text: string, i: int) {
    0 <= i < |text| && text[i] == '}' && Closes(text[i + 1..]) && forall j :: 0 <= j < i ==> !LineEnd(text[j])
  }

  lemma EndsLater(text: string, i: int)
    requires text != "" && !LineEnd(text[0])
    ensures EndsRegionAt(text[1..], i) <==> i >= 0 && EndsRegionAt(text, i + 1)
  {
    if 0 <= i < |text| - 1 {
      assert text[1..][i + 1..] == text[i + 2..];
      assert forall j :: 0 < j <= i ==> text[j] == text[1..][j - 1];
    }
  }

  /** The first region end stands at `i`, and `cut` runs up to it and over its separator. */
  ghost predicate CutsAt(text: string, cut: string, i: int) {
    && EndsRegionAt(text, i) && (forall j :: j < i ==> !EndsRegionAt(text, j))
    && cut == text[..i + 1] + Separator(text[i + 1..])
  }

  ghost predicate NoEnd(text: string) {
    forall i :: !EndsRegionAt(text, i)
  }

  lemma EndsShifted(text: string)
    requires text != "" && !EndsRegionAt(text, 0) && !LineEnd(text[0])
    ensures forall i :: EndsRegionAt(text, i) <==> EndsRegionAt(text[1..], i - 1)
  {
    forall i ensures EndsRegionAt(text, i) <==> EndsRegionAt(text[1..], i - 1) {
      EndsLater(text, i - 1);
    }
  }

  lemma TakeLater(text: string, i: int)
    requires 0 <= i < |text| - 1
    ensures text[1..][i + 1..] == text[i + 2..] && text[..i + 2] == [text[0]] + text[1..][..i + 1]
  {
  }

  lemma CutsLater(text: string, cut: string, i: int)
    requires text != "" && !EndsRegionAt(text, 0) && !LineEnd(text[0]) && CutsAt(text[1..], cut, i)
    ensures CutsAt(text, [text[0]] + cut, i + 1)
  {
    EndsShifted(text);
    var tail := text[1..];
    TakeLater(text, i);
    Regroup([text[0]], tail[..i + 1], Separator(tail[i + 1..]));
    forall j | j < i + 1 ensures !EndsRegionAt(text, j) {
      assert !EndsRegionAt(tail, j - 1);
    }
  }

  /** The lazy match takes the text up to the first region end and its separator, and fails if there is none. */
  lemma {:induction false} CutIsShortest(text: string)
    ensures if Cut(text) == "" then NoEnd(text) else exists i :: CutsAt(text, Cut(text), i)
  {
    if text != "" {
      if EndsRegionAt(text, 0) {
        assert text[..1] == ['}'] && CutsAt(text, Cut(text), 0);
      } else if LineEnd(text[0]) {
        assert NoEnd(text);
      } else {
        var tail := text[1..];
        CutIsShortest(tail);
        if Cut(tail) == "" {
          EndsShifted(text);
        } else {
          var i :| CutsAt(tail, Cut(tail), i);
          CutsLater(text, Cut(tail), i);
        }
      }
    }
  }

  /** Text without an opening brace holds no region: it is a snapshot only if it speaks of regions. */
  lemma NoSnapshot(text: string)
    requires '{' !in text
    ensures ParseSnapshot(text).None? <==> !HasSubstring(text, "\"regions\"")
  {
    NoItems(text);
  }

  lemma {:induction false} NoItems(text: string)
    requires '{' !in text
    ensures Items(text) == []
  {
    if text != "" {
      assert HeadAt(text) == "" by { assert text[0] != '{'; }
      NoItems(text[1..]);
    }
  }

  // ---------------------------------------------------------------- escapes

  /** Plain characters stay, five have escapes of two characters, the other control characters of six. */
  lemma EscapeWidths(c: char)
    ensures |EscapeChar(c)| == 1 <==> ' ' <= c && c != '"' && c != '\\'
    ensures |EscapeChar(c)| == 2 <==> c == '"' || c == '\\' || c == '\n' || c == '\r' || c == '\t'
    ensures |EscapeChar(c)| == 1 || |EscapeChar(c)| == 2 || |EscapeChar(c)| == 6
  {
  }
}
