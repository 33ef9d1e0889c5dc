/**
 * Fields of printed JSON text, and the searches that find them again. Each search is a regular
 * expression written out: the leftmost place where `"name":` is followed by a value of the right form.
 */
module JsonFields {
  import opened Machine
  import opened Numerals

  // ---------------------------------------------------------------- searching

  /** What a pattern captures at the front of a text, if it matches there. */
  type Reader = string -> Option<string>

  function InQuotes(s: string, rest: string): string {
    "\"" + (s + ("\"" + rest))
  }

  function Key(name: string): string {
    InQuotes(name, ":")
  }

  function Search(text: string, name: string, read: Reader): Option<string>
    decreases |text|
  {
    if text == "" then None
    else if Key(name) <= text && read(text[|Key(name)|..]).Some? then read(text[|Key(name)|..])
    else Search(text[1..], name, read)
  }

  function DigitRun(text: string, base: Base): (run: string)
    ensures run <= text
  {
    if text == "" || !IsDigit(text[0], base) then "" else [text[0]] + DigitRun(text[1..], base)
  }

  function UpToQuote(text: string): Option<string> {
    if text == "" then None
    else if text[0] == '"' then Some("")
    else
      match UpToQuote(text[1..])
      case None => None
      case Some(s) => Some([text[0]] + s)
  }

  function ReadHex(text: string): Option<string> {
    if "\"0x" <= text then
      var run := DigitRun(text[3..], 16);
      if run != "" && "\"" <= text[3 + |run|..] then Some(run) else None
    else None
  }

  function ReadNumber(text: string): Option<string> {
    var run := DigitRun(text, 10);
    if run != "" then Some(run) else None
  }

  function ReadSigned(text: string): Option<string> {
    if "-" <= text then
      match ReadNumber(text[1..])
      case None => None
      case Some(run) => Some("-" + run)
    else ReadNumber(text)
  }

  function ReadFlag(text: string): Option<string> {
    if "true" <= text then Some("true") else if "false" <= text then Some("false") else None
  }

  function ReadString(text: string): Option<string> {
    if "\"" <= text then UpToQuote(text[1..]) else None
  }

  /** `strtoull` stops at the largest value. */
  function Saturated(n: nat): u64 {
    if n < TWO64 then n else U64_MAX
  }

  function ParseHexField(text: string, name: string): u64 {
    match Search(text, name, ReadHex)
    case None => 0
    case Some(run) => Saturated(Value(run, 16))
  }

  function ParseU64Field(text: string, name: string): u64 {
    match Search(text, name, ReadNumber)
    case None => 0
    case Some(run) => Saturated(Value(run, 10))
  }

  function SignedValue(run: string): int {
    if "-" <= run then -(Value(run[1..], 10) as int) else Value(run, 10)
  }

  function ParseIntField(text: string, name: string, fallback: i32): i32 {
    match Search(text, name, ReadSigned)
    case None => fallback
    case Some(run) =>
      var v := SignedValue(run);
      if -0x8000_0000 <= v < 0x8000_0000 then v else fallback
  }

  function ParseBoolField(text: string, name: string): bool {
    match Search(text, name, ReadFlag)
    case None => false
    case Some(run) => run == "true"
  }

  function ParseStringField(text: string, name: string): string {
    match Search(text, name, ReadString)
    case None => ""
    case Some(s) => s
  }

  // ---------------------------------------------------------------- printing

  datatype Datum =
    | Quoted(s: string)
    | Hex(n: u64)
    | Number(n: u64)
    | Signed(i: i32)
    | Flag(b: bool)
    | Bracket(c: char) // the value is nested and its own fields follow

  /** A field and the punctuation before it. */
  datatype Field = Field(before: string, name: string, value: Datum)

  function Magnitude(i: int): nat {
    if i < 0 then -i else i
  }

  function SignedText(i: int): string {
    (if i < 0 then "-" else "") + Print(Magnitude(i), 10)
  }

  function FlagText(b: bool): string {
    if b then "true" else "false"
  }

  /** Text is built from the right, each piece in front of what follows it. */
  function DatumThen(v: Datum, rest: string): string {
    match v
    case Quoted(s) => InQuotes(s, rest)
    case Hex(n) => InQuotes("0x" + Print(n, 16), rest)
    case Number(n) => Print(n, 10) + rest
    case Signed(i) => SignedText(i) + rest
    case Flag(b) => FlagText(b) + rest
    case Bracket(c) => [c] + rest
  }

  function FieldThen(f: Field, rest: string): string {
    f.before + InQuotes(f.name, ":" + DatumThen(f.value, rest))
  }

  function FieldsText(fs: seq<Field>, rest: string): string {
    if fs == [] then rest else FieldThen(fs[0], FieldsText(fs[1..], rest))
  }

  lemma {:induction false} FieldsConcat(a: seq<Field>, b: seq<Field>, rest: string)
    ensures FieldsText(a + b, rest) == FieldsText(a, FieldsText(b, rest))
  {
    if a == [] {
      assert a + b == b;
    } else {
      assert (a + b)[1..] == a[1..] + b;
      FieldsConcat(a[1..], b, rest);
    }
  }

  lemma QuotesAppend(s: string, x: string, y: string)
    ensures InQuotes(s, x + y) == InQuotes(s, x) + y
  {
  }

  lemma Regroup(a: string, x: string, y: string)
    ensures a + (x + y) == (a + x) + y
  {
  }

  lemma DatumAppend(v: Datum, x: string, y: string)
    ensures DatumThen(v, x + y) == DatumThen(v, x) + y
  {
    match v
    case Quoted(s) => QuotesAppend(s, x, y);
    case Hex(n) => QuotesAppend("0x" + Print(n, 16), x, y);
    case Number(n) => Regroup(Print(n, 10), x, y);
    case Signed(i) => Regroup(SignedText(i), x, y);
    case Flag(b) => Regroup(FlagText(b), x, y);
    case Bracket(c) => Regroup([c], x, y);
  }

  lemma FieldAppend(f: Field, x: string, y: string)
    ensures FieldThen(f, x + y) == FieldThen(f, x) + y
  {
    var value := DatumThen(f.value, x);
    DatumAppend(f.value, x, y);
    Regroup(":", value, y);
    QuotesAppend(f.name, ":" + value, y);
    Regroup(f.before, InQuotes(f.name, ":" + value), y);
  }

  lemma {:induction false} FieldsAppend(fs: seq<Field>, x: string, y: string)
    ensures FieldsText(fs, x + y) == FieldsText(fs, x) + y
  {
    if fs != [] {
      FieldsAppend(fs[1..], x, y);
      FieldAppend(fs[0], FieldsText(fs[1..], x), y);
    }
  }

  // ---------------------------------------------------------------- what a search skips

  predicate QuoteFree(s: string) {
    '"' !in s
  }

  /** Punctuation that may follow a value. */
  predicate Follows(text: string) {
    text != "" && (text[0] == ',' || text[0] == '}')
  }

  predicate Word(name: string) {
    QuoteFree(name) && name != "" && name[0] != ':' && !Follows(name)
  }

  /** Every place before `rest` is searched in vain. */
  lemma {:induction false} SkipPlain(t: string, rest: string, name: string, read: Reader)
    requires QuoteFree(t)
    ensures Search(t + rest, name, read) == Search(rest, name, read)
  {
    if t == "" {
      assert t + rest == rest;
    } else {
      assert (t + rest)[1..] == t[1..] + rest;
      assert Key(name)[0] == '"' && (t + rest)[0] == t[0];
      SkipPlain(t[1..], rest, name, read);
    }
  }

  lemma {:induction false} SameQuoted(n: string, s: string, x: string, y: string)
    requires QuoteFree(n) && QuoteFree(s)
    requires n + ("\"" + x) <= s + ("\"" + y)
    ensures n == s && x <= y
  {
    var l, r := n + ("\"" + x), s + ("\"" + y);
    assert l[0] == r[0];
    if n == "" || s == "" {
      assert l == "\"" + x && r == "\"" + y;
      assert l[1..] <= r[1..];
      assert l[1..] == x && r[1..] == y;
    } else {
      assert l[1..] == n[1..] + ("\"" + x) && r[1..] == s[1..] + ("\"" + y);
      SameQuoted(n[1..], s[1..], x, y);
      assert n == [n[0]] + n[1..] && s == [s[0]] + s[1..];
    }
  }

  /** A quoted text is the key only if it is the name and a colon follows. */
  lemma NotTheKey(s: string, after: string, name: string)
    requires QuoteFree(s) && QuoteFree(name)
    requires s != name || !(":" <= after)
    ensures !(Key(name) <= InQuotes(s, after))
  {
    if Key(name) <= InQuotes(s, after) {
      assert Key(name)[1..] == name + ("\"" + ":") && InQuotes(s, after)[1..] == s + ("\"" + after);
      SameQuoted(name, s, ":", after);
    }
  }

  lemma SkipQuoted(s: string, after: string, name: string, read: Reader)
    requires QuoteFree(s) && Word(name)
    requires s != name || !(":" <= after)
    requires after != "" && after[0] != name[0]
    ensures Search(InQuotes(s, after), name, read) == Search(after, name, read)
  {
    var text := InQuotes(s, after);
    NotTheKey(s, after, name);
    assert text[1..] == s + ("\"" + after);
    SkipPlain(s, "\"" + after, name, read);
    var closing := "\"" + after;
    assert Key(name)[1] == name[0] && closing[1..] == after;
    assert !(Key(name) <= closing);
  }

  predicate TidyDatum(v: Datum) {
    match v
    case Quoted(s) => QuoteFree(s)
    case Bracket(c) => c != '"'
    case _ => true
  }

  predicate TidyField(f: Field) {
    QuoteFree(f.before) && Word(f.name) && TidyDatum(f.value)
  }

  /** The text after field `i` begins as this does. */
  function After(fs: seq<Field>, i: nat, rest: string): string {
    if i + 1 < |fs| then fs[i + 1].before else rest
  }

  /** Well-formed fields, every complete value followed by punctuation. */
  predicate Tidy(fs: seq<Field>, rest: string) {
    forall i :: 0 <= i < |fs| ==>
      TidyField(fs[i]) && (fs[i].value.Bracket? || Follows(After(fs, i, rest)))
  }

  lemma TidyTail(fs: seq<Field>, rest: string)
    requires fs != [] && Tidy(fs, rest)
    ensures Tidy(fs[1..], rest)
    ensures fs[0].value.Bracket? || Follows(FieldsText(fs[1..], rest))
  {
    var tail := fs[1..];
    forall i | 0 <= i < |tail|
      ensures TidyField(tail[i]) && (tail[i].value.Bracket? || Follows(After(tail, i, rest)))
    {
      assert tail[i] == fs[i + 1] && After(tail, i, rest) == After(fs, i + 1, rest);
    }
    assert fs[0].value.Bracket? || Follows(After(fs, 0, rest));
    if tail != [] && !fs[0].value.Bracket? {
      assert Follows(tail[0].before);
      assert FieldsText(tail, rest)[0] == tail[0].before[0];
    }
  }

  lemma {:induction false} DigitsPlain(n: nat, base: Base)
    ensures AllDigits(Print(n, base), base) && QuoteFree(Print(n, base)) && Print(n, base) != ""
  {
    PrintRoundTrip(n, base);
  }

  lemma SkipDatum(v: Datum, rest: string, name: string, read: Reader)
    requires TidyDatum(v) && Word(name)
    requires v.Bracket? || Follows(rest)
    ensures Search(DatumThen(v, rest), name, read) == Search(rest, name, read)
  {
    match v {
      case Quoted(s) => SkipQuoted(s, rest, name, read);
      case Hex(n) => DigitsPlain(n, 16); SkipQuoted("0x" + Print(n, 16), rest, name, read);
      case Number(n) => DigitsPlain(n, 10); SkipPlain(Print(n, 10), rest, name, read);
      case Signed(i) => DigitsPlain(Magnitude(i), 10); SkipPlain(SignedText(i), rest, name, read);
      case Flag(b) => SkipPlain(FlagText(b), rest, name, read);
      case Bracket(c) => SkipPlain([c], rest, name, read);
    }
  }

  lemma SkipField(f: Field, rest: string, name: string, read: Reader)
    requires TidyField(f) && Word(name) && f.name != name
    requires f.value.Bracket? || Follows(rest)
    ensures Search(FieldThen(f, rest), name, read) == Search(rest, name, read)
  {
    var value := DatumThen(f.value, rest);
    SkipPlain(f.before, InQuotes(f.name, ":" + value), name, read);
    SkipQuoted(f.name, ":" + value, name, read);
    SkipPlain(":", value, name, read);
    SkipDatum(f.value, rest, name, read);
  }

  /** A search looks past fields of other names. */
  lemma {:induction false} SkipFields(fs: seq<Field>, rest: string, name: string, read: Reader)
    requires Tidy(fs, rest) && Word(name)
    requires forall i :: 0 <= i < |fs| ==> fs[i].name != name
    ensures Search(FieldsText(fs, rest), name, read) == Search(rest, name, read)
  {
    if fs != [] {
      TidyTail(fs, rest);
      SkipField(fs[0], FieldsText(fs[1..], rest), name, read);
      SkipFields(fs[1..], rest, name, read);
    }
  }

  // ---------------------------------------------------------------- what a search finds

  /** The text yields the field's value under its name. */
  predicate Answers(text: string, f: Field) {
    match f.value
    case Quoted(s) => ParseStringField(text, f.name) == s
    case Hex(n) => ParseHexField(text, f.name) == n
    case Number(n) => ParseU64Field(text, f.name) == n
    case Signed(i) => ParseIntField(text, f.name, -1) == i
    case Flag(b) => ParseBoolField(text, f.name) == b
    case Bracket(_) => true
  }

  lemma Found(before: string, name: string, tail: string, read: Reader)
    requires QuoteFree(before) && read(tail).Some?
    ensures Search(before + InQuotes(name, ":" + tail), name, read) == read(tail)
  {
    var text := InQuotes(name, ":" + tail);
    SkipPlain(before, text, name, read);
    assert text == Key(name) + tail;
    assert text[|Key(name)|..] == tail;
  }

  lemma {:induction false} DigitRunIs(s: string, rest: string, base: Base)
    requires AllDigits(s, base)
    requires rest == "" || !IsDigit(rest[0], base)
    ensures DigitRun(s + rest, base) == s
  {
    if s == "" {
      assert s + rest == rest;
    } else {
      assert (s + rest)[1..] == s[1..] + rest;
      DigitRunIs(s[1..], rest, base);
    }
  }

  lemma {:induction false} UpToQuoteIs(s: string, rest: string)
    requires QuoteFree(s)
    ensures UpToQuote(s + ("\"" + rest)) == Some(s)
  {
    if s == "" {
      assert s + ("\"" + rest) == "\"" + rest;
    } else {
      assert (s + ("\"" + rest))[1..] == s[1..] + ("\"" + rest);
      UpToQuoteIs(s[1..], rest);
      assert s == [s[0]] + s[1..];
    }
  }

  lemma NumberFound(n: nat, rest: string)
    requires Follows(rest)
    ensures ReadNumber(Print(n, 10) + rest) == Some(Print(n, 10))
    ensures Value(Print(n, 10), 10) == n
  {
    PrintRoundTrip(n, 10);
    DigitRunIs(Print(n, 10), rest, 10);
  }

  lemma NegativeFound(run: string, rest: string)
    requires ReadNumber(run + rest) == Some(run)
    ensures ReadSigned("-" + run + rest) == Some("-" + run)
    ensures SignedValue("-" + run) == -(Value(run, 10) as int)
  {
    assert ("-" + run + rest)[1..] == run + rest && ("-" + run)[1..] == run;
  }

  lemma SignedFound(i: int, rest: string)
    requires Follows(rest)
    ensures ReadSigned(SignedText(i) + rest) == Some(SignedText(i))
    ensures SignedValue(SignedText(i)) == i
  {
    var run := Print(Magnitude(i), 10);
    NumberFound(Magnitude(i), rest);
    if i < 0 {
      NegativeFound(run, rest);
    } else {
      PrintRoundTrip(i, 10);
      assert SignedText(i) == run && IsDigit(run[0], 10) && run[0] != '-';
    }
  }

  lemma PrefixedDigits(p: string, rest: string)
    requires p != "" && AllDigits(p, 16)
    ensures ReadHex(InQuotes("0x" + p, rest)) == Some(p)
  {
    var text, behind := InQuotes("0x" + p, rest), "\"" + rest;
    DigitRunIs(p, behind, 16);
    assert text == "\"0x" + (p + behind);
    assert text[3..] == p + behind;
    assert text[3 + |p|..] == behind;
  }

  lemma HexFound(n: nat, rest: string)
    ensures ReadHex(InQuotes("0x" + Print(n, 16), rest)) == Some(Print(n, 16))
    ensures Value(Print(n, 16), 16) == n
  {
    PrintRoundTrip(n, 16);
    PrefixedDigits(Print(n, 16), rest);
  }

  lemma FlagFound(b: bool, rest: string)
    ensures ReadFlag(FlagText(b) + rest) == Some(FlagText(b))
  {
    if !b {
      assert (FlagText(b) + rest)[0] == 'f';
    }
  }

  lemma StringFound(s: string, rest: string)
    requires QuoteFree(s)
    ensures ReadString(InQuotes(s, rest)) == Some(s)
  {
    assert InQuotes(s, rest)[1..] == s + ("\"" + rest);
    UpToQuoteIs(s, rest);
  }

  lemma FieldAnswers(f: Field, rest: string)
    requires TidyField(f) && (f.value.Bracket? || Follows(rest))
    ensures Answers(FieldThen(f, rest), f)
  {
    var tail := DatumThen(f.value, rest);
    match f.value {
      case Quoted(s) => StringFound(s, rest); Found(f.before, f.name, tail, ReadString);
      case Hex(n) => HexFound(n, rest); Found(f.before, f.name, tail, ReadHex);
      case Number(n) => NumberFound(n, rest); Found(f.before, f.name, tail, ReadNumber);
      case Signed(i) => SignedFound(i, rest); Found(f.before, f.name, tail, ReadSigned);
      case Flag(b) => FlagFound(b, rest); Found(f.before, f.name, tail, ReadFlag);
      case Bracket(_) =>
    }
  }

  ghost predicate DistinctNames(fs: seq<Field>) {
    forall i, j :: 0 <= i < j < |fs| ==> fs[i].name != fs[j].name
  }

  lemma SkipToAnswer(fs: seq<Field>, rest: string, f: Field)
    requires Tidy(fs, rest) && Word(f.name) && Answers(rest, f)
    requires forall i :: 0 <= i < |fs| ==> fs[i].name != f.name
    ensures Answers(FieldsText(fs, rest), f)
  {
    match f.value
    case Quoted(_) => SkipFields(fs, rest, f.name, ReadString);
    case Hex(_) => SkipFields(fs, rest, f.name, ReadHex);
    case Number(_) => SkipFields(fs, rest, f.name, ReadNumber);
    case Signed(_) => SkipFields(fs, rest, f.name, ReadSigned);
    case Flag(_) => SkipFields(fs, rest, f.name, ReadFlag);
    case Bracket(_) =>
  }

  /** Every printed field is found again, whatever text follows the fields. */
  lemma {:induction false} FieldsAnswer(fs: seq<Field>, rest: string)
    requires Tidy(fs, rest) && DistinctNames(fs)
    ensures forall i :: 0 <= i < |fs| ==> Answers(FieldsText(fs, rest), fs[i])
  {
    if fs != [] {
      TidyTail(fs, rest);
      var after := FieldsText(fs[1..], rest);
      FieldAnswers(fs[0], after);
      assert DistinctNames(fs[1..]);
      FieldsAnswer(fs[1..], rest);
      forall i | 0 < i < |fs| ensures Answers(FieldsText(fs, rest), fs[i]) {
        assert fs[i] == fs[1..][i - 1];
        assert Answers(after, fs[i]);
        assert FieldsText([fs[0]], after) == FieldThen(fs[0], after);
        SkipToAnswer([fs[0]], after, fs[i]);
      }
    }
  }
}
