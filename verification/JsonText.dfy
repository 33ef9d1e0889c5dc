/** JSON string escaping, and its inverse by section 7 of RFC 8259. */
module JsonText {
  import opened Machine
  import opened Numerals

  function EscapeChar(c: char): string {
    if c == '\\' then "\\\\"
    else if c == '"' then "\\\""
    else if c == '\n' then "\\n"
    else if c == '\r' then "\\r"
    else if c == '\t' then "\\t"
    else if c < ' ' then "\\u00" + [DigitChar(c as int / 16), DigitChar(c as int % 16)]
    else [c]
  }

  function Escape(s: string): string {
    if s == "" then "" else EscapeChar(s[0]) + Escape(s[1..])
  }

  lemma EscapeStep(out: string, input: string, i: nat)
    requires i < |input|
    ensures out + EscapeChar(input[i]) + Escape(input[i + 1..]) == out + Escape(input[i..])
  {
    assert input[i..][0] == input[i] && input[i..][1..] == input[i + 1..];
    assert Escape(input[i..]) == EscapeChar(input[i]) + Escape(input[i + 1..]);
  }

  method JsonEscape(input: string) returns (out: string)
    ensures out == Escape(input)
    ensures Unescape(out) == Some(input)
  {
    out := "";
    assert input[0..] == input && "" + Escape(input) == Escape(input);
    for i := 0 to |input|
      invariant out + Escape(input[i..]) == Escape(input)
    {
      EscapeStep(out, input, i);
      out := out + EscapeChar(input[i]);
    }
    assert input[|input|..] == "" && out + "" == out;
    UnescapeEscape(input);
  }

  // ---------------------------------------------------------------- section 7 of RFC 8259

  // Surrogate pairs are not part of this model: escaping never writes them.

  /** One character and how much text spells it. */
  datatype Spelled = Spelled(c: char, length: nat)

  function UnescapeUnit(digits: string): Option<Spelled>
    requires |digits| == 4 && AllDigits(digits, 16)
  {
    var code := Value(digits, 16);
    if code < 0xD800 || 0xE000 <= code < 0x1_0000 then Some(Spelled(code as char, 6)) else None
  }

  function UnescapeChar(text: string): (r: Option<Spelled>)
    requires text != ""
    ensures r.Some? ==> 0 < r.value.length <= |text|
  {
    if text[0] != '\\' then
      if text[0] == '"' || text[0] < ' ' then None else Some(Spelled(text[0], 1))
    else if |text| < 2 then None
    else
      match text[1]
      case '"' => Some(Spelled('"', 2))
      case '\\' => Some(Spelled('\\', 2))
      case '/' => Some(Spelled('/', 2))
      case 'b' => Some(Spelled(8 as char, 2))
      case 'f' => Some(Spelled(12 as char, 2))
      case 'n' => Some(Spelled('\n', 2))
      case 'r' => Some(Spelled('\r', 2))
      case 't' => Some(Spelled('\t', 2))
      case 'u' => if |text| >= 6 && AllDigits(text[2..6], 16) then UnescapeUnit(text[2..6]) else None
      case _ => None
  }

  function Unescape(text: string): Option<string>
    decreases |text|
  {
    if text == "" then Some("")
    else
      match UnescapeChar(text)
      case None => None
      case Some(x) =>
        match Unescape(text[x.length..])
        case None => None
        case Some(s) => Some([x.c] + s)
  }

  lemma ControlDigits(n: nat)
    requires n < 32
    ensures var d := ['0', '0', DigitChar(n / 16), DigitChar(n % 16)]; AllDigits(d, 16) && Value(d, 16) == n
  {
    var hi, lo := DigitChar(n / 16), DigitChar(n % 16);
    DigitRoundTrip(n / 16);
    DigitRoundTrip(n % 16);
    ValueAppend("", '0', 16);
    ValueAppend("0", '0', 16);
    ValueAppend("00", hi, 16);
    ValueAppend("00" + [hi], lo, 16);
    assert "" + ['0'] == "0" && "0" + ['0'] == "00" && "00" + [hi] + [lo] == ['0', '0', hi, lo];
  }

  lemma CharRoundTrip(c: char, rest: string)
    ensures UnescapeChar(EscapeChar(c) + rest) == Some(Spelled(c, |EscapeChar(c)|))
  {
    var text := EscapeChar(c) + rest;
    if c < ' ' && c != '\n' && c != '\r' && c != '\t' {
      var n := c as int;
      ControlDigits(n);
      assert text[2..6] == ['0', '0', DigitChar(n / 16), DigitChar(n % 16)];
      assert n as char == c;
    }
  }

  /** Escaping loses nothing: a conforming reader gets the string back, whatever its characters. */
  lemma {:induction false} UnescapeEscape(s: string)
    ensures Unescape(Escape(s)) == Some(s)
  {
    if s != "" {
      CharRoundTrip(s[0], Escape(s[1..]));
      assert Escape(s)[|EscapeChar(s[0])|..] == Escape(s[1..]);
      UnescapeEscape(s[1..]);
      assert s == [s[0]] + s[1..];
    }
  }

  // ---------------------------------------------------------------- strings that need no escape

  /** No quote, no backslash, no control character. */
  predicate Printable(s: string) {
    forall i :: 0 <= i < |s| ==> s[i] != '"' && s[i] != '\\' && ' ' <= s[i]
  }

  /** Escaping never shortens, and changes a string exactly when it holds a character to escape. */
  lemma {:induction false} EscapeIsIdentity(s: string)
    ensures |Escape(s)| >= |s|
    ensures !Printable(s) ==> |Escape(s)| > |s|
    ensures Escape(s) == s <==> Printable(s)
  {
    if s != "" {
      EscapeIsIdentity(s[1..]);
      assert s == [s[0]] + s[1..];
      assert Printable(s) <==> EscapeChar(s[0]) == [s[0]] && Printable(s[1..]) by {
        assert forall i :: 0 < i < |s| ==> s[i] == s[1..][i - 1];
        if EscapeChar(s[0]) == [s[0]] && Printable(s[1..]) {
          forall i | 0 <= i < |s| ensures s[i] != '"' && s[i] != '\\' && ' ' <= s[i] {
            if i > 0 { assert s[i] == s[1..][i - 1]; }
          }
        }
      }
    }
  }
}
