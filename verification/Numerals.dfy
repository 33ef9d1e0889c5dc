/** Decimal and hexadecimal numerals, printed and read back. */
module Numerals {
  type Base = b: int | b == 10 || b == 16 witness 10

  const DIGITS: string := "0123456789abcdef"

  function DigitChar(d: nat): char
    requires d < 16
  {
    DIGITS[d]
  }

  /** Accepts both cases, as `strtoull` and the hexadecimal patterns do. */
  function DigitValue(c: char): (v: nat)
    ensures v <= 16
  {
    if '0' <= c <= '9' then (c - '0') as int
    else if 'a' <= c <= 'f' then (c - 'a') as int + 10
    else if 'A' <= c <= 'F' then (c - 'A') as int + 10
    else 16
  }

  predicate IsDigit(c: char, base: Base) {
    DigitValue(c) < base
  }

  predicate AllDigits(s: string, base: Base) {
    forall i :: 0 <= i < |s| ==> IsDigit(s[i], base)
  }

  function Times(v: nat, base: Base): nat {
    if base == 10 then v * 10 else v * 16
  }

  function Over(n: nat, base: Base): (q: nat)
    ensures n >= base ==> q < n
  {
    if base == 10 then n / 10 else n / 16
  }

  function Last(n: nat, base: Base): (d: nat)
    ensures d < base && Times(Over(n, base), base) + d == n
  {
    if base == 10 then n % 10 else n % 16
  }

  function Print(n: nat, base: Base): (s: string)
    decreases n
  {
    if n < base then [DigitChar(n)] else Print(Over(n, base), base) + [DigitChar(Last(n, base))]
  }

  function Value(s: string, base: Base): nat {
    if s == "" then 0 else Times(Value(s[..|s| - 1], base), base) + DigitValue(s[|s| - 1])
  }

  lemma DigitRoundTrip(d: nat)
    requires d < 16
    ensures DigitValue(DigitChar(d)) == d
  {
  }

  lemma ValueAppend(s: string, c: char, base: Base)
    ensures Value(s + [c], base) == Times(Value(s, base), base) + DigitValue(c)
  {
    assert (s + [c])[..|s|] == s;
  }

  lemma {:induction false} PrintDigits(n: nat, base: Base)
    ensures Print(n, base) != "" && AllDigits(Print(n, base), base)
    decreases n
  {
    if n < base {
      DigitRoundTrip(n);
    } else {
      DigitRoundTrip(Last(n, base));
      PrintDigits(Over(n, base), base);
    }
  }

  lemma {:induction false} PrintValue(n: nat, base: Base)
    ensures Value(Print(n, base), base) == n
    decreases n
  {
    var d := Last(n, base);
    DigitRoundTrip(d);
    if n < base {
      assert Value("", base) == 0;
      ValueAppend("", DigitChar(n), base);
      assert "" + [DigitChar(n)] == [DigitChar(n)];
      DigitRoundTrip(n);
    } else {
      PrintValue(Over(n, base), base);
      ValueAppend(Print(Over(n, base), base), DigitChar(d), base);
    }
  }

  /** Reading back a printed number gives the number. */
  lemma PrintRoundTrip(n: nat, base: Base)
    ensures Print(n, base) != "" && AllDigits(Print(n, base), base)
    ensures Value(Print(n, base), base) == n
  {
    PrintDigits(n, base);
    PrintValue(n, base);
  }

  /** Numerals have lower-case letters and no leading zero. */
  lemma {:induction false} PrintIsCanonical(n: nat, base: Base)
    ensures Print(n, base) != ""
    ensures forall i :: 0 <= i < |Print(n, base)| ==> '0' <= Print(n, base)[i] <= '9' || 'a' <= Print(n, base)[i] <= 'f'
    ensures n > 0 ==> Print(n, base)[0] != '0'
    decreases n
  {
    if n < base {
      DigitIsLower(n);
    } else {
      DigitIsLower(Last(n, base));
      PrintIsCanonical(Over(n, base), base);
    }
  }

  lemma DigitIsLower(d: nat)
    requires d < 16
    ensures '0' <= DigitChar(d) <= '9' || 'a' <= DigitChar(d) <= 'f'
    ensures DigitChar(d) == '0' <==> d == 0
  {
  }
}
