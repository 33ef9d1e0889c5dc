/** The order of `std::string`, used as the tie-break of several sorts. */
module Strings {
  predicate StringLess(a: string, b: string) {
    if b == "" then false
    else if a == "" then true
    else if a[0] != b[0] then a[0] < b[0]
    else StringLess(a[1..], b[1..])
  }

  lemma {:induction false} StringIrreflexive(a: string)
    ensures !StringLess(a, a)
  {
    if a != "" {
      StringIrreflexive(a[1..]);
    }
  }

  lemma {:induction false} StringTrichotomy(a: string, b: string)
    ensures a == b || StringLess(a, b) || StringLess(b, a)
    ensures !(StringLess(a, b) && StringLess(b, a))
  {
    if a != "" && b != "" && a[0] == b[0] {
      StringTrichotomy(a[1..], b[1..]);
      if a[1..] == b[1..] {
        assert a == [a[0]] + a[1..] && b == [b[0]] + b[1..];
        StringIrreflexive(a);
      }
    }
  }

  lemma {:induction false} StringLessTransitive(a: string, b: string, c: string)
    requires StringLess(a, b) && StringLess(b, c)
    ensures StringLess(a, c)
  {
    if a != "" && a[0] == b[0] && b[0] == c[0] {
      StringLessTransitive(a[1..], b[1..], c[1..]);
    }
  }

  lemma StringOrder()
    ensures forall a, b :: a == b || StringLess(a, b) || StringLess(b, a)
    ensures forall a, b :: StringLess(a, b) ==> !StringLess(b, a)
    ensures forall a, b, c :: StringLess(a, b) && StringLess(b, c) ==> StringLess(a, c)
  {
    forall a, b ensures (a == b || StringLess(a, b) || StringLess(b, a)) && (StringLess(a, b) ==> !StringLess(b, a)) {
      StringTrichotomy(a, b);
    }
    forall a, b, c | StringLess(a, b) && StringLess(b, c) ensures StringLess(a, c) {
      StringLessTransitive(a, b, c);
    }
  }

  /** The strings agree up to `k`, and there `a` ends or has the smaller character. */
  predicate LessAt(a: string, b: string, k: int) {
    && 0 <= k <= |a| && k < |b| && a[..k] == b[..k]
    && (k == |a| || a[k] < b[k])
  }

  /** The order is the lexicographic one. */
  lemma {:induction false} Lexicographic(a: string, b: string)
    ensures StringLess(a, b) <==> exists k :: LessAt(a, b, k)
  {
    if a == "" || b == "" || a[0] != b[0] {
      assert b != "" && (a == "" || a[0] < b[0]) ==> LessAt(a, b, 0);
      forall k ensures LessAt(a, b, k) ==> k == 0 {
        OnlyAtFirst(a, b, k);
      }
    } else {
      Lexicographic(a[1..], b[1..]);
      forall k ensures LessAt(a[1..], b[1..], k) <==> k >= 0 && LessAt(a, b, k + 1) {
        LessLater(a, b, k);
      }
      if k :| LessAt(a, b, k) {
        assert LessAt(a[1..], b[1..], k - 1);
      }
    }
  }

  lemma OnlyAtFirst(a: string, b: string, k: int)
    requires a == "" || b == "" || a[0] != b[0]
    ensures LessAt(a, b, k) ==> k == 0
  {
    if 0 < k <= |a| && k < |b| {
      assert a[..k][0] == a[0] && b[..k][0] == b[0];
    }
  }

  lemma LessLater(a: string, b: string, k: int)
    requires a != "" && b != "" && a[0] == b[0]
    ensures LessAt(a[1..], b[1..], k) <==> k >= 0 && LessAt(a, b, k + 1)
  {
    if 0 <= k < |a| && k < |b| {
      assert a[..k + 1] == [a[0]] + a[1..][..k] && b[..k + 1] == [b[0]] + b[1..][..k];
      if a[..k + 1] == b[..k + 1] {
        assert a[..k + 1][1..] == a[1..][..k] && b[..k + 1][1..] == b[1..][..k];
      }
    }
  }

  /** Texts joined by a character that the first parts do not hold come apart in one way. */
  lemma {:induction false} SplitUnique(c: char, x: string, y: string, u: string, v: string)
    requires c !in x && c !in y
    ensures x + ([c] + u) == y + ([c] + v) <==> x == y && u == v
  {
    var l, r := x + ([c] + u), y + ([c] + v);
    if l == r {
      assert l[0] == r[0];
      if x == "" || y == "" {
        assert l[1..] == r[1..] && x == y;
        assert l[1..] == u && r[1..] == v;
      } else {
        assert l[1..] == x[1..] + ([c] + u) && r[1..] == y[1..] + ([c] + v);
        SplitUnique(c, x[1..], y[1..], u, v);
        assert x == [x[0]] + x[1..] && y == [y[0]] + y[1..];
      }
    }
  }
}
