/** The library sort, as an insertion sort, and what the callers rely on. */
module Sorting {
  function InsertBy<T>(less: (T, T) -> bool, x: T, s: seq<T>): seq<T> {
    if s == [] || !less(s[0], x) then [x] + s else [s[0]] + InsertBy(less, x, s[1..])
  }

  function SortBy<T>(less: (T, T) -> bool, s: seq<T>): seq<T> {
    if s == [] then [] else InsertBy(less, s[0], SortBy(less, s[1..]))
  }

  ghost predicate SortedBy<T>(less: (T, T) -> bool, s: seq<T>) {
    forall i, j :: 0 <= i < j < |s| ==> !less(s[j], s[i])
  }

  /** A strict order whose incomparability is transitive: what `std::sort` demands. */
  ghost predicate StrictWeak<T(!new)>(less: (T, T) -> bool) {
    && (forall x, y :: less(x, y) ==> !less(y, x))
    && (forall x, y, z :: !less(x, y) && !less(y, z) ==> !less(x, z))
  }

  /** Incomparable elements are equal: the sorted order is then unique. */
  ghost predicate Total<T(!new)>(less: (T, T) -> bool) {
    StrictWeak(less) && forall x, y :: x == y || less(x, y) || less(y, x)
  }

  lemma {:induction false} InsertPermutes<T>(less: (T, T) -> bool, x: T, s: seq<T>)
    ensures multiset(InsertBy(less, x, s)) == multiset(s) + multiset{x}
  {
    if s == [] || !less(s[0], x) {
    } else {
      InsertPermutes(less, x, s[1..]);
      assert s == [s[0]] + s[1..];
    }
  }

  lemma {:induction false} SortPermutes<T>(less: (T, T) -> bool, s: seq<T>)
    ensures multiset(SortBy(less, s)) == multiset(s)
    ensures |SortBy(less, s)| == |s|
  {
    if s != [] {
      SortPermutes(less, s[1..]);
      InsertPermutes(less, s[0], SortBy(less, s[1..]));
      assert s == [s[0]] + s[1..];
    }
    assert |multiset(SortBy(less, s))| == |multiset(s)|;
  }

  lemma SameElements<T>(a: seq<T>, b: seq<T>)
    requires multiset(a) == multiset(b)
    ensures forall x :: x in a <==> x in b
  {
    forall x ensures x in a <==> x in b {
      assert x in a <==> x in multiset(a);
      assert x in b <==> x in multiset(b);
    }
  }

  lemma {:induction false} InsertSorted<T(!new)>(less: (T, T) -> bool, x: T, s: seq<T>)
    requires StrictWeak(less) && SortedBy(less, s)
    ensures SortedBy(less, InsertBy(less, x, s))
  {
    if s == [] {
    } else if !less(s[0], x) {
      var r := [x] + s;
      forall i, j | 0 <= i < j < |r| ensures !less(r[j], r[i]) {
        if i == 0 && j > 1 { assert !less(s[j - 1], s[0]); }
      }
    } else {
      var t := InsertBy(less, x, s[1..]);
      InsertSorted(less, x, s[1..]);
      InsertPermutes(less, x, s[1..]);
      var r := [s[0]] + t;
      forall i, j | 0 <= i < j < |r| ensures !less(r[j], r[i]) {
        if i == 0 {
          assert t[j - 1] in multiset(t);
          if t[j - 1] != x {
            assert t[j - 1] in s[1..];
          }
        }
      }
    }
  }

  lemma {:induction false} SortSorts<T(!new)>(less: (T, T) -> bool, s: seq<T>)
    requires StrictWeak(less)
    ensures SortedBy(less, SortBy(less, s))
  {
    if s != [] {
      SortSorts(less, s[1..]);
      InsertSorted(less, s[0], SortBy(less, s[1..]));
    }
  }

  /** Strictly ascending: every element below every later one. */
  ghost predicate Ascending<T>(less: (T, T) -> bool, s: seq<T>) {
    forall i, j :: 0 <= i < j < |s| ==> less(s[i], s[j])
  }

  /** The members of a strictly ascending list determine it. */
  lemma {:induction false} AscendingUnique<T(!new)>(less: (T, T) -> bool, a: seq<T>, b: seq<T>)
    requires forall x, y :: less(x, y) ==> !less(y, x)
    requires Ascending(less, a) && Ascending(less, b) && forall x :: x in a <==> x in b
    ensures a == b
  {
    assert b != [] ==> b[0] in b;
    if a == [] {
    } else {
      assert a[0] in b;
      FirstsAgree(less, a, b);
      RestMembers(less, a, b);
      AscendingUnique(less, a[1..], b[1..]);
      assert a == [a[0]] + a[1..] && b == [b[0]] + b[1..];
    }
  }

  lemma FirstsAgree<T(!new)>(less: (T, T) -> bool, a: seq<T>, b: seq<T>)
    requires forall x, y :: less(x, y) ==> !less(y, x)
    requires Ascending(less, a) && Ascending(less, b) && a != [] && b != []
    requires a[0] in b && b[0] in a
    ensures a[0] == b[0]
  {
    var i :| 0 <= i < |b| && b[i] == a[0];
    var j :| 0 <= j < |a| && a[j] == b[0];
    assert i > 0 ==> less(b[0], b[i]);
    assert j > 0 ==> less(a[0], a[j]);
  }

  lemma RestMembers<T(!new)>(less: (T, T) -> bool, a: seq<T>, b: seq<T>)
    requires forall x, y :: less(x, y) ==> !less(y, x)
    requires Ascending(less, a) && Ascending(less, b) && a != [] && b != [] && a[0] == b[0]
    requires forall x :: x in a <==> x in b
    ensures forall x :: x in a[1..] <==> x in b[1..]
    ensures Ascending(less, a[1..]) && Ascending(less, b[1..])
  {
    forall x ensures x in a[1..] <==> x in b[1..] {
      WithoutFirst(less, a, x);
      WithoutFirst(less, b, x);
    }
  }

  lemma WithoutFirst<T(!new)>(less: (T, T) -> bool, a: seq<T>, x: T)
    requires forall x, y :: less(x, y) ==> !less(y, x)
    requires Ascending(less, a) && a != []
    ensures x in a[1..] <==> x in a && x != a[0]
  {
    assert a == [a[0]] + a[1..];
    if x in a[1..] {
      var i :| 0 <= i < |a[1..]| && a[1..][i] == x;
      assert less(a[0], a[i + 1]);
    }
  }

  /** A list already strictly increasing is left as it is. */
  lemma {:induction false} SortOfSorted<T>(less: (T, T) -> bool, s: seq<T>)
    requires forall i, j :: 0 <= i < j < |s| ==> !less(s[j], s[i])
    ensures SortBy(less, s) == s
  {
    if s != [] {
      SortOfSorted(less, s[1..]);
      if |s| > 1 { assert !less(s[1], s[0]); }
      assert s == [s[0]] + s[1..];
    }
  }

  ghost predicate Distinct<T>(s: seq<T>) {
    forall i, j :: 0 <= i < j < |s| ==> s[i] != s[j]
  }

  lemma TwiceInMultiset<T>(s: seq<T>, i: nat, j: nat)
    requires i < j < |s| && s[i] == s[j]
    ensures multiset(s)[s[i]] >= 2
  {
    assert s == s[..j] + [s[j]] + s[j + 1..];
    assert s[i] in s[..j];
    assert s[i] in multiset(s[..j]);
  }

  lemma {:induction false} OnceInMultiset<T>(s: seq<T>, x: T)
    requires Distinct(s)
    ensures multiset(s)[x] <= 1
  {
    if s != [] {
      var n := |s| - 1;
      OnceInMultiset(s[..n], x);
      assert s == s[..n] + [s[n]];
      if s[n] == x {
        assert x !in s[..n];
        assert x !in multiset(s[..n]);
      }
    }
  }

  /** Elements told apart by a key stay so in any rearrangement. */
  lemma KeysStayDistinct<T, K>(key: T -> K, a: seq<T>, b: seq<T>, i: nat, j: nat)
    requires forall p, q :: 0 <= p < q < |a| ==> key(a[p]) != key(a[q])
    requires multiset(a) == multiset(b) && i < j < |b|
    ensures key(b[i]) != key(b[j])
  {
    if key(b[i]) == key(b[j]) {
      SameElements(a, b);
      assert b[i] in a && b[j] in a && b[i] == b[j];
      TwiceInMultiset(b, i, j);
      OnceInMultiset(a, b[i]);
    }
  }

  method InsertSort<T>(less: (T, T) -> bool, s: seq<T>) returns (r: seq<T>)
    ensures r == SortBy(less, s)
  {
    r := [];
    for i := |s| downto 0
      invariant r == SortBy(less, s[i..])
    {
      assert s[i..][0] == s[i] && s[i..][1..] == s[i + 1..];
      r := InsertOne(less, s[i], r);
    }
    assert s[0..] == s;
  }

  lemma InsertStep<T>(less: (T, T) -> bool, x: T, s: seq<T>, k: nat)
    requires k < |s| && less(s[k], x)
    ensures s[..k] + InsertBy(less, x, s[k..]) == s[..k + 1] + InsertBy(less, x, s[k + 1..])
  {
    var rest, later := s[k..], InsertBy(less, x, s[k + 1..]);
    assert rest[0] == s[k] && rest[1..] == s[k + 1..];
    assert s[..k] + ([s[k]] + later) == s[..k + 1] + later;
  }

  method InsertOne<T>(less: (T, T) -> bool, x: T, s: seq<T>) returns (r: seq<T>)
    ensures r == InsertBy(less, x, s)
  {
    var k := 0;
    assert s[0..] == s && s[..0] == [];
    while k < |s| && less(s[k], x)
      invariant k <= |s|
      invariant InsertBy(less, x, s) == s[..k] + InsertBy(less, x, s[k..])
    {
      InsertStep(less, x, s, k);
      k := k + 1;
    }
    r := s[..k] + ([x] + s[k..]);
  }
}
