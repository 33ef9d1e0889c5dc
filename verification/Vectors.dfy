/** Sums and dot products of real series. */
module Vectors {
  type Vec = seq<real>

  function Times(a: real, b: real): real {
    a * b
  }

  function Sum(x: Vec): real {
    if x == [] then 0.0 else Sum(x[..|x| - 1]) + x[|x| - 1]
  }

  function Dot(x: Vec, y: Vec): real
    requires |x| == |y|
  {
    if x == [] then 0.0
    else
      var n := |x| - 1;
      Dot(x[..n], y[..n]) + Times(x[n], y[n])
  }

  /** `x - c y`, element by element. */
  function Minus(x: Vec, c: real, y: Vec): (r: Vec)
    requires |x| == |y|
    ensures |r| == |x|
  {
    seq(|x|, i requires 0 <= i < |x| => x[i] - Times(c, y[i]))
  }

  function Ones(n: nat): (r: Vec)
    ensures |r| == n
  {
    seq(n, i => 1.0)
  }

  lemma DistributeMinus(a: real, c: real, b: real, z: real)
    ensures Times(a - Times(c, b), z) == Times(a, z) - Times(c, Times(b, z))
  {
  }

  lemma Distribute(c: real, p: real, q: real)
    ensures Times(c, p + q) == Times(c, p) + Times(c, q)
  {
  }

  lemma {:induction false} DotMinus(x: Vec, c: real, y: Vec, z: Vec)
    requires |x| == |y| == |z|
    ensures Dot(Minus(x, c, y), z) == Dot(x, z) - Times(c, Dot(y, z))
  {
    if x != [] {
      var n := |x| - 1;
      DotMinus(x[..n], c, y[..n], z[..n]);
      assert Minus(x, c, y)[..n] == Minus(x[..n], c, y[..n]);
      DistributeMinus(x[n], c, y[n], z[n]);
      Distribute(c, Dot(y[..n], z[..n]), Times(y[n], z[n]));
    }
  }

  lemma {:induction false} DotSymmetric(x: Vec, y: Vec)
    requires |x| == |y|
    ensures Dot(x, y) == Dot(y, x)
  {
    if x != [] {
      DotSymmetric(x[..|x| - 1], y[..|x| - 1]);
    }
  }

  lemma {:induction false} DotOnes(x: Vec)
    ensures Dot(x, Ones(|x|)) == Sum(x)
  {
    if x != [] {
      var n := |x| - 1;
      DotOnes(x[..n]);
      assert Ones(|x|)[..n] == Ones(n);
    }
  }

  lemma {:induction false} SumOnes(n: nat)
    ensures Sum(Ones(n)) == n as real
  {
    if n > 0 {
      SumOnes(n - 1);
      assert Ones(n)[..n - 1] == Ones(n - 1);
    }
  }

  lemma PositiveProduct(a: real, b: real)
    requires (a > 0.0 && b > 0.0) || (a < 0.0 && b < 0.0)
    ensures Times(a, b) > 0.0
  {
  }

  lemma SquareNonNegative(x: real)
    ensures Times(x, x) >= 0.0
    ensures x != 0.0 ==> Times(x, x) > 0.0
  {
    if x != 0.0 {
      PositiveProduct(x, x);
    }
  }

  lemma ProductNonNegative(a: real, b: real)
    requires (a >= 0.0 && b >= 0.0) || (a <= 0.0 && b <= 0.0)
    ensures Times(a, b) >= 0.0
  {
  }

  /** Term by term of one sign, so not negative. */
  lemma {:induction false} DotNonNegative(x: Vec, y: Vec)
    requires |x| == |y|
    requires forall i :: 0 <= i < |x| ==> (x[i] >= 0.0 && y[i] >= 0.0) || (x[i] <= 0.0 && y[i] <= 0.0)
    ensures Dot(x, y) >= 0.0
  {
    if x != [] {
      var n := |x| - 1;
      DotNonNegative(x[..n], y[..n]);
      ProductNonNegative(x[n], y[n]);
    }
  }

  lemma SquaredLength(x: Vec)
    ensures Dot(x, x) >= 0.0
  {
    DotNonNegative(x, x);
  }

  lemma {:induction false} SquaredLengthPositive(x: Vec, i: nat)
    requires i < |x| && x[i] != 0.0
    ensures Dot(x, x) > 0.0
  {
    var n := |x| - 1;
    SquareNonNegative(x[n]);
    if i < n {
      SquaredLengthPositive(x[..n], i);
    } else {
      SquaredLength(x[..n]);
    }
  }

  lemma PythagorasAlgebra(rr: real, rx: real, ry: real, xx: real, yy: real, c: real)
    requires rr == rx - Times(c, ry) && rx == xx - Times(c, 0.0) && ry == 0.0 - Times(c, yy)
    ensures rr == xx + Times(Times(c, c), yy)
  {
  }

  /** Subtracting a multiple of an orthogonal series adds its squared length. */
  lemma Pythagoras(x: Vec, c: real, y: Vec)
    requires |x| == |y| && Dot(x, y) == 0.0
    ensures Dot(Minus(x, c, y), Minus(x, c, y)) == Dot(x, x) + Times(Times(c, c), Dot(y, y))
  {
    var r := Minus(x, c, y);
    DotMinus(x, c, y, r);
    DotSymmetric(x, r);
    DotSymmetric(y, r);
    DotMinus(x, c, y, x);
    DotMinus(x, c, y, y);
    DotSymmetric(x, y);
    PythagorasAlgebra(Dot(r, r), Dot(r, x), Dot(r, y), Dot(x, x), Dot(y, y), c);
  }
}
