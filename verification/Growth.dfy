/** Trend detection over a series of samples: least squares and monotonicity, over the reals. */
module Growth {
  import opened Machine
  import opened Vectors

  datatype Totals = Totals(size: u64, rssKb: u64)

  datatype Trend = Trend(slope: real, r2: real)

  function Column(totals: seq<Totals>, useRss: bool): (ys: Vec)
    ensures |ys| == |totals|
  {
    seq(|totals|, i requires 0 <= i < |totals| => (if useRss then totals[i].rssKb else totals[i].size) as real)
  }

  /** A series is the sizes of the samples, or their resident sizes. */
  lemma ColumnIs(totals: seq<Totals>, i: nat)
    requires i < |totals|
    ensures Column(totals, false)[i] == totals[i].size as real
    ensures Column(totals, true)[i] == totals[i].rssKb as real
  {
  }

  /** The sample numbers 0, 1, 2, ... */
  function Indices(n: nat): (xs: Vec)
    ensures |xs| == n
  {
    seq(n, i => i as real)
  }

  function Mean(x: Vec): real
    requires x != []
  {
    Sum(x) / |x| as real
  }

  /** A series with its mean taken off. */
  function Centred(x: Vec): (c: Vec)
    requires x != []
    ensures |c| == |x|
  {
    Minus(x, Mean(x), Ones(|x|))
  }

  function SpreadX(n: nat): real
    requires n > 0
  {
    Dot(Centred(Indices(n)), Centred(Indices(n)))
  }

  function Slope(ys: Vec): real
    requires ys != []
  {
    var u, v := Centred(Indices(|ys|)), Centred(ys);
    if SpreadX(|ys|) == 0.0 then 0.0 else Dot(u, v) / SpreadX(|ys|)
  }

  /** What the fitted line leaves over at each sample. */
  function Errors(ys: Vec): (r: Vec)
    requires ys != []
    ensures |r| == |ys|
  {
    Minus(Centred(ys), Slope(ys), Centred(Indices(|ys|)))
  }

  function Residual(ys: Vec): real
    requires ys != []
  {
    Dot(Errors(ys), Errors(ys))
  }

  function Variation(ys: Vec): real
    requires ys != []
  {
    Dot(Centred(ys), Centred(ys))
  }

  /** What the line `a + b x` leaves over at each sample. */
  function LineErrors(ys: Vec, a: real, b: real): (r: Vec)
    ensures |r| == |ys|
  {
    seq(|ys|, i requires 0 <= i < |ys| => ys[i] - (a + Times(b, i as real)))
  }

  // ---------------------------------------------------------------- the program's loops

  method TrendFor(totals: seq<Totals>, useRss: bool) returns (trend: Trend)
    ensures |totals| < 2 ==> trend == Trend(0.0, 0.0)
    ensures |totals| >= 2 ==>
              var ys := Column(totals, useRss);
              trend == Trend(Slope(ys), if Variation(ys) == 0.0 then 1.0 else 1.0 - Residual(ys) / Variation(ys))
  {
    var n := |totals|;
    if n < 2 {
      return Trend(0.0, 0.0);
    }
    var ys := Column(totals, useRss);
    var meanX, meanY := Means(ys);
    var ssXX, ssXY := Spreads(ys, meanX, meanY);
    SpreadPositive(n);
    if ssXX == 0.0 {
      assert false;
      return Trend(0.0, 0.0);
    }
    var slope := ssXY / ssXX;
    var ssTotal, ssResidual := Variations(ys, meanX, meanY, slope);
    RSquaredInRange(ys);
    var r2: real;
    if ssTotal == 0.0 {
      r2 := if ssResidual == 0.0 then 1.0 else 0.0;
    } else {
      var raw := 1.0 - ssResidual / ssTotal;
      var capped := if raw < 1.0 then raw else 1.0;
      r2 := if 0.0 < capped then capped else 0.0;
    }
    trend := Trend(slope, r2);
  }

  method Means(ys: Vec) returns (meanX: real, meanY: real)
    requires ys != []
    ensures meanX == Mean(Indices(|ys|)) && meanY == Mean(ys)
  {
    var n := |ys|;
    ghost var xs := Indices(n);
    var sumX, sumY := 0.0, 0.0;
    for i := 0 to n
      invariant sumX == Sum(xs[..i]) && sumY == Sum(ys[..i])
    {
      assert xs[..i + 1][..i] == xs[..i] && ys[..i + 1][..i] == ys[..i];
      sumX := sumX + i as real;
      sumY := sumY + ys[i];
    }
    assert xs[..n] == xs && ys[..n] == ys;
    meanX, meanY := sumX / n as real, sumY / n as real;
  }

  method Spreads(ys: Vec, meanX: real, meanY: real) returns (ssXX: real, ssXY: real)
    requires ys != [] && meanX == Mean(Indices(|ys|)) && meanY == Mean(ys)
    ensures ssXX == SpreadX(|ys|) && ssXY == Dot(Centred(Indices(|ys|)), Centred(ys))
  {
    var n := |ys|;
    ghost var u, v := Centred(Indices(n)), Centred(ys);
    ssXX, ssXY := 0.0, 0.0;
    for i := 0 to n
      invariant ssXX == Dot(u[..i], u[..i]) && ssXY == Dot(u[..i], v[..i])
    {
      assert u[..i + 1][..i] == u[..i] && v[..i + 1][..i] == v[..i];
      var dx, dy := i as real - meanX, ys[i] - meanY;
      assert dx == u[i] && dy == v[i];
      ssXX := ssXX + Times(dx, dx);
      ssXY := ssXY + Times(dx, dy);
    }
    assert u[..n] == u && v[..n] == v;
  }

  method Variations(ys: Vec, meanX: real, meanY: real, slope: real) returns (ssTotal: real, ssResidual: real)
    requires ys != [] && meanX == Mean(Indices(|ys|)) && meanY == Mean(ys) && slope == Slope(ys)
    ensures ssTotal == Variation(ys) && ssResidual == Residual(ys)
  {
    var n := |ys|;
    ghost var v, r := Centred(ys), Errors(ys);
    ssTotal, ssResidual := 0.0, 0.0;
    for i := 0 to n
      invariant ssTotal == Dot(v[..i], v[..i]) && ssResidual == Dot(r[..i], r[..i])
    {
      assert v[..i + 1][..i] == v[..i] && r[..i + 1][..i] == r[..i];
      var fitted := meanY + Times(slope, i as real - meanX);
      var dy, e := ys[i] - meanY, ys[i] - fitted;
      assert Centred(Indices(n))[i] == i as real - meanX;
      assert dy == v[i] && e == r[i];
      ssTotal := ssTotal + Times(dy, dy);
      ssResidual := ssResidual + Times(e, e);
    }
    assert v[..n] == v && r[..n] == r;
  }

  // ---------------------------------------------------------------- least squares

  lemma DivideBack(a: real, b: real)
    requires b != 0.0
    ensures Times(a / b, b) == a
  {
  }

  lemma CentredSum(x: Vec)
    requires x != []
    ensures Dot(Centred(x), Ones(|x|)) == 0.0
  {
    DotMinus(x, Mean(x), Ones(|x|), Ones(|x|));
    DotOnes(x);
    DotOnes(Ones(|x|));
    SumOnes(|x|);
    DivideBack(Sum(x), |x| as real);
  }

  /** Two samples are enough for the sample numbers to spread, so the division is always defined. */
  lemma SpreadPositive(n: nat)
    requires n >= 2
    ensures SpreadX(n) > 0.0
  {
    var u := Centred(Indices(n));
    assert u[1] - u[0] == 1.0;
    SquaredLengthPositive(u, if u[0] != 0.0 then 0 else 1);
  }

  /** The fitted errors are orthogonal to the constants and to the sample numbers. */
  lemma NormalEquations(ys: Vec)
    requires |ys| >= 2
    ensures Dot(Errors(ys), Ones(|ys|)) == 0.0
    ensures Dot(Errors(ys), Centred(Indices(|ys|))) == 0.0
  {
    var n, s, u, v := |ys|, Slope(ys), Centred(Indices(|ys|)), Centred(ys);
    SpreadPositive(n);
    CentredSum(ys);
    CentredSum(Indices(n));
    DotMinus(v, s, u, Ones(n));
    DotMinus(v, s, u, u);
    DotSymmetric(v, u);
    DivideBack(Dot(u, v), Dot(u, u));
  }

  lemma LineTerm(y: real, x: real, mx: real, my: real, s: real, a: real, b: real)
    ensures y - (a + Times(b, x)) ==
            ((y - Times(my, 1.0)) - Times(s, x - Times(mx, 1.0)))
            - Times(Offset(mx, my, a, b), 1.0) - Times(b - s, x - Times(mx, 1.0))
  {
  }

  /** How far the line `a + b x` passes above the point of means. */
  function Offset(mx: real, my: real, a: real, b: real): real {
    a + Times(b, mx) - my
  }

  function LineOffset(ys: Vec, a: real, b: real): real
    requires ys != []
  {
    Offset(Mean(Indices(|ys|)), Mean(ys), a, b)
  }

  /** The errors of any line are the fitted ones, less an offset and a tilt. */
  lemma LineErrorsSplit(ys: Vec, a: real, b: real)
    requires |ys| >= 2
    ensures LineErrors(ys, a, b) ==
            Minus(Minus(Errors(ys), LineOffset(ys, a, b), Ones(|ys|)), b - Slope(ys), Centred(Indices(|ys|)))
  {
    var n, s, c := |ys|, Slope(ys), LineOffset(ys, a, b);
    var w := Minus(Minus(Errors(ys), c, Ones(n)), b - s, Centred(Indices(n)));
    forall i | 0 <= i < n ensures LineErrors(ys, a, b)[i] == w[i] {
      LineTerm(ys[i], i as real, Mean(Indices(n)), Mean(ys), s, a, b);
    }
  }

  /** Any line's residual is the fitted line's, plus what its offset and its tilt cost. */
  lemma LineCost(ys: Vec, a: real, b: real)
    requires |ys| >= 2
    ensures var c, d := LineOffset(ys, a, b), b - Slope(ys);
            Dot(LineErrors(ys, a, b), LineErrors(ys, a, b))
            == Residual(ys) + Times(Times(c, c), |ys| as real) + Times(Times(d, d), SpreadX(|ys|))
  {
    var n, u, r := |ys|, Centred(Indices(|ys|)), Errors(ys);
    var c, d := LineOffset(ys, a, b), b - Slope(ys);
    NormalEquations(ys);
    LineErrorsSplit(ys, a, b);
    Pythagoras(r, c, Ones(n));
    DotOnes(Ones(n));
    SumOnes(n);
    DotMinus(r, c, Ones(n), u);
    CentredSum(Indices(n));
    DotSymmetric(Ones(n), u);
    assert Times(c, 0.0) == 0.0;
    Pythagoras(Minus(r, c, Ones(n)), d, u);
  }

  /** No line has a smaller residual than the fitted one. */
  lemma FitIsBest(ys: Vec, a: real, b: real)
    requires |ys| >= 2
    ensures Residual(ys) <= Dot(LineErrors(ys, a, b), LineErrors(ys, a, b))
  {
    var c, d := LineOffset(ys, a, b), b - Slope(ys);
    LineCost(ys, a, b);
    SpreadPositive(|ys|);
    CostNonNegative(c, |ys| as real);
    CostNonNegative(d, SpreadX(|ys|));
  }

  lemma CostNonNegative(c: real, q: real)
    requires q >= 0.0
    ensures Times(Times(c, c), q) >= 0.0
  {
    SquareNonNegative(c);
    ProductNonNegative(Times(c, c), q);
  }

  /** Total variation is residual plus what the slope explains. */
  lemma VariationSplits(ys: Vec)
    requires |ys| >= 2
    ensures Variation(ys) == Residual(ys) + Times(Times(Slope(ys), Slope(ys)), SpreadX(|ys|))
  {
    var s, u := Slope(ys), Centred(Indices(|ys|));
    NormalEquations(ys);
    Pythagoras(Errors(ys), -s, u);
    PutAllBack(Centred(ys), s, u);
    SquareOfNegated(s);
  }

  lemma PutAllBack(v: Vec, s: real, u: Vec)
    requires |v| == |u|
    ensures Minus(Minus(v, s, u), -s, u) == v
  {
    forall i | 0 <= i < |v| ensures Minus(Minus(v, s, u), -s, u)[i] == v[i] {
      PutBack(v[i], s, u[i]);
    }
  }

  lemma SquareOfNegated(s: real)
    ensures Times(-s, -s) == Times(s, s)
  {
  }

  lemma PutBack(v: real, s: real, u: real)
    ensures v - Times(s, u) - Times(-s, u) == v
  {
  }

  lemma QuotientInRange(r: real, t: real)
    requires 0.0 <= r <= t && t > 0.0
    ensures 0.0 <= r / t <= 1.0
  {
  }

  /** R squared lies between 0 and 1 by itself; with no variation there is no residual either. */
  lemma RSquaredInRange(ys: Vec)
    requires |ys| >= 2
    ensures if Variation(ys) == 0.0 then Residual(ys) == 0.0
            else 0.0 <= 1.0 - Residual(ys) / Variation(ys) <= 1.0
  {
    VariationSplits(ys);
    SquaredLength(Errors(ys));
    SpreadPositive(|ys|);
    CostNonNegative(Slope(ys), SpreadX(|ys|));
    if Variation(ys) != 0.0 {
      QuotientInRange(Residual(ys), Variation(ys));
    }
  }

  // ---------------------------------------------------------------- monotone series

  ghost predicate NonDecreasing(ys: Vec) {
    forall i, j :: 0 <= i < j < |ys| ==> ys[i] <= ys[j]
  }

  function Triangle(n: nat): nat {
    if n == 0 then 0 else Triangle(n - 1) + n - 1
  }

  lemma {:induction false} TriangleIs(n: nat)
    ensures 2 * Triangle(n) == n * (n - 1)
  {
    if n > 0 {
      TriangleIs(n - 1);
      assert n * (n - 1) == (n - 1) * (n - 2) + 2 * (n - 1);
    }
  }

  lemma {:induction false} SumOfIndices(n: nat)
    ensures Sum(Indices(n)) == Triangle(n) as real
  {
    if n > 0 {
      SumOfIndices(n - 1);
      assert Indices(n)[..n - 1] == Indices(n - 1);
    }
  }

  lemma Cancel(k: real, a: real, b: real)
    requires k != 0.0 && Times(a, k) == Times(b, k)
    ensures a == b
  {
  }

  lemma HalfProduct(h: real, k: real)
    requires h * 2.0 == k * (k - 1.0)
    ensures h == Times((k - 1.0) / 2.0, k)
  {
  }

  lemma ProductAsReal(a: int, b: int)
    ensures (a * b) as real == a as real * b as real
  {
  }

  lemma MeanOfIndices(n: nat)
    requires n > 0
    ensures Mean(Indices(n)) == (n as real - 1.0) / 2.0
  {
    var k := n as real;
    SumOfIndices(n);
    TriangleIs(n);
    ProductAsReal(n, n - 1);
    HalfProduct(Sum(Indices(n)), k);
    DivideBack(Sum(Indices(n)), k);
    Cancel(k, Mean(Indices(n)), (k - 1.0) / 2.0);
  }

  /** A series that never falls has a slope that is not negative. */
  lemma MonotoneSlope(ys: Vec)
    requires |ys| >= 2 && NonDecreasing(ys)
    ensures Slope(ys) >= 0.0
  {
    var n, u, mid := |ys|, Centred(Indices(|ys|)), (|ys| - 1) / 2;
    var p := ys[mid];
    var around := Minus(ys, p, Ones(n));
    MeanOfIndices(n);
    forall i | 0 <= i < n ensures (u[i] >= 0.0 && around[i] >= 0.0) || (u[i] <= 0.0 && around[i] <= 0.0) {
      assert i < mid ==> ys[i] <= ys[mid];
      assert mid < i ==> ys[mid] <= ys[i];
    }
    DotNonNegative(u, around);
    CentredSum(Indices(n));
    CovarianceShifts(ys, p);
    SpreadPositive(n);
    QuotientNonNegative(Dot(u, Centred(ys)), SpreadX(n));
  }

  /** Taking any constant off the ordinates gives the same covariance sum. */
  lemma CovarianceShifts(ys: Vec, p: real)
    requires ys != []
    ensures Dot(Centred(Indices(|ys|)), Centred(ys)) == Dot(Centred(Indices(|ys|)), Minus(ys, p, Ones(|ys|)))
  {
    var n, u := |ys|, Centred(Indices(|ys|));
    CentredSum(Indices(n));
    DotSymmetric(u, Ones(n));
    DotMinus(ys, p, Ones(n), u);
    DotMinus(ys, Mean(ys), Ones(n), u);
    DotSymmetric(u, Centred(ys));
    DotSymmetric(u, Minus(ys, p, Ones(n)));
  }

  lemma QuotientNonNegative(a: real, b: real)
    requires a >= 0.0 && b > 0.0
    ensures a / b >= 0.0
  {
  }

  datatype GrowthTrend = GrowthTrend(monotonicSize: bool, monotonicRss: bool, size: Trend, rss: Trend)

  /** The flags as the sampling loop keeps them: each sample against the one before. */
  method CheckTrend(totals: seq<Totals>) returns (report: GrowthTrend)
    ensures report.monotonicSize <==> forall i, j :: 0 <= i < j < |totals| ==> totals[i].size <= totals[j].size
    ensures report.monotonicRss <==> forall i, j :: 0 <= i < j < |totals| ==> totals[i].rssKb <= totals[j].rssKb
    ensures |totals| >= 2 ==> report.size.slope == Slope(Column(totals, false))
    ensures |totals| >= 2 ==> report.rss.slope == Slope(Column(totals, true))
    ensures report.monotonicSize ==> report.size.slope >= 0.0
    ensures report.monotonicRss ==> report.rss.slope >= 0.0
    ensures 0.0 <= report.size.r2 <= 1.0 && 0.0 <= report.rss.r2 <= 1.0
  {
    ghost var sizes, rsses := Column(totals, false), Column(totals, true);
    var monotonicSize, monotonicRss := true, true;
    for i := 0 to |totals|
      invariant monotonicSize <==> Climbs(sizes, i)
      invariant monotonicRss <==> Climbs(rsses, i)
    {
      if i > 0 {
        assert totals[i].size >= totals[i - 1].size <==> sizes[i - 1] <= sizes[i];
        assert totals[i].rssKb >= totals[i - 1].rssKb <==> rsses[i - 1] <= rsses[i];
        monotonicSize := monotonicSize && totals[i].size >= totals[i - 1].size;
        monotonicRss := monotonicRss && totals[i].rssKb >= totals[i - 1].rssKb;
      }
    }
    ClimbsIsNonDecreasing(sizes);
    ClimbsIsNonDecreasing(rsses);
    NeverFalls(totals);
    var size := TrendFor(totals, false);
    var rss := TrendFor(totals, true);
    if |totals| >= 2 {
      RSquaredInRange(sizes);
      RSquaredInRange(rsses);
      if monotonicSize { MonotoneSlope(sizes); }
      if monotonicRss { MonotoneSlope(rsses); }
    }
    report := GrowthTrend(monotonicSize, monotonicRss, size, rss);
  }

  lemma NeverFalls(totals: seq<Totals>)
    ensures NonDecreasing(Column(totals, false)) <==>
              forall i, j :: 0 <= i < j < |totals| ==> totals[i].size <= totals[j].size
    ensures NonDecreasing(Column(totals, true)) <==>
              forall i, j :: 0 <= i < j < |totals| ==> totals[i].rssKb <= totals[j].rssKb
  {
    var sizes, rsses := Column(totals, false), Column(totals, true);
    forall i, j | 0 <= i < j < |totals|
      ensures sizes[i] <= sizes[j] <==> totals[i].size <= totals[j].size
      ensures rsses[i] <= rsses[j] <==> totals[i].rssKb <= totals[j].rssKb
    {
      ColumnIs(totals, i);
      ColumnIs(totals, j);
    }
  }

  /** Each of the first `n` samples is at least the one before it. */
  ghost predicate Climbs(ys: Vec, n: nat)
    requires n <= |ys|
  {
    forall i :: 0 < i < n ==> ys[i - 1] <= ys[i]
  }

  lemma ClimbsIsNonDecreasing(ys: Vec)
    ensures Climbs(ys, |ys|) <==> NonDecreasing(ys)
  {
    if Climbs(ys, |ys|) {
      forall i, j | 0 <= i < j < |ys| ensures ys[i] <= ys[j] {
        ClimbsBetween(ys, i, j);
      }
    }
  }

  lemma {:induction false} ClimbsBetween(ys: Vec, i: nat, j: nat)
    requires i <= j < |ys| && Climbs(ys, |ys|)
    ensures ys[i] <= ys[j]
    decreases j
  {
    if i < j {
      ClimbsBetween(ys, i, j - 1);
      assert ys[j - 1] <= ys[j];
    }
  }
}
