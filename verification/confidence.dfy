/** The two confidence intervals of the calibration report, over exact reals. The
    square root is a parameter that is only known to be one. */
module Confidence {
  import opened Collections
  import opened Rounding

  datatype Interval = Interval(estimate: real, lower: real, upper: real, sampleSize: nat)

  /** `Math.sqrt` on the values it is applied to. */
  ghost predicate IsSqrt(sqrt: real -> real) {
    forall x: real :: x >= 0.0 ==> sqrt(x) >= 0.0 && Square(sqrt(x)) == x
  }

  function Square(x: real): real {
    x * x
  }

  function Max(x: real, y: real): real {
    if x >= y then x else y
  }

  function Min(x: real, y: real): real {
    if x <= y then x else y
  }

  // The Wilson interval ----------------------------------------------------------------

  const Z: real := 1.959963984540054

  function Ratio(z: real, n: real): real
    requires n > 0.0
  {
    (z * z) / n
  }

  lemma RatioPositive(z: real, n: real)
    requires n > 0.0 && z > 0.0
    ensures Ratio(z, n) > 0.0
  {
    SquareGrows(z, 0.0);
    QuotientPositive(z * z, n);
  }

  lemma QuotientPositive(a: real, n: real)
    requires a > 0.0 && n > 0.0
    ensures a / n > 0.0
  {
  }

  function Radicand(z: real, p: real, n: real): real
    requires n > 0.0
  {
    (p * (1.0 - p) + (z * z) / (4.0 * n)) / n
  }

  function WilsonCenter(z: real, p: real, n: real): real
    requires n > 0.0 && z > 0.0
  {
    RatioPositive(z, n);
    (p + (z * z) / (2.0 * n)) / (1.0 + (z * z) / n)
  }

  function WilsonMargin(z: real, root: real, n: real): real
    requires n > 0.0 && z > 0.0
  {
    RatioPositive(z, n);
    z * root / (1.0 + (z * z) / n)
  }

  function WilsonInterval(sqrt: real -> real, successes: nat, sampleSize: nat): Interval {
    if sampleSize == 0 then Interval(0.0, 0.0, 0.0, 0)
    else
      var n := sampleSize as real;
      var p := successes as real / n;
      var center := WilsonCenter(Z, p, n);
      var margin := WilsonMargin(Z, sqrt(Radicand(Z, p, n)), n);
      Interval(Rounded(p), Rounded(Max(0.0, center - margin)), Rounded(Min(1.0, center + margin)), sampleSize)
  }

  /** The score equation: `x` is as far from `p` as `Z` standard errors at `x`. */
  predicate WilsonEquation(p: real, q: real, x: real) {
    (p - x) * (p - x) == q * x * (1.0 - x)
  }

  lemma SquaresDecide(y: real, m: real)
    ensures y * y == m * m <==> y == m || y == -m
  {
    assert y * y - m * m == (y - m) * (y + m);
  }

  lemma ProductPositive(a: real, b: real)
    ensures a > 0.0 && b > 0.0 ==> a * b > 0.0
    ensures a >= 0.0 && b >= 0.0 ==> a * b >= 0.0
  {
  }

  lemma SquareGrows(a: real, b: real)
    requires a > b >= 0.0
    ensures a * a > b * b
  {
    var x, y := a - b, a + b;
    ProductPositive(x, y);
    assert x * y == a * a - b * b;
  }

  lemma SquaresOrder(a: real, b: real)
    requires b >= 0.0 && a * a <= b * b
    ensures a <= b
  {
    if a > b {
      SquareGrows(a, b);
    }
  }

  lemma Scaled(d: real, x: real, c: real)
    requires d > 0.0
    ensures x == c / d <==> d * x == c
  {
    assert c / d * d == c;
    if d * x == c {
      assert (x - c / d) * d == 0.0;
    }
  }

  /** Completing the square turns the equation into `y * y == m * m`. */
  lemma CompletedSquare(p: real, q: real, m: real, x: real)
    requires q > 0.0 && m * m == q * (p * (1.0 - p)) + q * q / 4.0
    ensures var y := (1.0 + q) * x - (p + q / 2.0);
      WilsonEquation(p, q, x) <==> y * y == m * m
  {
    var d := 1.0 + q;
    var c := p + q / 2.0;
    var y := d * x - c;
    var gap := (p - x) * (p - x) - q * x * (1.0 - x);
    assert gap == d * (x * x) - 2.0 * c * x + p * p by {
      assert (p - x) * (p - x) == p * p - 2.0 * (p * x) + x * x;
      assert q * x * (1.0 - x) == q * x - q * (x * x);
      assert 2.0 * c * x == 2.0 * (p * x) + q * x;
      assert d * (x * x) == x * x + q * (x * x);
    }
    assert y * y == d * (d * (x * x)) - 2.0 * (d * (c * x)) + c * c by {
      assert y * y == (d * x) * (d * x) - 2.0 * ((d * x) * c) + c * c;
      assert (d * x) * (d * x) == d * (d * (x * x));
      assert (d * x) * c == d * (c * x);
    }
    assert c * c - m * m == d * (p * p) by {
      assert c * c == p * p + p * q + q * q / 4.0;
      assert q * (p * (1.0 - p)) == q * p - q * (p * p);
      assert d * (p * p) == p * p + q * (p * p);
    }
    assert d * gap == d * (d * (x * x)) - 2.0 * (d * (c * x)) + d * (p * p);
    assert d * gap == y * y - m * m;
    assert gap == 0.0 <==> d * gap == 0.0;
  }

  /** The bounds before the clamps, in terms of `q`, the squared quantile over the
      sample size, and of `m`, the margin's numerator. */
  function Root(p: real, q: real, m: real): real
    requires q > 0.0
  {
    (p + q / 2.0 + m) / (1.0 + q)
  }

  lemma RootsSolve(p: real, q: real, m: real, x: real)
    requires q > 0.0 && m * m == q * (p * (1.0 - p)) + q * q / 4.0
    ensures WilsonEquation(p, q, x) <==> x == Root(p, q, m) || x == Root(p, q, -m)
  {
    var y := (1.0 + q) * x - (p + q / 2.0);
    CompletedSquare(p, q, m, x);
    SquaresDecide(y, m);
    Scaled(1.0 + q, x, p + q / 2.0 + m);
    Scaled(1.0 + q, x, p + q / 2.0 - m);
  }

  lemma QuotientOrder(d: real, a: real, b: real)
    requires d > 0.0 && a <= b
    ensures a / d <= b / d
  {
    assert b / d - a / d == (b - a) / d;
  }

  predicate IsMargin(p: real, q: real, m: real) {
    q > 0.0 && 0.0 <= p <= 1.0 && m >= 0.0 && m * m == q * (p * (1.0 - p)) + q * q / 4.0
  }

  lemma MarginBelow(p: real, q: real, m: real)
    requires IsMargin(p, q, m)
    ensures m <= p + q / 2.0
  {
    var b := p + q / 2.0;
    ProductPositive(p, p);
    ProductPositive(q, p * p);
    assert b * b == p * p + q * p + q * q / 4.0;
    assert p * (1.0 - p) == p - p * p;
    assert q * (p * (1.0 - p)) == q * p - q * (p * p);
    SquaresOrder(m, b);
  }

  lemma MarginBelowRest(p: real, q: real, m: real)
    requires IsMargin(p, q, m)
    ensures m <= 1.0 - p + q / 2.0
  {
    var r := 1.0 - p;
    assert r * (1.0 - r) == p * (1.0 - p);
    MarginBelow(r, q, m);
  }

  lemma MarginAbove(p: real, q: real, m: real)
    requires IsMargin(p, q, m)
    ensures -m <= q / 2.0 - q * p <= m
  {
    var h := q / 2.0 - q * p;
    var spread := p * (1.0 - p);
    ProductPositive(p, 1.0 - p);
    ProductPositive(q, spread);
    ProductPositive(q, q * spread);
    assert h * h == q * q / 4.0 - q * (q * p) + (q * p) * (q * p);
    assert (q * p) * (q * p) == q * (q * (p * p));
    assert q * (q * spread) == q * (q * p) - q * (q * (p * p)) by {
      assert spread == p - p * p;
      assert q * spread == q * p - q * (p * p);
    }
    SquaresOrder(h, m);
    assert (-h) * (-h) == h * h;
    SquaresOrder(-h, m);
  }

  lemma RootsInUnit(p: real, q: real, m: real)
    requires IsMargin(p, q, m)
    ensures 0.0 <= Root(p, q, -m) <= p <= Root(p, q, m) <= 1.0
  {
    var d := 1.0 + q;
    MarginBelow(p, q, m);
    MarginBelowRest(p, q, m);
    MarginAbove(p, q, m);
    assert d * p == p + q * p;
    QuotientOrder(d, 0.0, p + q / 2.0 - m);
    QuotientOrder(d, p + q / 2.0 - m, d * p);
    QuotientOrder(d, d * p, p + q / 2.0 + m);
    QuotientOrder(d, p + q / 2.0 + m, d);
    Scaled(d, p, d * p);
    Scaled(d, 1.0, d);
  }

  lemma NestedQuotient(a: real, n: real, k: real)
    requires n > 0.0 && k > 0.0
    ensures k * n > 0.0 && a / (k * n) == a / n / k
  {
    ProductPositive(k, n);
    var x := a / n / k;
    Scaled(k, x, a / n);
    Scaled(n, k * x, a);
    assert (k * n) * x == n * (k * x);
    Scaled(k * n, x, a);
  }

  lemma SquaredMargin(z: real, p: real, n: real, root: real)
    requires z > 0.0 && n > 0.0 && root * root == (p * (1.0 - p) + (z * z) / (4.0 * n)) / n
    ensures var q := (z * z) / n;
      (z * root) * (z * root) == q * (p * (1.0 - p)) + q * q / 4.0
  {
    var zz := z * z;
    var q := zz / n;
    var inner := p * (1.0 - p) + q / 4.0;
    var square := root * root;
    NestedQuotient(zz, n, 4.0);
    Scaled(n, square, inner);
    Scaled(n, q, zz);
    assert (z * root) * (z * root) == zz * square;
    assert zz * square == q * (n * square) by {
      assert (n * q) * square == q * (n * square);
    }
    assert q * inner == q * (p * (1.0 - p)) + q * q / 4.0;
  }

  lemma SplitQuotient(c: real, m: real, d: real)
    requires d > 0.0
    ensures c / d + m / d == (c + m) / d && c / d - m / d == (c - m) / d
  {
  }

  /** The source's center and margin, in terms of the ratio. */
  lemma WilsonParts(z: real, p: real, n: real, root: real)
    requires z > 0.0 && 0.0 <= p <= 1.0 && n >= 1.0 && root >= 0.0 && Square(root) == Radicand(z, p, n)
    ensures var q := Ratio(z, n);
      && IsMargin(p, q, z * root)
      && WilsonCenter(z, p, n) + WilsonMargin(z, root, n) == Root(p, q, z * root)
      && WilsonCenter(z, p, n) - WilsonMargin(z, root, n) == Root(p, q, -(z * root))
  {
    var q := Ratio(z, n);
    RatioPositive(z, n);
    SquaredMargin(z, p, n, root);
    ProductPositive(z, root);
    NestedQuotient(z * z, n, 2.0);
    SplitQuotient(p + q / 2.0, z * root, 1.0 + q);
  }

  lemma ProportionInUnit(successes: nat, sampleSize: nat)
    requires successes <= sampleSize && sampleSize > 0
    ensures 0.0 <= successes as real / sampleSize as real <= 1.0
  {
    QuotientOrder(sampleSize as real, 0.0, successes as real);
    QuotientOrder(sampleSize as real, successes as real, sampleSize as real);
  }

  lemma RadicandNonnegative(z: real, p: real, n: real)
    requires z > 0.0 && 0.0 <= p <= 1.0 && n >= 1.0
    ensures Radicand(z, p, n) >= 0.0
  {
    ProductPositive(p, 1.0 - p);
    ProductPositive(z, z);
    QuotientOrder(4.0 * n, 0.0, z * z);
    QuotientOrder(n, 0.0, p * (1.0 - p) + (z * z) / (4.0 * n));
  }

  ghost predicate AreTheSolutions(p: real, q: real, lower: real, upper: real) {
    forall x :: WilsonEquation(p, q, x) <==> x == lower || x == upper
  }

  lemma RootsAreTheSolutions(p: real, q: real, m: real)
    requires IsMargin(p, q, m)
    ensures AreTheSolutions(p, q, Root(p, q, -m), Root(p, q, m))
  {
    forall x
      ensures WilsonEquation(p, q, x) <==> x == Root(p, q, -m) || x == Root(p, q, m)
    {
      RootsSolve(p, q, m, x);
    }
  }

  /** For any quantile the bounds around the center are exactly the two solutions
      of the score equation, and they lie in [0,1] around the proportion. */
  lemma BoundsAreTheSolutions(z: real, p: real, n: real, root: real)
    requires z > 0.0 && 0.0 <= p <= 1.0 && n >= 1.0 && root >= 0.0 && Square(root) == Radicand(z, p, n)
    ensures var lower := WilsonCenter(z, p, n) - WilsonMargin(z, root, n);
      var upper := WilsonCenter(z, p, n) + WilsonMargin(z, root, n);
      AreTheSolutions(p, Ratio(z, n), lower, upper) && 0.0 <= lower <= p <= upper <= 1.0
  {
    WilsonParts(z, p, n, root);
    RootsInUnit(p, Ratio(z, n), z * root);
    RootsAreTheSolutions(p, Ratio(z, n), z * root);
  }

  /** The source's interval rounds exactly the solutions: neither clamp ever fires. */
  lemma WilsonIsExact(sqrt: real -> real, successes: nat, sampleSize: nat) returns (lower: real, upper: real)
    requires IsSqrt(sqrt) && successes <= sampleSize && sampleSize > 0
    ensures var p := successes as real / sampleSize as real;
      && AreTheSolutions(p, Ratio(Z, sampleSize as real), lower, upper)
      && 0.0 <= lower <= p <= upper <= 1.0
      && WilsonInterval(sqrt, successes, sampleSize)
         == Interval(Rounded(p), Rounded(lower), Rounded(upper), sampleSize)
  {
    var n := sampleSize as real;
    var p := successes as real / n;
    ProportionInUnit(successes, sampleSize);
    RadicandNonnegative(Z, p, n);
    var root := sqrt(Radicand(Z, p, n));
    BoundsAreTheSolutions(Z, p, n, root);
    lower := WilsonCenter(Z, p, n) - WilsonMargin(Z, root, n);
    upper := WilsonCenter(Z, p, n) + WilsonMargin(Z, root, n);
  }

  predicate Ordered(i: Interval) {
    i.lower <= i.estimate <= i.upper
  }

  lemma WilsonOrdered(sqrt: real -> real, successes: nat, sampleSize: nat)
    requires IsSqrt(sqrt) && successes <= sampleSize
    ensures var i := WilsonInterval(sqrt, successes, sampleSize);
      Ordered(i) && 0.0 <= i.lower && i.upper <= 1.0 && OnGrid(i.estimate)
  {
    if sampleSize == 0 {
      assert 0.0 == GridPoint(0);
    } else {
      var lower, upper := WilsonIsExact(sqrt, successes, sampleSize);
      RoundingKeepsOrder(lower, successes as real / sampleSize as real, upper);
    }
  }

  lemma RoundingKeepsOrder(lower: real, p: real, upper: real)
    requires 0.0 <= lower <= p <= upper <= 1.0
    ensures 0.0 <= Rounded(lower) <= Rounded(p) <= Rounded(upper) <= 1.0 && OnGrid(Rounded(p))
  {
    RoundedIsMonotone(lower, p);
    RoundedIsMonotone(p, upper);
    RoundedKeepsUnitInterval(lower);
    RoundedKeepsUnitInterval(upper);
    RoundedIsNearest(p);
  }

  // The mean interval ----------------------------------------------------------------------

  /** Two-sided 95% Student-t critical values by degrees of freedom. */
  const T_CRITICAL_95: seq<real> := [
    0.0, 12.706, 4.303, 3.182, 2.776, 2.571, 2.447, 2.365, 2.306, 2.262,
    2.228, 2.201, 2.179, 2.16, 2.145, 2.131, 2.12, 2.11, 2.101, 2.093,
    2.086, 2.08, 2.074, 2.069, 2.064, 2.06, 2.056, 2.052, 2.048, 2.045,
    2.042]

  function Critical(degreesOfFreedom: nat): real {
    if degreesOfFreedom < |T_CRITICAL_95| then T_CRITICAL_95[degreesOfFreedom] else 1.96
  }

  function Sum(values: seq<real>): real {
    if values == [] then 0.0 else Sum(values[..|values| - 1]) + values[|values| - 1]
  }

  function SquaredDeviations(values: seq<real>, mean: real): real {
    if values == [] then 0.0
    else SquaredDeviations(values[..|values| - 1], mean) + Square(values[|values| - 1] - mean)
  }

  function MeanOf(values: seq<real>): real
    requires values != []
  {
    Sum(values) / |values| as real
  }

  function MeanMargin(sqrt: real -> real, values: seq<real>): real
    requires |values| >= 2
  {
    Scale(Critical(|values| - 1), StandardError(sqrt, SquaredDeviations(values, MeanOf(values)), |values|))
  }

  function StandardError(sqrt: real -> real, squares: real, count: nat): real
    requires count >= 2
  {
    var variance := squares / (count - 1) as real;
    sqrt(variance / count as real)
  }

  function MeanInterval(sqrt: real -> real, values: seq<real>, min: Option<real>, max: Option<real>): Interval {
    if values == [] then Interval(0.0, 0.0, 0.0, 0)
    else if |values| == 1 then
      Interval(Rounded(MeanOf(values)), Rounded(MeanOf(values)), Rounded(MeanOf(values)), 1)
    else
      var mean := MeanOf(values);
      var margin := MeanMargin(sqrt, values);
      var lower := if min.Some? then Max(min.value, mean - margin) else mean - margin;
      var upper := if max.Some? then Min(max.value, mean + margin) else mean + margin;
      Interval(Rounded(mean), Rounded(lower), Rounded(upper), |values|)
  }

  predicate Within(values: seq<real>, min: Option<real>, max: Option<real>) {
    forall i :: 0 <= i < |values| ==>
      (min.Some? ==> min.value <= values[i]) && (max.Some? ==> values[i] <= max.value)
  }

  function Scale(x: real, n: real): real {
    x * n
  }

  lemma OneMore(x: real, n: real, sum: real, last: real)
    ensures Scale(x, n) <= sum && x <= last ==> Scale(x, n + 1.0) <= sum + last
    ensures sum <= Scale(x, n) && last <= x ==> sum + last <= Scale(x, n + 1.0)
  {
    assert Scale(x, n + 1.0) == Scale(x, n) + x;
  }

  lemma {:induction false} SumWithin(values: seq<real>, count: real, min: Option<real>, max: Option<real>)
    requires Within(values, min, max) && count == |values| as real
    ensures min.Some? ==> Scale(min.value, count) <= Sum(values)
    ensures max.Some? ==> Sum(values) <= Scale(max.value, count)
  {
    if values != [] {
      var front, last := values[..|values| - 1], values[|values| - 1];
      SumWithin(front, count - 1.0, min, max);
      assert count - 1.0 + 1.0 == count;
      if min.Some? {
        OneMore(min.value, count - 1.0, Sum(front), last);
      }
      if max.Some? {
        OneMore(max.value, count - 1.0, Sum(front), last);
      }
    }
  }

  lemma QuotientBetween(sum: real, n: real, bound: real)
    requires n > 0.0
    ensures Scale(bound, n) <= sum ==> bound <= sum / n
    ensures sum <= Scale(bound, n) ==> sum / n <= bound
  {
    Scaled(n, bound, bound * n);
    if bound * n <= sum {
      QuotientOrder(n, bound * n, sum);
    }
    if sum <= bound * n {
      QuotientOrder(n, sum, bound * n);
    }
  }

  lemma MeanWithin(values: seq<real>, min: Option<real>, max: Option<real>)
    requires values != [] && Within(values, min, max)
    ensures min.Some? ==> min.value <= MeanOf(values)
    ensures max.Some? ==> MeanOf(values) <= max.value
  {
    SumWithin(values, |values| as real, min, max);
    if min.Some? {
      QuotientBetween(Sum(values), |values| as real, min.value);
    }
    if max.Some? {
      QuotientBetween(Sum(values), |values| as real, max.value);
    }
  }

  /** The deviations vanish exactly when all values equal the mean. */
  lemma {:induction false} DeviationsVanish(values: seq<real>, mean: real)
    ensures SquaredDeviations(values, mean) >= 0.0
    ensures SquaredDeviations(values, mean) == 0.0 <==> forall i :: 0 <= i < |values| ==> values[i] == mean
  {
    if values != [] {
      var front := values[..|values| - 1];
      DeviationsVanish(front, mean);
      SquaresDecide(values[|values| - 1] - mean, 0.0);
      ProductPositive(values[|values| - 1] - mean, values[|values| - 1] - mean);
      ProductPositive(mean - values[|values| - 1], mean - values[|values| - 1]);
      assert Square(values[|values| - 1] - mean) >= 0.0;
      assert forall i :: 0 <= i < |front| ==> front[i] == values[i];
    }
  }

  lemma QuotientVanishes(a: real, n: real)
    requires n > 0.0 && a >= 0.0
    ensures a / n >= 0.0 && (a / n == 0.0 <==> a == 0.0)
  {
    QuotientOrder(n, 0.0, a);
    Scaled(n, a / n, a);
  }

  lemma ProductVanishes(c: real, x: real)
    requires c > 0.0 && x >= 0.0
    ensures c * x >= 0.0 && (c * x == 0.0 <==> x == 0.0)
  {
    ProductPositive(c, x);
  }

  lemma ErrorVanishes(sqrt: real -> real, squares: real, count: nat)
    requires IsSqrt(sqrt) && squares >= 0.0 && count >= 2
    ensures StandardError(sqrt, squares, count) >= 0.0
    ensures StandardError(sqrt, squares, count) == 0.0 <==> squares == 0.0
  {
    QuotientVanishes(squares, (count - 1) as real);
    QuotientVanishes(squares / (count - 1) as real, count as real);
    SquaresDecide(StandardError(sqrt, squares, count), 0.0);
  }

  lemma CriticalPositive(d: nat)
    requires d > 0
    ensures Critical(d) >= 1.96
  {
  }

  /** Before the clamps the interval is a point exactly when all values agree. */
  lemma MarginMeaning(sqrt: real -> real, values: seq<real>)
    requires IsSqrt(sqrt) && |values| >= 2
    ensures MeanMargin(sqrt, values) >= 0.0
    ensures MeanMargin(sqrt, values) == 0.0 <==> forall i :: 0 <= i < |values| ==> values[i] == MeanOf(values)
  {
    var squares := SquaredDeviations(values, MeanOf(values));
    DeviationsVanish(values, MeanOf(values));
    ErrorVanishes(sqrt, squares, |values|);
    CriticalPositive(|values| - 1);
    ProductVanishes(Critical(|values| - 1), StandardError(sqrt, squares, |values|));
  }

  lemma MeanOrdered(sqrt: real -> real, values: seq<real>, min: Option<real>, max: Option<real>)
    requires IsSqrt(sqrt) && Within(values, min, max)
    ensures Ordered(MeanInterval(sqrt, values, min, max))
    ensures values != [] && min.Some? ==> Rounded(min.value) <= MeanInterval(sqrt, values, min, max).lower
    ensures values != [] && max.Some? ==> MeanInterval(sqrt, values, min, max).upper <= Rounded(max.value)
  {
    if values != [] {
      var mean := MeanOf(values);
      MeanWithin(values, min, max);
      if |values| == 1 {
        if min.Some? {
          RoundedIsMonotone(min.value, mean);
        }
        if max.Some? {
          RoundedIsMonotone(mean, max.value);
        }
      } else {
        var margin := MeanMargin(sqrt, values);
        MarginMeaning(sqrt, values);
        var lower := if min.Some? then Max(min.value, mean - margin) else mean - margin;
        var upper := if max.Some? then Min(max.value, mean + margin) else mean + margin;
        RoundedIsMonotone(lower, mean);
        RoundedIsMonotone(mean, upper);
        if min.Some? {
          RoundedIsMonotone(min.value, lower);
        }
        if max.Some? {
          RoundedIsMonotone(upper, max.value);
        }
      }
    }
  }

  // What the mean and its margin are -------------------------------------------------------

  /** The sum is the only additive function that gives a single value itself. */
  lemma {:induction false} SumLaws(a: seq<real>, b: seq<real>, x: real)
    ensures Sum([]) == 0.0 && Sum([x]) == x
    ensures Sum(a + b) == Sum(a) + Sum(b)
  {
    assert [x][..0] == [];
    if b == [] {
      assert a + b == a;
    } else {
      SumLaws(a, b[..|b| - 1], x);
      assert (a + b)[..|a + b| - 1] == a + b[..|b| - 1];
    }
  }

  lemma {:induction false} DeviationLaws(a: seq<real>, b: seq<real>, x: real, mean: real)
    ensures SquaredDeviations([], mean) == 0.0 && SquaredDeviations([x], mean) == (x - mean) * (x - mean)
    ensures SquaredDeviations(a + b, mean) == SquaredDeviations(a, mean) + SquaredDeviations(b, mean)
  {
    assert [x][..0] == [];
    if b == [] {
      assert a + b == a;
    } else {
      DeviationLaws(a, b[..|b| - 1], x, mean);
      assert (a + b)[..|a + b| - 1] == a + b[..|b| - 1];
    }
  }

  /** The mean times the number of values is their sum. */
  lemma MeanTimesCount(values: seq<real>)
    requires values != []
    ensures MeanOf(values) * |values| as real == Sum(values)
  {
    Scaled(|values| as real, MeanOf(values), Sum(values));
  }

  lemma ErrorSquared(sqrt: real -> real, squares: real, count: nat)
    requires IsSqrt(sqrt) && squares >= 0.0 && count >= 2
    ensures Scale(Scale(Square(StandardError(sqrt, squares, count)), count as real), (count - 1) as real) == squares
  {
    var n, d := count as real, (count - 1) as real;
    var e := StandardError(sqrt, squares, count);
    QuotientVanishes(squares, d);
    QuotientVanishes(squares / d, n);
    Scaled(n, squares / d / n, squares / d);
    Scaled(d, squares / d, squares);
    assert Square(e) == squares / d / n;
  }

  lemma SquareOfProduct(m: real, c: real, e: real, n: real, d: real, squares: real)
    requires m == Scale(c, e) && Scale(Scale(Square(e), n), d) == squares
    ensures Scale(Scale(Square(m), n), d) == Scale(Square(c), squares)
  {
    assert (c * e) * (c * e) == (c * c) * (e * e);
    assert (c * c) * (e * e) * n == (c * c) * ((e * e) * n);
    assert (c * c) * ((e * e) * n) * d == (c * c) * ((e * e) * n * d);
  }

  /** The squared margin times n(n-1) is the squared critical value times the squared
      deviations from the mean. */
  lemma MarginSquared(sqrt: real -> real, values: seq<real>, m: real, c: real, squares: real)
    requires IsSqrt(sqrt) && |values| >= 2
    requires m == MeanMargin(sqrt, values) && c == Critical(|values| - 1) && squares == SquaredDeviations(values, MeanOf(values))
    ensures Scale(Scale(Square(m), |values| as real), (|values| - 1) as real) == Scale(Square(c), squares)
  {
    DeviationsVanish(values, MeanOf(values));
    ErrorSquared(sqrt, squares, |values|);
    SquareOfProduct(m, c, StandardError(sqrt, squares, |values|), |values| as real, (|values| - 1) as real, squares);
  }

  /** More values never need a wider margin: the critical values fall towards that of
      the normal distribution, which they reach behind the table. */
  lemma CriticalFalls(d: nat, e: nat)
    requires 1 <= d <= e
    ensures Critical(e) <= Critical(d)
    ensures Critical(d) == 1.96 <==> d > 30
    decreases e - d
  {
    if d < e {
      CriticalStep(d);
      CriticalFalls(d + 1, e);
    }
  }

  lemma CriticalStep(d: nat)
    requires 1 <= d
    ensures Critical(d + 1) <= Critical(d)
  {
  }

  /** Nothing for no values, the value itself for one, and otherwise the mean plus and
      minus the margin, cut off at the bounds. */
  lemma MeanIntervalMeaning(sqrt: real -> real, values: seq<real>, min: Option<real>, max: Option<real>)
    ensures var i := MeanInterval(sqrt, values, min, max);
      && i.sampleSize == |values|
      && (values == [] ==> i.estimate == 0.0 && i.lower == 0.0 && i.upper == 0.0)
      && (|values| == 1 ==> i.estimate == Rounded(values[0]) && i.lower == Rounded(values[0]) && i.upper == Rounded(values[0]))
      && (|values| >= 2 ==>
           var (mean, margin) := (MeanOf(values), MeanMargin(sqrt, values));
           && i.estimate == Rounded(mean)
           && i.lower == Rounded(if min.Some? && min.value > mean - margin then min.value else mean - margin)
           && i.upper == Rounded(if max.Some? && max.value < mean + margin then max.value else mean + margin))
  {
    if |values| == 1 {
      MeanTimesCount(values);
      SumLaws([], [], values[0]);
      assert values == [values[0]];
      assert MeanOf(values) * 1.0 == values[0];
    }
  }
}
