/** The Wilson score interval (karsasec/benchmark/metrics.py, karsasec/benchmark/statistics.py), over the reals. */
module Wilson {
  import opened Common

  datatype Interval = Interval(lower: real, upper: real)

  /** The square root as both implementations use it. */
  ghost predicate SquareRoot(sqrt: real -> real) {
    forall x: real :: x >= 0.0 ==> sqrt(x) >= 0.0 && sqrt(x) * sqrt(x) == x
  }

  /** What stands under the root: p(1-p)/n + z^2/(4n^2). */
  function Spread(p: real, n: real, z: real): real
    requires n > 0.0
  {
    FourSquaresPositive(n);
    p * (1.0 - p) / n + z * z / (4.0 * n * n)
  }

  /** The bounds of `compute_wilson_confidence_interval` before they are clamped to [0, 1]. */
  function CenterMargin(sqrt: real -> real, z: real, k: int, n: int): Interval
    requires n > 0
  {
    var m := n as real;
    var p := k as real / m;
    var denom := 1.0 + z * z / m;
    DenominatorPositive(z, m);
    var center := (p + z * z / (2.0 * m)) / denom;
    var margin := (z / denom) * sqrt(Spread(p, m, z));
    Interval(center - margin, center + margin)
  }

  /** The bounds of `wilson_interval` before they are clamped. */
  function AdjustedBounds(sqrt: real -> real, z: real, k: int, n: int): Interval
    requires n > 0
  {
    var m := n as real;
    var p := k as real / m;
    var denom := 1.0 + z * z / m;
    DenominatorPositive(z, m);
    var centre := p + z * z / (2.0 * m);
    var deviation := z * sqrt(Spread(p, m, z));
    Scaled(centre, deviation, denom)
  }

  function Scaled(centre: real, deviation: real, denominator: real): Interval
    requires denominator != 0.0
  {
    Interval((centre - deviation) / denominator, (centre + deviation) / denominator)
  }

  function ComputeWilson(sqrt: real -> real, z: real, k: int, n: int): Interval {
    if n <= 0 then Interval(0.0, 1.0)
    else
      var raw := CenterMargin(sqrt, z, k, n);
      Interval(Max(0.0, raw.lower), Min(1.0, raw.upper))
  }

  /** Point estimate and interval. */
  function WilsonInterval(sqrt: real -> real, z: real, k: int, n: int): (real, Interval)
    requires n >= 0
  {
    if n == 0 then (0.0, Interval(0.0, 0.0))
    else
      var raw := AdjustedBounds(sqrt, z, k, n);
      (k as real / n as real, Interval(Max(0.0, raw.lower), Min(1.0, raw.upper)))
  }

  // ----- arithmetic -----

  lemma SquareNonNegative(z: real)
    ensures z * z >= 0.0
  {
    if z >= 0.0 {
      MulNonNegative(z, z);
    } else {
      MulNonNegative(-z, -z);
    }
  }

  lemma DenominatorPositive(z: real, m: real)
    requires m > 0.0
    ensures z * z / m >= 0.0
  {
    SquareNonNegative(z);
    var z2 := z * z;
    QuotientNonNegative(z2, m);
  }

  lemma MulPositive(x: real, y: real)
    requires x > 0.0 && y > 0.0
    ensures x * y > 0.0
  {
  }

  lemma QuotientIs(a: real, b: real, d: real)
    requires d > 0.0 && a == b * d
    ensures a / d == b
  {
  }

  lemma SquareOrder(x: real, y: real)
    requires y >= 0.0 && x * x <= y * y
    ensures x <= y
  {
    var u, v := x - y, x + y;
    assert u * v == x * x - y * y;
    if x > y {
      MulPositive(u, v);
    }
  }

  lemma QuotientOrder(a: real, b: real, d: real)
    requires d > 0.0 && a <= b * d
    ensures a / d <= b
  {
  }

  lemma QuotientNonNegative(a: real, d: real)
    requires d > 0.0 && a >= 0.0
    ensures a / d >= 0.0
  {
  }

  /** With c = z^2/n the deviation z*sqrt(spread) squares to c*p*(1-p) + c^2/4. */
  lemma DeviationSquared(p: real, m: real, z: real, root: real)
    requires m > 0.0 && root * root == Spread(p, m, z)
    ensures var c := z * z / m; (z * root) * (z * root) == c * (p * (1.0 - p)) + c * c / 4.0
  {
    var c, v := z * z / m, p * (1.0 - p);
    var q := 1.0 / m;
    assert c == z * z * q;
    assert v / m == v * q;
    assert z * z / (4.0 * m * m) == z * z * q * q / 4.0;
    assert (z * root) * (z * root) == z * z * (root * root);
    assert z * z * (v * q) == c * v;
    assert z * z * (z * z * q * q / 4.0) == c * c / 4.0;
  }

  /** The deviation is at most p + c/2, so the lower bound is not negative. */
  lemma DeviationAtMost(p: real, c: real, s: real)
    requires 0.0 <= p <= 1.0 && c >= 0.0 && s >= 0.0 && s * s == c * (p * (1.0 - p)) + c * c / 4.0
    ensures s <= p + c / 2.0
  {
    var a := p + c / 2.0;
    var pp := p * p;
    MulNonNegative(p, p);
    MulNonNegative(c, pp);
    assert p * (1.0 - p) == p - pp;
    assert c * (p - pp) == c * p - c * pp;
    assert a * a == pp + p * c + c * c / 4.0;
    SquareOrder(s, a);
  }

  /** The deviation is at least c/2 - p*c, so the lower bound does not exceed p. */
  lemma DeviationAtLeast(p: real, c: real, s: real)
    requires 0.0 <= p <= 1.0 && c >= 0.0 && s >= 0.0 && s * s == c * (p * (1.0 - p)) + c * c / 4.0
    ensures c / 2.0 - p * c <= s
  {
    var v, h, cc := p * (1.0 - p), 0.5 - p, c * c;
    MulNonNegative(p, 1.0 - p);
    MulNonNegative(c, v);
    MulNonNegative(c, c);
    MulNonNegative(cc, v);
    assert h * h == 0.25 - v;
    var d := c * h;
    assert d * d == cc * (h * h);
    assert cc * (0.25 - v) == cc * 0.25 - cc * v;
    SquareOrder(d, s);
    assert d == c / 2.0 - p * c;
  }

  /** The lower bound with the parameters named: it lies between 0 and p. */
  lemma LowerBound(p: real, c: real, s: real)
    requires 0.0 <= p <= 1.0 && c >= 0.0 && s >= 0.0 && s * s == c * (p * (1.0 - p)) + c * c / 4.0
    ensures 0.0 <= (p + c / 2.0 - s) / (1.0 + c) <= p
  {
    DeviationAtMost(p, c, s);
    DeviationAtLeast(p, c, s);
    QuotientNonNegative(p + c / 2.0 - s, 1.0 + c);
    assert p * (1.0 + c) == p + p * c;
    QuotientOrder(p + c / 2.0 - s, p, 1.0 + c);
  }

  // ----- the two implementations -----

  lemma ProductOverQuotient(z: real, root: real, d: real)
    requires d > 0.0
    ensures (z / d) * root == (z * root) / d
  {
  }

  lemma SumOverQuotient(a: real, s: real, d: real)
    requires d > 0.0
    ensures a / d - s / d == (a - s) / d && a / d + s / d == (a + s) / d
  {
  }

  /** For the same z the two implementations compute the same interval. */
  lemma SameInterval(sqrt: real -> real, z: real, k: int, n: int)
    requires n > 0
    ensures CenterMargin(sqrt, z, k, n) == AdjustedBounds(sqrt, z, k, n)
    ensures ComputeWilson(sqrt, z, k, n) == WilsonInterval(sqrt, z, k, n).1
  {
    var m := n as real;
    var p, d := k as real / m, 1.0 + z * z / m;
    DenominatorPositive(z, m);
    ProductOverQuotient(z, sqrt(Spread(p, m, z)), d);
    SumOverQuotient(p + z * z / (2.0 * m), z * sqrt(Spread(p, m, z)), d);
  }

  /** Without any trials the two differ: the whole unit interval against the point zero. */
  lemma NoTrialsDiffer(sqrt: real -> real, z: real, k: int)
    ensures ComputeWilson(sqrt, z, k, 0) != WilsonInterval(sqrt, z, k, 0).1
  {
  }

  lemma FourSquaresPositive(m: real)
    requires m > 0.0
    ensures 4.0 * m * m > 0.0
  {
    MulPositive(m, m);
  }

  lemma SpreadNonNegative(p: real, m: real, z: real)
    requires 0.0 <= p <= 1.0 && m > 0.0
    ensures Spread(p, m, z) >= 0.0
  {
    MulNonNegative(p, 1.0 - p);
    QuotientNonNegative(p * (1.0 - p), m);
    MulPositive(4.0 * m, m);
    var q := 1.0 / m;
    var w := z * q;
    assert z * z / (4.0 * m * m) == w * w / 4.0;
    SquareNonNegative(w);
  }

  lemma ProportionInRange(k: int, n: int)
    requires 0 <= k <= n && n > 0
    ensures 0.0 <= k as real / n as real <= 1.0
    ensures (n - k) as real / n as real == 1.0 - k as real / n as real
  {
    QuotientNonNegative(k as real, n as real);
    QuotientOrder(k as real, 1.0, n as real);
    assert (n - k) as real == n as real - k as real;
    SumOverQuotient(n as real, k as real, n as real);
    QuotientIs(n as real, 1.0, n as real);
  }

  /** Half of the z-term: z^2/(2n) is half of z^2/n. */
  lemma HalfTerm(z: real, m: real)
    requires m > 0.0
    ensures z * z / (2.0 * m) == (z * z / m) / 2.0
  {
  }

  /** The bounds for n - k successes mirror those for k. */
  lemma Mirrored(sqrt: real -> real, z: real, k: int, n: int)
    requires 0 <= k <= n && n > 0
    ensures var i, j := AdjustedBounds(sqrt, z, k, n), AdjustedBounds(sqrt, z, n - k, n);
            j.lower == 1.0 - i.upper && j.upper == 1.0 - i.lower
  {
    var m := n as real;
    var p, c := k as real / m, z * z / m;
    ProportionInRange(k, n);
    DenominatorPositive(z, m);
    HalfTerm(z, m);
    var q := (n - k) as real / m;
    assert q == 1.0 - p;
    SpreadSymmetric(p, m, z);
    var s := z * sqrt(Spread(p, m, z));
    MirrorArithmetic(p, c, s);
    MirrorArithmetic(p, c, -s);
    NamedBounds(sqrt, z, k, n, p, c, s);
    NamedBounds(sqrt, z, n - k, n, q, c, s);
  }

  lemma SpreadSymmetric(p: real, m: real, z: real)
    requires m > 0.0
    ensures Spread(1.0 - p, m, z) == Spread(p, m, z)
  {
    var v, w := p * (1.0 - p), (1.0 - p) * (1.0 - (1.0 - p));
    assert v == w;
    assert v / m == w / m;
  }

  /** The bounds with the parameters named. */
  lemma NamedBounds(sqrt: real -> real, z: real, k: int, n: int, p: real, c: real, s: real)
    requires n > 0 && p == k as real / n as real && c == z * z / n as real && c >= 0.0
    requires s == z * sqrt(Spread(p, n as real, z))
    ensures AdjustedBounds(sqrt, z, k, n) == Scaled(p + c / 2.0, s, 1.0 + c)
  {
    var m := n as real;
    HalfTerm(z, m);
    assert AdjustedBounds(sqrt, z, k, n) == Scaled(p + z * z / (2.0 * m), s, 1.0 + c);
    assert p + z * z / (2.0 * m) == p + c / 2.0;
  }

  lemma MirrorArithmetic(p: real, c: real, s: real)
    requires c >= 0.0
    ensures (1.0 - p + c / 2.0 - s) / (1.0 + c) == 1.0 - (p + c / 2.0 + s) / (1.0 + c)
  {
    var d := 1.0 + c;
    assert 1.0 - p + c / 2.0 - s == d - (p + c / 2.0 + s);
    SumOverQuotient(d, p + c / 2.0 + s, d);
    QuotientIs(d, 1.0, d);
  }

  lemma LowerInRange(sqrt: real -> real, z: real, k: int, n: int)
    requires SquareRoot(sqrt) && z >= 0.0 && 0 <= k <= n && n > 0
    ensures 0.0 <= AdjustedBounds(sqrt, z, k, n).lower <= k as real / n as real
  {
    var m := n as real;
    var p, c := k as real / m, z * z / m;
    var root := sqrt(Spread(p, m, z));
    ProportionInRange(k, n);
    DenominatorPositive(z, m);
    SpreadNonNegative(p, m, z);
    HalfTerm(z, m);
    DeviationSquared(p, m, z, root);
    MulNonNegative(z, root);
    NamedBounds(sqrt, z, k, n, p, c, z * root);
    LowerBound(p, c, z * root);
  }

  /** Before clamping the bounds already lie in [0, 1] and enclose the observed proportion. */
  lemma BoundsEnclose(sqrt: real -> real, z: real, k: int, n: int)
    requires SquareRoot(sqrt) && z >= 0.0 && 0 <= k <= n && n > 0
    ensures var i := AdjustedBounds(sqrt, z, k, n);
            && 0.0 <= i.lower <= k as real / n as real <= i.upper <= 1.0
            && ComputeWilson(sqrt, z, k, n) == i && WilsonInterval(sqrt, z, k, n).1 == i
  {
    LowerInRange(sqrt, z, k, n);
    LowerInRange(sqrt, z, n - k, n);
    Mirrored(sqrt, z, k, n);
    ProportionInRange(k, n);
    SameInterval(sqrt, z, k, n);
  }

  // ----- the built-in constants -----

  /** Without successes the upper bound is c/(1+c) with c = z^2/n. */
  lemma UpperWithoutSuccess(sqrt: real -> real, z: real, n: int)
    requires SquareRoot(sqrt) && z >= 0.0 && n > 0
    ensures var c := z * z / n as real; c >= 0.0 && AdjustedBounds(sqrt, z, 0, n).upper == c / (1.0 + c)
  {
    var m := n as real;
    var c := z * z / m;
    var root := sqrt(Spread(0.0, m, z));
    var s := z * root;
    ProportionInRange(0, n);
    assert 0 as real / m == 0.0;
    DenominatorPositive(z, m);
    SpreadNonNegative(0.0, m, z);
    DeviationSquared(0.0, m, z, root);
    MulNonNegative(z, root);
    assert s * s == (c / 2.0) * (c / 2.0);
    SquareOrder(s, c / 2.0);
    SquareOrder(c / 2.0, s);
    NamedBounds(sqrt, z, 0, n, 0.0, c, s);
  }

  lemma QuotientGrows(c: real, d: real)
    requires 0.0 <= c < d
    ensures c / (1.0 + c) < d / (1.0 + d)
  {
    var x, y := c / (1.0 + c), d / (1.0 + d);
    assert x * (1.0 + c) == c && y * (1.0 + d) == d;
  }

  lemma SquareGrows(z: real, z': real, m: real)
    requires 0.0 <= z < z' && m > 0.0
    ensures z * z / m < z' * z' / m
  {
    var w := z' - z;
    MulNonNegative(z, w);
    MulPositive(w, w);
    var more := 2.0 * (z * w) + w * w;
    assert z' * z' == z * z + more;
    assert more / m > 0.0;
    assert z' * z' / m == z * z / m + more / m;
  }

  /** With the z that each function has built in for 95 per cent they differ, for every number of trials. */
  lemma ConstantsDiffer(sqrt: real -> real, n: int)
    requires SquareRoot(sqrt) && n > 0
    ensures ComputeWilson(sqrt, 1.959963984540054, 0, n) != WilsonInterval(sqrt, 1.95996, 0, n).1
  {
    var z, z' := 1.95996, 1.959963984540054;
    SquareGrows(z, z', n as real);
    UpperWithoutSuccess(sqrt, z, n);
    UpperWithoutSuccess(sqrt, z', n);
    QuotientGrows(z * z / n as real, z' * z' / n as real);
    BoundsEnclose(sqrt, z, 0, n);
    BoundsEnclose(sqrt, z', 0, n);
  }

  // ----- what the bounds are -----

  /** The equation of the score interval: x is as far from p as z standard errors of x. */
  ghost predicate AtScoreDistance(x: real, p: real, c: real) {
    (x - p) * (x - p) == c * (x * (1.0 - x))
  }

  /** The same equation for t = d x with d = 1+c, multiplied out. */
  ghost predicate ScaledDistance(t: real, d: real, p: real, c: real) {
    (t - d * p) * (t - d * p) == c * (t * (d - t))
  }

  lemma ScaledEquation(p: real, c: real, s: real)
    requires s * s == c * (p * (1.0 - p)) + c * c / 4.0
    ensures ScaledDistance(p + c / 2.0 - s, 1.0 + c, p, c)
  {
    var v, h := p * (1.0 - p), c / 2.0 - c * p;
    var d, t := 1.0 + c, p + c / 2.0 - s;
    assert t - d * p == h - s;
    assert (h - s) * (h - s) == h * h - 2.0 * (h * s) + s * s;
    assert h * h == c * c / 4.0 - c * c * v;
    var a, e := p + c / 2.0, 1.0 - p + c / 2.0;
    assert a * e == v + c / 2.0 + c * c / 4.0;
    assert t == a - s && d - t == e + s;
    assert t * (d - t) == a * e + s * (a - e) - s * s;
    assert a - e == 2.0 * p - 1.0;
    assert c * (s * (2.0 * p - 1.0)) == -2.0 * (h * s);
    assert c * (s * s) == c * (c * v) + c * (c * c / 4.0);
    assert c * (a * e) == c * v + c * (c / 2.0) + c * (c * c / 4.0);
  }

  lemma DivideEquation(t: real, d: real, p: real, c: real)
    requires d > 0.0 && ScaledDistance(t, d, p, c)
    ensures AtScoreDistance(t / d, p, c)
  {
    var x := t / d;
    assert t == d * x;
    assert ScaledDistance(d * x, d, p, c);
    Unscale(x, d, p, c);
  }

  lemma Unscale(x: real, d: real, p: real, c: real)
    requires d > 0.0 && ScaledDistance(d * x, d, p, c)
    ensures AtScoreDistance(x, p, c)
  {
    var y, w, dd := x - p, x * (1.0 - x), d * d;
    var l, r := y * y, c * w;
    NamedPositive(d, d, dd);
    LeftScales(d, x, p, dd, l);
    RightScales(d, x, c, dd, r);
    SameProduct(dd, l, r);
  }

  lemma NamedPositive(x: real, y: real, product: real)
    requires x > 0.0 && y > 0.0 && product == x * y
    ensures product > 0.0
  {
  }

  lemma LeftScales(d: real, x: real, p: real, dd: real, l: real)
    requires dd == d * d && l == (x - p) * (x - p)
    ensures dd * l == (d * x - d * p) * (d * x - d * p)
  {
    var y := x - p;
    assert d * x - d * p == d * y;
    assert (d * y) * (d * y) == (d * d) * (y * y);
  }

  lemma RightScales(d: real, x: real, c: real, dd: real, r: real)
    requires dd == d * d && r == c * (x * (1.0 - x))
    ensures dd * r == c * ((d * x) * (d - d * x))
  {
    var y := 1.0 - x;
    assert d - d * x == d * y;
    assert (d * x) * (d * y) == (d * d) * (x * y);
  }

  lemma SameProduct(a: real, l: real, r: real)
    requires a > 0.0 && a * l == a * r
    ensures l == r
  {
    assert a * (l - r) == 0.0;
    if l > r {
      MulPositive(a, l - r);
    } else if l < r {
      MulPositive(a, r - l);
    }
  }

  /** Both bounds, before they are clamped, are solutions of the equation of the score interval. */
  lemma BoundsSolve(sqrt: real -> real, z: real, k: int, n: int)
    requires SquareRoot(sqrt) && 0 <= k <= n && n > 0
    ensures var i, p, c := AdjustedBounds(sqrt, z, k, n), k as real / n as real, z * z / n as real;
            AtScoreDistance(i.lower, p, c) && AtScoreDistance(i.upper, p, c)
  {
    var m := n as real;
    var p, c := k as real / m, z * z / m;
    var root := sqrt(Spread(p, m, z));
    var s := z * root;
    ProportionInRange(k, n);
    DenominatorPositive(z, m);
    SpreadNonNegative(p, m, z);
    DeviationSquared(p, m, z, root);
    NamedBounds(sqrt, z, k, n, p, c, s);
    NamedSolve(p, c, s);
  }

  lemma NamedSolve(p: real, c: real, s: real)
    requires c >= 0.0 && s * s == c * (p * (1.0 - p)) + c * c / 4.0
    ensures var i := Scaled(p + c / 2.0, s, 1.0 + c); AtScoreDistance(i.lower, p, c) && AtScoreDistance(i.upper, p, c)
  {
    ScaledEquation(p, c, s);
    ScaledEquation(p, c, -s);
    DivideEquation(p + c / 2.0 - s, 1.0 + c, p, c);
    DivideEquation(p + c / 2.0 - -s, 1.0 + c, p, c);
    assert p + c / 2.0 - -s == p + c / 2.0 + s;
  }
}
