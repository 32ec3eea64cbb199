/**
 The linear regression by which rdma_pacer/get_clock.c measures the cycles in a microsecond, over
 the reals: from the five running sums to slope, intercept and the squared correlation.
 */
module Regression {

  const MEASUREMENTS := 200

  /** Sum of the products of two sample columns. */
  function Dot(x: seq<real>, y: seq<real>): real
    requires |x| == |y|
  {
    if x == [] then 0.0 else x[0] * y[0] + Dot(x[1..], y[1..])
  }

  function Sum(x: seq<real>): real {
    if x == [] then 0.0 else x[0] + Sum(x[1..])
  }

  /** The number of samples, as a real. */
  function Count(x: seq<real>): (n: real)
    ensures n >= 0.0 && (x != [] ==> n >= 1.0)
  {
    if x == [] then 0.0 else 1.0 + Count(x[1..])
  }

  /** The five sums and the number of samples. */
  datatype Sums = Sums(n: real, sx: real, sy: real, sxx: real, syy: real, sxy: real)

  function SumsOf(x: seq<real>, y: seq<real>): Sums
    requires |x| == |y|
  {
    Sums(Count(x), Sum(x), Sum(y), Dot(x, x), Dot(y, y), Dot(x, y))
  }

  /** `n * sxx - sx * sx`, and the like for the other columns. */
  function Dx(s: Sums): real { s.n * s.sxx - s.sx * s.sx }
  function Dy(s: Sums): real { s.n * s.syy - s.sy * s.sy }
  function Dxy(s: Sums): real { s.n * s.sxy - s.sx * s.sy }

  function Slope(s: Sums): real
    requires Dx(s) != 0.0
  {
    Dxy(s) / Dx(s)
  }

  function Intercept(s: Sums): real
    requires Dx(s) != 0.0 && s.n != 0.0
  {
    (s.sy - Slope(s) * s.sx) / s.n
  }

  function RSquared(s: Sums): real
    requires Dx(s) != 0.0 && Dy(s) != 0.0
  {
    Ratio(Dxy(s), Dx(s), Dy(s))
  }

  function Ratio(dxy: real, dx: real, dy: real): real
    requires dx != 0.0 && dy != 0.0
  {
    dxy * dxy / dx / dy
  }

  // ----- what the sums mean -----

  function Square(x: real): (r: real)
    ensures r >= 0.0
  {
    x * x
  }

  /** Sum of squared residuals of the line `a + b * x`. */
  function Residuals(x: seq<real>, y: seq<real>, a: real, b: real): (r: real)
    requires |x| == |y|
    ensures r >= 0.0
  {
    if x == [] then 0.0 else Square(y[0] - a - b * x[0]) + Residuals(x[1..], y[1..], a, b)
  }

  /** Sum of `(u + v * x)` squared. */
  function Spread(x: seq<real>, u: real, v: real): (r: real)
    ensures r >= 0.0
  {
    if x == [] then 0.0 else Square(u + v * x[0]) + Spread(x[1..], u, v)
  }

  function SpreadForm(n: real, sx: real, sxx: real, u: real, v: real): real {
    n * (u * u) + 2.0 * (u * v) * sx + v * v * sxx
  }

  lemma SquareOfSum(u: real, v: real, x: real)
    ensures Square(u + v * x) == u * u + 2.0 * (u * v) * x + v * v * (x * x)
  {
    var w := v * x;
    assert Square(u + w) == u * u + 2.0 * (u * w) + w * w;
    assert u * w == u * v * x;
    assert w * w == v * v * (x * x);
  }

  lemma SpreadStep(n: real, sx: real, sxx: real, u: real, v: real, x: real)
    ensures SpreadForm(1.0 + n, x + sx, x * x + sxx, u, v) == Square(u + v * x) + SpreadForm(n, sx, sxx, u, v)
  {
    SquareOfSum(u, v, x);
    Distribute(u * u, 1.0, n);
    Distribute(2.0 * (u * v), x, sx);
    Distribute(v * v, x * x, sxx);
  }

  lemma Distribute(k: real, p: real, q: real)
    ensures k * (p + q) == k * p + k * q
  {
  }

  /** One more sample in the three sums of a column. */
  lemma Grow(x: seq<real>)
    requires x != []
    ensures Count(x) == 1.0 + Count(x[1..]) && Sum(x) == x[0] + Sum(x[1..])
    ensures Dot(x, x) == x[0] * x[0] + Dot(x[1..], x[1..])
  {
  }

  lemma SpreadGrows(x: seq<real>, u: real, v: real, n: real, sx: real, sxx: real)
    requires x != [] && Spread(x[1..], u, v) == SpreadForm(n, sx, sxx, u, v)
    ensures Spread(x, u, v) == SpreadForm(1.0 + n, x[0] + sx, x[0] * x[0] + sxx, u, v)
  {
    assert Spread(x, u, v) == Square(u + v * x[0]) + Spread(x[1..], u, v);
    SpreadStep(n, sx, sxx, u, v, x[0]);
  }

  lemma {:induction false} SpreadExpands(x: seq<real>, u: real, v: real)
    ensures Spread(x, u, v) == SpreadForm(Count(x), Sum(x), Dot(x, x), u, v)
  {
    if x != [] {
      SpreadExpands(x[1..], u, v);
      Grow(x);
      SpreadGrows(x, u, v, Count(x[1..]), Sum(x[1..]), Dot(x[1..], x[1..]));
    }
  }

  predicate AllEqual(x: seq<real>) {
    forall i, j :: 0 <= i < j < |x| ==> x[i] == x[j]
  }

  function Times(a: real, b: real): real { a * b }

  lemma PositiveProduct(a: real, b: real)
    requires a > 0.0 && b > 0.0
    ensures Times(a, b) > 0.0
  {
  }

  lemma SquarePositive(w: real)
    requires w != 0.0
    ensures Square(w) > 0.0
  {
    var m := if w > 0.0 then w else -w;
    PositiveProduct(m, m);
    assert Times(m, m) == Square(w);
  }

  lemma {:induction false} SpreadPositive(x: seq<real>, u: real, v: real, i: nat)
    requires i < |x| && u + v * x[i] != 0.0
    ensures Spread(x, u, v) > 0.0
  {
    if i == 0 {
      SquarePositive(u + v * x[0]);
    } else {
      SpreadPositive(x[1..], u, v, i - 1);
    }
  }

  /** A line with a slope is zero at one point only. */
  lemma OneRoot(u: real, v: real, p: real, q: real)
    requires v > 0.0 && p != q && u + v * p == 0.0
    ensures u + v * q != 0.0
  {
    if p < q {
      PositiveProduct(v, q - p);
      assert Times(v, q - p) == v * q - v * p;
    } else {
      PositiveProduct(v, p - q);
      assert Times(v, p - q) == v * p - v * q;
    }
  }

  lemma UnequalSpread(x: seq<real>, u: real, v: real)
    requires v > 0.0 && !AllEqual(x)
    ensures Spread(x, u, v) > 0.0
  {
    var i, j :| 0 <= i < j < |x| && x[i] != x[j];
    if u + v * x[i] == 0.0 {
      OneRoot(u, v, x[i], x[j]);
      SpreadPositive(x, u, v, j);
    } else {
      SpreadPositive(x, u, v, i);
    }
  }

  lemma {:induction false} SumOfEqual(x: seq<real>, c: real)
    requires forall i :: 0 <= i < |x| ==> x[i] == c
    ensures Sum(x) == c * Count(x) && Dot(x, x) == c * c * Count(x)
  {
    if x != [] {
      SumOfEqual(x[1..], c);
      Distribute(c, 1.0, Count(x[1..]));
      Distribute(c * c, 1.0, Count(x[1..]));
    }
  }

  /** `n * (n * sxx - sx * sx)` is a sum of squares. */
  lemma SpreadIsDenominator(n: real, sx: real, sxx: real, u: real, d: real)
    requires u == -sx && d == n * sxx - sx * sx
    ensures SpreadForm(n, sx, sxx, u, n) == Times(n, d)
  {
    assert u * u == sx * sx;
    assert n * (n * sxx - sx * sx) == n * (n * sxx) - n * (sx * sx);
    assert n * n * sxx == n * (n * sxx);
    assert 2.0 * (u * n) * sx == -2.0 * (n * (sx * sx));
  }

  lemma SpreadOfColumn(x: seq<real>, n: real, sx: real, sxx: real, u: real, v: real)
    requires n == Count(x) && sx == Sum(x) && sxx == Dot(x, x)
    ensures Spread(x, u, v) == SpreadForm(n, sx, sxx, u, v)
  {
    SpreadExpands(x, u, v);
  }

  lemma {:induction false} CountSame(x: seq<real>, y: seq<real>)
    requires |x| == |y|
    ensures Count(x) == Count(y)
  {
    if x != [] { CountSame(x[1..], y[1..]); }
  }

  lemma DenominatorOfEqual(x: seq<real>, n: real, sx: real, sxx: real)
    requires |x| >= 1 && AllEqual(x) && n == Count(x) && sx == Sum(x) && sxx == Dot(x, x)
    ensures n * sxx == sx * sx
  {
    SumOfEqual(x, x[0]);
    SquareOfProduct(n, x[0], sx, sxx);
  }

  lemma SquareOfProduct(n: real, c: real, sx: real, sxx: real)
    requires sx == c * n && sxx == c * c * n
    ensures n * sxx == sx * sx
  {
    assert sxx == c * sx;
    assert n * sxx == n * c * sx;
  }

  lemma DenominatorOfUnequal(x: seq<real>, n: real, sx: real, sxx: real, d: real)
    requires !AllEqual(x) && n == Count(x) && sx == Sum(x) && sxx == Dot(x, x) && d == n * sxx - sx * sx
    ensures d > 0.0
  {
    var u := -sx;
    UnequalSpread(x, u, n);
    SpreadOfColumn(x, n, sx, sxx, u, n);
    SpreadIsDenominator(n, sx, sxx, u, d);
    PositiveFactor(n, d);
  }

  lemma PositiveFactor(n: real, d: real)
    requires n > 0.0 && Times(n, d) > 0.0
    ensures d > 0.0
  {
  }

  /** The denominator of the slope is never negative, and zero exactly if all samples are the same. */
  lemma DenominatorPositive(x: seq<real>, n: real, sx: real, sxx: real)
    requires |x| >= 1 && n == Count(x) && sx == Sum(x) && sxx == Dot(x, x)
    ensures n * sxx - sx * sx >= 0.0
    ensures n * sxx - sx * sx > 0.0 <==> !AllEqual(x)
  {
    if AllEqual(x) {
      DenominatorOfEqual(x, n, sx, sxx);
    } else {
      DenominatorOfUnequal(x, n, sx, sxx, n * sxx - sx * sx);
    }
  }

  lemma ProductSign(n: real, d: real)
    requires n > 0.0
    ensures n * d >= 0.0 <==> d >= 0.0
  {
    if d < 0.0 { assert n * -d > 0.0; }
  }

  function Cross(sy: real, syy: real, sxy: real, a: real, b: real): real {
    syy - 2.0 * a * sy - 2.0 * b * sxy
  }

  /** The residuals of a line as a polynomial in its coefficients. */
  function ResidualsForm(s: Sums, a: real, b: real): real {
    Cross(s.sy, s.syy, s.sxy, a, b) + SpreadForm(s.n, s.sx, s.sxx, a, b)
  }

  lemma ResidualExpands(x: real, y: real, a: real, b: real)
    ensures Square(y - a - b * x) == y * y - 2.0 * a * y - 2.0 * b * (x * y) + Square(a + b * x)
  {
    var w := a + b * x;
    assert Square(y - w) == y * y - 2.0 * (w * y) + w * w;
    assert w * y == a * y + b * (x * y);
  }

  lemma CrossStep(x: real, y: real, sy: real, syy: real, sxy: real, a: real, b: real)
    ensures Cross(y + sy, y * y + syy, x * y + sxy, a, b)
            == Square(y - a - b * x) - Square(a + b * x) + Cross(sy, syy, sxy, a, b)
  {
    ResidualExpands(x, y, a, b);
    Distribute(2.0 * a, y, sy);
    Distribute(2.0 * b, x * y, sxy);
  }

  /** One more sample in the residuals and in the spread. */
  lemma ResidualsGrow(x: seq<real>, y: seq<real>, a: real, b: real, sy: real, syy: real, sxy: real)
    requires |x| == |y| && x != []
    requires Residuals(x[1..], y[1..], a, b) == Cross(sy, syy, sxy, a, b) + Spread(x[1..], a, b)
    ensures Residuals(x, y, a, b)
            == Cross(y[0] + sy, y[0] * y[0] + syy, x[0] * y[0] + sxy, a, b) + Spread(x, a, b)
  {
    assert Residuals(x, y, a, b) == Square(y[0] - a - b * x[0]) + Residuals(x[1..], y[1..], a, b);
    assert Spread(x, a, b) == Square(a + b * x[0]) + Spread(x[1..], a, b);
    CrossStep(x[0], y[0], sy, syy, sxy, a, b);
  }

  /** One more sample in the sums with `y`. */
  lemma GrowBoth(x: seq<real>, y: seq<real>)
    requires |x| == |y| && x != []
    ensures Sum(y) == y[0] + Sum(y[1..]) && Dot(y, y) == y[0] * y[0] + Dot(y[1..], y[1..])
    ensures Dot(x, y) == x[0] * y[0] + Dot(x[1..], y[1..])
  {
  }

  lemma {:induction false} ResidualsExpand(x: seq<real>, y: seq<real>, a: real, b: real)
    requires |x| == |y|
    ensures Residuals(x, y, a, b) == Cross(Sum(y), Dot(y, y), Dot(x, y), a, b) + Spread(x, a, b)
  {
    if x != [] {
      ResidualsExpand(x[1..], y[1..], a, b);
      GrowBoth(x, y);
      ResidualsGrow(x, y, a, b, Sum(y[1..]), Dot(y[1..], y[1..]), Dot(x[1..], y[1..]));
    }
  }

  lemma ResidualsAsForm(x: seq<real>, y: seq<real>, a: real, b: real)
    requires |x| == |y|
    ensures Residuals(x, y, a, b) == ResidualsForm(SumsOf(x, y), a, b)
  {
    ResidualsExpand(x, y, a, b);
    SpreadExpands(x, a, b);
  }

  /** Slope and intercept solve the normal equations. */
  lemma NormalEquations(s: Sums)
    requires s.n > 0.0 && Dx(s) > 0.0
    ensures s.sy == s.n * Intercept(s) + Slope(s) * s.sx
    ensures s.sxy == Intercept(s) * s.sx + Slope(s) * s.sxx
  {
    var a, b := Intercept(s), Slope(s);
    assert s.n * a == s.sy - b * s.sx;
    assert b * Dx(s) == Dxy(s);
    assert b * (s.n * s.sxx) - b * (s.sx * s.sx) == s.n * s.sxy - s.sx * s.sy;
    assert s.n * (a * s.sx) == s.n * a * s.sx;
    assert s.n * a * s.sx == s.sy * s.sx - b * s.sx * s.sx;
    assert s.n * (b * s.sxx) == b * (s.n * s.sxx);
    assert s.n * (a * s.sx + b * s.sxx) == s.n * s.sxy;
    Cancel(s.n, a * s.sx + b * s.sxx, s.sxy);
  }

  lemma Cancel(n: real, p: real, q: real)
    requires n > 0.0 && n * p == n * q
    ensures p == q
  {
    assert n * (p - q) == 0.0;
  }

  /** Moving away from a solution of the normal equations costs exactly the spread of the change. */
  lemma Shifted(s: Sums, a: real, b: real, u: real, v: real)
    requires s.sy == s.n * a + b * s.sx
    requires s.sxy == a * s.sx + b * s.sxx
    ensures ResidualsForm(s, a + u, b + v) == ResidualsForm(s, a, b) + SpreadForm(s.n, s.sx, s.sxx, u, v)
  {
    SpreadFormSum(s, a, b, u, v);
    Linear(u, s.sy, s.n * a, b * s.sx, a);
    Linear(v, s.sxy, a * s.sx, b * s.sxx, b);
  }

  lemma Linear(u: real, z: real, p: real, q: real, a: real)
    requires z == p + q
    ensures 2.0 * (a + u) * z == 2.0 * a * z + 2.0 * (u * p) + 2.0 * (u * q)
  {
    Distribute(u, p, q);
    assert 2.0 * (a + u) * z == 2.0 * a * z + 2.0 * (u * z);
  }

  lemma SpreadFormSum(s: Sums, a: real, b: real, u: real, v: real)
    ensures SpreadForm(s.n, s.sx, s.sxx, a + u, b + v)
            == SpreadForm(s.n, s.sx, s.sxx, a, b) + SpreadForm(s.n, s.sx, s.sxx, u, v)
               + 2.0 * (u * (s.n * a)) + 2.0 * (u * (b * s.sx)) + 2.0 * (v * (a * s.sx)) + 2.0 * (v * (b * s.sxx))
  {
    assert (a + u) * (a + u) == a * a + 2.0 * (u * a) + u * u;
    assert (b + v) * (b + v) == b * b + 2.0 * (v * b) + v * v;
    assert (a + u) * (b + v) == a * b + a * v + u * b + u * v;
    assert s.n * ((a + u) * (a + u)) == s.n * (a * a) + 2.0 * (u * (s.n * a)) + s.n * (u * u);
    assert (b + v) * (b + v) * s.sxx == b * b * s.sxx + 2.0 * (v * (b * s.sxx)) + v * v * s.sxx;
    assert 2.0 * ((a + u) * (b + v)) * s.sx
           == 2.0 * (a * b) * s.sx + 2.0 * (v * (a * s.sx)) + 2.0 * (u * (b * s.sx)) + 2.0 * (u * v) * s.sx;
  }

  /** No coefficients do better than the fitted ones. */
  lemma FormMinimal(s: Sums, a: real, b: real)
    requires s.n > 0.0 && Dx(s) > 0.0
    ensures ResidualsForm(s, a, b)
            == ResidualsForm(s, Intercept(s), Slope(s))
               + SpreadForm(s.n, s.sx, s.sxx, a - Intercept(s), b - Slope(s))
  {
    var a0, b0 := Intercept(s), Slope(s);
    NormalEquations(s);
    Shifted(s, a0, b0, a - a0, b - b0);
    assert a0 + (a - a0) == a && b0 + (b - b0) == b;
  }

  /** Least squares: unless all `x` are equal, no line has a smaller sum of squared residuals. */
  lemma LeastSquares(x: seq<real>, y: seq<real>, a: real, b: real)
    requires |x| == |y| >= 1 && !AllEqual(x)
    ensures var s := SumsOf(x, y);
            && Dx(s) > 0.0
            && Residuals(x, y, Intercept(s), Slope(s)) <= Residuals(x, y, a, b)
  {
    var s := SumsOf(x, y);
    DxPositive(x, y);
    FormMinimal(s, a, b);
    ResidualsAsForm(x, y, a, b);
    ResidualsAsForm(x, y, Intercept(s), Slope(s));
    SpreadExpands(x, a - Intercept(s), b - Slope(s));
  }

  /** The residuals that the fitted line leaves, in terms of the three denominators. */
  lemma FittedResiduals(s: Sums)
    requires s.n > 0.0 && Dx(s) > 0.0
    ensures Dx(s) * (s.n * ResidualsForm(s, Intercept(s), Slope(s))) == Dx(s) * Dy(s) - Dxy(s) * Dxy(s)
  {
    var a, b := Intercept(s), Slope(s);
    NormalEquations(s);
    var r := ResidualsForm(s, a, b);
    assert r == s.syy - a * s.sy - b * s.sxy by {
      assert a * s.sy == s.n * (a * a) + a * b * s.sx;
      assert b * s.sxy == a * b * s.sx + b * b * s.sxx;
    }
    assert s.n * r == Dy(s) - b * Dxy(s) by {
      assert s.n * a == s.sy - b * s.sx;
      assert s.n * (a * s.sy) == s.n * a * s.sy;
      assert s.n * a * s.sy == s.sy * s.sy - b * (s.sx * s.sy);
      assert s.n * (b * s.sxy) == b * (s.n * s.sxy);
      assert s.n * r == s.n * s.syy - s.n * (a * s.sy) - s.n * (b * s.sxy);
      assert b * Dxy(s) == b * (s.n * s.sxy) - b * (s.sx * s.sy);
    }
    assert Dx(s) * (b * Dxy(s)) == Dxy(s) * Dxy(s) by {
      assert Dx(s) * b == Dxy(s);
      assert Dx(s) * (b * Dxy(s)) == Dx(s) * b * Dxy(s);
    }
    assert Dx(s) * (Dy(s) - b * Dxy(s)) == Dx(s) * Dy(s) - Dx(s) * (b * Dxy(s));
  }

  lemma DxPositive(x: seq<real>, y: seq<real>)
    requires |x| == |y| >= 1 && !AllEqual(x)
    ensures Dx(SumsOf(x, y)) > 0.0
  {
    DenominatorPositive(x, Count(x), Sum(x), Dot(x, x));
  }

  lemma DyPositive(x: seq<real>, y: seq<real>)
    requires |x| == |y| >= 1 && !AllEqual(y)
    ensures Dy(SumsOf(x, y)) > 0.0
  {
    CountSame(x, y);
    DenominatorPositive(y, Count(x), Sum(y), Dot(y, y));
  }

  lemma FitExplains(s: Sums, r: real)
    requires s.n > 0.0 && Dx(s) > 0.0 && Dy(s) > 0.0
    requires r == ResidualsForm(s, Intercept(s), Slope(s)) && r >= 0.0
    ensures RSquared(s) * Dy(s) == Dy(s) - s.n * r
    ensures 0.0 <= RSquared(s) <= 1.0
  {
    FittedResiduals(s);
    ProductSign(s.n, r);
    Explained(Dx(s), Dy(s), Dxy(s), s.n * r, RSquared(s));
  }

  /**
   The squared correlation is what the fit explains: one minus the residuals left, relative to the
   spread of `y`. It lies between 0 and 1.
   */
  lemma CorrelationExplains(x: seq<real>, y: seq<real>)
    requires |x| == |y| >= 1 && !AllEqual(x) && !AllEqual(y)
    ensures var s := SumsOf(x, y);
            && Dx(s) > 0.0 && Dy(s) > 0.0
            && RSquared(s) * Dy(s) == Dy(s) - s.n * Residuals(x, y, Intercept(s), Slope(s))
            && 0.0 <= RSquared(s) <= 1.0
  {
    var s := SumsOf(x, y);
    DxPositive(x, y);
    DyPositive(x, y);
    ResidualsAsForm(x, y, Intercept(s), Slope(s));
    FitExplains(s, Residuals(x, y, Intercept(s), Slope(s)));
  }

  lemma Explained(dx: real, dy: real, dxy: real, left: real, r: real)
    requires dx > 0.0 && dy > 0.0 && r == Ratio(dxy, dx, dy)
    requires dx * left == dx * dy - dxy * dxy
    ensures r * dy == dy - left
    ensures left >= 0.0 ==> 0.0 <= r <= 1.0
  {
    var q := dxy * dxy;
    var e := q / dx;
    assert dx * e == q;
    assert dx * (dy - left) == q;
    Cancel(dx, dy - left, e);
    assert dy * r == e;
    assert q >= 0.0;
    ProductSign(dx, e);
    ProductSign(dy, r);
    if left >= 0.0 {
      assert dy * (1.0 - r) == left;
      ProductSign(dy, 1.0 - r);
    }
  }

  // ----- the computation -----

  function Column(a: seq<int>): (x: seq<real>)
    ensures |x| == |a|
  {
    seq(|a|, i requires 0 <= i < |a| => a[i] as real)
  }

  lemma {:induction false} CountAppend(x: seq<real>, v: real)
    ensures Count(x + [v]) == Count(x) + 1.0
  {
    if x != [] {
      assert (x + [v])[1..] == x[1..] + [v];
      CountAppend(x[1..], v);
    } else {
      assert Count([v]) == 1.0 + Count([]);
    }
  }

  lemma {:induction false} SumAppend(x: seq<real>, v: real)
    ensures Sum(x + [v]) == Sum(x) + v
  {
    if x != [] {
      assert (x + [v])[1..] == x[1..] + [v];
      SumAppend(x[1..], v);
    } else {
      assert Sum([v]) == v + Sum([]);
    }
  }

  lemma {:induction false} DotAppend(x: seq<real>, y: seq<real>, v: real, w: real)
    requires |x| == |y|
    ensures Dot(x + [v], y + [w]) == Dot(x, y) + v * w
  {
    if x != [] {
      assert (x + [v])[1..] == x[1..] + [v] && (y + [w])[1..] == y[1..] + [w];
      DotAppend(x[1..], y[1..], v, w);
    } else {
      assert x + [v] == [v] && y + [w] == [w];
      assert Dot([v], [w]) == v * w + Dot([], []);
    }
  }

  lemma SumsAppend(x: seq<real>, y: seq<real>, v: real, w: real)
    requires |x| == |y|
    ensures SumsOf(x + [v], y + [w])
            == var s := SumsOf(x, y);
               Sums(s.n + 1.0, s.sx + v, s.sy + w, s.sxx + v * v, s.syy + w * w, s.sxy + v * w)
  {
    CountAppend(x, v);
    SumAppend(x, v);
    SumAppend(y, w);
    DotAppend(x, x, v, v);
    DotAppend(y, y, w, w);
    DotAppend(x, y, v, w);
  }

  /**
   The second half of sample_get_cpu_mhz. The answer is the least-squares slope, or 0 when the fit
   explains less than nine tenths of the spread of `y`. (When all `y` are equal the source compares
   a quotient of zeros, which is not less than 0.9, and answers the slope, which is then 0.)
   */
  method SampleGetCpuMhz(x: array<int>, y: array<int>) returns (mhz: real)
    requires x.Length == y.Length == MEASUREMENTS
    requires !AllEqual(Column(x[..]))
    ensures var s := SumsOf(Column(x[..]), Column(y[..]));
            && Dx(s) > 0.0
            && mhz == if Dy(s) != 0.0 && RSquared(s) < 0.9 then 0.0 else Slope(s)
  {
    var sx, sy, sxx, syy, sxy := 0.0, 0.0, 0.0, 0.0, 0.0;
    for i := 0 to MEASUREMENTS
      invariant Sums(i as real, sx, sy, sxx, syy, sxy) == SumsOf(Column(x[..i]), Column(y[..i]))
    {
      var tx := x[i] as real;
      var ty := y[i] as real;
      assert Column(x[..i + 1]) == Column(x[..i]) + [tx];
      assert Column(y[..i + 1]) == Column(y[..i]) + [ty];
      SumsAppend(Column(x[..i]), Column(y[..i]), tx, ty);
      sx := sx + tx;
      sy := sy + ty;
      sxx := sxx + tx * tx;
      syy := syy + ty * ty;
      sxy := sxy + tx * ty;
    }
    assert x[..MEASUREMENTS] == x[..] && y[..MEASUREMENTS] == y[..];
    ghost var s := SumsOf(Column(x[..]), Column(y[..]));
    assert s == Sums(MEASUREMENTS as real, sx, sy, sxx, syy, sxy);
    DxPositive(Column(x[..]), Column(y[..]));
    mhz := Fit(MEASUREMENTS as real, sx, sy, sxx, syy, sxy);
  }

  /** From the sums to the answer. */
  method Fit(n: real, sx: real, sy: real, sxx: real, syy: real, sxy: real) returns (mhz: real)
    requires Dx(Sums(n, sx, sy, sxx, syy, sxy)) > 0.0
    ensures var s := Sums(n, sx, sy, sxx, syy, sxy);
            mhz == if Dy(s) != 0.0 && RSquared(s) < 0.9 then 0.0 else Slope(s)
  {
    ghost var s := Sums(n, sx, sy, sxx, syy, sxy);
    var dx, dy, dxy := n * sxx - sx * sx, n * syy - sy * sy, n * sxy - sx * sy;
    assert dx == Dx(s) && dy == Dy(s) && dxy == Dxy(s);
    var b := dxy / dx;
    if dy != 0.0 {
      var r2 := Ratio(dxy, dx, dy);
      if r2 < 0.9 {
        return 0.0;
      }
    }
    return b;
  }
}
