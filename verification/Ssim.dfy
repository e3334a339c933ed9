/** The structural similarity of two windows, in exact arithmetic. */
module Ssim {
  import opened Sums

  const C1 := (0.01 * 255.0) * (0.01 * 255.0)
  const C2 := (0.03 * 255.0) * (0.03 * 255.0)

  /** The means, variances and covariance ssim_from_sums works out from a window's sums. */
  datatype Moments = Moments(mx: real, my: real, vx: real, vy: real, cov: real)

  function MomentsFrom(n: real, sx: real, sy: real, sxx: real, syy: real, sxy: real): Moments
    requires n > 0.0
  {
    var mx, my := sx / n, sy / n;
    Moments(mx, my, sxx / n - mx * mx, syy / n - my * my, sxy / n - mx * my)
  }

  function LumaAbove(m: Moments): real { 2.0 * m.mx * m.my + C1 }

  function LumaBelow(m: Moments): real { m.mx * m.mx + m.my * m.my + C1 }

  function ShapeAbove(m: Moments): real { 2.0 * m.cov + C2 }

  function ShapeBelow(m: Moments): real { m.vx + m.vy + C2 }

  function Over(x: real, y: real): real
    requires y != 0.0
  {
    x / y
  }

  function Above(m: Moments): real { LumaAbove(m) * ShapeAbove(m) }

  function Below(m: Moments): real { LumaBelow(m) * ShapeBelow(m) }

  function Similarity(m: Moments): real
    requires Below(m) != 0.0
  {
    Over(Above(m), Below(m))
  }

  /** ssim_from_sums: from the sums over a window of n pixels of x, y, their squares and their product. */
  function SsimFromSums(n: real, sx: real, sy: real, sxx: real, syy: real, sxy: real): real
    requires n > 0.0
    requires var m := MomentsFrom(n, sx, sy, sxx, syy, sxy); Below(m) != 0.0
  {
    Similarity(MomentsFrom(n, sx, sy, sxx, syy, sxy))
  }

  /** A window's pixels: y0 <= y < y1 and x0 <= x < x1. */
  datatype Box = Box(y0: int, y1: int, x0: int, x1: int) {
    predicate Valid() { y0 < y1 && x0 < x1 }

    predicate Has(y: int, x: int) { y0 <= y < y1 && x0 <= x < x1 }

    function Pixels(): (n: real)
      ensures Valid() ==> n >= 1.0
    {
      assert Valid() ==> (y1 - y0) * (x1 - x0) >= 1;
      Area(y0, y1, x0, x1)
    }

    function Sum(f: Field): real { BoxSum(f, y0, y1, x0, x1) }
  }

  ghost predicate Alike(p: Field, q: Field, box: Box) {
    forall y, x :: box.Has(y, x) ==> p(y, x) == q(y, x)
  }

  ghost predicate Luminous(p: Field, box: Box) {
    forall y, x :: box.Has(y, x) ==> p(y, x) >= 0.0
  }

  function MomentsOf(p: Field, q: Field, box: Box): Moments
    requires box.Valid()
  {
    MomentsFrom(box.Pixels(), box.Sum(p), box.Sum(q), box.Sum(Product(p, p)), box.Sum(Product(q, q)),
      box.Sum(Product(p, q)))
  }

  // Sums of squares about a value.

  function Square(a: real): real { Times(a, a) }

  function Times(n: real, a: real): real { n * a }

  lemma TimesPositive(a: real, b: real)
    requires a > 0.0 && b > 0.0
    ensures Times(a, b) > 0.0
  {
  }

  lemma SquareOpposite(a: real)
    ensures Square(a) == Square(-a)
  {
  }

  lemma SquareSign(a: real)
    ensures Square(a) >= 0.0
    ensures Square(a) == 0.0 <==> a == 0.0
  {
    if a > 0.0 {
      TimesPositive(a, a);
    } else if a < 0.0 {
      SquareOpposite(a);
      TimesPositive(-a, -a);
    }
  }

  function Deviation(d: Field, c: real): Field { (y, x) => Square(d(y, x) - c) }

  /** The sum of (d - c) squared, of n values whose sum is `sum` and whose squares' is `squares`. */
  function Spread(squares: real, sum: real, n: real, c: real): real { squares + (-2.0 * c) * sum + (c * c) * n }

  lemma DeviationSum(d: Field, c: real, box: Box)
    requires box.Valid()
    ensures box.Sum(Deviation(d, c)) == Spread(box.Sum(Product(d, d)), box.Sum(d), box.Pixels(), c)
  {
    hide Square, BoxSum, RowSum;
    var parts := Combined(-2.0 * c, d, c * c);
    forall y, x ensures Deviation(d, c)(y, x) == parts(y, x) {
      DeviationAt(d, c, y, x);
    }
    BoxAlike(Deviation(d, c), parts, box.y0, box.y1, box.x0, box.x1);
    CombinedSum(-2.0 * c, d, c * c, box);
  }

  /** The square of a field, a times it, and a constant, put together. */
  function Combined(a: real, d: Field, e: real): Field { Plus(Plus(Product(d, d), Scaled(a, d)), Always(e)) }

  lemma CombinedSum(a: real, d: Field, e: real, box: Box)
    requires box.Valid()
    ensures box.Sum(Combined(a, d, e)) == box.Sum(Product(d, d)) + a * box.Sum(d) + e * box.Pixels()
  {
    hide BoxSum, RowSum;
    PlusBox(Product(d, d), Scaled(a, d), box.y0, box.y1, box.x0, box.x1);
    PlusBox(Plus(Product(d, d), Scaled(a, d)), Always(e), box.y0, box.y1, box.x0, box.x1);
    ScaledBox(a, d, box.y0, box.y1, box.x0, box.x1);
    AlwaysBox(e, box.y0, box.y1, box.x0, box.x1);
  }

  lemma DeviationAt(d: Field, c: real, y: int, x: int)
    ensures Deviation(d, c)(y, x) == Combined(-2.0 * c, d, c * c)(y, x)
  {
    SquareOut(d(y, x), c);
  }

  lemma SquareOut(a: real, c: real)
    ensures Square(a - c) == a * a + (-2.0 * c) * a + c * c
  {
  }

  /** x + s y, of values and of their sums and squares. */
  function Mix(a: real, s: real, b: real): real { a + s * b }

  function MixSquare(aa: real, s: real, ab: real, bb: real): real { aa + (2.0 * s) * ab + bb }

  function Mixed(p: Field, s: real, q: Field): Field { (y, x) => Mix(p(y, x), s, q(y, x)) }

  lemma MixedSum(p: Field, s: real, q: Field, box: Box)
    ensures box.Sum(Mixed(p, s, q)) == Mix(box.Sum(p), s, box.Sum(q))
  {
    PlusBox(p, Scaled(s, q), box.y0, box.y1, box.x0, box.x1);
    ScaledBox(s, q, box.y0, box.y1, box.x0, box.x1);
    forall y, x ensures Mixed(p, s, q)(y, x) == Plus(p, Scaled(s, q))(y, x) {
      MixIs(p(y, x), s, q(y, x));
    }
    BoxAlike(Mixed(p, s, q), Plus(p, Scaled(s, q)), box.y0, box.y1, box.x0, box.x1);
  }

  lemma MixIs(a: real, s: real, b: real)
    ensures Mix(a, s, b) == a + s * b
  {
  }

  lemma MixedSquares(p: Field, s: real, q: Field, box: Box)
    requires s * s == 1.0
    ensures box.Sum(Product(Mixed(p, s, q), Mixed(p, s, q))) ==
              MixSquare(box.Sum(Product(p, p)), s, box.Sum(Product(p, q)), box.Sum(Product(q, q)))
  {
    var d, left, cross := Mixed(p, s, q), Product(p, p), Scaled(2.0 * s, Product(p, q));
    forall y, x ensures Product(d, d)(y, x) == Plus(Plus(left, cross), Product(q, q))(y, x) {
      MixOut(p(y, x), s, q(y, x));
    }
    BoxAlike(Product(d, d), Plus(Plus(left, cross), Product(q, q)), box.y0, box.y1, box.x0, box.x1);
    PlusBox(Plus(left, cross), Product(q, q), box.y0, box.y1, box.x0, box.x1);
    PlusBox(left, cross, box.y0, box.y1, box.x0, box.x1);
    ScaledBox(2.0 * s, Product(p, q), box.y0, box.y1, box.x0, box.x1);
  }

  lemma MixOut(a: real, s: real, b: real)
    requires s * s == 1.0
    ensures Mix(a, s, b) * Mix(a, s, b) == a * a + (2.0 * s) * (a * b) + b * b
  {
    assert (s * b) * (s * b) == (s * s) * (b * b);
  }

  /** vx + vy + 2 s cov. */
  function MixedVariance(m: Moments, s: real): real { MixSquare(m.vx, s, m.cov, m.vy) }

  /** It is the mean square of x + s y about its own mean. */
  lemma Centred(n: real, s: real, sx: real, sy: real, sxx: real, syy: real, sxy: real)
    requires n > 0.0 && s * s == 1.0
    ensures var m := MomentsFrom(n, sx, sy, sxx, syy, sxy);
            Times(n, MixedVariance(m, s)) == Spread(MixSquare(sxx, s, sxy, syy), Mix(sx, s, sy), n, Mix(m.mx, s, m.my))
  {
    var mx, my, exx, eyy, exy := sx / n, sy / n, sxx / n, syy / n, sxy / n;
    var c := Mix(mx, s, my);
    assert sx == n * mx && sy == n * my && sxx == n * exx && syy == n * eyy && sxy == n * exy;
    MixOut(mx, s, my);
    assert Mix(sx, s, sy) == n * c by { assert s * (n * my) == n * (s * my); }
    assert (-2.0 * c) * (n * c) == -2.0 * (n * (c * c));
    assert (2.0 * s) * (n * exy) == n * ((2.0 * s) * exy);
    assert n * ((exx - mx * mx) + (eyy - my * my) + (2.0 * s) * (exy - mx * my))
      == n * exx + n * eyy + n * ((2.0 * s) * exy) - n * (c * c) by {
      assert (2.0 * s) * (exy - mx * my) == (2.0 * s) * exy - (2.0 * s) * (mx * my);
    }
  }

  lemma MixedDeviation(p: Field, q: Field, s: real, box: Box)
    requires box.Valid() && s * s == 1.0
    ensures var m := MomentsOf(p, q, box);
            box.Sum(Deviation(Mixed(p, s, q), Mix(m.mx, s, m.my))) == Times(box.Pixels(), MixedVariance(m, s))
  {
    var m := MomentsOf(p, q, box);
    MixedSum(p, s, q, box);
    MixedSquares(p, s, q, box);
    DeviationSum(Mixed(p, s, q), Mix(m.mx, s, m.my), box);
    Centred(box.Pixels(), s, box.Sum(p), box.Sum(q), box.Sum(Product(p, p)), box.Sum(Product(q, q)),
      box.Sum(Product(p, q)));
  }

  /** Cauchy-Schwarz for the windows: a mixed variance is never negative, and zero only where x + s y is one value. */
  lemma MixedNonnegative(p: Field, q: Field, s: real, box: Box)
    requires box.Valid() && s * s == 1.0
    ensures var m := MomentsOf(p, q, box);
            MixedVariance(m, s) >= 0.0 &&
            (MixedVariance(m, s) == 0.0 ==>
              forall y, x :: box.Has(y, x) ==> Mix(p(y, x), s, q(y, x)) == Mix(m.mx, s, m.my))
  {
    var m := MomentsOf(p, q, box);
    MixedDeviation(p, q, s, box);
    DeviationsZero(p, q, s, Mix(m.mx, s, m.my), box);
    TimesSign(box.Pixels(), MixedVariance(m, s));
  }

  lemma DeviationsZero(p: Field, q: Field, s: real, c: real, box: Box)
    ensures box.Sum(Deviation(Mixed(p, s, q), c)) >= 0.0
    ensures box.Sum(Deviation(Mixed(p, s, q), c)) == 0.0 ==>
              forall y, x :: box.Has(y, x) ==> Mix(p(y, x), s, q(y, x)) == c
  {
    var dev := Deviation(Mixed(p, s, q), c);
    forall y, x ensures dev(y, x) >= 0.0 && (dev(y, x) == 0.0 ==> Mix(p(y, x), s, q(y, x)) == c) {
      SquareSign(Mix(p(y, x), s, q(y, x)) - c);
      assert dev(y, x) == Square(Mix(p(y, x), s, q(y, x)) - c);
    }
    BoxNonnegative(dev, box.y0, box.y1, box.x0, box.x1);
  }

  lemma TimesSign(n: real, a: real)
    requires n > 0.0
    ensures Times(n, a) >= 0.0 ==> a >= 0.0
    ensures Times(n, a) == 0.0 <==> a == 0.0
  {
    if a > 0.0 { assert n * a > 0.0; }
    if a < 0.0 { assert n * a < 0.0; }
  }

  // The bound.

  /** The quotient of two pairs, each numerator within its denominator. */
  lemma Quotient(a: real, b: real, c: real, d: real)
    requires 0.0 < a <= b && -d < c <= d
    ensures b * d > 0.0 && -(b * d) < a * c <= b * d
    ensures a * c == b * d <==> a == b && c == d
  {
    assert a * c <= a * d && a * d <= b * d && -(a * d) < a * c by {
      assert a * (d - c) >= 0.0 && (b - a) * d >= 0.0 && a * (c + d) > 0.0;
    }
    if a < b { assert (b - a) * d > 0.0; }
    if c < d { assert a * (d - c) > 0.0; }
  }

  lemma Ratio(x: real, y: real)
    requires y > 0.0
    ensures Over(x, y) > -1.0 <==> x > -y
    ensures Over(x, y) <= 1.0 <==> x <= y
    ensures Over(x, y) == 1.0 <==> x == y
  {
    var r := Over(x, y);
    assert r * y == x;
    if r < 1.0 { assert r * y < y; }
    if r > 1.0 { assert r * y > y; }
    if r <= -1.0 { assert (r + 1.0) * y <= 0.0; }
    if r > -1.0 { assert (r + 1.0) * y > 0.0; }
  }

  lemma MomentsBounded(p: Field, q: Field, box: Box)
    requires box.Valid() && Luminous(p, box) && Luminous(q, box)
    ensures var m := MomentsOf(p, q, box);
            0.0 < LumaAbove(m) <= LumaBelow(m) && -ShapeBelow(m) < ShapeAbove(m) <= ShapeBelow(m) &&
            (LumaAbove(m) == LumaBelow(m) && ShapeAbove(m) == ShapeBelow(m) ==> Alike(p, q, box))
  {
    var m := MomentsOf(p, q, box);
    BoxNonnegative(p, box.y0, box.y1, box.x0, box.x1);
    BoxNonnegative(q, box.y0, box.y1, box.x0, box.x1);
    MixedNonnegative(p, q, 1.0, box);
    MixedNonnegative(p, q, -1.0, box);
    assert m.mx * m.my >= 0.0;
    MeansDiffer(m.mx, m.my);
    if LumaAbove(m) == LumaBelow(m) && ShapeAbove(m) == ShapeBelow(m) {
      forall y, x | box.Has(y, x) ensures p(y, x) == q(y, x) {
        assert Mix(p(y, x), -1.0, q(y, x)) == Mix(m.mx, -1.0, m.my);
      }
    }
  }

  lemma MeansDiffer(a: real, b: real)
    ensures 2.0 * a * b <= a * a + b * b && (2.0 * a * b == a * a + b * b <==> a == b)
  {
    SquareOut(a, b);
    SquareSign(a - b);
    assert Square(a - b) == a * a - 2.0 * a * b + b * b;
  }

  /** A window's similarity of two crops' luminances. */
  function WindowSsim(p: Field, q: Field, box: Box): real
    requires box.Valid() && Luminous(p, box) && Luminous(q, box)
  {
    MomentsBounded(p, q, box);
    SimilarityBounds(MomentsOf(p, q, box));
    SsimFromSums(box.Pixels(), box.Sum(p), box.Sum(q), box.Sum(Product(p, p)), box.Sum(Product(q, q)),
      box.Sum(Product(p, q)))
  }

  lemma SimilarityBounds(m: Moments)
    requires 0.0 < LumaAbove(m) <= LumaBelow(m) && -ShapeBelow(m) < ShapeAbove(m) <= ShapeBelow(m)
    ensures Below(m) > 0.0 && -1.0 < Similarity(m) <= 1.0
    ensures Similarity(m) == 1.0 <==> LumaAbove(m) == LumaBelow(m) && ShapeAbove(m) == ShapeBelow(m)
  {
    Quotient(LumaAbove(m), LumaBelow(m), ShapeAbove(m), ShapeBelow(m));
    Ratio(Above(m), Below(m));
  }

  /** It lies in (-1, 1], and is 1 exactly when the two windows are alike at every pixel. */
  lemma SsimBounds(p: Field, q: Field, box: Box)
    requires box.Valid() && Luminous(p, box) && Luminous(q, box)
    ensures -1.0 < WindowSsim(p, q, box) <= 1.0
    ensures WindowSsim(p, q, box) == 1.0 <==> Alike(p, q, box)
  {
    MomentsBounded(p, q, box);
    SimilarityBounds(MomentsOf(p, q, box));
    if Alike(p, q, box) {
      AlikeMoments(p, q, box);
    }
  }

  lemma AlikeMoments(p: Field, q: Field, box: Box)
    requires box.Valid() && Alike(p, q, box)
    ensures var m := MomentsOf(p, q, box); LumaAbove(m) == LumaBelow(m) && ShapeAbove(m) == ShapeBelow(m)
  {
    BoxAlike(p, q, box.y0, box.y1, box.x0, box.x1);
    BoxAlike(Product(p, p), Product(p, q), box.y0, box.y1, box.x0, box.x1);
    BoxAlike(Product(q, q), Product(p, q), box.y0, box.y1, box.x0, box.x1);
    MeansDiffer(MomentsOf(p, q, box).mx, MomentsOf(p, q, box).my);
  }

  /** A window of one value all over. */
  ghost predicate Flat(p: Field, box: Box, value: real) { forall y, x :: box.Has(y, x) ==> p(y, x) == value }

  lemma FlatSum(p: Field, box: Box, value: real)
    requires box.Valid() && Flat(p, box, value)
    ensures box.Sum(p) == value * box.Pixels()
  {
    BoxAlike(p, Always(value), box.y0, box.y1, box.x0, box.x1);
    AlwaysBox(value, box.y0, box.y1, box.x0, box.x1);
  }

  lemma Mean(value: real, n: real)
    requires n > 0.0
    ensures value * n / n == value
  {
  }

  lemma FlatMoments(p: Field, q: Field, box: Box, a: real, b: real)
    requires box.Valid() && Flat(p, box, a) && Flat(q, box, b)
    ensures MomentsOf(p, q, box) == Moments(a, b, 0.0, 0.0, 0.0)
  {
    hide BoxSum;
    FlatSum(p, box, a);
    FlatSum(q, box, b);
    FlatSum(Product(p, p), box, a * a);
    FlatSum(Product(q, q), box, b * b);
    FlatSum(Product(p, q), box, a * b);
    Mean(a, box.Pixels());
    Mean(b, box.Pixels());
    Mean(a * a, box.Pixels());
    Mean(b * b, box.Pixels());
    Mean(a * b, box.Pixels());
  }

  /** Two flat windows are as similar as their two values are, in numbers. */
  lemma FlatSimilarity(p: Field, q: Field, box: Box, a: real, b: real)
    requires box.Valid() && Flat(p, box, a) && Flat(q, box, b) && a >= 0.0 && b >= 0.0
    ensures a * a + b * b + 6.5025 > 0.0 && Luminous(p, box) && Luminous(q, box)
    ensures WindowSsim(p, q, box) == (2.0 * a * b + 6.5025) / (a * a + b * b + 6.5025)
  {
    var m := Moments(a, b, 0.0, 0.0, 0.0);
    FlatMoments(p, q, box, a, b);
    WindowSimilarity(p, q, box);
    assert a * a >= 0.0 && b * b >= 0.0;
    OverTimes(LumaAbove(m), LumaBelow(m), C2);
  }

  lemma OverTimes(x: real, y: real, z: real)
    requires y != 0.0 && z != 0.0 && y * z != 0.0
    ensures Over(x * z, y * z) == x / y
  {
    assert x / y * (y * z) == x / y * y * z == x * z;
  }

  /** Two windows of one mean are as similar as they vary together, in numbers. */
  lemma SameMeanSimilarity(p: Field, q: Field, box: Box)
    requires box.Valid() && Luminous(p, box) && Luminous(q, box) && box.Sum(p) == box.Sum(q)
    ensures var m := MomentsOf(p, q, box);
            m.vx + m.vy + 58.5225 > 0.0 &&
            WindowSsim(p, q, box) == (2.0 * m.cov + 58.5225) / (m.vx + m.vy + 58.5225)
  {
    var m := MomentsOf(p, q, box);
    MomentsBounded(p, q, box);
    WindowSimilarity(p, q, box);
    assert LumaAbove(m) == LumaBelow(m) by { assert m.mx == m.my; }
    assert Above(m) == ShapeAbove(m) * LumaBelow(m) && Below(m) == ShapeBelow(m) * LumaBelow(m);
    OverTimes(ShapeAbove(m), ShapeBelow(m), LumaBelow(m));
  }

  lemma SimilarAlike(m: Moments, w: Moments)
    requires w == Moments(m.my, m.mx, m.vy, m.vx, m.cov)
    ensures LumaAbove(m) == LumaAbove(w) && LumaBelow(m) == LumaBelow(w)
    ensures ShapeAbove(m) == ShapeAbove(w) && ShapeBelow(m) == ShapeBelow(w)
  {
  }

  lemma MomentsSwap(n: real, sx: real, sy: real, sxx: real, syy: real, sxy: real)
    requires n > 0.0
    ensures var m := MomentsFrom(n, sx, sy, sxx, syy, sxy);
            MomentsFrom(n, sy, sx, syy, sxx, sxy) == Moments(m.my, m.mx, m.vy, m.vx, m.cov)
  {
  }

  lemma WindowSimilarity(p: Field, q: Field, box: Box)
    requires box.Valid() && Luminous(p, box) && Luminous(q, box)
    ensures var m := MomentsOf(p, q, box); Below(m) != 0.0 && WindowSsim(p, q, box) == Similarity(m)
  {
    MomentsBounded(p, q, box);
    SimilarityBounds(MomentsOf(p, q, box));
  }

  lemma MomentsOfSwap(p: Field, q: Field, box: Box)
    requires box.Valid()
    ensures var m := MomentsOf(p, q, box); MomentsOf(q, p, box) == Moments(m.my, m.mx, m.vy, m.vx, m.cov)
  {
    BoxAlike(Product(p, q), Product(q, p), box.y0, box.y1, box.x0, box.x1);
    MomentsSwap(box.Pixels(), box.Sum(p), box.Sum(q), box.Sum(Product(p, p)), box.Sum(Product(q, q)),
      box.Sum(Product(p, q)));
  }

  lemma SimilaritySwap(m: Moments, w: Moments)
    requires w == Moments(m.my, m.mx, m.vy, m.vx, m.cov) && Below(m) != 0.0 && Below(w) != 0.0
    ensures Similarity(m) == Similarity(w)
  {
    SimilarAlike(m, w);
  }

  /** It is the same whichever crop comes first. */
  lemma SsimSymmetric(p: Field, q: Field, box: Box)
    requires box.Valid() && Luminous(p, box) && Luminous(q, box)
    ensures WindowSsim(p, q, box) == WindowSsim(q, p, box)
  {
    WindowSimilarity(p, q, box);
    WindowSimilarity(q, p, box);
    MomentsOfSwap(p, q, box);
    SimilaritySwap(MomentsOf(p, q, box), MomentsOf(q, p, box));
  }
}
