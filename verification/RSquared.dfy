/** The trend-strength read: R-squared of a least-squares line through a series. */
module RSquared {
  import opened Numbers
  import opened Vectors

  function MeanX(n: nat): real { (n as real - 1.0) / 2.0 }

  function MeanY(ys: seq<real>): real requires ys != [] { Sum(ys) / |ys| as real }

  /** Deviations of the index from its mean. */
  function CentredX(n: nat): seq<real> { seq(n, i => i as real - MeanX(n)) }

  function CentredY(ys: seq<real>): seq<real> requires ys != [] {
    seq(|ys|, i requires 0 <= i < |ys| => ys[i] - MeanY(ys))
  }

  function Sxx(n: nat): real { Dot(CentredX(n), CentredX(n)) }

  function Sxy(ys: seq<real>): real requires ys != [] { Dot(CentredX(|ys|), CentredY(ys)) }

  function Syy(ys: seq<real>): real requires ys != [] { Dot(CentredY(ys), CentredY(ys)) }

  /** What the fitted line leaves unexplained at each index. */
  function Residuals(ys: seq<real>, slope: real): seq<real> requires ys != [] {
    seq(|ys|, i requires 0 <= i < |ys| => ys[i] - (MeanY(ys) + slope * (i as real - MeanX(|ys|))))
  }

  /** One minus the unexplained share. */
  function Share(left: real, yy: real): real requires yy != 0.0 { 1.0 - left / yy }

  /** The squared correlation. */
  function Ratio(xx: real, xy: real, yy: real): real requires xx > 0.0 && yy > 0.0 {
    PositiveProduct(xx, yy);
    xy * xy / (xx * yy)
  }

  predicate Bounded(xx: real, xy: real, yy: real) { xy * xy <= xx * yy }

  function RSquared(ys: seq<real>): real {
    if |ys| < 3 || Sxx(|ys|) == 0.0 || Syy(ys) == 0.0 then 0.0
    else
      var res := Residuals(ys, Sxy(ys) / Sxx(|ys|));
      Max(0.0, Share(Dot(res, res), Syy(ys)))
  }

  lemma {:induction false} SxxPositive(n: nat)
    requires n >= 2
    ensures Sxx(n) > 0.0
  {
    DotSquarePositive(CentredX(n), 0);
  }

  function LeftOver(xx: real, xy: real, yy: real): real requires xx != 0.0 { yy - xy * xy / xx }

  /** The residual sum of squares is exactly syy - sxy^2 / sxx. */
  lemma {:induction false} ResidualSum(ys: seq<real>)
    requires |ys| >= 3
    ensures Sxx(|ys|) > 0.0
    ensures var res := Residuals(ys, Sxy(ys) / Sxx(|ys|));
            Dot(res, res) == LeftOver(Sxx(|ys|), Sxy(ys), Syy(ys))
  {
    SxxPositive(|ys|);
    hide Dot, Combine, CentredX, CentredY, Residuals, MeanX, MeanY, Times, Quad;
    var x, y := CentredX(|ys|), CentredY(ys);
    CentredLengths(ys);
    ResidualsCombine(ys, Sxy(ys) / Sxx(|ys|));
    DotSymmetric(x, y);
    NegDiv(Sxy(ys), Sxx(|ys|));
    Projection(y, x);
  }

  lemma {:induction false} CentredLengths(ys: seq<real>)
    requires ys != []
    ensures |CentredX(|ys|)| == |CentredY(ys)| == |ys|
  {
  }

  lemma {:induction false} ResidualsCombine(ys: seq<real>, slope: real)
    requires ys != []
    ensures Residuals(ys, slope) == Combine(CentredY(ys), -slope, CentredX(|ys|))
  {
    var x := CentredX(|ys|);
    forall i | 0 <= i < |ys| ensures Residuals(ys, slope)[i] == Combine(CentredY(ys), -slope, x)[i] {
      assert Times(-slope, x[i]) == -(slope * x[i]);
    }
  }

  lemma {:induction false} NegDiv(a: real, b: real)
    requires b != 0.0
    ensures -(a / b) == -a / b
  {
  }

  lemma {:induction false} SpreadBound(ys: seq<real>)
    requires |ys| >= 3
    ensures Sxx(|ys|) > 0.0 && Syy(ys) >= 0.0 && Bounded(Sxx(|ys|), Sxy(ys), Syy(ys))
  {
    SxxPositive(|ys|);
    hide Dot, CentredX, CentredY;
    CentredLengths(ys);
    DotSquareNonNegative(CentredY(ys));
    CauchySchwarz(CentredX(|ys|), CentredY(ys));
  }

  /** The closed form, its range, and that the clamp at zero never acts. */
  lemma {:induction false} RSquaredExact(ys: seq<real>)
    requires |ys| >= 3 && Syy(ys) != 0.0
    ensures Sxx(|ys|) > 0.0 && Syy(ys) > 0.0
    ensures RSquared(ys) == Ratio(Sxx(|ys|), Sxy(ys), Syy(ys))
    ensures var res := Residuals(ys, Sxy(ys) / Sxx(|ys|));
            RSquared(ys) == Share(Dot(res, res), Syy(ys))
    ensures 0.0 <= RSquared(ys) <= 1.0
  {
    SpreadBound(ys);
    ResidualSum(ys);
    hide Residuals, Dot, Sxx, Sxy, Syy, Share, Ratio, Bounded, LeftOver;
    var res := Residuals(ys, Sxy(ys) / Sxx(|ys|));
    Explained(Sxx(|ys|), Sxy(ys), Syy(ys), Dot(res, res));
  }

  lemma {:induction false} Explained(xx: real, xy: real, yy: real, left: real)
    requires xx > 0.0 && yy > 0.0 && left == LeftOver(xx, xy, yy) && Bounded(xx, xy, yy)
    ensures Share(left, yy) == Ratio(xx, xy, yy)
    ensures 0.0 <= Ratio(xx, xy, yy) <= 1.0
  {
    PositiveProduct(xx, yy);
    Fraction(xy * xy, xx * yy);
    RatioLeft(xx, xy * xy, yy, Ratio(xx, xy, yy));
    Quotient(yy, 1.0 - Ratio(xx, xy, yy), left);
  }

  lemma {:induction false} RatioLeft(xx: real, s: real, yy: real, q: real)
    requires xx > 0.0 && yy > 0.0 && xx * yy > 0.0 && q == s / (xx * yy)
    ensures yy - s / xx == yy * (1.0 - q)
  {
    assert q * (xx * yy) == s;
    assert q * yy * xx == s;
    Quotient(xx, q * yy, s);
  }

  lemma {:induction false} Fraction(s: real, r: real)
    requires r > 0.0 && 0.0 <= s <= r
    ensures 0.0 <= s / r <= 1.0
  {
  }

  // --- shifting and scaling the series ---

  /** k * y + c, element by element. */
  function Affine(ys: seq<real>, k: real, c: real): seq<real> {
    seq(|ys|, i requires 0 <= i < |ys| => Times(k, ys[i]) + c)
  }

  lemma {:induction false} AffineSum(ys: seq<real>, k: real, c: real)
    ensures Sum(Affine(ys, k, c)) == k * Sum(ys) + |ys| as real * c
  {
    if ys != [] {
      var n := |ys| - 1;
      AffineSum(ys[..n], k, c);
      forall i | 0 <= i < n ensures Affine(ys, k, c)[..n][i] == Affine(ys[..n], k, c)[i] {
        assert ys[..n][i] == ys[i];
      }
      assert Affine(ys, k, c)[..n] == Affine(ys[..n], k, c);
      hide Affine;
      SumStep(Sum(ys[..n]), ys[n], k, n as real, c, Sum(ys));
    }
  }

  lemma {:induction false} SumStep(total: real, y: real, k: real, n: real, c: real, total': real)
    requires total' == total + y
    ensures k * total + n * c + (Times(k, y) + c) == k * total' + (n + 1.0) * c
  {
  }

  lemma {:induction false} AffineCentred(ys: seq<real>, k: real, c: real)
    requires ys != []
    ensures MeanY(Affine(ys, k, c)) == k * MeanY(ys) + c
    ensures CentredY(Affine(ys, k, c)) == Scale(CentredY(ys), k)
  {
    hide Affine, Scale, CentredY, MeanY;
    AffineMeans(ys, k, c);
    forall i | 0 <= i < |ys|
      ensures |CentredY(Affine(ys, k, c))| == |Scale(CentredY(ys), k)| == |ys|
      ensures CentredY(Affine(ys, k, c))[i] == Scale(CentredY(ys), k)[i]
    {
      AffineElement(ys, k, c, i);
    }
    AffineElement(ys, k, c, 0);
  }

  lemma {:induction false} AffineMeans(ys: seq<real>, k: real, c: real)
    requires ys != []
    ensures Affine(ys, k, c) != [] && MeanY(Affine(ys, k, c)) == k * MeanY(ys) + c
  {
    hide Sum, Times;
    AffineSum(ys, k, c);
    AffineMean(|ys| as real, k, c, Sum(ys), MeanY(ys), Sum(Affine(ys, k, c)), MeanY(Affine(ys, k, c)));
  }

  lemma {:induction false} AffineElement(ys: seq<real>, k: real, c: real, i: nat)
    requires i < |ys| && Affine(ys, k, c) != [] && MeanY(Affine(ys, k, c)) == k * MeanY(ys) + c
    ensures |CentredY(Affine(ys, k, c))| == |Scale(CentredY(ys), k)| == |ys|
    ensures CentredY(Affine(ys, k, c))[i] == Scale(CentredY(ys), k)[i]
  {
    hide MeanY, Times;
    Stretch(k, ys[i], MeanY(ys), c, MeanY(Affine(ys, k, c)));
  }

  lemma {:induction false} AffineMean(n: real, k: real, c: real, total: real, mean: real, total': real, mean': real)
    requires n > 0.0 && mean == total / n && total' == k * total + n * c && mean' == total' / n
    ensures mean' == k * mean + c
  {
    assert total == mean * n;
    assert total' == n * (k * mean + c);
    Quotient(n, k * mean + c, total');
  }

  lemma {:induction false} Stretch(k: real, y: real, mean: real, c: real, mean': real)
    requires mean' == k * mean + c
    ensures Times(k, y) + c - mean' == Times(k, y - mean)
  {
  }

  function Stretched(k: real, bb: real): real { k * k * bb }

  function Scale(a: seq<real>, k: real): seq<real> {
    seq(|a|, i requires 0 <= i < |a| => Times(k, a[i]))
  }

  lemma {:induction false} DotScale(a: seq<real>, k: real, b: seq<real>)
    requires |a| == |b|
    ensures Dot(a, Scale(b, k)) == Times(k, Dot(a, b))
    ensures Dot(Scale(b, k), Scale(b, k)) == Stretched(k, Dot(b, b))
  {
    if a != [] {
      var n := |a| - 1;
      DotScale(a[..n], k, b[..n]);
      forall i | 0 <= i < n ensures Scale(b, k)[..n][i] == Scale(b[..n], k)[i] {
        assert b[..n][i] == b[i];
      }
      assert Scale(b, k)[..n] == Scale(b[..n], k);
      assert Scale(b, k)[n] == Times(k, b[n]);
      hide Scale, Times, Stretched;
      ScaleStep(Dot(a[..n], b[..n]), Dot(b[..n], b[..n]), k, a[n], b[n], Dot(a, b), Dot(b, b));
    }
  }

  lemma {:induction false} ScaleStep(ab: real, bb: real, k: real, x: real, y: real, ab': real, bb': real)
    requires ab' == ab + Times(x, y) && bb' == bb + Times(y, y)
    ensures Times(k, ab) + Times(x, Times(k, y)) == Times(k, ab')
    ensures Stretched(k, bb) + Times(Times(k, y), Times(k, y)) == Stretched(k, bb')
  {
  }

  /** R-squared does not see the unit or the origin of the price. */
  lemma {:induction false} RSquaredInvariant(ys: seq<real>, k: real, c: real)
    requires k != 0.0
    ensures RSquared(Affine(ys, k, c)) == RSquared(ys)
  {
    if |ys| >= 3 {
      AffineCentred(ys, k, c);
      SxxPositive(|ys|);
      ScaledFit(ys, Affine(ys, k, c), k);
    }
  }

  lemma {:induction false} ScaledFit(ys: seq<real>, zs: seq<real>, k: real)
    requires k != 0.0 && |zs| == |ys| >= 3
    requires CentredY(zs) == Scale(CentredY(ys), k)
    ensures RSquared(zs) == RSquared(ys)
    ensures Sxy(zs) == Times(k, Sxy(ys)) && Syy(zs) == Stretched(k, Syy(ys))
  {
    hide Dot, CentredX, CentredY, Scale, Times, Stretched, Residuals;
    CentredLengths(ys);
    DotScale(CentredX(|ys|), k, CentredY(ys));
    SxxPositive(|ys|);
    NonZeroProduct(k, Syy(ys));
    if Syy(ys) != 0.0 {
      RSquaredExact(ys);
      RSquaredExact(zs);
      SameRatio(k, Sxx(|ys|), Sxy(ys), Syy(ys), Sxy(zs), Syy(zs));
    }
  }

  lemma {:induction false} NonZeroProduct(k: real, y: real)
    requires k != 0.0
    ensures Stretched(k, y) == 0.0 <==> y == 0.0
  {
    SquareSign(k);
    if y > 0.0 { PositiveProduct(k * k, y); }
    if y < 0.0 { PositiveProduct(k * k, -y); }
  }

  lemma {:induction false} SameRatio(k: real, xx: real, xy: real, yy: real, xz: real, zz: real)
    requires k != 0.0 && xx > 0.0 && yy > 0.0 && zz > 0.0
    requires xz == Times(k, xy) && zz == Stretched(k, yy)
    ensures Ratio(xx, xz, zz) == Ratio(xx, xy, yy)
  {
    var r := Ratio(xx, xy, yy);
    PositiveProduct(xx, yy);
    PositiveProduct(xx, zz);
    assert xy * xy == r * (xx * yy);
    assert xz * xz == k * k * (xy * xy);
    assert xz * xz == (xx * zz) * r;
    Quotient(xx * zz, r, xz * xz);
  }

  // --- when the fit is perfect ---

  predicate OnLine(ys: seq<real>, base: real, slope: real) {
    forall i :: 0 <= i < |ys| ==> ys[i] == base + Times(slope, i as real)
  }

  /** R-squared is 1 exactly for a series that is not constant and lies on a line. */
  lemma {:induction false} PerfectFit(ys: seq<real>)
    requires |ys| >= 3
    ensures RSquared(ys) == 1.0 <==>
            Syy(ys) != 0.0 && exists base: real, slope: real :: OnLine(ys, base, slope)
  {
    if RSquared(ys) == 1.0 {
      PerfectIsLine(ys);
    }
    if Syy(ys) != 0.0 && exists base: real, slope: real :: OnLine(ys, base, slope) {
      var base, slope :| OnLine(ys, base, slope);
      LineIsPerfect(ys, base, slope);
    }
  }

  lemma {:induction false} PerfectIsLine(ys: seq<real>)
    requires |ys| >= 3 && RSquared(ys) == 1.0
    ensures Syy(ys) != 0.0
    ensures OnLine(ys, MeanY(ys) - Sxy(ys) / Sxx(|ys|) * MeanX(|ys|), Sxy(ys) / Sxx(|ys|))
  {
    RSquaredExact(ys);
    var slope := Sxy(ys) / Sxx(|ys|);
    var res := Residuals(ys, slope);
    ZeroQuotient(Dot(res, res), Syy(ys));
    hide Dot;
    DotSquareZero(res);
    forall i | 0 <= i < |ys|
      ensures ys[i] == MeanY(ys) - slope * MeanX(|ys|) + Times(slope, i as real)
    {
      assert res[i] == 0.0;
      Intercept(slope, i as real, MeanX(|ys|));
    }
  }

  lemma {:induction false} ZeroQuotient(x: real, y: real)
    requires y != 0.0 && x / y == 0.0
    ensures x == 0.0
  {
    assert x / y * y == x;
  }

  lemma {:induction false} Intercept(slope: real, i: real, mean: real)
    ensures slope * (i - mean) == Times(slope, i) - slope * mean
  {
  }

  lemma {:induction false} LineIsPerfect(ys: seq<real>, base: real, slope: real)
    requires |ys| >= 3 && Syy(ys) != 0.0 && OnLine(ys, base, slope)
    ensures RSquared(ys) == 1.0
  {
    var xs := seq(|ys|, i => i as real);
    IndexMean(|ys|);
    assert ys == Affine(xs, slope, base);
    AffineCentred(xs, slope, base);
    assert CentredY(xs) == CentredX(|ys|);
    hide Dot, CentredX, CentredY, Scale, Times, Stretched, Residuals, Affine, Ratio, Share;
    DotScale(CentredX(|ys|), slope, CentredX(|ys|));
    RSquaredExact(ys);
    PerfectRatio(Sxx(|ys|), slope, Sxy(ys), Syy(ys));
  }

  lemma {:induction false} IndexMean(n: nat)
    ensures Sum(seq(n, i => i as real)) == n as real * (n as real - 1.0) / 2.0
    ensures n > 0 ==> MeanY(seq(n, i => i as real)) == MeanX(n)
  {
    if n > 0 {
      IndexMean(n - 1);
      var xs := seq(n, i => i as real);
      assert xs[..n - 1] == seq(n - 1, i => i as real);
      Quotient(n as real, MeanX(n), Sum(xs));
    }
  }

  lemma {:induction false} PerfectRatio(xx: real, k: real, xy: real, yy: real)
    requires xx > 0.0 && yy > 0.0 && xy == Times(k, xx) && yy == Stretched(k, xx)
    ensures Ratio(xx, xy, yy) == 1.0
  {
    PositiveProduct(xx, yy);
    assert xy * xy == (xx * yy) * 1.0;
    Quotient(xx * yy, 1.0, xy * xy);
  }
}
