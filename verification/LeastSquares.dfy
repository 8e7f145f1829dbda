/** What R-squared means: one minus the least squared error of any line over that of any constant. */
module LeastSquares {
  import opened Numbers
  import opened Vectors
  import opened RSquared

  function Square(x: real): real { x * x }

  /** The squared error of the line `base + slope * i` at the elements of a series. */
  function LineError(ys: seq<real>, base: real, slope: real): real {
    if ys == [] then 0.0
    else
      var n := |ys| - 1;
      LineError(ys[..n], base, slope) + Square(ys[n] - (base + slope * n as real))
  }

  ghost predicate BestLine(ys: seq<real>, base: real, slope: real) {
    forall b: real, s: real :: LineError(ys, base, slope) <= LineError(ys, b, s)
  }

  ghost predicate BestConstant(ys: seq<real>, c: real) {
    forall d: real :: LineError(ys, c, 0.0) <= LineError(ys, d, 0.0)
  }

  // --- errors around the means ---

  function Ones(n: nat): seq<real> { seq(n, i => 1.0) }

  lemma {:induction false} DotOnes(a: seq<real>)
    ensures |Ones(|a|)| == |a| && Dot(a, Ones(|a|)) == Sum(a)
  {
    if a != [] {
      var n := |a| - 1;
      DotOnes(a[..n]);
      assert Ones(|a|)[..n] == Ones(n);
    }
  }

  lemma {:induction false} SumOnes(n: nat)
    ensures Sum(Ones(n)) == n as real
  {
    if n > 0 {
      SumOnes(n - 1);
      assert Ones(n)[..n - 1] == Ones(n - 1);
    }
  }

  lemma {:induction false} CombineSum(a: seq<real>, k: real, b: seq<real>)
    requires |a| == |b|
    ensures Sum(Combine(a, k, b)) == Sum(a) + Times(k, Sum(b))
  {
    if a == [] {
      assert Combine(a, k, b) == [];
    } else {
      var n := |a| - 1;
      CombineSum(a[..n], k, b[..n]);
      CombinePrefix(a, k, b);
      hide Combine;
      assert Times(k, Sum(b[..n]) + b[n]) == Times(k, Sum(b[..n])) + Times(k, b[n]);
    }
  }

  lemma {:induction false} CentredSums(ys: seq<real>)
    requires ys != []
    ensures Sum(CentredY(ys)) == 0.0 && Sum(CentredX(|ys|)) == 0.0
  {
    SumShifted(ys, MeanY(ys), CentredY(ys));
    MeanTimes(Sum(ys), |ys| as real, MeanY(ys));
    IndexSum(|ys|);
    hide *;
  }

  lemma {:induction false} IndexSum(n: nat)
    requires n > 0
    ensures Sum(CentredX(n)) == 0.0
  {
    var xs := seq(n, i => i as real);
    IndexMean(n);
    SumShifted(xs, MeanX(n), CentredX(n));
    MeanTimes(Sum(xs), n as real, MeanY(xs));
    hide Sum;
  }

  lemma {:induction false} MeanTimes(total: real, n: real, mean: real)
    requires n > 0.0 && mean == total / n
    ensures total - n * mean == 0.0
  {
  }

  lemma {:induction false} SumShifted(ys: seq<real>, c: real, zs: seq<real>)
    requires |zs| == |ys| && forall i :: 0 <= i < |ys| ==> zs[i] == ys[i] - c
    ensures Sum(zs) == Sum(ys) - |ys| as real * c
  {
    if ys != [] {
      SumShifted(ys[..|ys| - 1], c, zs[..|ys| - 1]);
      assert |ys| as real * c == (|ys| - 1) as real * c + c;
    }
  }

  /** The errors of a line, element by element, around the means. */
  function Errors(ys: seq<real>, slope: real, shift: real): seq<real> requires ys != [] {
    CentredLengths(ys);
    Combine(Combine(CentredY(ys), -slope, CentredX(|ys|)), shift, Ones(|ys|))
  }

  /** How far the line passes below the point of the means. */
  function Shift(ys: seq<real>, base: real, slope: real): real requires ys != [] {
    MeanY(ys) - base - slope * MeanX(|ys|)
  }

  lemma {:induction false} ErrorAt(ys: seq<real>, base: real, slope: real, i: nat)
    requires i < |ys|
    ensures |Errors(ys, slope, Shift(ys, base, slope))| == |ys|
    ensures Errors(ys, slope, Shift(ys, base, slope))[i] == ys[i] - (base + slope * i as real)
  {
    hide MeanX, MeanY;
    Recentre(ys[i], MeanY(ys), base, slope, i as real, MeanX(|ys|));
  }

  lemma {:induction false} Recentre(y: real, mean: real, base: real, slope: real, i: real, mid: real)
    ensures y - mean + Times(-slope, i - mid) + Times(mean - base - slope * mid, 1.0) == y - (base + slope * i)
  {
  }

  lemma {:induction false} ErrorOfVector(ys: seq<real>, base: real, slope: real, es: seq<real>)
    requires |es| == |ys| && forall i :: 0 <= i < |ys| ==> es[i] == ys[i] - (base + slope * i as real)
    ensures LineError(ys, base, slope) == Dot(es, es)
  {
    if ys != [] { ErrorOfVector(ys[..|ys| - 1], base, slope, es[..|ys| - 1]); }
  }

  function Repeated(n: real, x: real): real { n * x }

  /** What a line's error is made of: the spread of the series, the slope's share in it, and how far
      the line passes from the point of the means. */
  function ErrorParts(yy: real, xy: real, xx: real, slope: real, n: real, shift: real): real {
    Quad(yy, -slope, xy, xx) + Repeated(n, Square(shift))
  }

  lemma {:induction false} ErrorSplit(ys: seq<real>, base: real, slope: real)
    requires ys != []
    ensures LineError(ys, base, slope) ==
            ErrorParts(Syy(ys), Sxy(ys), Sxx(|ys|), slope, |ys| as real, Shift(ys, base, slope))
  {
    hide Dot, Errors, Shift, Sxx, Sxy, Syy, ErrorParts, LineError;
    var shift := Shift(ys, base, slope);
    forall i | 0 <= i < |ys|
      ensures |Errors(ys, slope, shift)| == |ys|
      ensures Errors(ys, slope, shift)[i] == ys[i] - (base + slope * i as real)
    {
      ErrorAt(ys, base, slope, i);
    }
    ErrorAt(ys, base, slope, 0);
    ErrorOfVector(ys, base, slope, Errors(ys, slope, shift));
    ErrorsSquared(ys, slope, shift);
  }

  lemma {:induction false} ErrorsSquared(ys: seq<real>, slope: real, shift: real)
    requires ys != []
    ensures var es := Errors(ys, slope, shift);
            Dot(es, es) == ErrorParts(Syy(ys), Sxy(ys), Sxx(|ys|), slope, |ys| as real, shift)
  {
    hide Dot, Sum, CentredX, CentredY, Ones, Combine, Quad, Square, Repeated;
    CentredLengths(ys);
    var x, y := CentredX(|ys|), CentredY(ys);
    var c := Combine(y, -slope, x);
    NoConstantPart(ys, slope);
    CombineLength(y, -slope, x);
    AddConstant(c, shift);
    SquareOfCombine(y, -slope, x);
    DotSymmetric(x, y);
  }

  lemma {:induction false} CombineLength(a: seq<real>, k: real, b: seq<real>)
    requires |a| == |b|
    ensures |Combine(a, k, b)| == |a|
  {
  }

  lemma {:induction false} NoConstantPart(ys: seq<real>, slope: real)
    requires ys != []
    ensures |CentredX(|ys|)| == |CentredY(ys)|
    ensures Sum(Combine(CentredY(ys), -slope, CentredX(|ys|))) == 0.0
  {
    hide Sum, CentredX, CentredY, Combine;
    CentredLengths(ys);
    CentredSums(ys);
    CombineSum(CentredY(ys), -slope, CentredX(|ys|));
  }

  /** Adding a constant to errors that sum to zero adds its square each time. */
  lemma {:induction false} AddConstant(c: seq<real>, shift: real)
    requires Sum(c) == 0.0
    ensures |Ones(|c|)| == |c|
    ensures var moved := Combine(c, shift, Ones(|c|));
            Dot(moved, moved) == Dot(c, c) + Repeated(|c| as real, Square(shift))
  {
    var ones := Ones(|c|);
    hide Dot, Sum, Ones, Combine, Quad, Square, Repeated;
    DotOnes(c);
    DotOnes(ones);
    SumOnes(|c|);
    SquareOfCombine(c, shift, ones);
    NoCross(Dot(c, c), shift, Dot(c, ones), |c| as real);
  }

  lemma {:induction false} NoCross(cc: real, shift: real, cross: real, n: real)
    requires cross == 0.0
    ensures Quad(cc, shift, cross, n) == cc + Repeated(n, Square(shift))
  {
  }

  // --- the best line and the best constant ---

  lemma {:induction false} LeastParts(yy: real, xy: real, xx: real, slope: real, n: real, shift: real)
    requires xx > 0.0 && n > 0.0
    ensures ErrorParts(yy, xy, xx, slope, n, shift) >= LeftOver(xx, xy, yy)
    ensures ErrorParts(yy, xy, xx, xy / xx, n, 0.0) == LeftOver(xx, xy, yy)
    ensures ErrorParts(yy, xy, xx, 0.0, n, shift) >= yy == ErrorParts(yy, xy, xx, 0.0, n, 0.0)
  {
    var q := xy / xx;
    assert q * xx == xy;
    CompleteSquare(yy, q, xx, slope);
    CompleteSquare(yy, q, xx, q);
    Quotient(xx, q * xy, xy * xy);
    SquareTimes(shift, n);
    SquareTimes(slope - q, xx);
    hide Quad;
    assert LeftOver(xx, xy, yy) == yy - q * xy;
  }

  lemma {:induction false} CompleteSquare(yy: real, q: real, xx: real, slope: real)
    ensures Quad(yy, -slope, q * xx, xx) == yy - q * (q * xx) + Square(slope - q) * xx
  {
  }

  lemma {:induction false} SquareTimes(x: real, n: real)
    requires n > 0.0
    ensures Repeated(n, Square(x)) >= 0.0 && Square(x) * n >= 0.0 && Repeated(n, Square(0.0)) == 0.0
  {
    assert x * x >= 0.0;
  }

  /** No line, and among the level ones no constant, does better than this. */
  lemma {:induction false} ErrorBound(ys: seq<real>, base: real, slope: real)
    requires |ys| >= 3
    ensures Sxx(|ys|) > 0.0 && LineError(ys, base, slope) >= LeftOver(Sxx(|ys|), Sxy(ys), Syy(ys))
    ensures slope == 0.0 ==> LineError(ys, base, slope) >= Syy(ys)
  {
    SxxPositive(|ys|);
    hide Sxx, Sxy, Syy, LineError, ErrorParts, LeftOver, Shift;
    ErrorSplit(ys, base, slope);
    LeastParts(Syy(ys), Sxy(ys), Sxx(|ys|), slope, |ys| as real, Shift(ys, base, slope));
  }

  function FitSlope(ys: seq<real>): real requires |ys| >= 3 { SxxPositive(|ys|); Sxy(ys) / Sxx(|ys|) }

  function FitBase(ys: seq<real>): real requires |ys| >= 3 { MeanY(ys) - FitSlope(ys) * MeanX(|ys|) }

  /** The regression line of the code reaches that bound, and so does the mean among constants. */
  lemma {:induction false} FitReaches(ys: seq<real>)
    requires |ys| >= 3
    ensures Sxx(|ys|) > 0.0
    ensures LineError(ys, FitBase(ys), FitSlope(ys)) == LeftOver(Sxx(|ys|), Sxy(ys), Syy(ys))
    ensures LineError(ys, MeanY(ys), 0.0) == Syy(ys)
  {
    SxxPositive(|ys|);
    assert Shift(ys, FitBase(ys), FitSlope(ys)) == 0.0;
    assert FitSlope(ys) == Sxy(ys) / Sxx(|ys|);
    LevelShift(ys);
    hide Sxx, Sxy, Syy, LineError, ErrorParts, LeftOver, Shift, FitSlope, FitBase, MeanY;
    ErrorSplit(ys, FitBase(ys), FitSlope(ys));
    ErrorSplit(ys, MeanY(ys), 0.0);
    LeastParts(Syy(ys), Sxy(ys), Sxx(|ys|), 0.0, |ys| as real, 0.0);
  }

  lemma {:induction false} LevelShift(ys: seq<real>)
    requires ys != []
    ensures Shift(ys, MeanY(ys), 0.0) == 0.0
  {
    hide MeanX, MeanY;
    assert 0.0 * MeanX(|ys|) == 0.0;
  }

  lemma {:induction false} BestFit(ys: seq<real>)
    requires |ys| >= 3
    ensures BestLine(ys, FitBase(ys), FitSlope(ys)) && BestConstant(ys, MeanY(ys))
  {
    hide Sxx, Sxy, Syy, LineError, LeftOver, FitSlope, FitBase, MeanY;
    FitReaches(ys);
    forall b: real, s: real
      ensures LineError(ys, b, s) >= LineError(ys, FitBase(ys), FitSlope(ys))
      ensures s == 0.0 ==> LineError(ys, b, s) >= LineError(ys, MeanY(ys), 0.0)
    {
      ErrorBound(ys, b, s);
    }
  }

  /** The value R-squared has, from any best line and any best constant. */
  ghost predicate Explains(r: real, ys: seq<real>, base: real, slope: real, c: real) {
    r == if LineError(ys, c, 0.0) == 0.0 then 0.0 else 1.0 - LineError(ys, base, slope) / LineError(ys, c, 0.0)
  }

  /** R-squared is one minus the least squared error of any line through the series over that of any
      constant, both of which exist; it is zero for a series that a constant already fits, and for
      fewer than three elements. */
  lemma {:induction false} RSquaredIsLeastSquares(ys: seq<real>)
    ensures |ys| < 3 ==> RSquared.RSquared(ys) == 0.0
    ensures |ys| >= 3 ==>
              && (exists b: real, s: real :: BestLine(ys, b, s)) && (exists c: real :: BestConstant(ys, c))
              && forall b: real, s: real, c: real ::
                   BestLine(ys, b, s) && BestConstant(ys, c) ==> Explains(RSquared.RSquared(ys), ys, b, s, c)
  {
    hide Sxx, Sxy, Syy, Dot, Residuals, Share, LineError, FitSlope, FitBase, MeanY, Explains, BestLine, BestConstant;
    if |ys| >= 3 {
      BestFit(ys);
      forall b: real, s: real, c: real | BestLine(ys, b, s) && BestConstant(ys, c)
        ensures Explains(RSquared.RSquared(ys), ys, b, s, c)
      {
        AnyBest(ys, b, s, c);
      }
    }
  }

  lemma {:induction false} AnyBest(ys: seq<real>, base: real, slope: real, c: real)
    requires |ys| >= 3 && BestLine(ys, base, slope) && BestConstant(ys, c)
    ensures Explains(RSquared.RSquared(ys), ys, base, slope, c)
  {
    if Syy(ys) != 0.0 { RSquaredExact(ys); }
    ResidualSum(ys);
    hide Sxx, Sxy, Syy, Dot, LineError, LeftOver, FitSlope, FitBase, MeanY, Residuals, Ratio, Share;
    BestFit(ys);
    FitReaches(ys);
    assert LineError(ys, base, slope) == LineError(ys, FitBase(ys), FitSlope(ys));
    assert LineError(ys, c, 0.0) == LineError(ys, MeanY(ys), 0.0);
    if Syy(ys) != 0.0 { ShareIs(LineError(ys, base, slope), Syy(ys)); }
  }

  lemma {:induction false} ShareIs(left: real, yy: real)
    requires yy != 0.0
    ensures Share(left, yy) == 1.0 - left / yy
  {
  }
}
