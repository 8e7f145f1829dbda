/** Sums of products over sequences of reals, and the Cauchy-Schwarz inequality. */
module Vectors {

  function Sum(a: seq<real>): real {
    if a == [] then 0.0 else Sum(a[..|a| - 1]) + a[|a| - 1]
  }

  function Times(x: real, y: real): real { x * y }

  function Dot(a: seq<real>, b: seq<real>): real
    requires |a| == |b|
  {
    if a == [] then 0.0 else Dot(a[..|a| - 1], b[..|a| - 1]) + Times(a[|a| - 1], b[|a| - 1])
  }

  /** a + k * b, element by element. */
  function Combine(a: seq<real>, k: real, b: seq<real>): seq<real>
    requires |a| == |b|
  {
    seq(|a|, i requires 0 <= i < |a| => a[i] + Times(k, b[i]))
  }

  lemma {:induction false} DotSymmetric(a: seq<real>, b: seq<real>)
    requires |a| == |b|
    ensures Dot(a, b) == Dot(b, a)
  {
    if a != [] { DotSymmetric(a[..|a| - 1], b[..|a| - 1]); }
  }

  lemma {:induction false} CombinePrefix(a: seq<real>, k: real, b: seq<real>)
    requires |a| == |b| > 0
    ensures |Combine(a, k, b)| == |a|
    ensures Combine(a, k, b)[..|a| - 1] == Combine(a[..|a| - 1], k, b[..|a| - 1])
    ensures Combine(a, k, b)[|a| - 1] == a[|a| - 1] + Times(k, b[|a| - 1])
  {
    var n := |a| - 1;
    forall i | 0 <= i < n
      ensures Combine(a, k, b)[..n][i] == Combine(a[..n], k, b[..n])[i]
    {
      assert a[..n][i] == a[i] && b[..n][i] == b[i];
    }
  }

  lemma {:induction false} DotSquareNonNegative(a: seq<real>)
    ensures Dot(a, a) >= 0.0
  {
    if a != [] {
      DotSquareNonNegative(a[..|a| - 1]);
      SquareSign(a[|a| - 1]);
    }
  }

  lemma {:induction false} DotSquarePositive(a: seq<real>, i: nat)
    requires i < |a| && a[i] != 0.0
    ensures Dot(a, a) > 0.0
  {
    hide Times;
    var n := |a| - 1;
    SquareSign(a[n]);
    if i == n { DotSquareNonNegative(a[..n]); } else { DotSquarePositive(a[..n], i); }
  }

  lemma {:induction false} DotSquareZero(a: seq<real>)
    requires Dot(a, a) == 0.0
    ensures forall i :: 0 <= i < |a| ==> a[i] == 0.0
  {
    forall i | 0 <= i < |a| ensures a[i] == 0.0 {
      if a[i] != 0.0 { DotSquarePositive(a, i); }
    }
  }

  lemma {:induction false} TimesSign(x: real, y: real)
    ensures x > 0.0 && y > 0.0 ==> Times(x, y) > 0.0
    ensures x < 0.0 && y < 0.0 ==> Times(x, y) > 0.0
    ensures x == 0.0 ==> Times(x, y) == 0.0
  {
  }

  lemma {:induction false} SquareSign(x: real)
    ensures Times(x, x) >= 0.0
    ensures x == 0.0 ==> Times(x, x) == 0.0
    ensures x != 0.0 ==> Times(x, x) > 0.0
  {
    hide Times;
    TimesSign(x, x);
  }

  lemma {:induction false} PositiveProduct(x: real, y: real)
    requires x > 0.0 && y > 0.0
    ensures x * y > 0.0
  {
  }

  lemma {:induction false} DotLast(a: seq<real>, b: seq<real>)
    requires |a| == |b| > 0
    ensures Dot(a, b) == Dot(a[..|a| - 1], b[..|a| - 1]) + Times(a[|a| - 1], b[|a| - 1])
  {
  }

  function Quad(aa: real, k: real, ab: real, bb: real): real { aa + 2.0 * k * ab + k * k * bb }

  /** |a + k b|^2 expanded. */
  lemma {:induction false} SquareOfCombine(a: seq<real>, k: real, b: seq<real>)
    requires |a| == |b|
    ensures Dot(Combine(a, k, b), Combine(a, k, b)) == Quad(Dot(a, a), k, Dot(a, b), Dot(b, b))
  {
    if a == [] {
      assert Combine(a, k, b) == [];
      hide Combine, Quad;
      ExpandZero(k, Dot(a, a), Dot(a, b), Dot(b, b));
    } else {
      var n := |a| - 1;
      SquareOfCombine(a[..n], k, b[..n]);
      CombinePrefix(a, k, b);
      hide Combine, Times, Dot, Quad;
      var c := Combine(a, k, b);
      DotLast(c, c);
      DotLast(a, a);
      DotLast(a, b);
      DotLast(b, b);
      ExpandStep(Dot(c[..n], c[..n]), Dot(c, c), Dot(a[..n], a[..n]), Dot(a[..n], b[..n]), Dot(b[..n], b[..n]), k,
        a[n], b[n],
                 Dot(a, a), Dot(a, b), Dot(b, b));
    }
  }

  lemma {:induction false} ExpandZero(k: real, aa: real, ab: real, bb: real)
    requires aa == ab == bb == 0.0
    ensures Quad(aa, k, ab, bb) == 0.0
  {
  }

  lemma {:induction false} ExpandStep(
    cc: real, cc': real, aa: real, ab: real, bb: real, k: real, x: real, y: real,
    aa': real, ab': real, bb': real)
    requires cc == Quad(aa, k, ab, bb)
    requires cc' == cc + Times(x + Times(k, y), x + Times(k, y))
    requires aa' == aa + Times(x, x) && ab' == ab + Times(x, y) && bb' == bb + Times(y, y)
    ensures cc' == Quad(aa', k, ab', bb')
  {
  }

  lemma {:induction false} CauchySchwarz(a: seq<real>, b: seq<real>)
    requires |a| == |b|
    ensures Dot(a, b) * Dot(a, b) <= Dot(a, a) * Dot(b, b)
  {
    DotSquareNonNegative(b);
    if Dot(b, b) == 0.0 {
      DotSquareZero(b);
      DotWithZero(a, b);
    } else {
      Projection(a, b);
    }
  }

  /** Subtracting from `a` its projection on `b` leaves |a|^2 - (a.b)^2 / |b|^2. */
  lemma {:induction false} Projection(a: seq<real>, b: seq<real>)
    requires |a| == |b| && Dot(b, b) > 0.0
    ensures var k := -Dot(a, b) / Dot(b, b);
            Dot(Combine(a, k, b), Combine(a, k, b)) == Dot(a, a) - Dot(a, b) * Dot(a, b) / Dot(b, b)
    ensures Dot(a, b) * Dot(a, b) <= Dot(a, a) * Dot(b, b)
  {
    hide Dot, Combine, Quad;
    var k := -Dot(a, b) / Dot(b, b);
    SquareOfCombine(a, k, b);
    DotSquareNonNegative(Combine(a, k, b));
    Discriminant(Dot(a, a), Dot(a, b), Dot(b, b), k, Dot(Combine(a, k, b), Combine(a, k, b)));
  }

  lemma {:induction false} Discriminant(aa: real, ab: real, bb: real, k: real, left: real)
    requires bb > 0.0 && k == -ab / bb && left == Quad(aa, k, ab, bb) && left >= 0.0
    ensures ab * ab <= aa * bb
    ensures left == aa - ab * ab / bb
  {
    assert k * bb == -ab;
    assert k * k * bb == -(k * ab);
    assert k * ab * bb == -(ab * ab);
    var rest := aa + k * ab;
    assert rest * bb == aa * bb - ab * ab;
    assert rest * bb >= 0.0;
    assert ab * ab / bb * bb == ab * ab;
    assert (-(k * ab)) * bb == ab * ab;
  }

  lemma {:induction false} DotWithZero(a: seq<real>, b: seq<real>)
    requires |a| == |b| && forall i :: 0 <= i < |b| ==> b[i] == 0.0
    ensures Dot(a, b) == 0.0
  {
    if a != [] { DotWithZero(a[..|a| - 1], b[..|a| - 1]); }
  }

  lemma {:induction false} Quotient(y: real, x: real, left: real)
    requires y != 0.0 && left == y * x
    ensures left / y == x
  {
  }
}
