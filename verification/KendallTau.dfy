/** Kendall's tau-b as the calibration axis computes it: pair counts in a nested loop, and
    what the coefficient promises. The square root is kept symbolic: a coefficient is its
    numerator together with the square of its denominator. */
module KendallTau {
  import opened Wrappers
  import Sequences

  type Point = (int, int)

  /** tau = num / sqrt(den2). */
  datatype Tau = Tau(num: int, den2: int)

  datatype Tally = Tally(concordant: nat, discordant: nat, tieX: nat, tieY: nat)

  const NO_PAIRS := Tally(0, 0, 0, 0)

  function Plus(a: Tally, b: Tally): Tally {
    Tally(a.concordant + b.concordant, a.discordant + b.discordant, a.tieX + b.tieX, a.tieY + b.tieY)
  }

  /** How one pair of points counts. A pair tied in both coordinates counts in both. */
  function Pair(z: Point, w: Point): Tally {
    Tally(if Together(z, w) then 1 else 0, if Apart(z, w) then 1 else 0,
          if z.0 == w.0 then 1 else 0, if z.1 == w.1 then 1 else 0)
  }

  predicate Together(z: Point, w: Point) { (z.0 < w.0 && z.1 < w.1) || (z.0 > w.0 && z.1 > w.1) }

  predicate Apart(z: Point, w: Point) { (z.0 < w.0 && z.1 > w.1) || (z.0 > w.0 && z.1 < w.1) }

  /** All pairs of `z` with the points of `rest`. */
  function Row(z: Point, rest: seq<Point>): Tally {
    if rest == [] then NO_PAIRS else Plus(Pair(z, rest[0]), Row(z, rest[1..]))
  }

  /** All unordered pairs of distinct positions. */
  function Pairs(zs: seq<Point>): Tally {
    if zs == [] then NO_PAIRS else Plus(Row(zs[0], zs[1..]), Pairs(zs[1..]))
  }

  function PairCount(n: nat): nat { n * (n - 1) / 2 }

  function Coefficient(zs: seq<Point>): Option<Tau> {
    if |zs| < 2 then None
    else
      var t, n0 := Pairs(zs), PairCount(|zs|);
      var den2 := (n0 - t.tieX) * (n0 - t.tieY);
      if den2 == 0 then None else Some(Tau(t.concordant - t.discordant, den2))
  }

  function Zip(xs: seq<int>, ys: seq<int>): seq<Point>
    requires |xs| <= |ys|
  {
    seq(|xs|, i requires 0 <= i < |xs| => (xs[i], ys[i]))
  }

  /** The nested loop over index pairs. */
  method KendallTauB(xs: seq<int>, ys: seq<int>) returns (tau: Option<Tau>)
    requires |xs| >= 2 ==> |xs| <= |ys|
    ensures |xs| < 2 ==> tau == None
    ensures |xs| >= 2 ==> tau == Coefficient(Zip(xs, ys))
  {
    hide Pairs, Row, Pair;
    var n := |xs|;
    if n < 2 { return None; }
    ghost var zs := Zip(xs, ys);
    var concordant: nat, discordant: nat, tieX: nat, tieY: nat := 0, 0, 0, 0;
    assert zs[0..] == zs;
    for i := 0 to n
      invariant Plus(Tally(concordant, discordant, tieX, tieY), Pairs(zs[i..])) == Pairs(zs)
    {
      PairsStep(zs, i);
      for j := i + 1 to n
        invariant Plus(Tally(concordant, discordant, tieX, tieY), Plus(Row(zs[i], zs[j..]), Pairs(zs[i + 1..]))) ==
                  Pairs(zs)
      {
        RowStep(zs, i, j);
        var dx, dy := xs[i] - xs[j], ys[i] - ys[j];
        var product := dx * dy;
        PairByProduct(zs[i], zs[j], dx, dy);
        if product > 0 {
          concordant := concordant + 1;
        } else if product < 0 {
          discordant := discordant + 1;
        } else {
          if dx == 0 { tieX := tieX + 1; }
          if dy == 0 { tieY := tieY + 1; }
        }
      }
      assert zs[n..] == [];
      EmptyTallies(zs[i]);
    }
    assert zs[n..] == [];
    EmptyTallies((0, 0));
    var n0 := n * (n - 1) / 2;
    var den2 := (n0 - tieX) * (n0 - tieY);
    if den2 == 0 { return None; }
    return Some(Tau(concordant - discordant, den2));
  }

  lemma {:induction false} EmptyTallies(z: Point)
    ensures Row(z, []) == NO_PAIRS && Pairs([]) == NO_PAIRS
  {
  }

  lemma {:induction false} PairsStep(zs: seq<Point>, i: nat)
    requires i < |zs|
    ensures Pairs(zs[i..]) == Plus(Row(zs[i], zs[i + 1..]), Pairs(zs[i + 1..]))
  {
    hide Row, Plus;
    assert zs[i..][1..] == zs[i + 1..];
  }

  lemma {:induction false} RowStep(zs: seq<Point>, i: nat, j: nat)
    requires i < |zs| && j < |zs|
    ensures Row(zs[i], zs[j..]) == Plus(Pair(zs[i], zs[j]), Row(zs[i], zs[j + 1..]))
  {
    hide Pair, Plus;
    assert zs[j..][1..] == zs[j + 1..];
  }

  /** The sign of the product of the differences, and ties only when it is zero. */
  lemma {:induction false} PairByProduct(z: Point, w: Point, dx: int, dy: int)
    requires dx == z.0 - w.0 && dy == z.1 - w.1
    ensures Pair(z, w) ==
            if dx * dy > 0 then Tally(1, 0, 0, 0) else if dx * dy < 0 then Tally(0, 1, 0, 0)
            else Tally(0, 0, if dx == 0 then 1 else 0, if dy == 0 then 1 else 0)
  {
    ProductSign(dx, dy);
  }

  lemma {:induction false} ProductSign(x: int, y: int)
    ensures x * y > 0 <==> (x > 0 && y > 0) || (x < 0 && y < 0)
    ensures x * y < 0 <==> (x > 0 && y < 0) || (x < 0 && y > 0)
  {
    if x == 0 || y == 0 {
    } else if x > 0 {
      if y > 0 { assert x * y > 0; } else { assert x * (-y) > 0; }
    } else {
      if y > 0 { assert (-x) * y > 0; } else { assert (-x) * (-y) > 0; }
    }
  }

  // --- the coefficient lies in [-1, 1] ---

  lemma {:induction false} RowBound(z: Point, rest: seq<Point>)
    ensures var t := Row(z, rest);
            && t.concordant + t.discordant + t.tieX <= |rest|
            && t.concordant + t.discordant + t.tieY <= |rest|
  {
    if rest != [] { RowBound(z, rest[1..]); }
  }

  lemma {:induction false} CountStep(n: nat)
    ensures PairCount(n + 1) == PairCount(n) + n
  {
    assert (n + 1) * n == n * (n - 1) + 2 * n;
  }

  /** Concordant, discordant and tied pairs fit into the number of pairs, for each list. */
  lemma {:induction false} PairsBound(zs: seq<Point>)
    ensures var t := Pairs(zs);
            && t.concordant + t.discordant + t.tieX <= PairCount(|zs|)
            && t.concordant + t.discordant + t.tieY <= PairCount(|zs|)
  {
    if zs != [] {
      PairsBound(zs[1..]);
      RowBound(zs[0], zs[1..]);
      CountStep(|zs| - 1);
      hide PairCount;
    }
  }

  /** |tau| <= 1, in squared form. */
  lemma {:induction false} TauInRange(zs: seq<Point>)
    requires |zs| >= 2 && !ConstantX(zs) && !ConstantY(zs)
    ensures Coefficient(zs).Some?
    ensures var tau := Coefficient(zs).value; tau.den2 > 0 && tau.num * tau.num <= tau.den2
  {
    hide Pairs, PairCount, ConstantX, ConstantY;
    UndefinedExactly(zs);
    PairsBound(zs);
    var t, n0 := Pairs(zs), PairCount(|zs|);
    Squeeze(t.concordant, t.discordant, n0 - t.tieX, n0 - t.tieY);
  }

  lemma {:induction false} Squeeze(c: nat, d: nat, x: int, y: int)
    requires c + d <= x && c + d <= y
    ensures x * y >= 0 && (c - d) * (c - d) <= x * y
    ensures x * y > 0 ==>
              ((c - d) * (c - d) == x * y <==> (c == 0 || d == 0) && c + d == x && c + d == y)
  {
    var s := c + d;
    SquareOfDifference(c, d);
    Rectangle(s, x, y);
  }

  lemma {:induction false} SquareOfDifference(c: nat, d: nat)
    ensures (c - d) * (c - d) <= (c + d) * (c + d)
    ensures (c - d) * (c - d) == (c + d) * (c + d) <==> c == 0 || d == 0
  {
    assert (c - d) * (c - d) == (c + d) * (c + d) - 4 * (c * d);
    if c > 0 && d > 0 { assert c * d > 0; } else { assert c * d == 0; }
  }

  lemma {:induction false} Rectangle(s: nat, x: int, y: int)
    requires s <= x && s <= y
    ensures x * y >= s * s >= 0
    ensures x * y > 0 ==> (x * y == s * s <==> x == s && y == s)
  {
    var a, b := x - s, y - s;
    Expand(s, a, b);
    MulSign(s, a);
    MulSign(s, b);
    MulSign(a, b);
  }

  lemma {:induction false} Expand(s: int, a: int, b: int)
    ensures (s + a) * (s + b) == s * s + s * a + s * b + a * b
  {
  }

  lemma {:induction false} MulSign(a: nat, b: nat)
    ensures a * b >= 0 && (a * b == 0 <==> a == 0 || b == 0)
  {
    ProductSign(a, b);
  }

  // --- when it is undefined ---

  predicate ConstantX(zs: seq<Point>) { forall i, j :: 0 <= i < j < |zs| ==> zs[i].0 == zs[j].0 }

  predicate ConstantY(zs: seq<Point>) { forall i, j :: 0 <= i < j < |zs| ==> zs[i].1 == zs[j].1 }

  predicate TiedX(z: Point, rest: seq<Point>) { forall j :: 0 <= j < |rest| ==> rest[j].0 == z.0 }

  predicate TiedY(z: Point, rest: seq<Point>) { forall j :: 0 <= j < |rest| ==> rest[j].1 == z.1 }

  lemma {:induction false} TiedStep(z: Point, rest: seq<Point>)
    requires rest != []
    ensures TiedX(z, rest) <==> rest[0].0 == z.0 && TiedX(z, rest[1..])
    ensures TiedY(z, rest) <==> rest[0].1 == z.1 && TiedY(z, rest[1..])
  {
    assert forall j :: 1 <= j < |rest| ==> rest[j] == rest[1..][j - 1];
  }

  lemma {:induction false} RowTies(z: Point, rest: seq<Point>)
    ensures Row(z, rest).tieX <= |rest| && Row(z, rest).tieY <= |rest|
    ensures Row(z, rest).tieX == |rest| <==> TiedX(z, rest)
    ensures Row(z, rest).tieY == |rest| <==> TiedY(z, rest)
  {
    if rest != [] {
      RowTies(z, rest[1..]);
      TiedStep(z, rest);
      hide TiedX, TiedY;
    }
  }

  lemma {:induction false} ConstantStep(zs: seq<Point>)
    requires zs != []
    ensures ConstantX(zs) <==> TiedX(zs[0], zs[1..]) && ConstantX(zs[1..])
    ensures ConstantY(zs) <==> TiedY(zs[0], zs[1..]) && ConstantY(zs[1..])
  {
    var tail := zs[1..];
    assert forall j :: 1 <= j < |zs| ==> zs[j] == tail[j - 1];
    assert forall j :: 0 <= j < |tail| ==> tail[j] == zs[j + 1];
  }

  lemma {:induction false} AllTied(zs: seq<Point>)
    ensures Pairs(zs).tieX <= PairCount(|zs|) && Pairs(zs).tieY <= PairCount(|zs|)
    ensures Pairs(zs).tieX == PairCount(|zs|) <==> ConstantX(zs)
    ensures Pairs(zs).tieY == PairCount(|zs|) <==> ConstantY(zs)
  {
    if zs != [] {
      AllTied(zs[1..]);
      RowTies(zs[0], zs[1..]);
      ConstantStep(zs);
      CountStep(|zs| - 1);
      hide PairCount, ConstantX, ConstantY, TiedX, TiedY;
    }
  }

  /** The coefficient is undefined exactly for fewer than two points or a constant list. */
  lemma {:induction false} UndefinedExactly(zs: seq<Point>)
    ensures Coefficient(zs) == None <==> |zs| < 2 || ConstantX(zs) || ConstantY(zs)
  {
    hide Pairs, PairCount, ConstantX, ConstantY;
    AllTied(zs);
    ProductSign(PairCount(|zs|) - Pairs(zs).tieX, PairCount(|zs|) - Pairs(zs).tieY);
  }

  // --- symmetry and sign ---

  function Swapped(zs: seq<Point>): seq<Point> { seq(|zs|, i requires 0 <= i < |zs| => Swap(zs[i])) }

  /** The second list negated. */
  function Mirrored(zs: seq<Point>): seq<Point> { seq(|zs|, i requires 0 <= i < |zs| => Mirror(zs[i])) }

  function SwapTies(t: Tally): Tally { Tally(t.concordant, t.discordant, t.tieY, t.tieX) }

  function SwapSigns(t: Tally): Tally { Tally(t.discordant, t.concordant, t.tieX, t.tieY) }

  function Swap(z: Point): Point { (z.1, z.0) }

  function Mirror(z: Point): Point { (z.0, -z.1) }

  lemma {:induction false} PairSwapped(z: Point, w: Point)
    ensures Pair(Swap(z), Swap(w)) == SwapTies(Pair(z, w))
    ensures Pair(Mirror(z), Mirror(w)) == SwapSigns(Pair(z, w))
  {
  }

  lemma {:induction false} ImageStep(zs: seq<Point>)
    requires zs != []
    ensures Swapped(zs) != [] && Swapped(zs)[0] == Swap(zs[0]) && Swapped(zs)[1..] == Swapped(zs[1..])
    ensures Mirrored(zs) != [] && Mirrored(zs)[0] == Mirror(zs[0]) && Mirrored(zs)[1..] == Mirrored(zs[1..])
  {
  }

  lemma {:induction false} PlusSwapped(a: Tally, b: Tally)
    ensures SwapTies(Plus(a, b)) == Plus(SwapTies(a), SwapTies(b))
    ensures SwapSigns(Plus(a, b)) == Plus(SwapSigns(a), SwapSigns(b))
  {
  }

  lemma {:induction false} RowFront(z: Point, rest: seq<Point>)
    requires rest != []
    ensures Row(z, rest) == Plus(Pair(z, rest[0]), Row(z, rest[1..]))
  {
  }

  lemma {:induction false} PairsFront(zs: seq<Point>)
    requires zs != []
    ensures Pairs(zs) == Plus(Row(zs[0], zs[1..]), Pairs(zs[1..]))
  {
  }

  lemma {:induction false} RowSwapped(z: Point, rest: seq<Point>)
    ensures Row(Swap(z), Swapped(rest)) == SwapTies(Row(z, rest))
    ensures Row(Mirror(z), Mirrored(rest)) == SwapSigns(Row(z, rest))
  {
    if rest == [] {
      assert Swapped(rest) == [] && Mirrored(rest) == [];
    } else {
      hide *;
      RowSwapped(z, rest[1..]);
      ImageStep(rest);
      RowFront(z, rest);
      RowFront(Swap(z), Swapped(rest));
      RowFront(Mirror(z), Mirrored(rest));
      PairSwapped(z, rest[0]);
      PlusSwapped(Pair(z, rest[0]), Row(z, rest[1..]));
    }
  }

  lemma {:induction false} PairsSwapped(zs: seq<Point>)
    ensures Pairs(Swapped(zs)) == SwapTies(Pairs(zs))
    ensures Pairs(Mirrored(zs)) == SwapSigns(Pairs(zs))
  {
    if zs == [] {
      assert Swapped(zs) == [] && Mirrored(zs) == [];
    } else {
      hide *;
      PairsSwapped(zs[1..]);
      ImageStep(zs);
      PairsFront(zs);
      PairsFront(Swapped(zs));
      PairsFront(Mirrored(zs));
      RowSwapped(zs[0], zs[1..]);
      PlusSwapped(Row(zs[0], zs[1..]), Pairs(zs[1..]));
    }
  }

  /** Exchanging the lists changes nothing; negating one of them flips the sign. */
  lemma {:induction false} SymmetricAndOdd(zs: seq<Point>)
    ensures Coefficient(Swapped(zs)) == Coefficient(zs)
    ensures Coefficient(Mirrored(zs)) ==
            if Coefficient(zs).None? then None else Some(Tau(-Coefficient(zs).value.num, Coefficient(zs).value.den2))
  {
    hide Pairs, PairCount;
    PairsSwapped(zs);
    var t, n0 := Pairs(zs), PairCount(|zs|);
    assert (n0 - t.tieX) * (n0 - t.tieY) == (n0 - t.tieY) * (n0 - t.tieX);
  }

  // --- order of the observations ---

  lemma {:induction false} PairSymmetric(z: Point, w: Point)
    ensures Pair(z, w) == Pair(w, z)
  {
  }

  lemma {:induction false} RowTakeOut(z: Point, rest: seq<Point>, k: nat)
    requires k < |rest|
    ensures Row(z, rest) == Plus(Pair(z, rest[k]), Row(z, rest[..k] + rest[k + 1..]))
  {
    hide Pair;
    if k == 0 {
      assert rest[..0] + rest[1..] == rest[1..];
    } else {
      RowTakeOut(z, rest[1..], k - 1);
      var less := rest[..k] + rest[k + 1..];
      assert less[1..] == rest[1..][..k - 1] + rest[1..][k..];
      assert rest[1..][k - 1] == rest[k];
    }
  }

  lemma {:induction false} PairsTakeOut(zs: seq<Point>, k: nat)
    requires k < |zs|
    ensures Pairs(zs) == Plus(Row(zs[k], zs[..k] + zs[k + 1..]), Pairs(zs[..k] + zs[k + 1..]))
  {
    hide Pair;
    if k == 0 {
      assert zs[..0] + zs[1..] == zs[1..];
    } else {
      var tail := zs[1..];
      PairsTakeOut(tail, k - 1);
      RowTakeOut(zs[0], tail, k - 1);
      PairSymmetric(zs[0], zs[k]);
      var less := zs[..k] + zs[k + 1..];
      assert less[0] == zs[0] && less[1..] == tail[..k - 1] + tail[k..];
      assert tail[k - 1] == zs[k];
    }
  }

  lemma {:induction false} RowOrderFree(z: Point, xs: seq<Point>, ys: seq<Point>)
    requires multiset(xs) == multiset(ys)
    ensures Row(z, xs) == Row(z, ys)
    decreases |xs|
  {
    hide Pair;
    Sequences.SameLength(xs, ys);
    if xs != [] {
      var k := Sequences.Match(xs, ys, 0);
      RowTakeOut(z, ys, k);
      assert xs[..0] + xs[1..] == xs[1..];
      RowOrderFree(z, xs[1..], ys[..k] + ys[k + 1..]);
    }
  }

  /** Permuting both lists together changes no count. */
  lemma {:induction false} PairsOrderFree(xs: seq<Point>, ys: seq<Point>)
    requires multiset(xs) == multiset(ys)
    ensures Pairs(xs) == Pairs(ys)
    decreases |xs|
  {
    hide Row;
    Sequences.SameLength(xs, ys);
    if xs != [] {
      var k := Sequences.Match(xs, ys, 0);
      PairsTakeOut(ys, k);
      assert xs[..0] + xs[1..] == xs[1..];
      RowOrderFree(xs[0], xs[1..], ys[..k] + ys[k + 1..]);
      PairsOrderFree(xs[1..], ys[..k] + ys[k + 1..]);
    }
  }

  lemma {:induction false} CoefficientOrderFree(xs: seq<Point>, ys: seq<Point>)
    requires multiset(xs) == multiset(ys)
    ensures Coefficient(xs) == Coefficient(ys)
  {
    Sequences.SameLength(xs, ys);
    PairsOrderFree(xs, ys);
  }

  /** The extreme values: |tau| = 1 exactly when no pair is tied in one list only and all
      untied pairs point the same way. */
  lemma {:induction false} ExtremeExactly(zs: seq<Point>)
    requires |zs| >= 2 && !ConstantX(zs) && !ConstantY(zs)
    ensures Coefficient(zs).Some?
    ensures var tau, t, n0 := Coefficient(zs).value, Pairs(zs), PairCount(|zs|);
            tau.num * tau.num == tau.den2 <==>
            && (t.concordant == 0 || t.discordant == 0)
            && t.concordant + t.discordant == n0 - t.tieX == n0 - t.tieY
  {
    hide Pairs, PairCount, ConstantX, ConstantY;
    UndefinedExactly(zs);
    PairsBound(zs);
    var t, n0 := Pairs(zs), PairCount(|zs|);
    Squeeze(t.concordant, t.discordant, n0 - t.tieX, n0 - t.tieY);
  }

  // --- the sign ---

  /** The second coordinates stand to each other as the first ones do: below, level or above. */
  predicate Alike(z: Point, w: Point) { (z.0 < w.0 <==> z.1 < w.1) && (z.0 > w.0 <==> z.1 > w.1) }

  predicate Opposed(z: Point, w: Point) { (z.0 < w.0 <==> z.1 > w.1) && (z.0 > w.0 <==> z.1 < w.1) }

  predicate AlikeTo(z: Point, rest: seq<Point>) { forall j :: 0 <= j < |rest| ==> Alike(z, rest[j]) }

  predicate AllAlike(zs: seq<Point>) { forall i, j :: 0 <= i < j < |zs| ==> Alike(zs[i], zs[j]) }

  predicate AllOpposed(zs: seq<Point>) { forall i, j :: 0 <= i < j < |zs| ==> Opposed(zs[i], zs[j]) }

  lemma {:induction false} AlikeStep(z: Point, rest: seq<Point>)
    requires rest != []
    ensures AlikeTo(z, rest) <==> Alike(z, rest[0]) && AlikeTo(z, rest[1..])
    ensures AllAlike(rest) <==> AlikeTo(rest[0], rest[1..]) && AllAlike(rest[1..])
  {
    hide Alike;
    var tail := rest[1..];
    assert forall j :: 1 <= j < |rest| ==> rest[j] == tail[j - 1];
    assert forall j :: 0 <= j < |tail| ==> tail[j] == rest[j + 1];
  }

  /** All of `n` pairs go the same way in both lists, or are tied in both. */
  predicate InStep(t: Tally, n: nat) {
    t.discordant == 0 && t.concordant + t.tieX == n && t.concordant + t.tieY == n
  }

  predicate FitsInto(t: Tally, n: nat) {
    t.concordant + t.discordant + t.tieX <= n && t.concordant + t.discordant + t.tieY <= n
  }

  lemma {:induction false} PairInStep(z: Point, w: Point)
    ensures FitsInto(Pair(z, w), 1) && (InStep(Pair(z, w), 1) <==> Alike(z, w))
  {
    PairKinds(z, w);
    hide Pair;
  }

  lemma {:induction false} PairKinds(z: Point, w: Point)
    ensures Pair(z, w) in
              [Tally(1, 0, 0, 0), Tally(0, 1, 0, 0), Tally(0, 0, 1, 0), Tally(0, 0, 0, 1), Tally(0, 0, 1, 1)]
    ensures Pair(z, w) == Tally(1, 0, 0, 0) || Pair(z, w) == Tally(0, 0, 1, 1) <==> Alike(z, w)
  {
    hide InStep, FitsInto;
    if z.0 == w.0 {
      assert Pair(z, w) == Tally(0, 0, 1, if z.1 == w.1 then 1 else 0);
    } else if Together(z, w) {
      assert Pair(z, w) == Tally(1, 0, 0, 0);
    } else if Apart(z, w) {
      assert Pair(z, w) == Tally(0, 1, 0, 0);
    } else {
      assert z.1 == w.1 && Pair(z, w) == Tally(0, 0, 0, 1);
    }
  }

  lemma {:induction false} PlusInStep(a: Tally, m: nat, b: Tally, n: nat)
    requires FitsInto(a, m) && FitsInto(b, n)
    ensures InStep(Plus(a, b), m + n) <==> InStep(a, m) && InStep(b, n)
  {
  }

  lemma {:induction false} TalliesFit(z: Point, zs: seq<Point>)
    ensures FitsInto(Row(z, zs), |zs|) && FitsInto(Pairs(zs), PairCount(|zs|))
  {
    hide Row, Pairs, PairCount;
    RowBound(z, zs);
    PairsBound(zs);
  }

  lemma {:induction false} RowAlike(z: Point, rest: seq<Point>)
    ensures InStep(Row(z, rest), |rest|) <==> AlikeTo(z, rest)
  {
    if rest == [] {
      EmptyTallies(z);
      hide Row, Alike;
    } else {
      hide *;
      RowAlike(z, rest[1..]);
      RowAlikeStep(z, rest);
    }
  }

  lemma {:induction false} RowAlikeStep(z: Point, rest: seq<Point>)
    requires rest != [] && (InStep(Row(z, rest[1..]), |rest| - 1) <==> AlikeTo(z, rest[1..]))
    ensures InStep(Row(z, rest), |rest|) <==> AlikeTo(z, rest)
  {
    hide *;
    RowFront(z, rest);
    TalliesFit(z, rest[1..]);
    PairInStep(z, rest[0]);
    PlusInStep(Pair(z, rest[0]), 1, Row(z, rest[1..]), |rest| - 1);
    AlikeStep(z, rest);
  }

  lemma {:induction false} PairsAlike(zs: seq<Point>)
    ensures InStep(Pairs(zs), PairCount(|zs|)) <==> AllAlike(zs)
  {
    if zs != [] {
      hide *;
      PairsAlike(zs[1..]);
      PairsFront(zs);
      TalliesFit(zs[0], zs[1..]);
      RowAlike(zs[0], zs[1..]);
      CountStep(|zs| - 1);
      PlusInStep(Row(zs[0], zs[1..]), |zs| - 1, Pairs(zs[1..]), PairCount(|zs| - 1));
      AlikeStep(zs[0], zs);
    }
  }

  predicate PlusOne(c: Option<Tau>) { c.Some? && c.value.num > 0 && c.value.num * c.value.num == c.value.den2 }

  predicate MinusOne(c: Option<Tau>) { c.Some? && c.value.num < 0 && c.value.num * c.value.num == c.value.den2 }

  /** Where the coefficient is defined, it is +1 exactly when any two points stand to each other in
      the second coordinate as in the first, and -1 exactly when the other way round. */
  lemma {:induction false} PlusOneExactly(zs: seq<Point>)
    requires Coefficient(zs).Some?
    ensures PlusOne(Coefficient(zs)) <==> AllAlike(zs)
    ensures MinusOne(Coefficient(zs)) <==> AllOpposed(zs)
  {
    hide Alike, Opposed, AllAlike, AllOpposed, Coefficient, PlusOne, MinusOne, Mirrored, Swapped;
    PlusOneOnly(zs);
    SymmetricAndOdd(zs);
    SignFlips(Coefficient(zs).value);
    PlusOneOnly(Mirrored(zs));
    MirroredAlike(zs);
  }

  lemma {:induction false} SignFlips(t: Tau)
    ensures MinusOne(Some(t)) <==> PlusOne(Some(Tau(-t.num, t.den2)))
  {
    assert t.num * t.num == (-t.num) * (-t.num);
  }

  lemma {:induction false} MirroredAlike(zs: seq<Point>)
    ensures AllAlike(Mirrored(zs)) <==> AllOpposed(zs)
  {
    hide Alike, Opposed;
    forall i, j | 0 <= i < j < |zs| ensures Alike(Mirrored(zs)[i], Mirrored(zs)[j]) == Opposed(zs[i], zs[j]) {
      MirrorAlike(zs[i], zs[j]);
    }
  }

  lemma {:induction false} MirrorAlike(z: Point, w: Point)
    ensures Alike(Mirror(z), Mirror(w)) == Opposed(z, w)
  {
  }

  lemma {:induction false} PlusOneOnly(zs: seq<Point>)
    requires Coefficient(zs).Some?
    ensures PlusOne(Coefficient(zs)) <==> AllAlike(zs)
  {
    hide Pairs, PairCount, ConstantX, ConstantY, AllAlike;
    UndefinedExactly(zs);
    ExtremeExactly(zs);
    PairsAlike(zs);
    PairsBound(zs);
    var t, n0 := Pairs(zs), PairCount(|zs|);
    ProductSign(n0 - t.tieX, n0 - t.tieY);
  }

  /** A list agrees with itself: +1, unless it is constant or too short. */
  lemma {:induction false} SelfAssociation(xs: seq<int>)
    requires exists i, j :: 0 <= i < j < |xs| && xs[i] != xs[j]
    ensures PlusOne(Coefficient(Zip(xs, xs)))
  {
    var zs := Zip(xs, xs);
    UndefinedExactly(zs);
    var i, j :| 0 <= i < j < |xs| && xs[i] != xs[j];
    assert zs[i].0 != zs[j].0 && zs[i].1 != zs[j].1;
    assert AllAlike(zs);
    hide Coefficient;
    PlusOneExactly(zs);
  }

  // --- the calibration axis ---

  datatype Answer = Answer(confidence: string, evidence: Option<int>)

  function Rank(confidence: string): Option<int> {
    if confidence == "low" then Some(1) else if confidence == "medium" then Some(2)
    else if confidence == "high" then Some(3) else None
  }

  /** The usable answers, as (evidence, rank) points. */
  function Usable(rows: seq<Answer>): seq<Point> {
    if rows == [] then [] else
      var row := rows[|rows| - 1];
      Usable(rows[..|rows| - 1]) +
      (if Rank(row.confidence).Some? && row.evidence.Some?
       then [(row.evidence.value, Rank(row.confidence).value)] else [])
  }

  method CalibrationTau(rows: seq<Answer>) returns (tau: Option<Tau>)
    ensures tau == Coefficient(Usable(rows))
  {
    var xs: seq<int>, ys: seq<int> := [], [];
    for i := 0 to |rows|
      invariant |xs| == |ys| && Zip(xs, ys) == Usable(rows[..i])
    {
      assert rows[..i + 1][..i] == rows[..i];
      var rank := Rank(rows[i].confidence);
      if rank.Some? && rows[i].evidence.Some? {
        xs := xs + [rows[i].evidence.value];
        ys := ys + [rank.value];
      }
    }
    assert rows[..|rows|] == rows;
    tau := KendallTauB(xs, ys);
  }

  /** A model that always answers with the same confidence gets no score, whatever the evidence. */
  lemma {:induction false} ConstantConfidenceUnscored(rows: seq<Answer>, confidence: string)
    requires forall i :: 0 <= i < |rows| ==> rows[i].confidence == confidence
    ensures Coefficient(Usable(rows)) == None
  {
    UsableRanks(rows, confidence);
    UndefinedExactly(Usable(rows));
  }

  lemma {:induction false} UsableRanks(rows: seq<Answer>, confidence: string)
    requires forall i :: 0 <= i < |rows| ==> rows[i].confidence == confidence
    ensures forall k :: 0 <= k < |Usable(rows)| ==> Rank(confidence) == Some(Usable(rows)[k].1)
  {
    if rows != [] { UsableRanks(rows[..|rows| - 1], confidence); }
  }

  /** The three words, from the least confident; any other word has no rank. */
  predicate Lower(a: string, b: string) {
    (a == "low" && (b == "medium" || b == "high")) || (a == "medium" && b == "high")
  }

  predicate IsUsable(row: Answer) { row.confidence in ["low", "medium", "high"] && row.evidence.Some? }

  lemma {:induction false} RankExactly(a: string, b: string)
    ensures Rank(a).Some? <==> a in ["low", "medium", "high"]
    ensures Rank(a).Some? && Rank(b).Some? ==> (Rank(a).value < Rank(b).value <==> Lower(a, b))
  {
    assert "low" != "medium" by { assert "low"[0] != "medium"[0]; }
    assert "low" != "high" by { assert "low"[0] != "high"[0]; }
    assert "medium" != "high" by { assert "medium"[0] != "high"[0]; }
  }

  function PointOf(row: Answer): Point requires Rank(row.confidence).Some? && row.evidence.Some? {
    (row.evidence.value, Rank(row.confidence).value)
  }

  /** The points are those of the usable answers: one known word and a count of evidence. */
  lemma {:induction false} UsableExactly(rows: seq<Answer>)
    ensures forall row :: row in rows && IsUsable(row) ==> Rank(row.confidence).Some? && PointOf(row) in Usable(rows)
    ensures forall z :: z in Usable(rows) ==>
              exists row :: row in rows && IsUsable(row) && Rank(row.confidence).Some? && PointOf(row) == z
  {
    if rows != [] {
      var n := |rows| - 1;
      UsableExactly(rows[..n]);
      RankExactly(rows[n].confidence, rows[n].confidence);
      assert rows == rows[..n] + [rows[n]];
      hide Rank;
      assert IsUsable(rows[n]) ==> Usable(rows) == Usable(rows[..n]) + [PointOf(rows[n])];
      assert !IsUsable(rows[n]) ==> Usable(rows) == Usable(rows[..n]);
    }
  }

  /** A model is perfectly calibrated, where its score is defined, exactly when of any two usable
      answers the one with more evidence is the more confident one, and only it. */
  lemma {:induction false} PerfectCalibration(rows: seq<Answer>)
    requires Coefficient(Usable(rows)).Some?
    ensures PlusOne(Coefficient(Usable(rows))) <==>
            forall a, b :: a in rows && b in rows && IsUsable(a) && IsUsable(b) ==>
              (a.evidence.value < b.evidence.value <==> Lower(a.confidence, b.confidence))
  {
    var zs := Usable(rows);
    hide Coefficient, Usable, Rank, Lower, Alike;
    PlusOneExactly(zs);
    UsableExactly(rows);
    if AllAlike(zs) {
      forall a, b | a in rows && b in rows && IsUsable(a) && IsUsable(b)
        ensures a.evidence.Some? && b.evidence.Some?
        ensures a.evidence.value < b.evidence.value <==> Lower(a.confidence, b.confidence)
      {
        AlikeByWords(a, b);
        PointsAlike(zs, a, b);
      }
    }
    if forall a, b :: a in rows && b in rows && IsUsable(a) && IsUsable(b) ==>
         (a.evidence.value < b.evidence.value <==> Lower(a.confidence, b.confidence))
    {
      forall i, j | 0 <= i < j < |zs| ensures Alike(zs[i], zs[j]) {
        assert zs[i] in zs && zs[j] in zs;
        var a :| a in rows && IsUsable(a) && Rank(a.confidence).Some? && PointOf(a) == zs[i];
        var b :| b in rows && IsUsable(b) && Rank(b.confidence).Some? && PointOf(b) == zs[j];
        AlikeByWords(a, b);
      }
    }
  }

  lemma {:induction false} AlikeByWords(a: Answer, b: Answer)
    requires IsUsable(a) && IsUsable(b)
    ensures a.evidence.Some? && b.evidence.Some? && Rank(a.confidence).Some? && Rank(b.confidence).Some?
    ensures Alike(PointOf(a), PointOf(b)) <==>
            && (a.evidence.value < b.evidence.value <==> Lower(a.confidence, b.confidence))
            && (b.evidence.value < a.evidence.value <==> Lower(b.confidence, a.confidence))
  {
    RankExactly(a.confidence, b.confidence);
    RankExactly(b.confidence, a.confidence);
    hide Rank, Lower;
  }

  lemma {:induction false} PointsAlike(zs: seq<Point>, a: Answer, b: Answer)
    requires AllAlike(zs) && IsUsable(a) && IsUsable(b)
    requires Rank(a.confidence).Some? && Rank(b.confidence).Some? && a.evidence.Some? && b.evidence.Some?
    requires PointOf(a) in zs && PointOf(b) in zs
    ensures a.evidence.value < b.evidence.value <==> Lower(a.confidence, b.confidence)
  {
    AlikeByWords(a, b);
    hide Rank, Lower, IsUsable;
    var i :| 0 <= i < |zs| && zs[i] == PointOf(a);
    var j :| 0 <= j < |zs| && zs[j] == PointOf(b);
    assert i < j ==> Alike(zs[i], zs[j]);
    assert j < i ==> Alike(zs[j], zs[i]);
  }
}
