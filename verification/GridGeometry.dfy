/** The ladder arithmetic of the micro-grid: where the rungs sit around an anchor
    price, and where the counter-order of a fill goes. */
module GridGeometry {

  datatype Side = Buy | Sell

  datatype GridLevel = GridLevel(side: Side, price: real)

  function Max0(n: int): nat { if n < 0 then 0 else n }

  function GridSpacing(reference: real, spacingPct: real): real {
    reference * spacingPct / 100.0
  }

  /** BUYs from the farthest one up to the anchor, then SELLs upward; the anchor itself
      is not a rung. A non-positive level count gives an empty side. */
  function ComputeGridLevels(reference: real, spacingPct: real, above: int, below: int): seq<GridLevel> {
    var delta := GridSpacing(reference, spacingPct);
    seq(Max0(below), i requires 0 <= i < Max0(below) => GridLevel(Buy, reference - (below - i) as real * delta))
    + seq(Max0(above), i requires 0 <= i < Max0(above) => GridLevel(Sell, reference + (i + 1) as real * delta))
  }

  /** The opposite side, one spacing away from the filled price. */
  function NextCounterAction(filledSide: Side, filledPrice: real, spacing: real): GridLevel {
    match filledSide
    case Buy => GridLevel(Sell, filledPrice + spacing)
    case Sell => GridLevel(Buy, filledPrice - spacing)
  }

  /** The lower rung of the pair of adjacent rungs between which an order and its
      counter-orders move. */
  function Cell(side: Side, price: real, spacing: real): real {
    if side == Buy then price else price - spacing
  }

  /** Rung `i` of the ladder owns cell number `i - below`, counted in spacings from the
      anchor: the two sides together tile the band without a gap or an overlap. */
  lemma {:induction false} LevelCell(reference: real, spacingPct: real, above: int, below: int, i: nat)
    requires i < Max0(below) + Max0(above)
    ensures var levels := ComputeGridLevels(reference, spacingPct, above, below);
            var delta := GridSpacing(reference, spacingPct);
            && |levels| == Max0(below) + Max0(above)
            && (levels[i].side == Buy <==> i < Max0(below))
            && Cell(levels[i].side, levels[i].price, delta) == reference + (i - Max0(below)) as real * delta
  {
    var delta := GridSpacing(reference, spacingPct);
    if i < Max0(below) {
      assert -((below - i) as real * delta) == (i - below) as real * delta;
    } else {
      var k := i - Max0(below);
      assert (k + 1) as real * delta == k as real * delta + delta;
    }
  }

  /** The layout promised for positive inputs: BUYs at least one spacing below the anchor,
      SELLs at least one above it, and for any two rungs `i < j` exactly `j - i` spacings
      between them, plus one more when the anchor lies between. */
  lemma {:induction false} LadderShape(reference: real, spacingPct: real, above: int, below: int, i: nat, j: nat)
    requires reference > 0.0 && spacingPct > 0.0
    requires i < j < Max0(below) + Max0(above)
    ensures var levels := ComputeGridLevels(reference, spacingPct, above, below);
            var delta := GridSpacing(reference, spacingPct);
            && delta > 0.0
            && (levels[i].side == Buy ==> levels[i].price <= reference - delta)
            && (levels[j].side == Sell ==> levels[j].price >= reference + delta)
            && (levels[j].side == Buy ==> levels[i].side == Buy)
            && levels[j].price - levels[i].price ==
               (j - i) as real * delta + (if levels[i].side == levels[j].side then 0.0 else delta)
            && levels[i].price < levels[j].price
  {
    hide GridSpacing;
    var delta := GridSpacing(reference, spacingPct);
    var b := Max0(below);
    SpacingPositive(reference, spacingPct);
    LevelCell(reference, spacingPct, above, below, i);
    LevelCell(reference, spacingPct, above, below, j);
    var levels := ComputeGridLevels(reference, spacingPct, above, below);
    CellsToPrices(reference, delta, i - b, j - b, levels[i], levels[j]);
  }

  lemma {:induction false} CellsToPrices(reference: real, d: real, m: int, n: int, lower: GridLevel, upper: GridLevel)
    requires d > 0.0 && m < n
    requires Cell(lower.side, lower.price, d) == reference + m as real * d && (lower.side == Buy <==> m < 0)
    requires Cell(upper.side, upper.price, d) == reference + n as real * d && (upper.side == Buy <==> n < 0)
    ensures lower.side == Buy ==> lower.price <= reference - d
    ensures upper.side == Sell ==> upper.price >= reference + d
    ensures upper.price - lower.price ==
            (n - m) as real * d + (if lower.side == upper.side then 0.0 else d)
    ensures lower.price < upper.price
  {
    ScaleSplit(m, n, d);
    if m < 0 { ScaleMono(m, -1, d); }
    if n >= 0 { ScaleMono(0, n, d); }
  }

  lemma {:induction false} ScaleSplit(m: int, n: int, d: real)
    requires m < n && d > 0.0
    ensures n as real * d - m as real * d == (n - m) as real * d > 0.0
  {
  }

  lemma {:induction false} SpacingPositive(reference: real, spacingPct: real)
    requires reference > 0.0 && spacingPct > 0.0
    ensures GridSpacing(reference, spacingPct) > 0.0
  {
    assert reference * spacingPct > 0.0;
  }

  lemma {:induction false} ScaleMono(m: int, n: int, d: real)
    requires m <= n && d >= 0.0
    ensures m as real * d <= n as real * d
  {
    assert (n - m) as real * d >= 0.0;
  }
}
