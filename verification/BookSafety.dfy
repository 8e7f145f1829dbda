/** What every run of the grid simulator keeps: solvency, the bound on the book, and the
    ladder (every order stays in the cell between two adjacent rungs it was laid in). */
module BookSafety {
  import opened GridGeometry
  import opened OrderBook
  import BookValue
  import Sequences

  predicate NonNegative(p: Params) {
    && p.orderSize >= 0.0 && p.makerFee >= 0.0 && p.slippageBps >= 0.0
    && p.takerFee >= 0.0 && p.deriskSlippageBps >= 0.0
  }

  /** How the tools use the operations: market prices and spacings are positive, and a grid
      is laid only on an empty book. */
  predicate Proper(b: Book, a: Action) {
    match a
    case Cancel => true
    case Cash(price) => price > 0.0
    case Lay(anchor) => anchor > 0.0 && b.orders == []
    case Bar(high, low) => low > 0.0
    case Reanchor(price) => price > 0.0
    case Spacing(pct) => pct > 0.0
  }

  predicate ProperRun(p: Params, b: Book, script: seq<Action>) {
    script == [] ||
    var n := |script| - 1;
    ProperRun(p, b, script[..n]) && Proper(Run(p, b, script[..n]), script[n])
  }

  lemma {:induction false} ProperAppend(p: Params, b: Book, first: seq<Action>, second: seq<Action>)
    requires ProperRun(p, b, first) && ProperRun(p, Run(p, b, first), second)
    ensures ProperRun(p, b, first + second)
  {
    if second == [] {
      assert first + second == first;
    } else {
      var n := |second| - 1;
      ProperAppend(p, b, first, second[..n]);
      RunAppend(p, b, first, second[..n]);
      Sequences.AppendSplit(first, second);
    }
  }

  // --- solvency ---

  /** An open BUY has money behind it, an open SELL has inventory and sits at least one
      spacing above zero, so that its counter-order is a sane BUY. */
  predicate Backed(o: Order, spacing: real) {
    if o.side == Buy then Notional(o) >= 0.0 else o.amount >= 0.0 && o.price >= spacing
  }

  predicate Solvent(b: Book) {
    && b.freeBtc >= 0.0
    && b.feesPaid >= 0.0
    && b.freeUsd + b.feesPaid >= 0.0
    && b.curSpacing >= 0.0
    && b.spacingPct > 0.0
    && forall o :: o in b.orders ==> Backed(o, b.curSpacing)
  }

  lemma {:induction false} BackedReserves(os: seq<Order>, spacing: real)
    requires spacing >= 0.0 && forall o :: o in os ==> Backed(o, spacing)
    ensures ReservedUsd(os) >= 0.0 && ReservedBtc(os) >= 0.0
  {
    if os != [] {
      var n := |os| - 1;
      BackedReserves(os[..n], spacing);
      assert Backed(os[n], spacing);
    }
  }

  lemma {:induction false} CancelSolvent(b: Book)
    requires Solvent(b)
    ensures Solvent(CancelAll(b))
  {
    BackedReserves(b.orders, b.curSpacing);
  }

  lemma {:induction false} ScaleCost(x: real, rate: real)
    requires x >= 0.0 && rate >= 0.0
    ensures x * rate >= 0.0
  {
  }

  lemma {:induction false} CashSolvent(p: Params, b: Book, price: real)
    requires NonNegative(p) && Solvent(b) && price > 0.0
    ensures Solvent(DeriskToCash(p, b, price))
  {
    CancelSolvent(b);
    var c := CancelAll(b);
    ScaleCost(c.freeBtc, price);
    ScaleCost(c.freeBtc * price, DeriskRate(p));
  }

  lemma {:induction false} PlaceSolvent(b: Book, o: Order)
    requires Solvent(b) && Backed(o, b.curSpacing)
    ensures Solvent(Place(b, o))
  {
  }

  lemma {:induction false} UnitsTimesPrice(size: real, price: real)
    requires size >= 0.0
    ensures price > 0.0 ==> Units(size, price) >= 0.0
    ensures Units(size, price) * price >= 0.0
    ensures price != 0.0 ==> price * Units(size, price) == size
  {
    if price != 0.0 { assert price * (size / price) == size; }
  }

  /** Every order of a fresh layout is backed. */
  lemma {:induction false} LayoutBacked(p: Params, spacingPct: real, anchor: real, i: nat)
    requires NonNegative(p) && anchor > 0.0 && spacingPct > 0.0
    requires i < |Levels(p, spacingPct, anchor)|
    ensures Backed(LayoutOrder(p, Levels(p, spacingPct, anchor)[i]), GridSpacing(anchor, spacingPct))
  {
    var level := Levels(p, spacingPct, anchor)[i];
    var delta := GridSpacing(anchor, spacingPct);
    UnitsTimesPrice(p.orderSize, level.price);
    SpacingPositive(anchor, spacingPct);
    LevelCell(anchor, spacingPct, p.levelsAbove, p.levelsBelow, i);
    if level.side == Sell { ScaleMono(0, i - Max0(p.levelsBelow), delta); }
  }

  lemma {:induction false} PlaceLevelsSolvent(p: Params, b: Book, levels: seq<GridLevel>)
    requires Solvent(b)
    requires forall i :: 0 <= i < |levels| ==> Backed(LayoutOrder(p, levels[i]), b.curSpacing)
    ensures Solvent(PlaceLevels(p, b, levels))
    ensures PlaceLevels(p, b, levels).curSpacing == b.curSpacing
  {
    if levels != [] {
      var n := |levels| - 1;
      PlaceLevelsSolvent(p, b, levels[..n]);
      PlaceSolvent(PlaceLevels(p, b, levels[..n]), LayoutOrder(p, levels[n]));
    }
  }

  lemma {:induction false} LaySolvent(p: Params, b: Book, anchor: real)
    requires NonNegative(p) && Solvent(b) && b.orders == [] && anchor > 0.0
    ensures Solvent(LayGrid(p, b, anchor))
  {
    var levels := Levels(p, b.spacingPct, anchor);
    SpacingPositive(anchor, b.spacingPct);
    forall i | 0 <= i < |levels|
      ensures Backed(LayoutOrder(p, levels[i]), GridSpacing(anchor, b.spacingPct))
    {
      LayoutBacked(p, b.spacingPct, anchor, i);
    }
    PlaceLevelsSolvent(p, Cached(p, b, anchor), levels);
  }

  lemma {:induction false} FactorSign(x: real, y: real)
    requires x > 0.0 && x * y >= 0.0
    ensures y >= 0.0
  {
  }

  /** A touched order at positive prices: real units at a real price. */
  predicate Executable(o: Order, spacing: real) {
    Backed(o, spacing) && o.price >= 0.0 && o.amount >= 0.0
  }

  lemma {:induction false} TouchedExecutable(o: Order, spacing: real, high: real, low: real)
    requires Backed(o, spacing) && spacing >= 0.0 && low > 0.0 && Touched(o, high, low)
    ensures Executable(o, spacing)
  {
    if o.side == Buy { FactorSign(o.price, o.amount); }
  }

  /** Filling a solvent book's order leaves it solvent; the SELL counter of a BUY is always
      accepted, and the BUY counter of a SELL exactly when cash plus the spread earned
      covers the fee. */
  lemma {:induction false} FillSolvent(p: Params, b: Book, o: Order)
    requires NonNegative(p) && Solvent(b) && Executable(o, b.curSpacing)
    ensures Solvent(Fill(p, b, o))
    ensures o.side == Buy ==> Fill(p, b, o).orders == b.orders + [Counter(o, b.curSpacing)]
    ensures o.side == Sell ==>
              Fill(p, b, o).orders ==
              (if b.freeUsd + b.curSpacing * o.amount >= MakerCost(p, o)
               then b.orders + [Counter(o, b.curSpacing)] else b.orders)
  {
    ScaleCost(o.price, o.amount);
    ScaleCost(Notional(o), MakerRate(p));
    var c := Counter(o, b.curSpacing);
    CounterBacked(o, b.curSpacing);
    CreditSolvent(p, b, o);
    hide MakerCost, MakerRate;
    PlaceSolvent(Credit(p, b, o), c);
  }

  lemma {:induction false} CounterBacked(o: Order, spacing: real)
    requires Executable(o, spacing) && spacing >= 0.0
    ensures Backed(Counter(o, spacing), spacing)
    ensures o.side == Sell ==> Notional(Counter(o, spacing)) == Notional(o) - spacing * o.amount
  {
    if o.side == Sell { ScaleCost(o.price - spacing, o.amount); }
  }

  lemma {:induction false} CreditSolvent(p: Params, b: Book, o: Order)
    requires Solvent(b) && o.amount >= 0.0 && Notional(o) >= 0.0 && MakerCost(p, o) >= 0.0
    ensures Solvent(Credit(p, b, o))
    ensures Credit(p, b, o).orders == b.orders && Credit(p, b, o).curSpacing == b.curSpacing
  {
    hide MakerCost, Notional;
  }

  predicate AllExecutable(os: seq<Order>, spacing: real) {
    forall i :: 0 <= i < |os| ==> Executable(os[i], spacing)
  }

  lemma {:induction false} SettleSolvent(p: Params, b: Book, os: seq<Order>)
    requires NonNegative(p) && Solvent(b) && AllExecutable(os, b.curSpacing)
    ensures Solvent(Settle(p, b, os))
    ensures Settle(p, b, os).curSpacing == b.curSpacing
    ensures |Settle(p, b, os).orders| <= |os|
  {
    if os != [] {
      var n := |os| - 1;
      SettleSolvent(p, b, os[..n]);
      FillSolvent(p, Settle(p, b, os[..n]), os[n]);
    }
  }

  lemma {:induction false} TouchedAllExecutable(b: Book, high: real, low: real)
    requires Solvent(b) && low > 0.0
    ensures AllExecutable(Select(b.orders, high, low, true), b.curSpacing)
  {
    var hit := Select(b.orders, high, low, true);
    BookValue.SelectMembers(b.orders, high, low, true);
    forall i | 0 <= i < |hit| ensures Executable(hit[i], b.curSpacing) {
      assert hit[i] in hit;
      TouchedExecutable(hit[i], b.curSpacing, high, low);
    }
  }

  lemma {:induction false} BarSolvent(p: Params, b: Book, high: real, low: real)
    requires NonNegative(p) && Solvent(b) && low > 0.0
    ensures Solvent(ProcessBar(p, b, high, low))
    ensures |ProcessBar(p, b, high, low).orders| <= |b.orders|
  {
    TouchedAllExecutable(b, high, low);
    SettleSolvent(p, b, Select(b.orders, high, low, true));
    BookValue.SelectMembers(b.orders, high, low, false);
    BookValue.SelectSplits(b.orders, high, low);
  }

  lemma {:induction false} StepSolvent(p: Params, b: Book, a: Action)
    requires NonNegative(p) && Solvent(b) && Proper(b, a)
    ensures Solvent(Step(p, b, a))
  {
    match a {
      case Cancel => CancelSolvent(b);
      case Cash(price) => CashSolvent(p, b, price);
      case Lay(anchor) => LaySolvent(p, b, anchor);
      case Bar(high, low) => BarSolvent(p, b, high, low);
      case Reanchor(price) =>
        CancelSolvent(b);
        LaySolvent(p, CancelAll(b), price);
      case Spacing(pct) =>
    }
  }

  /** Solvency of every run: inventory is never negative, and cash can only be short by fees
      already paid. */
  lemma {:induction false} RunSolvent(p: Params, b: Book, script: seq<Action>)
    requires NonNegative(p) && Solvent(b) && ProperRun(p, b, script)
    ensures Solvent(Run(p, b, script))
  {
    if script != [] {
      var n := |script| - 1;
      RunSolvent(p, b, script[..n]);
      StepSolvent(p, Run(p, b, script[..n]), script[n]);
    }
  }

  // --- which counters a bar leaves behind ---

  function CountersOf(os: seq<Order>, side: Side, spacing: real): seq<Order> {
    if os == [] then [] else
      var rest := CountersOf(os[..|os| - 1], side, spacing);
      if os[|os| - 1].side == side then rest + [Counter(os[|os| - 1], spacing)] else rest
  }

  function OfSide(os: seq<Order>, side: Side): seq<Order> {
    if os == [] then [] else
      var rest := OfSide(os[..|os| - 1], side);
      if os[|os| - 1].side == side then rest + [os[|os| - 1]] else rest
  }

  /** In a solvent book no BUY fill loses its SELL counter: the new SELLs of a bar are the
      counters of its BUY fills, all of them, in fill order; the new BUYs are counters of
      distinct SELL fills. */
  lemma {:induction false} BuyFillsAlwaysCountered(p: Params, b: Book, os: seq<Order>)
    requires NonNegative(p) && Solvent(b) && AllExecutable(os, b.curSpacing)
    ensures OfSide(Settle(p, b, os).orders, Sell) == CountersOf(os, Buy, b.curSpacing)
    ensures multiset(OfSide(Settle(p, b, os).orders, Buy)) <= multiset(CountersOf(os, Sell, b.curSpacing))
  {
    if os != [] {
      var n := |os| - 1;
      var before := Settle(p, b, os[..n]);
      BuyFillsAlwaysCountered(p, b, os[..n]);
      SettleSolvent(p, b, os[..n]);
      FillSolvent(p, before, os[n]);
      var c := Counter(os[n], b.curSpacing);
      assert (before.orders + [c])[..|before.orders|] == before.orders;
    }
  }

  lemma {:induction false} OfSideAppend(xs: seq<Order>, ys: seq<Order>, side: Side)
    ensures OfSide(xs + ys, side) == OfSide(xs, side) + OfSide(ys, side)
  {
    if ys == [] {
      assert xs + ys == xs;
    } else {
      OfSideAppend(xs, ys[..|ys| - 1], side);
      Sequences.AppendSplit(xs, ys);
    }
  }

  /** The same for a whole bar: after it the SELLs of the book are the SELLs it missed, followed by
      the counter of every BUY it filled; the BUYs are those it missed and counters of SELL fills. */
  lemma {:induction false} BarCounters(p: Params, b: Book, high: real, low: real)
    requires NonNegative(p) && Solvent(b) && low > 0.0
    ensures var after := ProcessBar(p, b, high, low).orders;
            var hit, miss := Select(b.orders, high, low, true), Select(b.orders, high, low, false);
            && OfSide(after, Sell) == OfSide(miss, Sell) + CountersOf(hit, Buy, b.curSpacing)
            && multiset(OfSide(after, Buy)) <=
               multiset(OfSide(miss, Buy)) + multiset(CountersOf(hit, Sell, b.curSpacing))
  {
    hide Solvent, NonNegative, Select, Settle, OfSide, CountersOf, Executable;
    var hit, miss := Select(b.orders, high, low, true), Select(b.orders, high, low, false);
    TouchedAllExecutable(b, high, low);
    BuyFillsAlwaysCountered(p, b, hit);
    OfSideAppend(miss, Settle(p, b, hit).orders, Sell);
    OfSideAppend(miss, Settle(p, b, hit).orders, Buy);
  }

  // --- the size of the book ---

  function Rungs(p: Params): nat { Max0(p.levelsAbove) + Max0(p.levelsBelow) }

  lemma {:induction false} SettleSize(p: Params, b: Book, os: seq<Order>)
    ensures |Settle(p, b, os).orders| <= |os|
  {
    if os != [] { SettleSize(p, b, os[..|os| - 1]); }
  }

  lemma {:induction false} PlaceLevelsSize(p: Params, b: Book, levels: seq<GridLevel>)
    ensures |PlaceLevels(p, b, levels).orders| <= |b.orders| + |levels|
  {
    if levels != [] { PlaceLevelsSize(p, b, levels[..|levels| - 1]); }
  }

  lemma {:induction false} LaySize(p: Params, b: Book, anchor: real)
    requires b.orders == []
    ensures |LayGrid(p, b, anchor).orders| <= Rungs(p)
  {
    PlaceLevelsSize(p, Cached(p, b, anchor), Levels(p, b.spacingPct, anchor));
  }

  /** The book never holds more orders than the grid has rungs, whatever the prices and
      balances, as long as grids are laid on an empty book. */
  lemma {:induction false} RunSize(p: Params, b: Book, script: seq<Action>)
    requires |b.orders| <= Rungs(p) && ProperRun(p, b, script)
    ensures |Run(p, b, script).orders| <= Rungs(p)
  {
    if script != [] {
      var n := |script| - 1;
      RunSize(p, b, script[..n]);
      var before := Run(p, b, script[..n]);
      match script[n] {
        case Lay(anchor) => LaySize(p, before, anchor);
        case Reanchor(price) => LaySize(p, CancelAll(before), price);
        case Bar(high, low) =>
          SettleSize(p, before, Select(before.orders, high, low, true));
          BookValue.SelectSplits(before.orders, high, low);
        case _ =>
      }
    }
  }

  // --- the ladder ---

  /** An order's slot: the cell it trades in and the amount it trades. */
  function SlotOf(o: Order, spacing: real): (real, real) { (Cell(o.side, o.price, spacing), o.amount) }

  function Slots(os: seq<Order>, spacing: real): multiset<(real, real)> {
    if os == [] then multiset{}
    else Slots(os[..|os| - 1], spacing) + multiset{SlotOf(os[|os| - 1], spacing)}
  }

  /** The full layout around an anchor, one order per rung. */
  function Layout(p: Params, levels: seq<GridLevel>): seq<Order> {
    seq(|levels|, i requires 0 <= i < |levels| => LayoutOrder(p, levels[i]))
  }

  /** The slots a grid anchored at `anchor` offers: one per rung. */
  function GridSlots(p: Params, anchor: real, spacingPct: real): multiset<(real, real)> {
    Slots(Layout(p, Levels(p, spacingPct, anchor)), GridSpacing(anchor, spacingPct))
  }

  /** An order and its counter share their slot. */
  lemma {:induction false} CounterKeepsSlot(o: Order, spacing: real)
    ensures SlotOf(Counter(o, spacing), spacing) == SlotOf(o, spacing)
    ensures Counter(o, spacing).side != o.side
    ensures Counter(Counter(o, spacing), spacing) == o.(isCounter := true)
  {
  }

  lemma {:induction false} SlotsAppend(xs: seq<Order>, ys: seq<Order>, spacing: real)
    ensures Slots(xs + ys, spacing) == Slots(xs, spacing) + Slots(ys, spacing)
  {
    if ys == [] {
      assert xs + ys == xs;
    } else {
      var n := |ys| - 1;
      var slot := multiset{SlotOf(ys[n], spacing)};
      SlotsAppend(xs, ys[..n], spacing);
      Sequences.AppendSplit(xs, ys);
      assert Slots(xs + ys, spacing) == Slots(xs + ys[..n], spacing) + slot;
      hide Slots, SlotOf;
      Sequences.MultisetAssoc(Slots(xs, spacing), Slots(ys[..n], spacing), slot);
    }
  }

  lemma {:induction false} SlotsSelect(os: seq<Order>, high: real, low: real, spacing: real)
    ensures Slots(os, spacing) ==
            Slots(Select(os, high, low, true), spacing) + Slots(Select(os, high, low, false), spacing)
  {
    if os != [] {
      var n := |os| - 1;
      SlotsSelect(os[..n], high, low, spacing);
      var side := Select(os[..n], high, low, Touched(os[n], high, low));
      assert (side + [os[n]])[..|side|] == side;
    }
  }

  lemma {:induction false} SettleSlots(p: Params, b: Book, os: seq<Order>)
    ensures Slots(Settle(p, b, os).orders, b.curSpacing) <= Slots(os, b.curSpacing)
    ensures Settle(p, b, os).curSpacing == b.curSpacing
  {
    if os != [] {
      var n := |os| - 1;
      SettleSlots(p, b, os[..n]);
      var before := Settle(p, b, os[..n]).orders;
      var c := Counter(os[n], b.curSpacing);
      CounterKeepsSlot(os[n], b.curSpacing);
      assert (before + [c])[..|before|] == before;
    }
  }

  /** A bar moves orders up and down inside their slots; it neither creates a slot nor
      duplicates one, nor changes an amount. */
  lemma {:induction false} BarKeepsSlots(p: Params, b: Book, high: real, low: real)
    ensures var b' := ProcessBar(p, b, high, low);
            && Slots(b'.orders, b.curSpacing) <= Slots(b.orders, b.curSpacing)
            && b'.curSpacing == b.curSpacing && b'.anchor == b.anchor
            && b'.lowEdge == b.lowEdge && b'.highEdge == b.highEdge
  {
    var hit := Select(b.orders, high, low, true);
    SettleSlots(p, b, hit);
    SettleFrame(p, b, hit);
    SlotsSelect(b.orders, high, low, b.curSpacing);
    SlotsAppend(Select(b.orders, high, low, false), Settle(p, b, hit).orders, b.curSpacing);
  }

  lemma {:induction false} SettleFrame(p: Params, b: Book, os: seq<Order>)
    ensures var s := Settle(p, b, os);
            && s.anchor == b.anchor && s.lowEdge == b.lowEdge && s.highEdge == b.highEdge
            && s.spacingPct == b.spacingPct && s.reanchors == b.reanchors
  {
    if os != [] { SettleFrame(p, b, os[..|os| - 1]); }
  }

  lemma {:induction false} SlotsSnoc(os: seq<Order>, o: Order, spacing: real)
    ensures Slots(os + [o], spacing) == Slots(os, spacing) + multiset{SlotOf(o, spacing)}
  {
    assert (os + [o])[..|os|] == os;
  }

  lemma {:induction false} PlaceSlots(b: Book, o: Order, spacing: real)
    ensures Slots(Place(b, o).orders, spacing) <= Slots(b.orders, spacing) + multiset{SlotOf(o, spacing)}
    ensures Place(b, o).(freeUsd := b.freeUsd, freeBtc := b.freeBtc, orders := b.orders) == b
  {
    SlotsSnoc(b.orders, o, spacing);
  }

  lemma {:induction false} PlaceLevelsSlots(p: Params, b: Book, levels: seq<GridLevel>, spacing: real)
    ensures var l := PlaceLevels(p, b, levels);
            && Slots(l.orders, spacing) <= Slots(b.orders, spacing) + Slots(Layout(p, levels), spacing)
            && l.(freeUsd := b.freeUsd, freeBtc := b.freeBtc, orders := b.orders) == b
  {
    if levels != [] {
      hide Place, SlotOf, LayoutOrder;
      var n := |levels| - 1;
      PlaceLevelsSlots(p, b, levels[..n], spacing);
      PlaceSlots(PlaceLevels(p, b, levels[..n]), LayoutOrder(p, levels[n]), spacing);
      SlotsSnoc(Layout(p, levels[..n]), LayoutOrder(p, levels[n]), spacing);
      LayoutSnoc(p, levels);
      hide Slots, Layout;
    }
  }

  lemma {:induction false} LayoutSnoc(p: Params, levels: seq<GridLevel>)
    requires levels != []
    ensures Layout(p, levels) == Layout(p, levels[..|levels| - 1]) + [LayoutOrder(p, levels[|levels| - 1])]
  {
    hide LayoutOrder;
  }

  /** The ladder invariant: unless the book is empty, the cached geometry is that of one laid
      grid, and the book occupies each of that grid's slots at most once. */
  ghost predicate OnLadder(p: Params, b: Book) {
    b.orders != [] ==>
      exists pct: real :: LaidWith(p, b, pct)
  }

  predicate LaidWith(p: Params, b: Book, pct: real) {
    var levels := Levels(p, pct, b.anchor);
    && pct > 0.0 && b.anchor > 0.0
    && b.curSpacing == GridSpacing(b.anchor, pct)
    && levels != []
    && b.lowEdge == levels[0].price && b.highEdge == levels[|levels| - 1].price
    && Slots(b.orders, b.curSpacing) <= GridSlots(p, b.anchor, pct)
  }

  /** Laying a grid caches its geometry, reserves funds and adds orders, and nothing else. */
  lemma {:induction false} LayFrame(p: Params, b: Book, anchor: real)
    ensures LayGrid(p, b, anchor).(freeUsd := b.freeUsd, freeBtc := b.freeBtc, orders := b.orders) ==
            Cached(p, b, anchor)
  {
    PlaceLevelsSlots(p, Cached(p, b, anchor), Levels(p, b.spacingPct, anchor), 0.0);
  }

  lemma {:induction false} LayOnLadder(p: Params, b: Book, anchor: real)
    requires b.orders == [] && anchor > 0.0 && b.spacingPct > 0.0
    ensures OnLadder(p, LayGrid(p, b, anchor))
    ensures LayGrid(p, b, anchor).spacingPct == b.spacingPct
  {
    var levels := Levels(p, b.spacingPct, anchor);
    PlaceLevelsSlots(p, Cached(p, b, anchor), levels, GridSpacing(anchor, b.spacingPct));
    LaySize(p, b, anchor);
    if levels != [] {
      assert LaidWith(p, LayGrid(p, b, anchor), b.spacingPct);
    }
  }

  lemma {:induction false} StepOnLadder(p: Params, b: Book, a: Action)
    requires OnLadder(p, b) && b.spacingPct > 0.0 && Proper(b, a)
    ensures OnLadder(p, Step(p, b, a)) && Step(p, b, a).spacingPct > 0.0
  {
    match a {
      case Lay(anchor) => LayOnLadder(p, b, anchor);
      case Reanchor(price) =>
        if NeedsReanchor(p, b, price) {
          LayOnLadder(p, CancelAll(b), price);
          var laid := LayGrid(p, CancelAll(b), price);
          if laid.orders != [] {
            var pct :| LaidWith(p, laid, pct);
            assert LaidWith(p, Step(p, b, a), pct);
          }
        }
      case Bar(high, low) =>
        BarKeepsSlots(p, b, high, low);
        SettleFrame(p, b, Select(b.orders, high, low, true));
        if b.orders != [] {
          var pct :| LaidWith(p, b, pct);
          assert LaidWith(p, Step(p, b, a), pct);
        }
      case Spacing(s) =>
        if b.orders != [] {
          var pct :| LaidWith(p, b, pct);
          assert LaidWith(p, Step(p, b, a), pct);
        }
      case _ =>
    }
  }

  /** The ladder invariant holds throughout every run that starts with an empty book. */
  lemma {:induction false} RunOnLadder(p: Params, b: Book, script: seq<Action>)
    requires b.orders == [] && b.spacingPct > 0.0 && ProperRun(p, b, script)
    ensures OnLadder(p, Run(p, b, script)) && Run(p, b, script).spacingPct > 0.0
  {
    if script != [] {
      var n := |script| - 1;
      RunOnLadder(p, b, script[..n]);
      StepOnLadder(p, Run(p, b, script[..n]), script[n]);
    }
  }

  // --- what the ladder gives ---

  /** Cell `i` of a grid, counted from the lowest rung. */
  function CellAt(p: Params, anchor: real, delta: real, i: int): real {
    anchor + (i - Max0(p.levelsBelow)) as real * delta
  }

  lemma {:induction false} CellsDistinct(p: Params, anchor: real, delta: real, i: int, j: int)
    requires delta > 0.0 && i < j
    ensures CellAt(p, anchor, delta, i) < CellAt(p, anchor, delta, j)
    ensures CellAt(p, anchor, delta, j) - CellAt(p, anchor, delta, i) >= delta
  {
    var m, n := i - Max0(p.levelsBelow), j - Max0(p.levelsBelow);
    ScaleSplit(m, n, delta);
    ScaleMono(1, n - m, delta);
  }

  function HomeSlot(p: Params, level: GridLevel, delta: real): (real, real) {
    SlotOf(LayoutOrder(p, level), delta)
  }

  /** Rungs are laid one per cell. */
  predicate OnePerCell(p: Params, levels: seq<GridLevel>, anchor: real, delta: real) {
    forall i :: 0 <= i < |levels| ==> HomeSlot(p, levels[i], delta).0 == CellAt(p, anchor, delta, i)
  }

  lemma {:induction false} LevelsOnePerCell(p: Params, anchor: real, pct: real)
    ensures OnePerCell(p, Levels(p, pct, anchor), anchor, GridSpacing(anchor, pct))
  {
    var levels := Levels(p, pct, anchor);
    forall i | 0 <= i < |levels|
      ensures HomeSlot(p, levels[i], GridSpacing(anchor, pct)).0 == CellAt(p, anchor, GridSpacing(anchor, pct), i)
    {
      LevelCell(anchor, pct, p.levelsAbove, p.levelsBelow, i);
    }
  }

  lemma {:induction false} GridSlotCells(
    p: Params, levels: seq<GridLevel>, anchor: real, delta: real, slot: (real, real))
    requires delta > 0.0 && OnePerCell(p, levels, anchor, delta)
    ensures Slots(Layout(p, levels), delta)[slot] <= 1
    ensures slot in Slots(Layout(p, levels), delta) ==>
              exists i :: 0 <= i < |levels| && slot == HomeSlot(p, levels[i], delta)
  {
    if levels != [] {
      var n := |levels| - 1;
      var rest := Layout(p, levels[..n]);
      GridSlotCells(p, levels[..n], anchor, delta, slot);
      SlotsSnoc(rest, LayoutOrder(p, levels[n]), delta);
      assert Layout(p, levels) == rest + [LayoutOrder(p, levels[n])];
      hide LayoutOrder, SlotOf, CellAt;
      assert slot == HomeSlot(p, levels[n], delta) || slot !in multiset{HomeSlot(p, levels[n], delta)};
      if slot in Slots(rest, delta) {
        var i :| 0 <= i < n && slot == HomeSlot(p, levels[i], delta);
        CellsDistinct(p, anchor, delta, i, n);
      }
    }
  }

  lemma {:induction false} SlotSplit(os: seq<Order>, i: nat, spacing: real)
    requires i < |os|
    ensures Slots(os, spacing) ==
            Slots(os[..i], spacing) + multiset{SlotOf(os[i], spacing)} + Slots(os[i + 1..], spacing)
  {
    hide Slots, SlotOf;
    SlotsSnoc(os[..i], os[i], spacing);
    assert os[..i + 1] == os[..i] + [os[i]];
    SlotsAppend(os[..i + 1], os[i + 1..], spacing);
    assert os == os[..i + 1] + os[i + 1..];
  }

  lemma {:induction false} SlotMember(os: seq<Order>, i: nat, spacing: real)
    requires i < |os|
    ensures SlotOf(os[i], spacing) in Slots(os, spacing)
  {
    SlotSplit(os, i, spacing);
    hide SlotOf, Slots;
  }

  lemma {:induction false} SameCellTwice(os: seq<Order>, k: nat, m: nat, spacing: real)
    requires k < m < |os| && SlotOf(os[k], spacing) == SlotOf(os[m], spacing)
    ensures Slots(os, spacing)[SlotOf(os[k], spacing)] >= 2
  {
    SlotSplit(os, k, spacing);
    SlotMember(os[k + 1..], m - k - 1, spacing);
    assert os[k + 1..][m - k - 1] == os[m];
    hide SlotOf, Slots;
  }

  /** A price in cell `i` lies between the lowest and the highest rung of a two-sided grid. */
  lemma {:induction false} CellWithinEdges(p: Params, anchor: real, pct: real, i: nat, side: Side, price: real)
    requires p.levelsBelow >= 1 && p.levelsAbove >= 1 && anchor > 0.0 && pct > 0.0
    requires i < |Levels(p, pct, anchor)|
    requires Cell(side, price, GridSpacing(anchor, pct)) == CellAt(p, anchor, GridSpacing(anchor, pct), i)
    ensures var levels := Levels(p, pct, anchor);
            levels[0].price <= price <= levels[|levels| - 1].price
  {
    var levels, delta := Levels(p, pct, anchor), GridSpacing(anchor, pct);
    SpacingPositive(anchor, pct);
    LevelsOnePerCell(p, anchor, pct);
    EdgeSides(p, anchor, pct);
    hide GridSpacing, ComputeGridLevels, CellAt;
    assert HomeSlot(p, levels[0], delta).0 == CellAt(p, anchor, delta, 0);
    assert HomeSlot(p, levels[|levels| - 1], delta).0 == CellAt(p, anchor, delta, |levels| - 1);
    if i > 0 { CellsDistinct(p, anchor, delta, 0, i); }
    if i < |levels| - 1 { CellsDistinct(p, anchor, delta, i, |levels| - 1); }
  }

  lemma {:induction false} EdgeSides(p: Params, anchor: real, pct: real)
    requires p.levelsBelow >= 1 && p.levelsAbove >= 1
    ensures var levels := Levels(p, pct, anchor);
            |levels| >= 2 && levels[0].side == Buy && levels[|levels| - 1].side == Sell
  {
  }

  /** A price a whole number of spacings from the anchor, no further out than the grid: a rung's
      price, or the anchor itself for `m` zero. */
  predicate AtRung(p: Params, b: Book, price: real, m: int) {
    0 <= m + Max0(p.levelsBelow) && m <= Max0(p.levelsAbove) && price == b.anchor + m as real * b.curSpacing
  }

  lemma {:induction false} CellPrice(p: Params, b: Book, side: Side, price: real, i: nat)
    requires i < Max0(p.levelsBelow) + Max0(p.levelsAbove)
    requires Cell(side, price, b.curSpacing) == CellAt(p, b.anchor, b.curSpacing, i)
    ensures AtRung(p, b, price, i - Max0(p.levelsBelow) + (if side == Buy then 0 else 1))
  {
    var m := i - Max0(p.levelsBelow);
    assert (m + 1) as real * b.curSpacing == m as real * b.curSpacing + b.curSpacing;
  }

  /** On the ladder every open order trades in the cell of some rung, with the amount laid for
      that rung; its price is that of a rung or, in the two middle cells, the anchor, and lies
      between the cached edges when both sides have a rung. */
  lemma {:induction false} OrdersOnRungs(p: Params, b: Book, k: nat)
    requires OnLadder(p, b) && k < |b.orders|
    ensures exists pct: real, i: nat ::
              && LaidWith(p, b, pct) && i < |Levels(p, pct, b.anchor)|
              && SlotOf(b.orders[k], b.curSpacing) == HomeSlot(p, Levels(p, pct, b.anchor)[i], b.curSpacing)
              && Cell(b.orders[k].side, b.orders[k].price, b.curSpacing) == CellAt(p, b.anchor, b.curSpacing, i)
    ensures exists m: int :: AtRung(p, b, b.orders[k].price, m)
    ensures p.levelsBelow >= 1 && p.levelsAbove >= 1 ==> b.lowEdge <= b.orders[k].price <= b.highEdge
  {
    var pct :| LaidWith(p, b, pct);
    var levels := Levels(p, pct, b.anchor);
    var slot := SlotOf(b.orders[k], b.curSpacing);
    SpacingPositive(b.anchor, pct);
    LevelsOnePerCell(p, b.anchor, pct);
    SlotMember(b.orders, k, b.curSpacing);
    GridSlotCells(p, levels, b.anchor, b.curSpacing, slot);
    LevelCount(p, pct, b.anchor);
    hide Levels, LayoutOrder, CellAt, Slots, GridSlots, AtRung;
    var i: nat :| i < |levels| && slot == HomeSlot(p, levels[i], b.curSpacing);
    CellPrice(p, b, b.orders[k].side, b.orders[k].price, i);
    if p.levelsBelow >= 1 && p.levelsAbove >= 1 {
      CellWithinEdges(p, b.anchor, pct, i, b.orders[k].side, b.orders[k].price);
    }
  }

  /** No two open orders share a cell, so no two are equal and removal by equality is
      never ambiguous. */
  lemma {:induction false} OrdersInDistinctCells(p: Params, b: Book, k: nat, m: nat)
    requires OnLadder(p, b) && k < m < |b.orders|
    ensures Cell(b.orders[k].side, b.orders[k].price, b.curSpacing) !=
            Cell(b.orders[m].side, b.orders[m].price, b.curSpacing)
    ensures b.orders[k] != b.orders[m]
  {
    var pct :| LaidWith(p, b, pct);
    var levels := Levels(p, pct, b.anchor);
    SpacingPositive(b.anchor, pct);
    LevelsOnePerCell(p, b.anchor, pct);
    var first, second := SlotOf(b.orders[k], b.curSpacing), SlotOf(b.orders[m], b.curSpacing);
    SlotMember(b.orders, k, b.curSpacing);
    SlotMember(b.orders, m, b.curSpacing);
    GridSlotCells(p, levels, b.anchor, b.curSpacing, first);
    GridSlotCells(p, levels, b.anchor, b.curSpacing, second);
    var i: nat :| i < |levels| && first == HomeSlot(p, levels[i], b.curSpacing);
    var j: nat :| j < |levels| && second == HomeSlot(p, levels[j], b.curSpacing);
    assert i != j by { if i == j { SameCellTwice(b.orders, k, m, b.curSpacing); assert false; } }
    if i < j {
      CellsDistinct(p, b.anchor, b.curSpacing, i, j);
    } else {
      CellsDistinct(p, b.anchor, b.curSpacing, j, i);
    }
  }

  // --- the seed ---

  /** The starting portfolio of a static run: twice the cash for the BUY side and twice the
      inventory for the SELL side, valued at the anchor. */
  function Seed(p: Params, spacingPct: real, anchor: real): Book
    requires anchor != 0.0
  {
    FreshBook(spacingPct, p.orderSize * p.levelsBelow as real * 2.0, p.orderSize * p.levelsAbove as real * 2.0 / anchor)
  }

  function CountLevels(levels: seq<GridLevel>, side: Side): nat {
    if levels == [] then 0
    else CountLevels(levels[..|levels| - 1], side) + (if levels[|levels| - 1].side == side then 1 else 0)
  }

  lemma {:induction false} CountPrefix(p: Params, pct: real, anchor: real, n: nat)
    requires n <= |Levels(p, pct, anchor)|
    ensures CountLevels(Levels(p, pct, anchor)[..n], Buy) <= Max0(p.levelsBelow)
    ensures CountLevels(Levels(p, pct, anchor)[..n], Sell) == Max0(n - Max0(p.levelsBelow)) <= Max0(p.levelsAbove)
    ensures CountLevels(Levels(p, pct, anchor)[..n], Buy) + CountLevels(Levels(p, pct, anchor)[..n], Sell) == n
  {
    if n > 0 {
      var levels := Levels(p, pct, anchor);
      CountPrefix(p, pct, anchor, n - 1);
      LevelCell(anchor, pct, p.levelsAbove, p.levelsBelow, n - 1);
      assert levels[..n][..n - 1] == levels[..n - 1];
    }
  }

  /** Each rung costs at most one order size of cash, or one order size of inventory valued
      at the anchor. */
  predicate Affordable(p: Params, level: GridLevel, anchor: real) requires anchor > 0.0 {
    var o := LayoutOrder(p, level);
    if o.side == Buy then Notional(o) <= p.orderSize else o.amount <= p.orderSize / anchor
  }

  lemma {:induction false} LevelAffordable(p: Params, pct: real, anchor: real, i: nat)
    requires NonNegative(p) && anchor > 0.0 && pct > 0.0 && i < |Levels(p, pct, anchor)|
    ensures Affordable(p, Levels(p, pct, anchor)[i], anchor)
  {
    var level := Levels(p, pct, anchor)[i];
    UnitsTimesPrice(p.orderSize, level.price);
    if level.side == Sell {
      LevelCell(anchor, pct, p.levelsAbove, p.levelsBelow, i);
      SpacingPositive(anchor, pct);
      ScaleMono(0, i - Max0(p.levelsBelow), GridSpacing(anchor, pct));
      CheaperBuysMore(p.orderSize, anchor, level.price);
    }
  }

  lemma {:induction false} CheaperBuysMore(size: real, low: real, high: real)
    requires size >= 0.0 && 0.0 < low <= high
    ensures Units(size, high) <= size / low
  {
    var a, b := size / high, size / low;
    assert a * high == size && b * low == size;
    if a > b { assert a * high >= a * low > b * low; }
  }

  function Budget(unit: real, n: nat): real { unit * n as real }

  lemma {:induction false} BudgetSnoc(unit: real, n: nat)
    requires unit >= 0.0
    ensures Budget(unit, n + 1) == Budget(unit, n) + unit >= Budget(unit, n) >= 0.0
  {
  }

  lemma {:induction false} PlaceAllAffordable(p: Params, b: Book, levels: seq<GridLevel>, anchor: real, unit: real)
    requires p.orderSize >= 0.0 && anchor > 0.0 && unit == p.orderSize / anchor >= 0.0
    requires forall i :: 0 <= i < |levels| ==> Affordable(p, levels[i], anchor)
    requires b.freeUsd >= Budget(p.orderSize, CountLevels(levels, Buy))
    requires b.freeBtc >= Budget(unit, CountLevels(levels, Sell))
    ensures var l := PlaceLevels(p, b, levels);
            && l.orders == b.orders + Layout(p, levels)
            && l.freeUsd >= b.freeUsd - Budget(p.orderSize, CountLevels(levels, Buy))
            && l.freeBtc >= b.freeBtc - Budget(unit, CountLevels(levels, Sell))
  {
    if levels == [] {
      assert Layout(p, levels) == [];
    } else {
      var n := |levels| - 1;
      BudgetSnoc(p.orderSize, CountLevels(levels[..n], Buy));
      BudgetSnoc(unit, CountLevels(levels[..n], Sell));
      hide Budget;
      PlaceAllAffordable(p, b, levels[..n], anchor, unit);
      assert Affordable(p, levels[n], anchor);
      assert Layout(p, levels) == Layout(p, levels[..n]) + [LayoutOrder(p, levels[n])];
      PlaceAffordable(p, PlaceLevels(p, b, levels[..n]), levels[n], anchor, unit);
      hide LayoutOrder, Place, Affordable;
    }
  }

  lemma {:induction false} PlaceAffordable(p: Params, b: Book, level: GridLevel, anchor: real, unit: real)
    requires anchor > 0.0 && unit == p.orderSize / anchor && Affordable(p, level, anchor)
    requires if level.side == Buy then b.freeUsd >= p.orderSize else b.freeBtc >= unit
    ensures var b' := Place(b, LayoutOrder(p, level));
            && b'.orders == b.orders + [LayoutOrder(p, level)]
            && b'.freeUsd >= b.freeUsd - (if level.side == Buy then p.orderSize else 0.0)
            && b'.freeBtc >= b.freeBtc - (if level.side == Sell then unit else 0.0)
  {
    hide Units;
  }

  lemma {:induction false} BudgetMono(unit: real, m: nat, n: nat)
    requires unit >= 0.0 && m <= n
    ensures Budget(unit, m) <= Budget(unit, n)
  {
    assert unit * (n - m) as real >= 0.0;
  }

  /** The two-fold seed makes every initial reservation succeed, for every anchor, spacing
      and pair of level counts: the first book is the complete layout, and the price of the whole
      BUY side is still left in cash. */
  lemma {:induction false} SeedFillsTheLadder(p: Params, pct: real, anchor: real)
    requires NonNegative(p) && anchor > 0.0 && pct > 0.0
    requires p.levelsAbove >= 0 && p.levelsBelow >= 0
    ensures LayGrid(p, Seed(p, pct, anchor), anchor).orders == Layout(p, Levels(p, pct, anchor))
    ensures LayGrid(p, Seed(p, pct, anchor), anchor).freeUsd >= Budget(p.orderSize, p.levelsBelow)
  {
    var levels, unit := Levels(p, pct, anchor), p.orderSize / anchor;
    forall i | 0 <= i < |levels| ensures Affordable(p, levels[i], anchor) {
      LevelAffordable(p, pct, anchor, i);
    }
    assert levels[..|levels|] == levels;
    CountPrefix(p, pct, anchor, |levels|);
    SeedCovers(p, pct, anchor);
    BudgetMono(p.orderSize, CountLevels(levels, Buy), p.levelsBelow);
    BudgetMono(unit, CountLevels(levels, Sell), p.levelsAbove);
    hide Budget, Levels, Affordable, NonNegative, CountLevels, PlaceLevels, LayoutOrder, GridSpacing;
    PlaceAllAffordable(p, Cached(p, Seed(p, pct, anchor), anchor), levels, anchor, unit);
  }

  lemma {:induction false} SeedCovers(p: Params, pct: real, anchor: real)
    requires NonNegative(p) && anchor > 0.0 && p.levelsAbove >= 0 && p.levelsBelow >= 0
    ensures p.orderSize / anchor >= 0.0
    ensures Seed(p, pct, anchor).freeUsd == Budget(p.orderSize, p.levelsBelow) + Budget(p.orderSize, p.levelsBelow)
    ensures Budget(p.orderSize, p.levelsBelow) >= 0.0
    ensures Seed(p, pct, anchor).freeBtc >= Budget(p.orderSize / anchor, p.levelsAbove) >= 0.0
  {
    ScaleCost(p.orderSize, p.levelsBelow as real);
    ScaleCost(p.orderSize, p.levelsAbove as real);
    var above := p.orderSize * p.levelsAbove as real;
    assert above * 2.0 / anchor == above / anchor * 2.0;
    assert p.orderSize / anchor * p.levelsAbove as real == above / anchor;
    assert above / anchor >= 0.0;
  }
}
