/** The static run, from its seed to its first re-anchor: the grid is complete and stays complete. */
module StaticHarvest {
  import opened GridGeometry
  import opened OrderBook
  import opened BookSafety
  import opened RunSim
  import opened Regimes
  import opened RegimeTheorems
  import opened GridHarvest
  import opened GridReturns
  import opened GridAttrition
  import BookValue

  // --- the run as a lay followed by bars ---

  lemma {:induction false} ScriptShape(bars: seq<Candle>, g: Guardrail, i: nat)
    requires g.defense.NoDefense? && 0 < |bars| && i <= |bars|
    ensures !Defensive(bars, g, i)
    ensures Script(bars, g, i) == [Lay(bars[0].open)] + BarScript(bars[..i])
  {
    if i > 0 {
      ScriptShape(bars, g, i - 1);
      assert bars[..i][..i - 1] == bars[..i - 1];
      assert bars[..i][i - 1] == bars[i - 1];
    }
  }

  /** The portfolio right after the first grid is laid. */
  function Laid(p: Params, pct: real, anchor: real): Book
    requires anchor != 0.0
  {
    LayGrid(p, Seed(p, pct, anchor), anchor)
  }

  lemma {:induction false} AfterIsTicks(p: Params, pct: real, bars: seq<Candle>, g: Guardrail, i: nat)
    requires g.defense.NoDefense? && 0 < |bars| && i <= |bars| && bars[0].open != 0.0
    ensures After(p, pct, bars, g, i) == Run(p, Laid(p, pct, bars[0].open), BarScript(bars[..i]))
  {
    hide LayGrid, Seed, BarScript, Script;
    var seed := Seed(p, pct, bars[0].open);
    ScriptShape(bars, g, i);
    RunAppend(p, seed, [Lay(bars[0].open)], BarScript(bars[..i]));
    RunShort(p, seed, [Lay(bars[0].open)]);
  }

  /** One bar and its re-anchor check: the re-anchor counter tells whether the check did anything. */
  lemma {:induction false} TickCount(p: Params, b: Book, bar: Candle)
    ensures var mid := ProcessBar(p, b, bar.high, bar.low);
            && mid.reanchors == b.reanchors
            && MaybeReanchor(p, mid, bar.close).reanchors ==
              b.reanchors + (if NeedsReanchor(p, mid, bar.close) then 1 else 0)
  {
    SettleFrame(p, b, Select(b.orders, bar.high, bar.low, true));
    LayFrame(p, CancelAll(ProcessBar(p, b, bar.high, bar.low)), bar.close);
    hide LayGrid, NeedsReanchor;
  }

  lemma {:induction false} BarScriptLast(p: Params, b: Book, window: seq<Candle>)
    requires window != []
    ensures var n := |window| - 1;
            var before, bar := BarScript(window[..n]), window[n];
            var mid := Run(p, b, before);
            && BarScript(window) == before + [Bar(bar.high, bar.low)] + [Reanchor(bar.close)]
            && Run(p, b, before + [Bar(bar.high, bar.low)]) == ProcessBar(p, mid, bar.high, bar.low)
            && Run(p, b, BarScript(window)) == MaybeReanchor(p, ProcessBar(p, mid, bar.high, bar.low), bar.close)
  {
    var n := |window| - 1;
    var before, bar := BarScript(window[..n]), window[n];
    hide ProcessBar, MaybeReanchor, Run;
    assert BarScript(window) == before + [Bar(bar.high, bar.low)] + [Reanchor(bar.close)];
    RunSnoc(p, b, before, Bar(bar.high, bar.low));
    RunSnoc(p, b, before + [Bar(bar.high, bar.low)], Reanchor(bar.close));
  }

  lemma {:induction false} CountRises(p: Params, b: Book, window: seq<Candle>)
    ensures Run(p, b, BarScript(window)).reanchors >= b.reanchors
  {
    hide ProcessBar, MaybeReanchor, NeedsReanchor;
    if window != [] {
      var n := |window| - 1;
      CountRises(p, b, window[..n]);
      BarScriptLast(p, b, window);
      TickCount(p, Run(p, b, BarScript(window[..n])), window[n]);
    }
  }

  /** As long as the re-anchor counter stands still, the grid does. */
  lemma {:induction false} CountedUndisturbed(p: Params, b: Book, window: seq<Candle>)
    requires Run(p, b, BarScript(window)).reanchors == b.reanchors
    ensures Undisturbed(p, b, BarScript(window))
  {
    hide ProcessBar, MaybeReanchor, NeedsReanchor, Run;
    if window != [] {
      var n := |window| - 1;
      var before, bar := BarScript(window[..n]), window[n];
      CountRises(p, b, window[..n]);
      BarScriptLast(p, b, window);
      TickCount(p, Run(p, b, before), bar);
      CountedUndisturbed(p, b, window[..n]);
      UndisturbedSnoc(p, b, before, Bar(bar.high, bar.low));
      UndisturbedSnoc(p, b, before + [Bar(bar.high, bar.low)], Reanchor(bar.close));
    }
  }

  lemma {:induction false} UndisturbedSnoc(p: Params, b: Book, script: seq<Action>, a: Action)
    requires Undisturbed(p, b, script)
    requires a.Bar? || (a.Reanchor? && !NeedsReanchor(p, Run(p, b, script), a.price))
    ensures Undisturbed(p, b, script + [a])
  {
    assert (script + [a])[..|script|] == script;
  }

  // --- the first book is funded ---

  lemma {:induction false} LayoutFees(p: Params, levels: seq<GridLevel>, anchor: real, spacing: real)
    requires NonNegative(p) && MakerRate(p) <= 1.0 && anchor > 0.0
    requires forall i :: 0 <= i < |levels| ==>
             Affordable(p, levels[i], anchor) && Backed(LayoutOrder(p, levels[i]), spacing)
    ensures BuyFees(p, Layout(p, levels)) <= Budget(p.orderSize, CountLevels(levels, Buy))
  {
    hide Affordable, LayoutOrder, Backed, NonNegative;
    if levels == [] {
      assert Layout(p, levels) == [];
    } else {
      var n := |levels| - 1;
      var o := LayoutOrder(p, levels[n]);
      assert forall i :: 0 <= i < n ==> levels[..n][i] == levels[i];
      LayoutFees(p, levels[..n], anchor, spacing);
      LayoutSnoc(p, levels);
      BuyFeesSnoc(p, Layout(p, levels[..n]), o);
      RungFee(p, levels[n], anchor, spacing);
      OrderSizePositive(p);
      BudgetSnoc(p.orderSize, CountLevels(levels[..n], Buy));
      hide Layout, BuyFees, Budget;
    }
  }

  lemma {:induction false} OrderSizePositive(p: Params)
    requires NonNegative(p)
    ensures p.orderSize >= 0.0
  {
  }

  lemma {:induction false} RungFee(p: Params, level: GridLevel, anchor: real, spacing: real)
    requires NonNegative(p) && MakerRate(p) <= 1.0 && anchor > 0.0
    requires Affordable(p, level, anchor) && Backed(LayoutOrder(p, level), spacing)
    ensures LayoutOrder(p, level).side == level.side
    ensures BuyFee(p, LayoutOrder(p, level)) <= if level.side == Buy then p.orderSize else 0.0
  {
    hide Units, MakerRate, Notional, NonNegative, MakerCost;
    var o := LayoutOrder(p, level);
    if o.side == Buy {
      CostIsShare(p, o);
      ShareOf(Notional(o), MakerRate(p));
    }
  }

  lemma {:induction false} CostIsShare(p: Params, o: Order)
    ensures MakerCost(p, o) == Share(Notional(o), MakerRate(p))
  {
  }

  function Share(x: real, rate: real): real { x * rate }

  lemma {:induction false} ShareOf(x: real, rate: real)
    requires x >= 0.0 && rate <= 1.0
    ensures Share(x, rate) <= x
  {
    assert x * (1.0 - rate) >= 0.0;
  }

  /** Every rung's spread covers the maker fees of its two legs. */
  predicate ViableGrid(p: Params, pct: real, anchor: real) {
    AllViable(p, Layout(p, Levels(p, pct, anchor)), GridSpacing(anchor, pct))
  }

  lemma {:induction false} LaidFunded(p: Params, pct: real, anchor: real)
    requires SaneGrid(p, pct) && anchor > 0.0 && MakerRate(p) <= 1.0
    ensures var b := Laid(p, pct, anchor);
            && b.orders == Layout(p, Levels(p, pct, anchor)) && b.curSpacing == GridSpacing(anchor, pct)
            && b.reanchors == 0 && Solvent(b) && Funded(p, b)
  {
    hide LayGrid, Affordable, Backed, LayoutOrder, Levels, BuyFees, Budget, CountLevels, GridSpacing;
    var levels, spacing := Levels(p, pct, anchor), GridSpacing(anchor, pct);
    SeedSolvent(p, pct, anchor);
    LaySolvent(p, Seed(p, pct, anchor), anchor);
    SeedFillsTheLadder(p, pct, anchor);
    LayFrame(p, Seed(p, pct, anchor), anchor);
    forall i | 0 <= i < |levels|
      ensures Affordable(p, levels[i], anchor) && Backed(LayoutOrder(p, levels[i]), spacing)
    {
      LevelAffordable(p, pct, anchor, i);
      LayoutBacked(p, pct, anchor, i);
    }
    LayoutFees(p, levels, anchor, spacing);
    assert levels[..|levels|] == levels;
    CountPrefix(p, pct, anchor, |levels|);
    BudgetMono(p.orderSize, CountLevels(levels, Buy), p.levelsBelow);
  }

  /** An undefended run before its first re-anchor: bars on the grid laid first. */
  predicate OnFirstGrid(p: Params, pct: real, bars: seq<Candle>, g: Guardrail, i: nat)
    requires i <= |bars|
  {
    && g.defense.NoDefense? && Market(bars) && SaneGrid(p, pct)
    && MakerRate(p) <= 1.0 && ViableGrid(p, pct, bars[0].open)
    && After(p, pct, bars, g, i).reanchors == 0
  }

  lemma {:induction false} FirstStretch(p: Params, pct: real, bars: seq<Candle>, g: Guardrail, i: nat)
    requires i <= |bars| && OnFirstGrid(p, pct, bars, g, i)
    ensures var b, ticks := Laid(p, pct, bars[0].open), BarScript(bars[..i]);
            && After(p, pct, bars, g, i) == Run(p, b, ticks)
            && b.orders == Layout(p, Levels(p, pct, bars[0].open)) && b.curSpacing == GridSpacing(bars[0].open, pct)
            && NonNegative(p) && Solvent(b) && ProperRun(p, b, ticks) && Undisturbed(p, b, ticks)
            && Funded(p, b) && AllViable(p, b.orders, b.curSpacing) && OnLadder(p, b)
  {
    hide Laid, After, Run, Slots, Solvent, Funded, BarScript, GridSpacing, Layout, Levels, AllViable, Undisturbed,
      ProperRun, NonNegative, OnLadder;
    var anchor, b := bars[0].open, Laid(p, pct, bars[0].open);
    AfterIsTicks(p, pct, bars, g, i);
    LaidFunded(p, pct, anchor);
    LaidLadder(p, pct, anchor);
    CountedUndisturbed(p, b, bars[..i]);
    assert forall k :: 0 <= k < i ==> bars[..i][k] == bars[k];
    BarScriptProper(p, b, bars[..i]);
  }

  lemma {:induction false} LaidLadder(p: Params, pct: real, anchor: real)
    requires pct > 0.0 && anchor > 0.0
    ensures OnLadder(p, Laid(p, pct, anchor))
  {
    hide LayGrid, OnLadder;
    LayOnLadder(p, Seed(p, pct, anchor), anchor);
  }

  /** Until its first re-anchor an undefended static run whose spreads cover its fees loses no
      counter: after every bar the book holds exactly one order per rung slot, and free cash has
      not gone below zero. */
  lemma {:induction false} StaticStaysFull(p: Params, pct: real, bars: seq<Candle>, g: Guardrail, i: nat)
    requires i <= |bars| && OnFirstGrid(p, pct, bars, g, i)
    ensures var b := After(p, pct, bars, g, i);
            && |b.orders| == Rungs(p) && Slots(b.orders, b.curSpacing) == GridSlots(p, bars[0].open, pct)
            && b.freeUsd >= 0.0 && b.curSpacing == GridSpacing(bars[0].open, pct)
  {
    hide After, Run, Laid, Slots, Solvent, Funded, BarScript, GridSpacing, AllViable, Undisturbed, ProperRun,
      OnLadder, ViableGrid, SaneGrid, Levels;
    FirstStretch(p, pct, bars, g, i);
    NoCounterLost(p, Laid(p, pct, bars[0].open), BarScript(bars[..i]));
    LevelCount(p, pct, bars[0].open);
  }

  /** In the same run every rung works for itself: the fills in its cell are the turns of the order
      laid on it, with nothing in between, and its cell holds the next turn. */
  lemma {:induction false} StaticRungs(p: Params, pct: real, bars: seq<Candle>, g: Guardrail, i: nat, k: nat)
    requires i <= |bars| && OnFirstGrid(p, pct, bars, g, i)
    requires k < |Levels(p, pct, bars[0].open)|
    ensures var spacing := GridSpacing(bars[0].open, pct);
            var o := LayoutOrder(p, Levels(p, pct, bars[0].open)[k]);
            var cell := Cell(o.side, o.price, spacing);
            var fs := FillsIn(BookValue.FillsOfRun(p, Laid(p, pct, bars[0].open), BarScript(bars[..i])), cell, spacing);
            && fs == Turns(p, o, |fs|, spacing)
            && OrdersIn(After(p, pct, bars, g, i).orders, cell, spacing) == [Turn(o, |fs|, spacing)]
  {
    hide After, Run, Laid, Solvent, Funded, BarScript, GridSpacing, AllViable, Undisturbed, ProperRun, OnLadder,
      ViableGrid, SaneGrid, Levels, OrdersIn, FillsIn, Turns, Turn, Cell, LayoutOrder, BookValue.FillsOfRun,
      NonNegative;
    var b, ticks, spacing := Laid(p, pct, bars[0].open), BarScript(bars[..i]), GridSpacing(bars[0].open, pct);
    var o := LayoutOrder(p, Levels(p, pct, bars[0].open)[k]);
    var cell := Cell(o.side, o.price, spacing);
    FirstStretch(p, pct, bars, g, i);
    LadderCells(p, b, cell);
    assert b.orders[k] == o;
    InCell(b.orders, k, cell, spacing);
    assert OrdersIn(b.orders, cell, spacing) == [o];
    CellHistory(p, b, ticks, cell);
    CellNeverStops(p, b, ticks, cell);
  }

  // --- the return of the run ---

  /** Until its first re-anchor the value of an undefended static run is known in closed form, at
      every mark price and with no condition on spreads or fees: the value of the seed, and per rung
      its completed pairs at the spread less two fees, and its open leg. */
  lemma {:induction false} StaticValue(p: Params, pct: real, bars: seq<Candle>, g: Guardrail, i: nat, q: real)
    requires g.defense.NoDefense? && Market(bars) && SaneGrid(p, pct) && i <= |bars|
    requires After(p, pct, bars, g, i).reanchors == 0
    ensures var anchor := bars[0].open;
            var fs := BookValue.FillsOfRun(p, Laid(p, pct, anchor), BarScript(bars[..i]));
            PortfolioValue(After(p, pct, bars, g, i), q) ==
            PortfolioValue(Seed(p, pct, anchor), q)
            + GridNet(p, Layout(p, Levels(p, pct, anchor)), fs, GridSpacing(anchor, pct), q)
  {
    hide After, Run, LayGrid, PortfolioValue, OnLadder, DistinctCells, Undisturbed, BarScript, GridNet, GridSpacing,
      Layout, Levels, BookValue.FillsOfRun;
    var anchor, b := bars[0].open, Laid(p, pct, bars[0].open);
    AfterIsTicks(p, pct, bars, g, i);
    LaidLayout(p, pct, anchor);
    LayFrame(p, Seed(p, pct, anchor), anchor);
    LaidLadder(p, pct, anchor);
    LadderDistinct(p, b);
    CountedUndisturbed(p, b, bars[..i]);
    GridEarns(p, b, BarScript(bars[..i]), q);
    BookValue.QuietActionsKeepValue(p, Seed(p, pct, anchor), Lay(anchor), q);
  }

  // --- a grid that does not pay for its fees ---

  lemma {:induction false} SelectOnly(os: seq<Order>, k: nat, high: real, low: real)
    requires k < |os| && forall i :: 0 <= i < |os| ==> (Touched(os[i], high, low) <==> i == k)
    ensures Select(os, high, low, true) == [os[k]]
    ensures Select(os, high, low, false) == os[..k] + os[k + 1..]
  {
    hide Touched;
    var n := |os| - 1;
    var before := os[..n];
    assert forall i :: 0 <= i < n ==> before[i] == os[i];
    if k < n {
      SelectOnly(before, k, high, low);
      assert os[..k] + os[k + 1..] == (before[..k] + before[k + 1..]) + [os[n]];
    } else {
      SelectNone(before, high, low);
      assert os[..k] + os[k + 1..] == before;
    }
  }

  lemma {:induction false} SelectNone(os: seq<Order>, high: real, low: real)
    requires forall i :: 0 <= i < |os| ==> !Touched(os[i], high, low)
    ensures Select(os, high, low, true) == [] && Select(os, high, low, false) == os
  {
    hide Touched;
    if os != [] {
      assert forall i :: 0 <= i < |os| - 1 ==> os[..|os| - 1][i] == os[i];
      SelectNone(os[..|os| - 1], high, low);
    }
  }

  /** The highest BUY of a fresh grid. */
  function TopBuy(p: Params, pct: real, anchor: real): Order
    requires p.levelsBelow >= 1
  {
    LevelCount(p, pct, anchor);
    LayoutOrder(p, Levels(p, pct, anchor)[p.levelsBelow - 1])
  }

  /** A dip to the highest BUY and a return to the anchor touch no other order of a fresh grid. */
  lemma {:induction false} TopBuyAlone(p: Params, pct: real, anchor: real, i: nat)
    requires p.levelsBelow >= 1 && anchor > 0.0 && pct > 0.0 && i < |Levels(p, pct, anchor)|
    ensures var o, other := TopBuy(p, pct, anchor), LayoutOrder(p, Levels(p, pct, anchor)[i]);
            && o.side == Buy && o.price == anchor - GridSpacing(anchor, pct)
            && (Touched(other, o.price, o.price) <==> i == p.levelsBelow - 1)
            && (i != p.levelsBelow - 1 ==> !Touched(other, anchor, anchor))
  {
    var top := p.levelsBelow - 1;
    LevelCount(p, pct, anchor);
    LevelCell(anchor, pct, p.levelsAbove, p.levelsBelow, top);
    SpacingPositive(anchor, pct);
    if i < top { LadderShape(anchor, pct, p.levelsAbove, p.levelsBelow, i, top); }
    if i > top { LadderShape(anchor, pct, p.levelsAbove, p.levelsBelow, top, i); }
    assert (-1) as real * GridSpacing(anchor, pct) == -GridSpacing(anchor, pct);
    hide GridSpacing, ComputeGridLevels;
  }

  lemma {:induction false} LaidExposed(p: Params, pct: real, anchor: real) returns (rest: seq<Order>)
    requires SaneGrid(p, pct) && anchor > 0.0 && p.levelsBelow >= 1
    ensures Exposed(Laid(p, pct, anchor), TopBuy(p, pct, anchor), rest)
    ensures |rest| == Rungs(p) - 1
  {
    hide LayGrid, Laid, Levels, GridSpacing, LayoutOrder, Touched, Select, TopBuy;
    var b, o, top := Laid(p, pct, anchor), TopBuy(p, pct, anchor), p.levelsBelow - 1;
    LaidLayout(p, pct, anchor);
    LevelCount(p, pct, anchor);
    TopBuyIs(p, pct, anchor);
    TopBuyAlone(p, pct, anchor, top);
    forall i | 0 <= i < |b.orders|
      ensures Touched(b.orders[i], o.price, o.price) <==> i == top
      ensures i != top ==> !Touched(b.orders[i], anchor, anchor)
    {
      TopBuyAlone(p, pct, anchor, i);
    }
    SelectOnly(b.orders, top, o.price, o.price);
    rest := b.orders[..top] + b.orders[top + 1..];
    assert forall i :: 0 <= i < |rest| ==> rest[i] == b.orders[if i < top then i else i + 1];
    SelectNone(rest, anchor, anchor);
  }

  lemma {:induction false} TopBuyIs(p: Params, pct: real, anchor: real)
    requires p.levelsBelow >= 1
    ensures |Levels(p, pct, anchor)| >= p.levelsBelow
    ensures TopBuy(p, pct, anchor) == LayoutOrder(p, Levels(p, pct, anchor)[p.levelsBelow - 1])
  {
    LevelCount(p, pct, anchor);
  }

  lemma {:induction false} LaidLayout(p: Params, pct: real, anchor: real)
    requires SaneGrid(p, pct) && anchor > 0.0
    ensures Laid(p, pct, anchor).orders == Layout(p, Levels(p, pct, anchor))
    ensures Laid(p, pct, anchor).curSpacing == GridSpacing(anchor, pct)
  {
    hide LayGrid, Levels, Layout, GridSpacing;
    SeedFillsTheLadder(p, pct, anchor);
    LayFrame(p, Seed(p, pct, anchor), anchor);
  }

  /** A fresh seeded grid whose highest BUY cell does not pay for its fees can be made to lose a
      rung: the market dips to that BUY and comes back often enough. With `StaticStaysFull` this
      is why the spread of the cells has to cover their fees. */
  lemma {:induction false} FreshGridBled(p: Params, pct: real, anchor: real)
    requires SaneGrid(p, pct) && anchor > 0.0 && p.levelsBelow >= 1 && MakerRate(p) <= 1.0
    requires GridSpacing(anchor, pct) < anchor
    requires !Viable(p, TopBuy(p, pct, anchor), GridSpacing(anchor, pct))
    ensures var b, o := Laid(p, pct, anchor), TopBuy(p, pct, anchor);
            && |b.orders| == Rungs(p)
            && exists n: nat :: |Run(p, b, Zigzag(o.price, b.curSpacing, n)).orders| == Rungs(p) - 1
  {
    hide LayGrid, Levels, GridSpacing, LayoutOrder, Solvent, Funded, Exposed, Run, Zigzag, Layout;
    var b, o := Laid(p, pct, anchor), TopBuy(p, pct, anchor);
    LaidFunded(p, pct, anchor);
    LevelCount(p, pct, anchor);
    TopBuyAlone(p, pct, anchor, p.levelsBelow - 1);
    var rest := LaidExposed(p, pct, anchor);
    UnviableIsBled(p, b, o, rest);
    var n: nat :| Run(p, b, Zigzag(o.price, b.curSpacing, n)).orders == rest;
    assert |Run(p, b, Zigzag(o.price, b.curSpacing, n)).orders| == Rungs(p) - 1;
  }
}
