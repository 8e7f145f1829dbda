/** The windows of a regime run: a grid laid at a window's start behaves, until it is re-anchored,
    as the grid of a static run does. */
module WindowHarvest {
  import opened OrderBook
  import opened BookSafety
  import opened RunSim
  import opened Regimes
  import opened RegimeTheorems
  import opened GridHarvest
  import opened GridReturns
  import opened StaticHarvest
  import BookValue

  /** The portfolio of a plan right after the grid of window `k` is laid. */
  function WindowLaid(s: Settings, bars: seq<Candle>, plan: seq<Strategy>, k: nat): Book
    requires s.windowBars >= 1 && bars != [] && bars[0].open != 0.0
    requires k < |plan| && k < WindowCount(bars, s.windowBars)
  {
    Applied(s, Played(s, bars, plan, k), plan[k], Window(bars, s.windowBars, k)[0].open)
  }

  /** What a window starts with: the tight or the wide spacing, in percent of its first price, around
      that price; or no grid at all. */
  lemma {:induction false} LaidSpacing(s: Settings, bars: seq<Candle>, plan: seq<Strategy>, k: nat)
    requires s.windowBars >= 1 && bars != [] && bars[0].open != 0.0
    requires k < |plan| && k < WindowCount(bars, s.windowBars) && k * s.windowBars < |bars|
    ensures var b, price := WindowLaid(s, bars, plan, k), bars[k * s.windowBars].open;
            && (plan[k] == Tight ==> 100.0 * b.curSpacing == price * s.tight && b.spacingPct == s.tight)
            && (plan[k] == Wide ==> 100.0 * b.curSpacing == price * s.wide && b.spacingPct == s.wide)
            && (plan[k] == Tight || plan[k] == Wide ==> b.anchor == price)
            && (plan[k] == Flat || plan[k] == InCash ==> b.orders == [])
  {
    hide Played, Applied, Window, WindowCount;
    FirstOfWindow(bars, s.windowBars, k);
    AppliedSpacing(s, Played(s, bars, plan, k), plan[k], bars[k * s.windowBars].open);
  }

  lemma {:induction false} FirstOfWindow(bars: seq<Candle>, wb: int, k: nat)
    requires wb >= 1 && k < WindowCount(bars, wb)
    ensures k * wb < |bars| && Window(bars, wb, k)[0] == bars[k * wb]
  {
    WindowStart(bars, wb, k);
    hide WindowCount;
    assert (k + 1) * wb == k * wb + wb;
  }

  lemma {:induction false} AppliedSpacing(s: Settings, before: Book, strategy: Strategy, price: real)
    ensures var b := Applied(s, before, strategy, price);
            && (strategy == Tight ==> 100.0 * b.curSpacing == price * s.tight && b.spacingPct == s.tight)
            && (strategy == Wide ==> 100.0 * b.curSpacing == price * s.wide && b.spacingPct == s.wide)
            && (strategy == Tight || strategy == Wide ==> b.anchor == price)
            && (strategy == Flat || strategy == InCash ==> b.orders == [])
  {
    RunShort(s.p, before, ApplyActions(s, strategy, price));
    hide LayGrid, Run, Levels, TotalUsd, TotalBtc;
    match strategy {
      case Tight => LayFrame(s.p, CancelAll(before).(spacingPct := s.tight), price);
      case Wide => LayFrame(s.p, CancelAll(before).(spacingPct := s.wide), price);
      case _ =>
    }
  }

  /** Window `k` plays a grid, and that grid is not re-anchored within the window. */
  predicate GridWindow(s: Settings, bars: seq<Candle>, plan: seq<Strategy>, k: nat) {
    && SaneSettings(s) && Market(bars) && k < |plan| && k < WindowCount(bars, s.windowBars)
    && (plan[k] == Tight || plan[k] == Wide)
    && Played(s, bars, plan, k + 1).reanchors == WindowLaid(s, bars, plan, k).reanchors
  }

  lemma {:induction false} AppliedGrid(s: Settings, b: Book, strategy: Strategy, price: real)
    requires SaneSettings(s) && price > 0.0 && Solvent(b) && (strategy == Tight || strategy == Wide)
    ensures Solvent(Applied(s, b, strategy, price)) && OnLadder(s.p, Applied(s, b, strategy, price))
  {
    var pct := if strategy == Tight then s.tight else s.wide;
    var empty := CancelAll(b).(spacingPct := pct);
    RunShort(s.p, b, ApplyActions(s, strategy, price));
    CancelSolvent(b);
    hide LayGrid, OnLadder;
    LaySolvent(s.p, empty, price);
    LayOnLadder(s.p, empty, price);
  }

  lemma {:induction false} PlayedSolvent(s: Settings, bars: seq<Candle>, plan: seq<Strategy>, k: nat)
    requires SaneSettings(s) && Market(bars) && k <= |plan| && k <= WindowCount(bars, s.windowBars)
    ensures Solvent(Played(s, bars, plan, k))
  {
    hide Solvent, Played, PlanScript, Run, WindowCount;
    PlayedIsRun(s, bars, plan, k);
    PlanProper(s, bars, plan, k);
    SeedSolvent(s.p, s.tight, bars[0].open);
    RunSolvent(s.p, SeedBook(s, bars), PlanScript(s, bars, plan, k));
  }

  lemma {:induction false} WindowMarket(s: Settings, bars: seq<Candle>, k: nat)
    requires SaneSettings(s) && Market(bars) && k < WindowCount(bars, s.windowBars)
    ensures Market(Window(bars, s.windowBars, k))
  {
    WindowStart(bars, s.windowBars, k);
    var w := Window(bars, s.windowBars, k);
    assert forall i :: 0 <= i < |w| ==> w[i] == bars[k * s.windowBars + i];
  }

  /** What the window is: bars on one laid grid, from a solvent book on its ladder. */
  lemma {:induction false} WindowStretch(s: Settings, bars: seq<Candle>, plan: seq<Strategy>, k: nat)
    requires GridWindow(s, bars, plan, k)
    ensures var b, ticks := WindowLaid(s, bars, plan, k), BarScript(Window(bars, s.windowBars, k));
            && Played(s, bars, plan, k + 1) == Run(s.p, b, ticks)
            && NonNegative(s.p) && Solvent(b) && OnLadder(s.p, b) && DistinctCells(b.orders, b.curSpacing)
            && ProperRun(s.p, b, ticks) && Undisturbed(s.p, b, ticks)
  {
    hide Solvent, OnLadder, DistinctCells, ProperRun, Undisturbed, Run, BarScript, Window, WindowCount, Applied;
    var b, w := WindowLaid(s, bars, plan, k), Window(bars, s.windowBars, k);
    WindowMarket(s, bars, k);
    PlayedSolvent(s, bars, plan, k);
    AppliedGrid(s, Played(s, bars, plan, k), plan[k], w[0].open);
    LadderDistinct(s.p, b);
    CountedUndisturbed(s.p, b, w);
    BarScriptProper(s.p, b, w);
  }

  /** In a grid window every cell takes turns: its fills over the window are exactly the order laid
      there, its counter and so on, and while it is occupied it holds the next turn. */
  lemma {:induction false} WindowTakesTurns(s: Settings, bars: seq<Candle>, plan: seq<Strategy>, k: nat, cell: real)
    requires GridWindow(s, bars, plan, k)
    ensures var b := WindowLaid(s, bars, plan, k);
            var spacing, first := b.curSpacing, OrdersIn(b.orders, cell, b.curSpacing);
            var fs := FillsIn(BookValue.FillsOfRun(s.p, b, BarScript(Window(bars, s.windowBars, k))), cell, spacing);
            var left := OrdersIn(Played(s, bars, plan, k + 1).orders, cell, spacing);
            && |first| <= 1
            && if first == [] then fs == [] && left == []
               else fs == Turns(s.p, first[0], |fs|, spacing) &&
                    (left == [] || left == [Turn(first[0], |fs|, spacing)])
  {
    hide Solvent, OnLadder, DistinctCells, ProperRun, Undisturbed, Run, BarScript, Window, WindowCount, Played,
      WindowLaid, OrdersIn, FillsIn, Turns, Turn, BookValue.FillsOfRun;
    var b := WindowLaid(s, bars, plan, k);
    WindowStretch(s, bars, plan, k);
    FewInCell(b.orders, cell, b.curSpacing);
    CellHistory(s.p, b, BarScript(Window(bars, s.windowBars, k)), cell);
  }

  /** The return of a grid window in closed form, at every mark price. */
  lemma {:induction false} WindowEarns(s: Settings, bars: seq<Candle>, plan: seq<Strategy>, k: nat, q: real)
    requires GridWindow(s, bars, plan, k)
    ensures var b := WindowLaid(s, bars, plan, k);
            var fs := BookValue.FillsOfRun(s.p, b, BarScript(Window(bars, s.windowBars, k)));
            PortfolioValue(Played(s, bars, plan, k + 1), q) ==
            PortfolioValue(Played(s, bars, plan, k), q) + GridNet(s.p, b.orders, fs, b.curSpacing, q)
  {
    hide Solvent, OnLadder, DistinctCells, ProperRun, Undisturbed, Run, BarScript, Window, WindowCount, Played,
      BookValue.FillsOfRun, PortfolioValue, GridNet, Applied;
    var b := WindowLaid(s, bars, plan, k);
    WindowStretch(s, bars, plan, k);
    GridEarns(s.p, b, BarScript(Window(bars, s.windowBars, k)), q);
    GridSwitchKeepsValue(s, Played(s, bars, plan, k), plan[k], Window(bars, s.windowBars, k)[0].open, q);
  }

  lemma {:induction false} GridSwitchKeepsValue(s: Settings, b: Book, strategy: Strategy, price: real, q: real)
    requires strategy == Tight || strategy == Wide
    ensures PortfolioValue(Applied(s, b, strategy, price), q) == PortfolioValue(b, q)
  {
    var pct := if strategy == Tight then s.tight else s.wide;
    RunShort(s.p, b, ApplyActions(s, strategy, price));
    hide LayGrid, PortfolioValue, CancelAll;
    BookValue.QuietActionsKeepValue(s.p, b, Cancel, q);
    BookValue.QuietActionsKeepValue(s.p, CancelAll(b), Spacing(pct), q);
    BookValue.QuietActionsKeepValue(s.p, CancelAll(b).(spacingPct := pct), Lay(price), q);
  }

  /** A grid window that starts funded, with spreads that cover their fees, loses no counter: it ends
      with as many orders, in the same slots, and cash never below zero. */
  lemma {:induction false} WindowStaysFull(s: Settings, bars: seq<Candle>, plan: seq<Strategy>, k: nat)
    requires GridWindow(s, bars, plan, k)
    requires var b := WindowLaid(s, bars, plan, k); Funded(s.p, b) && AllViable(s.p, b.orders, b.curSpacing)
    ensures var b, after := WindowLaid(s, bars, plan, k), Played(s, bars, plan, k + 1);
            && |after.orders| == |b.orders| && Slots(after.orders, b.curSpacing) == Slots(b.orders, b.curSpacing)
            && after.freeUsd >= 0.0
  {
    hide Solvent, OnLadder, DistinctCells, ProperRun, Undisturbed, Run, BarScript, Window, WindowCount, Played,
      WindowLaid, Funded, AllViable, Slots;
    WindowStretch(s, bars, plan, k);
    NoCounterLost(s.p, WindowLaid(s, bars, plan, k), BarScript(Window(bars, s.windowBars, k)));
  }
}
