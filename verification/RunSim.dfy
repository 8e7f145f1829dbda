/** One static grid over a tape of bars, with the optional downtrend guardrail: the loop,
    the script of operations it amounts to, and what holds after every bar. */
module RunSim {
  import opened OrderBook
  import opened Feasibility
  import opened GridSim
  import BookSafety
  import BookValue

  datatype Candle = Candle(open: real, high: real, low: real, close: real)

  datatype Defense = NoDefense | Pause | ToCash

  datatype Guardrail = Guardrail(defense: Defense, windowBars: int, downFrac: real, checkBars: int)

  datatype RunResult = RunResult(
    spacingPct: real, startValue: real, endValue: real, buyFills: int, sellFills: int,
    feesPaid: real, reanchors: int, endUsd: real, endBtc: real, standDownFrac: real)

  /** The source indexes back by the window and takes a remainder by the cadence. */
  predicate ValidGuardrail(g: Guardrail) {
    g.defense.NoDefense? || (g.windowBars >= 0 && g.checkBars != 0)
  }

  function Drift(bars: seq<Candle>, g: Guardrail, i: nat): real
    requires i < |bars| && 0 <= g.windowBars <= i
  {
    var ref := bars[i - g.windowBars].close;
    if ref != 0.0 then (bars[i].close - ref) / ref else 0.0
  }

  predicate ChecksTrend(g: Guardrail, i: nat) requires ValidGuardrail(g) {
    !g.defense.NoDefense? && i >= g.windowBars && i % g.checkBars == 0
  }

  predicate StandsDown(bars: seq<Candle>, g: Guardrail, i: nat, defensive: bool)
    requires ValidGuardrail(g) && i < |bars|
  {
    ChecksTrend(g, i) && !defensive && Drift(bars, g, i) < -g.downFrac
  }

  predicate Resumes(bars: seq<Candle>, g: Guardrail, i: nat, defensive: bool)
    requires ValidGuardrail(g) && i < |bars|
  {
    ChecksTrend(g, i) && defensive && Drift(bars, g, i) > 0.0
  }

  /** The guardrail's flag after the first `i` bars. It depends on the tape alone. */
  predicate Defensive(bars: seq<Candle>, g: Guardrail, i: nat)
    requires ValidGuardrail(g) && i <= |bars|
  {
    i > 0 &&
    var before := Defensive(bars, g, i - 1);
    (before || StandsDown(bars, g, i - 1, before)) && !Resumes(bars, g, i - 1, before)
  }

  function BarActions(bars: seq<Candle>, g: Guardrail, i: nat): seq<Action>
    requires ValidGuardrail(g) && i < |bars|
  {
    var before := Defensive(bars, g, i);
    var guard :=
      if StandsDown(bars, g, i, before) then [if g.defense.ToCash? then Cash(bars[i].close) else Cancel]
      else if Resumes(bars, g, i, before) then [Lay(bars[i].close)]
      else [];
    guard + if Defensive(bars, g, i + 1) then [] else [Bar(bars[i].high, bars[i].low), Reanchor(bars[i].close)]
  }

  /** Everything done to the portfolio during the first `i` bars. */
  function Script(bars: seq<Candle>, g: Guardrail, i: nat): seq<Action>
    requires ValidGuardrail(g) && 0 < |bars| && i <= |bars|
  {
    if i == 0 then [Lay(bars[0].open)] else Script(bars, g, i - 1) + BarActions(bars, g, i - 1)
  }

  function StandDownBars(bars: seq<Candle>, g: Guardrail, i: nat): nat
    requires ValidGuardrail(g) && i <= |bars|
  {
    if i == 0 then 0 else StandDownBars(bars, g, i - 1) + (if Defensive(bars, g, i) then 1 else 0)
  }

  /** The portfolio after the first `i` bars. */
  function After(p: Params, pct: real, bars: seq<Candle>, g: Guardrail, i: nat): Book
    requires ValidGuardrail(g) && 0 < |bars| && i <= |bars| && bars[0].open != 0.0
  {
    Run(p, BookSafety.Seed(p, pct, bars[0].open), Script(bars, g, i))
  }

  /** The run does not raise: the seed is defined and every grid it lays can be laid. */
  predicate Goes(p: Params, pct: real, bars: seq<Candle>, g: Guardrail) {
    && ValidGuardrail(g) && bars != [] && bars[0].open != 0.0
    && RunsThrough(p, BookSafety.Seed(p, pct, bars[0].open), Script(bars, g, |bars|))
  }

  /** What the guardrail does to the portfolio before bar `i` is processed. */
  function Guarded(p: Params, b: Book, bars: seq<Candle>, g: Guardrail, i: nat, defensive: bool): Book
    requires ValidGuardrail(g) && i < |bars|
  {
    if StandsDown(bars, g, i, defensive)
    then (if g.defense.ToCash? then DeriskToCash(p, b, bars[i].close) else CancelAll(b))
    else if Resumes(bars, g, i, defensive) then LayGrid(p, b, bars[i].close)
    else b
  }

  /** The portfolio after one more bar, operation by operation. */
  lemma {:induction false} AfterStep(p: Params, pct: real, bars: seq<Candle>, g: Guardrail, i: nat)
    requires ValidGuardrail(g) && i < |bars| && bars[0].open != 0.0
    ensures var guarded := Guarded(p, After(p, pct, bars, g, i), bars, g, i, Defensive(bars, g, i));
            After(p, pct, bars, g, i + 1) ==
            if Defensive(bars, g, i + 1) then guarded
            else MaybeReanchor(p, ProcessBar(p, guarded, bars[i].high, bars[i].low), bars[i].close)
  {
    var b := After(p, pct, bars, g, i);
    var seed := BookSafety.Seed(p, pct, bars[0].open);
    RunAppend(p, seed, Script(bars, g, i), BarActions(bars, g, i));
    RunShort(p, b, BarActions(bars, g, i));
    hide Step, Drift, ChecksTrend;
  }

  method NewSeeded(p: Params, pct: real, anchor: real) returns (sim: Sim)
    requires anchor != 0.0
    ensures fresh(sim) && sim.p == p && sim.State() == BookSafety.Seed(p, pct, anchor)
  {
    sim := new Sim(p, pct, p.orderSize * p.levelsBelow as real * 2.0,
                   p.orderSize * p.levelsAbove as real * 2.0 / anchor);
  }

  /** The guardrail's turn at bar `i`. */
  method CheckGuardrail(
    sim: Sim, bars: seq<Candle>, g: Guardrail, i: nat, defensive: bool) returns (stillDefensive: bool)
    requires ValidGuardrail(g) && i < |bars|
    requires Resumes(bars, g, i, defensive) ==> CanLay(sim.p, sim.spacingPct, bars[i].close)
    modifies sim
    ensures sim.State() == Guarded(sim.p, old(sim.State()), bars, g, i, defensive)
    ensures stillDefensive == ((defensive || StandsDown(bars, g, i, defensive)) && !Resumes(bars, g, i, defensive))
  {
    hide OrderBook.LayGrid, OrderBook.DeriskToCash, CanLay;
    stillDefensive := defensive;
    if !g.defense.NoDefense? && i >= g.windowBars && i % g.checkBars == 0 {
      var ref := bars[i - g.windowBars].close;
      var drift := if ref != 0.0 then (bars[i].close - ref) / ref else 0.0;
      assert drift == Drift(bars, g, i);
      hide Drift;
      if !defensive && drift < -g.downFrac {
        if g.defense.ToCash? { sim.DeriskToCash(bars[i].close); } else { sim.CancelAll(); }
        stillDefensive := true;
      } else if defensive && drift > 0.0 {
        stillDefensive := false;
        sim.LayGrid(bars[i].close);
      }
    }
  }

  function Fraction(part: int, whole: int): real requires whole != 0 { part as real / whole as real }

  /** What a run reports about its last portfolio. */
  predicate Reports(r: RunResult, bars: seq<Candle>, p: Params, pct: real, g: Guardrail)
    requires ValidGuardrail(g) && bars != [] && bars[0].open != 0.0
  {
    var b := After(p, pct, bars, g, |bars|);
    && r.spacingPct == pct
    && r.startValue == PortfolioValue(BookSafety.Seed(p, pct, bars[0].open), bars[0].open)
    && r.endValue == PortfolioValue(b, bars[|bars| - 1].close)
    && r.buyFills == b.buyFills && r.sellFills == b.sellFills && r.feesPaid == b.feesPaid
    && r.reanchors == b.reanchors && r.endUsd == b.freeUsd && r.endBtc == b.freeBtc
    && r.standDownFrac == Fraction(StandDownBars(bars, g, |bars|), |bars|)
  }

  /** The static run: seed, lay, then guardrail, bar and re-anchor for every bar. */
  method Simulate(bars: seq<Candle>, p: Params, pct: real, g: Guardrail) returns (r: RunResult)
    requires Goes(p, pct, bars, g)
    ensures Reports(r, bars, p, pct, g)
  {
    hide After, CanLay, Guarded, OrderBook.LayGrid, OrderBook.ProcessBar, OrderBook.MaybeReanchor, BookSafety.Seed,
      OrderBook.PortfolioValue, StandsDown, Resumes, NeedsReanchor, Script, Run, Reports, Fraction, RunsThrough,
      Drift, ChecksTrend;
    GoesAtFirst(p, pct, bars, g);
    var anchor := bars[0].open;
    AfterStart(p, pct, bars, g);
    var sim := NewSeeded(p, pct, anchor);
    var startValue := sim.PortfolioValue(anchor);
    sim.LayGrid(anchor);
    var defensive := false;
    var standDownBars := 0;
    for i := 0 to |bars|
      invariant sim.p == p && fresh(sim)
      invariant sim.State() == After(p, pct, bars, g, i)
      invariant defensive == Defensive(bars, g, i)
      invariant standDownBars == StandDownBars(bars, g, i)
    {
      AfterStep(p, pct, bars, g, i);
      GoesAt(p, pct, bars, g, i);
      defensive := CheckGuardrail(sim, bars, g, i, defensive);
      if defensive {
        standDownBars := standDownBars + 1;
        continue;
      }
      sim.ProcessBar(bars[i].high, bars[i].low);
      sim.MaybeReanchor(bars[i].close);
    }
    var endValue := sim.PortfolioValue(bars[|bars| - 1].close);
    r := RunResult(pct, startValue, endValue, sim.buyFills, sim.sellFills, sim.feesPaid, sim.reanchors,
                   sim.freeUsd, sim.freeBtc, Fraction(standDownBars, |bars|));
    Summary(sim.State(), startValue, endValue, Fraction(standDownBars, |bars|), r, bars, p, pct, g);
  }

  lemma {:induction false} GoesEarlier(p: Params, pct: real, bars: seq<Candle>, g: Guardrail, i: nat)
    requires Goes(p, pct, bars, g) && i <= |bars|
    ensures RunsThrough(p, BookSafety.Seed(p, pct, bars[0].open), Script(bars, g, i))
    decreases |bars| - i
  {
    hide Run, BookSafety.Seed, BarActions;
    if i < |bars| {
      GoesEarlier(p, pct, bars, g, i + 1);
      RunsAppend(p, BookSafety.Seed(p, pct, bars[0].open), Script(bars, g, i), BarActions(bars, g, i));
    }
  }

  lemma {:induction false} GoesAtFirst(p: Params, pct: real, bars: seq<Candle>, g: Guardrail)
    requires Goes(p, pct, bars, g)
    ensures CanLay(p, BookSafety.Seed(p, pct, bars[0].open).spacingPct, bars[0].open)
  {
    hide CanLay, BookSafety.Seed;
    GoesEarlier(p, pct, bars, g, 0);
    RunsShort(p, BookSafety.Seed(p, pct, bars[0].open), Script(bars, g, 0));
  }

  /** What a run that goes through says about bar `i`: where it resumes and where it re-anchors a
      grid can be laid. */
  lemma {:induction false} GoesAt(p: Params, pct: real, bars: seq<Candle>, g: Guardrail, i: nat)
    requires Goes(p, pct, bars, g) && i < |bars|
    ensures var b := After(p, pct, bars, g, i);
            var guarded := Guarded(p, b, bars, g, i, Defensive(bars, g, i));
            var mid := ProcessBar(p, guarded, bars[i].high, bars[i].low);
            && (Resumes(bars, g, i, Defensive(bars, g, i)) ==> CanLay(p, b.spacingPct, bars[i].close))
            && (!Defensive(bars, g, i + 1) && NeedsReanchor(p, mid, bars[i].close) ==>
                  CanLay(p, mid.spacingPct, bars[i].close))
  {
    GoesEarlier(p, pct, bars, g, i + 1);
    hide RunsThrough, CanLay, NeedsReanchor, Drift, ChecksTrend, ProcessBar, LayGrid, DeriskToCash, CancelAll,
      MaybeReanchor, Run, BookSafety.Seed;
    RunsAppend(p, BookSafety.Seed(p, pct, bars[0].open), Script(bars, g, i), BarActions(bars, g, i));
    RunsShort(p, After(p, pct, bars, g, i), BarActions(bars, g, i));
  }

  /** Enough to go through, and checkable before the run: every close can anchor the grid. */
  lemma {:induction false} TapeGoes(p: Params, pct: real, bars: seq<Candle>, g: Guardrail)
    requires ValidGuardrail(g) && bars != [] && bars[0].open != 0.0 && CanLay(p, pct, bars[0].open)
    requires forall i :: 0 <= i < |bars| ==> CanLay(p, pct, bars[i].close)
    ensures Goes(p, pct, bars, g)
  {
    hide CanLay;
    ScriptAnchorable(p, pct, bars, g, |bars|);
    AnchorableRuns(p, pct, pct, BookSafety.Seed(p, pct, bars[0].open), Script(bars, g, |bars|));
  }

  lemma {:induction false} ScriptAnchorable(p: Params, pct: real, bars: seq<Candle>, g: Guardrail, i: nat)
    requires ValidGuardrail(g) && bars != [] && i <= |bars| && CanLay(p, pct, bars[0].open)
    requires forall k :: 0 <= k < |bars| ==> CanLay(p, pct, bars[k].close)
    ensures Anchorable(p, pct, pct, Script(bars, g, i))
  {
    hide CanLay, Defensive, StandsDown, Resumes;
    if i > 0 { ScriptAnchorable(p, pct, bars, g, i - 1); }
  }

  lemma {:induction false} Summary(
    b: Book, startValue: real, endValue: real, share: real, r: RunResult,
    bars: seq<Candle>, p: Params, pct: real, g: Guardrail)
    requires ValidGuardrail(g) && bars != [] && bars[0].open != 0.0
    requires b == After(p, pct, bars, g, |bars|)
    requires startValue == PortfolioValue(BookSafety.Seed(p, pct, bars[0].open), bars[0].open)
    requires endValue == PortfolioValue(b, bars[|bars| - 1].close)
    requires share == Fraction(StandDownBars(bars, g, |bars|), |bars|)
    requires r == RunResult(pct, startValue, endValue, b.buyFills, b.sellFills, b.feesPaid, b.reanchors,
                            b.freeUsd, b.freeBtc, share)
    ensures Reports(r, bars, p, pct, g)
  {
    hide After, PortfolioValue, BookSafety.Seed, StandDownBars;
  }

  lemma {:induction false} AfterStart(p: Params, pct: real, bars: seq<Candle>, g: Guardrail)
    requires ValidGuardrail(g) && 0 < |bars| && bars[0].open != 0.0
    ensures After(p, pct, bars, g, 0) == LayGrid(p, BookSafety.Seed(p, pct, bars[0].open), bars[0].open)
    ensures BookSafety.Seed(p, pct, bars[0].open).spacingPct == pct
  {
    RunShort(p, BookSafety.Seed(p, pct, bars[0].open), Script(bars, g, 0));
  }

  // --- what holds after every bar ---

  predicate Market(bars: seq<Candle>) {
    bars != [] && forall i :: 0 <= i < |bars| ==> bars[i].open > 0.0 && bars[i].low > 0.0 && bars[i].close > 0.0
  }

  predicate SaneGrid(p: Params, pct: real) {
    BookSafety.NonNegative(p) && p.levelsAbove >= 0 && p.levelsBelow >= 0 && pct > 0.0
  }

  /** While the guardrail is up the book is empty, so every grid is laid on an empty book. */
  lemma {:induction false} DefensiveMeansEmpty(p: Params, pct: real, bars: seq<Candle>, g: Guardrail, i: nat)
    requires ValidGuardrail(g) && bars != [] && bars[0].open != 0.0 && i <= |bars| && Defensive(bars, g, i)
    ensures After(p, pct, bars, g, i).orders == []
    ensures g.defense.ToCash? ==> After(p, pct, bars, g, i).freeBtc <= 0.0
  {
    AfterStep(p, pct, bars, g, i - 1);
    if Defensive(bars, g, i - 1) {
      DefensiveMeansEmpty(p, pct, bars, g, i - 1);
    }
    hide After, Drift, ChecksTrend, LayGrid;
  }

  /** A run is a proper script: positive prices, and no grid laid over open orders. */
  lemma {:induction false} ScriptProper(p: Params, pct: real, bars: seq<Candle>, g: Guardrail, i: nat)
    requires ValidGuardrail(g) && Market(bars) && i <= |bars|
    ensures BookSafety.ProperRun(p, BookSafety.Seed(p, pct, bars[0].open), Script(bars, g, i))
  {
    var seed := BookSafety.Seed(p, pct, bars[0].open);
    if i > 0 {
      var b := After(p, pct, bars, g, i - 1);
      ScriptProper(p, pct, bars, g, i - 1);
      if Defensive(bars, g, i - 1) { DefensiveMeansEmpty(p, pct, bars, g, i - 1); }
      ShortProper(p, b, BarActions(bars, g, i - 1));
      BookSafety.ProperAppend(p, seed, Script(bars, g, i - 1), BarActions(bars, g, i - 1));
    } else {
      assert Script(bars, g, 0)[..0] == [];
    }
  }

  /** A short script whose only grid, if any, comes first and meets an empty book. */
  lemma {:induction false} ShortProper(p: Params, b: Book, script: seq<Action>)
    requires |script| <= 3
    requires forall k :: 0 <= k < |script| ==>
               (script[k].Lay? ==> k == 0) && BookSafety.Proper(b, script[k])
    ensures BookSafety.ProperRun(p, b, script)
  {
    hide Step;
    if script != [] { ShortProper(p, b, script[..|script| - 1]); }
  }

  lemma {:induction false} SeedSolvent(p: Params, pct: real, anchor: real)
    requires SaneGrid(p, pct) && anchor > 0.0
    ensures BookSafety.Solvent(BookSafety.Seed(p, pct, anchor))
  {
    BookSafety.SeedCovers(p, pct, anchor);
  }

  /** After every bar of every static run with positive prices: inventory is non-negative and
      cash is short by at most the fees paid; the book fits the grid and stands on it. */
  lemma {:induction false} EveryBarSafe(p: Params, pct: real, bars: seq<Candle>, g: Guardrail, i: nat)
    requires ValidGuardrail(g) && Market(bars) && SaneGrid(p, pct) && i <= |bars|
    ensures var b := After(p, pct, bars, g, i);
            && b.freeBtc >= 0.0 && b.freeUsd + b.feesPaid >= 0.0
            && |b.orders| <= BookSafety.Rungs(p)
            && BookSafety.OnLadder(p, b)
  {
    var seed := BookSafety.Seed(p, pct, bars[0].open);
    SeedSolvent(p, pct, bars[0].open);
    ScriptProper(p, pct, bars, g, i);
    BookSafety.RunSolvent(p, seed, Script(bars, g, i));
    BookSafety.RunSize(p, seed, Script(bars, g, i));
    BookSafety.RunOnLadder(p, seed, Script(bars, g, i));
  }

  /** The profit of a static run is exactly what its fills gained at the last close, less fees,
      plus what the seeded inventory gained by holding. */
  lemma {:induction false} StaticRunProfit(p: Params, pct: real, bars: seq<Candle>, g: Guardrail)
    requires ValidGuardrail(g) && bars != [] && bars[0].open != 0.0
    ensures var seed := BookSafety.Seed(p, pct, bars[0].open);
            var b := After(p, pct, bars, g, |bars|);
            var close := bars[|bars| - 1].close;
            PortfolioValue(b, close) - PortfolioValue(seed, bars[0].open) ==
            TotalBtc(seed) * (close - bars[0].open)
            + BookValue.Gains(BookValue.FillsOfRun(p, seed, Script(bars, g, |bars|)), close) - b.feesPaid
  {
    hide BookValue.Gains, BookValue.FillsOfRun, Run, PortfolioValue, TotalBtc, Script;
    var seed := BookSafety.Seed(p, pct, bars[0].open);
    BookValue.ProfitDecomposition(p, seed, Script(bars, g, |bars|), bars[0].open, bars[|bars| - 1].close);
    assert seed.feesPaid == 0.0;
    assert After(p, pct, bars, g, |bars|) == Run(p, seed, Script(bars, g, |bars|));
    hide *;
  }

  /** Standing down freezes the portfolio until the grid is laid again. */
  lemma {:induction false} StandDownFreezes(p: Params, pct: real, bars: seq<Candle>, g: Guardrail, i: nat, j: nat)
    requires ValidGuardrail(g) && bars != [] && bars[0].open != 0.0 && i <= j <= |bars|
    requires forall k :: i <= k <= j ==> Defensive(bars, g, k)
    ensures After(p, pct, bars, g, j) == After(p, pct, bars, g, i)
  {
    hide After, Drift, ChecksTrend, ProcessBar, MaybeReanchor, LayGrid, DeriskToCash;
    if i < j {
      StandDownFreezes(p, pct, bars, g, i, j - 1);
      AfterStep(p, pct, bars, g, j - 1);
      assert Defensive(bars, g, j - 1) && Defensive(bars, g, j);
    }
  }

  /** In cash mode a stood-down portfolio is worth the same at every price. */
  lemma {:induction false} CashIgnoresPrice(
    p: Params, pct: real, bars: seq<Candle>, g: Guardrail, i: nat, q: real, r: real)
    requires ValidGuardrail(g) && Market(bars) && SaneGrid(p, pct) && i <= |bars|
    requires g.defense.ToCash? && Defensive(bars, g, i)
    ensures PortfolioValue(After(p, pct, bars, g, i), q) == PortfolioValue(After(p, pct, bars, g, i), r)
  {
    DefensiveMeansEmpty(p, pct, bars, g, i);
    EveryBarSafe(p, pct, bars, g, i);
    hide After;
    assert ReservedUsd([]) == 0.0 && ReservedBtc([]) == 0.0;
  }
}
