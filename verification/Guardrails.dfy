/** The downtrend guardrail and the report of a static run, in terms of the prices of the tape. */
module Guardrails {
  import opened GridGeometry
  import opened OrderBook
  import opened RunSim
  import BarExecution
  import BookSafety
  import BookValue

  /** The trend is checked at bar `i`: a defence is chosen, a whole window lies behind, and the
      cadence has come round. */
  predicate Checked(g: Guardrail, i: nat) requires ValidGuardrail(g) {
    (g.defense.Pause? || g.defense.ToCash?) && g.windowBars <= i && i % g.checkBars == 0
  }

  /** At a check the close is lower than the one a window earlier by more than the allowed share. */
  predicate Falls(bars: seq<Candle>, g: Guardrail, i: nat)
    requires ValidGuardrail(g) && i < |bars|
  {
    Checked(g, i) && bars[i].close < (1.0 - g.downFrac) * bars[i - g.windowBars].close
  }

  /** At a check the close is higher than the one a window earlier. */
  predicate Rises(bars: seq<Candle>, g: Guardrail, i: nat)
    requires ValidGuardrail(g) && i < |bars|
  {
    Checked(g, i) && bars[i].close > bars[i - g.windowBars].close
  }

  predicate PositiveCloses(bars: seq<Candle>) { forall i :: 0 <= i < |bars| ==> bars[i].close > 0.0 }

  lemma {:induction false} RelativeChange(x: real, ref: real, share: real)
    requires ref > 0.0
    ensures (x - ref) / ref < -share <==> x < (1.0 - share) * ref
    ensures (x - ref) / ref > 0.0 <==> x > ref
  {
    var drift := (x - ref) / ref;
    assert drift * ref == x - ref;
    Ordered(drift, -share, ref);
    Ordered(-share, drift, ref);
    Ordered(drift, 0.0, ref);
    Ordered(0.0, drift, ref);
  }

  lemma {:induction false} Ordered(x: real, y: real, scale: real)
    requires scale > 0.0
    ensures x < y ==> x * scale < y * scale
    ensures x <= y ==> x * scale <= y * scale
  {
    if x < y { assert (y - x) * scale > 0.0; }
  }

  /** The run stands down at a bar exactly when it is trading, the trend is checked there, and the
      close has fallen by more than the allowed share; it resumes exactly when it is standing down,
      the trend is checked, and the close has risen. */
  lemma {:induction false} GuardExactly(bars: seq<Candle>, g: Guardrail, i: nat, defensive: bool)
    requires ValidGuardrail(g) && i < |bars|
    requires g.windowBars <= i && !g.defense.NoDefense? ==> bars[i - g.windowBars].close > 0.0
    ensures StandsDown(bars, g, i, defensive) <==> !defensive && Falls(bars, g, i)
    ensures Resumes(bars, g, i, defensive) <==> defensive && Rises(bars, g, i)
  {
    if Checked(g, i) {
      RelativeChange(bars[i].close, bars[i - g.windowBars].close, g.downFrac);
    }
  }

  /** The guardrail as a rule over the tape: it is up after `n` bars if and only if some check found a
      fall and no later check has found a rise. */
  lemma {:induction false} DefensiveExactly(bars: seq<Candle>, g: Guardrail, n: nat)
    requires ValidGuardrail(g) && PositiveCloses(bars) && g.downFrac >= 0.0 && n <= |bars|
    ensures Defensive(bars, g, n) <==>
            exists j :: 0 <= j < n && Falls(bars, g, j) && forall k :: j < k < n ==> !Rises(bars, g, k)
  {
    hide Falls, Rises, StandsDown, Resumes;
    if n > 0 {
      DefensiveExactly(bars, g, n - 1);
      GuardExactly(bars, g, n - 1, Defensive(bars, g, n - 1));
      FallIsNoRise(bars, g, n - 1);
    }
  }

  lemma {:induction false} FallIsNoRise(bars: seq<Candle>, g: Guardrail, i: nat)
    requires ValidGuardrail(g) && PositiveCloses(bars) && g.downFrac >= 0.0 && i < |bars|
    ensures !(Falls(bars, g, i) && Rises(bars, g, i))
  {
    if Falls(bars, g, i) {
      var ref := bars[i - g.windowBars].close;
      assert g.downFrac * ref >= 0.0;
    }
  }

  predicate NeverFalls(bars: seq<Candle>, g: Guardrail) requires ValidGuardrail(g) {
    forall i :: 0 <= i < |bars| ==> !Falls(bars, g, i)
  }

  lemma {:induction false} NeverDefensive(bars: seq<Candle>, g: Guardrail, n: nat)
    requires ValidGuardrail(g) && PositiveCloses(bars) && NeverFalls(bars, g) && n <= |bars|
    ensures !Defensive(bars, g, n)
  {
    hide Falls, Rises, StandsDown, Resumes;
    if n > 0 {
      NeverDefensive(bars, g, n - 1);
      GuardExactly(bars, g, n - 1, false);
    }
  }

  /** A guardrail that is never triggered is as good as none: the run does the same, bar by bar, as
      the undefended run. */
  lemma {:induction false} UntriggeredIsUndefended(p: Params, pct: real, bars: seq<Candle>, g: Guardrail, n: nat)
    requires ValidGuardrail(g) && PositiveCloses(bars) && bars != [] && bars[0].open != 0.0 && n <= |bars|
    requires NeverFalls(bars, g)
    ensures !Defensive(bars, g, n)
    ensures After(p, pct, bars, g, n) == After(p, pct, bars, g.(defense := NoDefense), n)
  {
    NeverDefensive(bars, g, n);
    SameScript(bars, g, n);
  }

  lemma {:induction false} SameScript(bars: seq<Candle>, g: Guardrail, n: nat)
    requires ValidGuardrail(g) && PositiveCloses(bars) && bars != [] && n <= |bars| && NeverFalls(bars, g)
    ensures Script(bars, g, n) == Script(bars, g.(defense := NoDefense), n)
  {
    hide Falls, Rises, StandsDown, Resumes, Defensive, NeverFalls;
    if n > 0 {
      SameScript(bars, g, n - 1);
      QuietBar(bars, g, n - 1);
    }
  }

  lemma {:induction false} QuietBar(bars: seq<Candle>, g: Guardrail, i: nat)
    requires ValidGuardrail(g) && PositiveCloses(bars) && i < |bars| && NeverFalls(bars, g)
    ensures BarActions(bars, g, i) == BarActions(bars, g.(defense := NoDefense), i)
  {
    var none := g.(defense := NoDefense);
    hide Rises, StandsDown, Resumes, Defensive;
    NeverDefensive(bars, g, i);
    NeverDefensive(bars, g, i + 1);
    assert NeverFalls(bars, none);
    NeverDefensive(bars, none, i);
    NeverDefensive(bars, none, i + 1);
    GuardExactly(bars, g, i, false);
    GuardExactly(bars, none, i, false);
  }

  /** In particular on a tape whose closes are never below those a window earlier. */
  lemma {:induction false} RisingTapeUndefended(p: Params, pct: real, bars: seq<Candle>, g: Guardrail)
    requires ValidGuardrail(g) && PositiveCloses(bars) && bars != [] && bars[0].open != 0.0 && g.downFrac >= 0.0
    requires g.windowBars >= 0 &&
             forall i :: g.windowBars <= i < |bars| ==> bars[i].close >= bars[i - g.windowBars].close
    ensures forall n :: 0 <= n <= |bars| ==> !Defensive(bars, g, n)
    ensures After(p, pct, bars, g, |bars|) == After(p, pct, bars, g.(defense := NoDefense), |bars|)
  {
    hide After, Defensive;
    forall i | 0 <= i < |bars| ensures !Falls(bars, g, i) {
      if Checked(g, i) {
        var ref := bars[i - g.windowBars].close;
        assert g.downFrac * ref >= 0.0;
      }
    }
    forall n | 0 <= n <= |bars| ensures !Defensive(bars, g, n) { NeverDefensive(bars, g, n); }
    UntriggeredIsUndefended(p, pct, bars, g, |bars|);
  }

  // --- what it does to the portfolio ---

  /** Standing down empties the book. A pause keeps every unit, so the portfolio is worth the same at
      every price; cashing out sells the whole inventory at the close, for the taker fee and the
      slippage. Resuming lays a grid around the close with the run's spacing and costs nothing. */
  lemma {:induction false} GuardrailEffect(
    p: Params, b: Book, bars: seq<Candle>, g: Guardrail, i: nat, defensive: bool, q: real)
    requires ValidGuardrail(g) && i < |bars|
    ensures var after, close := Guarded(p, b, bars, g, i, defensive), bars[i].close;
            && (StandsDown(bars, g, i, defensive) ==> after.orders == [])
            && (StandsDown(bars, g, i, defensive) && g.defense.Pause? ==>
                  PortfolioValue(after, q) == PortfolioValue(b, q) && TotalBtc(after) == TotalBtc(b))
            && (StandsDown(bars, g, i, defensive) && g.defense.ToCash? && TotalBtc(b) > 0.0 ==>
                  && TotalBtc(after) == 0.0
                  && 10000.0 * (TotalUsd(b) + TotalBtc(b) * close - TotalUsd(after)) ==
                     TotalBtc(b) * close * (10000.0 * p.takerFee + p.deriskSlippageBps))
            && (Resumes(bars, g, i, defensive) ==>
                  && PortfolioValue(after, q) == PortfolioValue(b, q)
                  && after.anchor == close && 100.0 * after.curSpacing == close * b.spacingPct)
            && (!StandsDown(bars, g, i, defensive) && !Resumes(bars, g, i, defensive) ==> after == b)
  {
    hide Drift, ChecksTrend, LayGrid, Levels, TotalUsd, TotalBtc, PortfolioValue, CancelAll, DeriskToCash;
    var close := bars[i].close;
    BookValue.QuietActionsKeepValue(p, b, Cancel, q);
    BookValue.QuietActionsKeepValue(p, b, Lay(close), q);
    BookSafety.LayFrame(p, b, close);
    CancelKeepsAll(b);
    CashEffect(p, b, close);
  }

  lemma {:induction false} CancelKeepsAll(b: Book)
    ensures TotalBtc(CancelAll(b)) == TotalBtc(b) && CancelAll(b).orders == []
  {
  }

  lemma {:induction false} CashEffect(p: Params, b: Book, price: real)
    ensures DeriskToCash(p, b, price).orders == []
    ensures TotalBtc(b) > 0.0 ==>
              && TotalBtc(DeriskToCash(p, b, price)) == 0.0
              && 10000.0 * (TotalUsd(b) + TotalBtc(b) * price - TotalUsd(DeriskToCash(p, b, price))) ==
                 TotalBtc(b) * price * (10000.0 * p.takerFee + p.deriskSlippageBps)
  {
    var c := DeriskToCash(p, b, price);
    assert c.orders == [] && ReservedUsd([]) == 0.0 && ReservedBtc([]) == 0.0;
    if TotalBtc(b) > 0.0 {
      assert c.freeBtc == 0.0 && c.freeUsd == TotalUsd(b) + (TotalBtc(b) * price - TotalBtc(b) * price * DeriskRate(p));
      BarExecution.RateCost(TotalBtc(b) * price, p.takerFee, p.deriskSlippageBps);
      hide ReservedUsd, ReservedBtc;
    }
  }

  // --- the report ---

  /** The bars after which the guardrail was up. */
  ghost function StoodDown(bars: seq<Candle>, g: Guardrail, n: nat): set<int>
    requires ValidGuardrail(g) && n <= |bars|
  {
    set k | 1 <= k <= n && Defensive(bars, g, k)
  }

  lemma {:induction false} StandDownCount(bars: seq<Candle>, g: Guardrail, n: nat)
    requires ValidGuardrail(g) && n <= |bars|
    ensures StandDownBars(bars, g, n) == |StoodDown(bars, g, n)|
  {
    hide Defensive;
    if n == 0 {
      assert StoodDown(bars, g, 0) == {};
    } else {
      StandDownCount(bars, g, n - 1);
      var before := StoodDown(bars, g, n - 1);
      assert StoodDown(bars, g, n) == if Defensive(bars, g, n) then before + {n} else before;
    }
  }

  /** At bar `i` the run trades, orders are open when the bar is done, and its close is far enough
      outside the grid. */
  predicate MovesAt(p: Params, pct: real, bars: seq<Candle>, g: Guardrail, i: nat)
    requires ValidGuardrail(g) && i < |bars| && bars[0].open != 0.0
  {
    var guarded := Guarded(p, After(p, pct, bars, g, i), bars, g, i, Defensive(bars, g, i));
    var mid := ProcessBar(p, guarded, bars[i].high, bars[i].low);
    !Defensive(bars, g, i + 1) && mid.orders != [] && BarExecution.Outside(p, mid, bars[i].close)
  }

  function Moves(p: Params, pct: real, bars: seq<Candle>, g: Guardrail, n: nat): set<int>
    requires ValidGuardrail(g) && n <= |bars| && bars != [] && bars[0].open != 0.0
  {
    set i | 0 <= i < n && MovesAt(p, pct, bars, g, i)
  }

  /** The re-anchor counter counts the bars that move the grid, and those alone: neither the first
      grid nor a resumed one. */
  lemma {:induction false} MoveCount(p: Params, pct: real, bars: seq<Candle>, g: Guardrail, n: nat)
    requires ValidGuardrail(g) && n <= |bars| && bars != [] && bars[0].open != 0.0
    ensures After(p, pct, bars, g, n).reanchors == |Moves(p, pct, bars, g, n)|
  {
    hide Defensive, After, LayGrid, BookSafety.Seed, Guarded, ProcessBar, MaybeReanchor, BarExecution.Outside;
    if n == 0 {
      AfterStart(p, pct, bars, g);
      BookSafety.LayFrame(p, BookSafety.Seed(p, pct, bars[0].open), bars[0].open);
      SeedWorth(p, pct, bars[0].open);
    } else {
      MoveCount(p, pct, bars, g, n - 1);
      MoveStep(p, pct, bars, g, n - 1);
      var before := Moves(p, pct, bars, g, n - 1);
      assert Moves(p, pct, bars, g, n) == if MovesAt(p, pct, bars, g, n - 1) then before + {n - 1} else before by {
        hide MovesAt;
      }
      hide MovesAt;
    }
  }

  lemma {:induction false} MoveStep(p: Params, pct: real, bars: seq<Candle>, g: Guardrail, i: nat)
    requires ValidGuardrail(g) && i < |bars| && bars[0].open != 0.0
    ensures After(p, pct, bars, g, i + 1).reanchors ==
            After(p, pct, bars, g, i).reanchors + (if MovesAt(p, pct, bars, g, i) then 1 else 0)
  {
    hide Defensive, After, LayGrid, Guarded, MaybeReanchor, BarExecution.Outside, Settle, Select;
    var b := After(p, pct, bars, g, i);
    var guarded := Guarded(p, b, bars, g, i, Defensive(bars, g, i));
    AfterStep(p, pct, bars, g, i);
    GuardedCounters(p, b, bars, g, i, Defensive(bars, g, i));
    BookSafety.SettleFrame(p, guarded, Select(guarded.orders, bars[i].high, bars[i].low, true));
    BarExecution.ReanchorsExactly(p, ProcessBar(p, guarded, bars[i].high, bars[i].low), bars[i].close);
  }

  lemma {:induction false} GuardedCounters(
    p: Params, b: Book, bars: seq<Candle>, g: Guardrail, i: nat, defensive: bool)
    requires ValidGuardrail(g) && i < |bars|
    ensures Guarded(p, b, bars, g, i, defensive).reanchors == b.reanchors
  {
    hide StandsDown, Resumes, LayGrid, TotalUsd, TotalBtc;
    BookSafety.LayFrame(p, b, bars[i].close);
  }

  /** The seed: twice the order size per BUY level in cash and per SELL level in inventory at the
      anchor price. */
  lemma {:induction false} SeedWorth(p: Params, pct: real, anchor: real)
    requires anchor != 0.0
    ensures var seed := BookSafety.Seed(p, pct, anchor);
            && TotalUsd(seed) == 2.0 * p.orderSize * p.levelsBelow as real
            && TotalBtc(seed) * anchor == 2.0 * p.orderSize * p.levelsAbove as real
            && seed.feesPaid == 0.0 && seed.buyFills == 0 && seed.sellFills == 0 && seed.reanchors == 0
            && seed.spacingPct == pct && seed.orders == []
  {
    var above := p.orderSize * p.levelsAbove as real * 2.0;
    assert above / anchor * anchor == above;
  }

  /** The reported figures reconcile with each other: start value, profit, fees, fill counts and the
      share of bars stood down, all from the fills of the run and the prices of the tape. */
  lemma {:induction false} ReportReconciles(r: RunResult, bars: seq<Candle>, p: Params, pct: real, g: Guardrail)
    requires ValidGuardrail(g) && bars != [] && bars[0].open != 0.0 && Reports(r, bars, p, pct, g)
    ensures var anchor, close := bars[0].open, bars[|bars| - 1].close;
            var seed := BookSafety.Seed(p, pct, anchor);
            var fs := BookValue.FillsOfRun(p, seed, Script(bars, g, |bars|));
            && r.startValue == 2.0 * p.orderSize * p.levelsBelow as real + 2.0 * p.orderSize * p.levelsAbove as real
            && r.endValue - r.startValue == TotalBtc(seed) * (close - anchor) + BookValue.Gains(fs, close) - r.feesPaid
            && r.feesPaid == BookValue.Fees(fs)
            && r.buyFills == BookValue.CountSide(fs, Buy) && r.sellFills == BookValue.CountSide(fs, Sell)
            && r.reanchors == |Moves(p, pct, bars, g, |bars|)|
            && (After(p, pct, bars, g, |bars|).orders == [] ==> r.endValue == r.endUsd + r.endBtc * close)
            && r.standDownFrac * |bars| as real == |StoodDown(bars, g, |bars|)| as real
  {
    hide TotalUsd, TotalBtc, PortfolioValue, Run, Script, Moves, BookValue.FillsOfRun, BookValue.Gains, BookValue.Fees,
      BookValue.CountSide, StandDownBars, StoodDown, BookSafety.Seed;
    var anchor, close := bars[0].open, bars[|bars| - 1].close;
    var seed := BookSafety.Seed(p, pct, anchor);
    SeedWorth(p, pct, anchor);
    SeedMarked(p, pct, anchor);
    StaticRunProfit(p, pct, bars, g);
    BookValue.RunAccounts(p, seed, Script(bars, g, |bars|));
    MoveCount(p, pct, bars, g, |bars|);
    EmptyBookValue(After(p, pct, bars, g, |bars|), close);
    StandDownCount(bars, g, |bars|);
    PartOfWhole(StandDownBars(bars, g, |bars|), |bars|);
  }

  lemma {:induction false} SeedMarked(p: Params, pct: real, anchor: real)
    requires anchor != 0.0
    ensures PortfolioValue(BookSafety.Seed(p, pct, anchor), anchor) ==
            2.0 * p.orderSize * p.levelsBelow as real + 2.0 * p.orderSize * p.levelsAbove as real
  {
    hide TotalUsd, TotalBtc, BookSafety.Seed;
    SeedWorth(p, pct, anchor);
  }

  lemma {:induction false} EmptyBookValue(b: Book, price: real)
    ensures b.orders == [] ==> PortfolioValue(b, price) == b.freeUsd + b.freeBtc * price
  {
  }

  lemma {:induction false} PartOfWhole(part: int, whole: int)
    requires whole != 0
    ensures Fraction(part, whole) * whole as real == part as real
  {
  }
}
