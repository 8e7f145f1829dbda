/** What the windowed simulators report, in terms of fills, prices and the entries of the plan. */
module RegimeReports {
  import opened GridGeometry
  import opened OrderBook
  import opened RunSim
  import opened Hysteresis
  import opened Regimes
  import opened RegimeTheorems
  import opened RegimeSims
  import BarExecution
  import BookSafety
  import BookValue
  import Guardrails

  // --- counters as sets ---

  predicate ChangesAt<T(==)>(xs: seq<T>, k: int) requires 1 <= k < |xs| { xs[k] != xs[k - 1] }

  /** Where a sequence changes from one entry to the next. */
  function ChangePoints<T(==)>(xs: seq<T>): set<int> { set k | 1 <= k < |xs| && ChangesAt(xs, k) }

  lemma {:induction false} ChangesExactly<T>(xs: seq<T>)
    ensures Changes(xs) == |ChangePoints(xs)|
  {
    if |xs| <= 1 {
      assert ChangePoints(xs) == {};
    } else {
      var n := |xs| - 1;
      ChangesExactly(xs[..n]);
      var before := ChangePoints(xs[..n]);
      assert forall k :: 1 <= k < n ==> ChangesAt(xs, k) == ChangesAt(xs[..n], k);
      assert ChangePoints(xs) == if ChangesAt(xs, n) then before + {n} else before;
    }
  }

  lemma {:induction false} CountExactly<T>(xs: seq<T>, x: T)
    ensures Count(xs, x) == multiset(xs)[x]
  {
    if xs != [] {
      var n := |xs| - 1;
      CountExactly(xs[..n], x);
      assert xs == xs[..n] + [xs[n]];
    }
  }

  /** The windows in which the plan plays what the oracle would play from the same portfolio. */
  function AgreedWindows(s: Settings, bars: seq<Candle>, plan: seq<Strategy>, k: nat): set<int>
    requires s.windowBars >= 1 && bars != [] && bars[0].open != 0.0
    requires k <= |plan| && k <= WindowCount(bars, s.windowBars)
  {
    set j | 0 <= j < k && plan[j] == OracleChoice(s, Played(s, bars, plan, j), Window(bars, s.windowBars, j))
  }

  lemma {:induction false} AgreementsExactly(s: Settings, bars: seq<Candle>, plan: seq<Strategy>, k: nat)
    requires s.windowBars >= 1 && bars != [] && bars[0].open != 0.0
    requires k <= |plan| && k <= WindowCount(bars, s.windowBars)
    ensures Agreements(s, bars, plan, k) == |AgreedWindows(s, bars, plan, k)|
  {
    hide OracleChoice, Played, Window, WindowCount;
    if k > 0 {
      AgreementsExactly(s, bars, plan, k - 1);
      var before := AgreedWindows(s, bars, plan, k - 1);
      var agreed := plan[k - 1] == OracleChoice(s, Played(s, bars, plan, k - 1), Window(bars, s.windowBars, k - 1));
      assert AgreedWindows(s, bars, plan, k) == if agreed then before + {k - 1} else before;
    }
  }

  // --- switch fees ---

  /** A strategy change costs something only when it cashes out an inventory: then the taker fee and
      the slippage, in basis points, on the inventory at the window's first price. Grids pay their
      fees when they trade, and standing aside is free. */
  lemma {:induction false} SwitchFeesExactly(s: Settings, bars: seq<Candle>, plan: seq<Strategy>, k: nat)
    requires s.windowBars >= 1 && bars != [] && bars[0].open != 0.0
    requires k < |plan| && k < WindowCount(bars, s.windowBars)
    ensures SwitchFees(s, bars, plan, 0) == 0.0
    ensures var b, price := Played(s, bars, plan, k), Window(bars, s.windowBars, k)[0].open;
            10000.0 * (SwitchFees(s, bars, plan, k + 1) - SwitchFees(s, bars, plan, k)) ==
            if plan[k] == InCash && TotalBtc(b) > 0.0
            then TotalBtc(b) * price * (10000.0 * s.p.takerFee + s.p.deriskSlippageBps) else 0.0
  {
    hide Played, Window, WindowCount, Applied, TotalBtc;
    SwitchCost(s, Played(s, bars, plan, k), plan[k], Window(bars, s.windowBars, k)[0].open);
  }

  lemma {:induction false} SwitchCost(s: Settings, b: Book, strategy: Strategy, price: real)
    ensures 10000.0 * (Applied(s, b, strategy, price).feesPaid - b.feesPaid) ==
            if strategy == InCash && TotalBtc(b) > 0.0
            then TotalBtc(b) * price * (10000.0 * s.p.takerFee + s.p.deriskSlippageBps) else 0.0
  {
    RunShort(s.p, b, ApplyActions(s, strategy, price));
    match strategy {
      case InCash =>
        CancelTwice(b);
        assert TotalBtc(CancelAll(b)) == TotalBtc(b);
        hide TotalBtc, TotalUsd;
        BarExecution.RateCost(TotalBtc(b) * price, s.p.takerFee, s.p.deriskSlippageBps);
      case Flat =>
      case Tight => BookSafety.LayFrame(s.p, CancelAll(b).(spacingPct := s.tight), price); hide LayGrid;
      case Wide => BookSafety.LayFrame(s.p, CancelAll(b).(spacingPct := s.wide), price); hide LayGrid;
    }
  }

  // --- the reports ---

  /** The return in percent takes the start value to the end value. */
  lemma {:induction false} ReturnExactly(start: real, end: real)
    ensures start != 0.0 ==> start + start * RetPct(start, end) / 100.0 == end
    ensures start == 0.0 ==> RetPct(start, end) == 0.0
  {
    if start != 0.0 {
      var share := (end - start) / start;
      assert share * start == end - start;
      assert start * (share * 100.0) / 100.0 == share * start;
    }
  }

  /** The value every windowed run starts from: the order size twice per level, on either side. */
  function SeedValue(p: Params): real {
    2.0 * p.orderSize * p.levelsBelow as real + 2.0 * p.orderSize * p.levelsAbove as real
  }

  /** The profit of a plan over the whole tape, from its fills. */
  lemma {:induction false} PlanReconciles(s: Settings, bars: seq<Candle>, plan: seq<Strategy>)
    requires s.windowBars >= 1 && bars != [] && bars[0].open != 0.0 && |plan| == WindowCount(bars, s.windowBars)
    ensures PortfolioValue(SeedBook(s, bars), bars[0].open) == SeedValue(s.p)
    ensures var close := bars[|bars| - 1].close;
            var fs := BookValue.FillsOfRun(s.p, SeedBook(s, bars), PlanScript(s, bars, plan, |plan|));
            PortfolioValue(Played(s, bars, plan, |plan|), close) - SeedValue(s.p) ==
            TotalBtc(SeedBook(s, bars)) * (close - bars[0].open) + BookValue.Gains(fs, close) - BookValue.Fees(fs)
  {
    hide TotalUsd, TotalBtc, Played, PlanScript, BookValue.FillsOfRun, BookValue.Gains, BookValue.Fees, Run, SeedBook,
      WindowCount, BookValue.CountSide, BookValue.NetUsd, BookValue.NetBtc, PortfolioValue, SeedValue;
    SeedIsWorth(s, bars);
    PlanProfit(s, bars, plan, |plan|, bars[|bars| - 1].close);
    PlayedIsRun(s, bars, plan, |plan|);
    BookValue.RunAccounts(s.p, SeedBook(s, bars), PlanScript(s, bars, plan, |plan|));
  }

  lemma {:induction false} SeedIsWorth(s: Settings, bars: seq<Candle>)
    requires bars != [] && bars[0].open != 0.0
    ensures PortfolioValue(SeedBook(s, bars), bars[0].open) == SeedValue(s.p)
  {
    hide PortfolioValue, BookSafety.Seed;
    Guardrails.SeedMarked(s.p, s.tight, bars[0].open);
  }

  /** The report of the switch backtest reconciles: start value, profit from the fills and the prices
      of the tape, changes of the plan, and how often each regime and each strategy occurred. */
  lemma {:induction false} PolicyReconciles(r: PolicyResult, bars: seq<Candle>, s: Settings, oracle: bool)
    requires s.windowBars >= 1 && bars != [] && bars[0].open != 0.0 && PolicyReport(r, bars, s, oracle)
    ensures var n, close := WindowCount(bars, s.windowBars), bars[|bars| - 1].close;
            var plan := PlanOf(s, bars, oracle, n);
            var fs := BookValue.FillsOfRun(s.p, SeedBook(s, bars), PlanScript(s, bars, plan, n));
            && r.startValue == SeedValue(s.p)
            && r.endValue - r.startValue ==
               TotalBtc(SeedBook(s, bars)) * (close - bars[0].open) + BookValue.Gains(fs, close) - BookValue.Fees(fs)
            && r.switches == |ChangePoints(plan)|
            && (forall x: Strategy :: x in r.strategyCounts && r.strategyCounts[x] == multiset(plan)[x])
            && (forall x: Regime :: x in r.regimeCounts &&
                  r.regimeCounts[x] == if oracle then 0 else multiset(Reads(s, bars, n))[x])
            && (if !oracle && s.measureAgreement && n > 0
                then r.oracleAgreement * n as real == |AgreedWindows(s, bars, plan, n)| as real
                else r.oracleAgreement == 0.0)
  {
    hide WindowCount, PlanOf, SeedBook, PlanScript, BookValue.FillsOfRun, BookValue.Gains, BookValue.Fees, TotalBtc,
      PortfolioValue, Played, SwitchFees, Agreements, AgreedWindows, Reads, Read, ChangePoints, Changes, Count,
      SeedValue;
    var n := WindowCount(bars, s.windowBars);
    var plan := PlanOf(s, bars, oracle, n);
    PlanReconciles(s, bars, plan);
    ChangesExactly(plan);
    AgreementsExactly(s, bars, plan, n);
    forall x: Strategy ensures x in r.strategyCounts && r.strategyCounts[x] == multiset(plan)[x] {
      CountExactly(plan, x);
    }
    forall x: Regime ensures x in r.regimeCounts &&
                               r.regimeCounts[x] == if oracle then 0 else multiset(Reads(s, bars, n))[x] {
      CountExactly(ReadsOf(s, bars, oracle, n), x);
    }
    if n > 0 { ShareOf(Agreements(s, bars, plan, n), n); }
  }

  lemma {:induction false} ShareOf(part: nat, whole: nat)
    requires whole > 0
    ensures part as real / whole as real * whole as real == part as real
  {
  }

  /** The report of a sweep reconciles: its return takes the seed's value to what the seed, the fills
      and their fees are worth at the last close. */
  lemma {:induction false} SweepReconciles(
    row: SweepRow, bars: seq<Candle>, s: Settings, det: Detector, policy: Policy)
    requires s.windowBars >= 1 && bars != [] && bars[0].open != 0.0 && SweepReport(row, bars, s, det, policy)
    ensures var n, close := WindowCount(bars, s.windowBars), bars[|bars| - 1].close;
            var plan := SweepPlan(s, det, policy, bars, n);
            var fs := BookValue.FillsOfRun(s.p, SeedBook(s, bars), PlanScript(s, bars, plan, n));
            && row.switches == |ChangePoints(plan)|
            && (SeedValue(s.p) == 0.0 ==> row.retPct == 0.0)
            && (SeedValue(s.p) != 0.0 ==>
                  SeedValue(s.p) * row.retPct / 100.0 ==
                  TotalBtc(SeedBook(s, bars)) * (close - bars[0].open)
                  + BookValue.Gains(fs, close) - BookValue.Fees(fs))
  {
    hide WindowCount, SweepPlan, SeedBook, PlanScript, BookValue.FillsOfRun, BookValue.Gains, BookValue.Fees,
      TotalBtc, PortfolioValue, Played, ChangePoints, Changes, SeedValue, RetPct;
    var n := WindowCount(bars, s.windowBars);
    var plan := SweepPlan(s, det, policy, bars, n);
    SweepPlanLength(s, det, policy, bars, n);
    PlanReconciles(s, bars, plan);
    ChangesExactly(plan);
    ReturnExactly(SeedValue(s.p), PortfolioValue(Played(s, bars, plan, n), bars[|bars| - 1].close));
  }

  lemma {:induction false} SweepPlanLength(s: Settings, det: Detector, policy: Policy, bars: seq<Candle>, k: nat)
    requires s.windowBars >= 1 && k <= WindowCount(bars, s.windowBars)
    ensures |SweepPlan(s, det, policy, bars, k)| == k
  {
    hide RawReads, LastConfirmed;
  }
}
