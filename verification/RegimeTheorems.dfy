/** Theorems about whole regime runs: no look-ahead, equivalence of the three simulators, the
    oracle's floor, and the ledger facts of OrderBook carried over to windowed runs. */
module RegimeTheorems {
  import opened GridGeometry
  import opened OrderBook
  import opened RunSim
  import opened Hysteresis
  import opened Regimes
  import BookSafety
  import BookValue

  // --- no look-ahead ---

  /** Two tapes that agree before bar `start` give a classifier the same evidence, up to the
      one-element stand-in used when there is no history at all. */
  lemma {:induction false} TrailingAgrees(bars: seq<Candle>, other: seq<Candle>, start: nat, trail: int)
    requires start < |bars| && start < |other| && bars[..start] == other[..start]
    ensures var t, u := Trailing(bars, start, trail), Trailing(other, start, trail);
            t == u || (|t| == 1 && |u| == 1)
  {
    var lo := Max0(start - trail);
    if lo <= start {
      assert Closes(bars)[lo..start] == Closes(other)[lo..start] by {
        forall i | lo <= i < start ensures Closes(bars)[i] == Closes(other)[i] {
          assert bars[..start][i] == other[..start][i];
        }
      }
    }
  }

  /** A read of the realistic policy depends on nothing from its own window on. */
  lemma {:induction false} ReadIgnoresTheFuture(s: Settings, bars: seq<Candle>, other: seq<Candle>, k: nat)
    requires s.windowBars >= 1 && k < WindowCount(bars, s.windowBars) && k < WindowCount(other, s.windowBars)
    requires k * s.windowBars <= |bars| && k * s.windowBars <= |other|
    requires bars[..k * s.windowBars] == other[..k * s.windowBars]
    ensures Read(s, bars, k) == Read(s, other, k)
  {
    WindowStart(bars, s.windowBars, k);
    WindowStart(other, s.windowBars, k);
    TrailingAgrees(bars, other, k * s.windowBars, s.trailBars);
  }

  lemma {:induction false} RawReadIgnoresTheFuture(
    s: Settings, det: Detector, bars: seq<Candle>, other: seq<Candle>, k: nat)
    requires s.windowBars >= 1 && k < WindowCount(bars, s.windowBars) && k < WindowCount(other, s.windowBars)
    requires k * s.windowBars <= |bars| && k * s.windowBars <= |other|
    requires bars[..k * s.windowBars] == other[..k * s.windowBars]
    ensures RawRead(s, det, bars, k) == RawRead(s, det, other, k)
  {
    WindowStart(bars, s.windowBars, k);
    WindowStart(other, s.windowBars, k);
    TrailingAgrees(bars, other, k * s.windowBars, s.trailBars);
    var t := Trailing(bars, k * s.windowBars, s.trailBars);
    var u := Trailing(other, k * s.windowBars, s.trailBars);
    if |t| == 1 && |u| == 1 {
      assert Stride(t, 1) == [t[0]] && Stride(u, 1) == [u[0]];
    }
  }

  lemma {:induction false} ShorterPrefix(bars: seq<Candle>, other: seq<Candle>, wb: nat, j: nat, k: nat)
    requires j <= k && k * wb <= |bars| && k * wb <= |other| && bars[..k * wb] == other[..k * wb]
    ensures j * wb <= k * wb && bars[..j * wb] == other[..j * wb]
  {
    MulOrder(j, k, wb);
    assert bars[..j * wb] == bars[..k * wb][..j * wb];
    assert other[..j * wb] == other[..k * wb][..j * wb];
  }

  /** No look-ahead, realistic policy: tapes that agree on the first `k` windows get the same
      regimes and strategies up to and including window `k`. */
  lemma {:induction false} RealisticNoLookAhead(s: Settings, bars: seq<Candle>, other: seq<Candle>, k: nat)
    requires s.windowBars >= 1 && k < WindowCount(bars, s.windowBars) && k < WindowCount(other, s.windowBars)
    requires k * s.windowBars <= |bars| && k * s.windowBars <= |other|
    requires bars[..k * s.windowBars] == other[..k * s.windowBars]
    ensures Reads(s, bars, k + 1) == Reads(s, other, k + 1)
    ensures RealisticPlan(s, bars, k + 1) == RealisticPlan(s, other, k + 1)
  {
    forall j | 0 <= j <= k ensures Read(s, bars, j) == Read(s, other, j) {
      ShorterPrefix(bars, other, s.windowBars, j, k);
      ReadIgnoresTheFuture(s, bars, other, j);
    }
  }

  /** No look-ahead, sweeps: the same for the raw reads and the committed strategies. */
  lemma {:induction false} SweepNoLookAhead(
    s: Settings, det: Detector, policy: Policy, bars: seq<Candle>, other: seq<Candle>, k: nat)
    requires s.windowBars >= 1 && k < WindowCount(bars, s.windowBars) && k < WindowCount(other, s.windowBars)
    requires k * s.windowBars <= |bars| && k * s.windowBars <= |other|
    requires bars[..k * s.windowBars] == other[..k * s.windowBars]
    ensures RawReads(s, det, bars, k + 1) == RawReads(s, det, other, k + 1)
    ensures SweepPlan(s, det, policy, bars, k + 1) == SweepPlan(s, det, policy, other, k + 1)
  {
    forall j | 0 <= j <= k ensures RawRead(s, det, bars, j) == RawRead(s, det, other, j) {
      ShorterPrefix(bars, other, s.windowBars, j, k);
      RawReadIgnoresTheFuture(s, det, bars, other, j);
    }
    var mine, theirs := SweepPlan(s, det, policy, bars, k + 1), SweepPlan(s, det, policy, other, k + 1);
    forall j | 0 <= j <= k ensures mine[j] == theirs[j] {
      assert RawReads(s, det, bars, j + 1) == RawReads(s, det, other, j + 1);
    }
  }

  /** The portfolio that enters window `k` was produced by the first `k` windows alone. */
  lemma {:induction false} PortfolioIgnoresTheFuture(
    s: Settings, bars: seq<Candle>, other: seq<Candle>, plan: seq<Strategy>, plan': seq<Strategy>, k: nat)
    requires s.windowBars >= 1 && k < WindowCount(bars, s.windowBars) && k < WindowCount(other, s.windowBars)
    requires 1 <= k <= |plan| && k <= |plan'| && plan[..k] == plan'[..k]
    requires k * s.windowBars <= |bars| && k * s.windowBars <= |other|
    requires bars[..k * s.windowBars] == other[..k * s.windowBars]
    requires bars[0].open != 0.0
    ensures other[0].open != 0.0
    ensures Played(s, bars, plan, k) == Played(s, other, plan', k)
  {
    var wb: nat := s.windowBars;
    ShorterPrefix(bars, other, wb, 1, k);
    assert bars[0] == bars[..1 * wb][0] && other[0] == other[..1 * wb][0];
    assert plan[k - 1] == plan[..k][k - 1] && plan'[k - 1] == plan'[..k][k - 1];
    ShorterPrefix(bars, other, wb, k - 1, k);
    assert (k - 1 + 1) * wb == k * wb;
    WindowStart(bars, wb, k - 1);
    WindowStart(other, wb, k - 1);
    assert Window(bars, wb, k - 1) == bars[..k * wb][(k - 1) * wb..];
    assert Window(other, wb, k - 1) == other[..k * wb][(k - 1) * wb..];
    if k > 1 {
      assert plan[..k - 1] == plan[..k][..k - 1] && plan'[..k - 1] == plan'[..k][..k - 1];
      PortfolioIgnoresTheFuture(s, bars, other, plan, plan', k - 1);
    }
    hide AfterWindow, Window;
  }

  // --- the simulators agree ---

  /** With no confirmation and drift alone, the detection sweep plays exactly what the realistic
      policy plays, provided the chop threshold is positive. */
  lemma {:induction false} SweepIsRealistic(s: Settings, det: Detector, bars: seq<Candle>, k: nat)
    requires s.windowBars >= 1 && k <= WindowCount(bars, s.windowBars)
    requires det.confirmN <= 1 && !det.multi && det.chopPct == s.chopThreshold > 0.0
    ensures RawReads(s, det, bars, k) == Reads(s, bars, k)
    ensures SweepPlan(s, det, POLICY, bars, k) == RealisticPlan(s, bars, k)
  {
    ClassifiersAgree(s.chopThreshold, det);
    forall j | 0 <= j < k
      ensures LastConfirmed(Chop, RawReads(s, det, bars, j + 1), det.confirmN) == Read(s, bars, j)
    {
      NoConfirmationNoDelay(Chop, RawReads(s, det, bars, j + 1), det.confirmN);
    }
  }

  /** With a chop threshold of zero or less the two disagree from the first window on. */
  lemma {:induction false} NonPositiveThresholdDiffers(s: Settings, det: Detector, bars: seq<Candle>)
    requires s.windowBars >= 1 && |bars| >= 2
    requires det.confirmN <= 1 && !det.multi && det.chopPct == s.chopThreshold <= 0.0
    ensures WindowCount(bars, s.windowBars) >= 1
    ensures SweepPlan(s, det, POLICY, bars, 1) == [InCash] && RealisticPlan(s, bars, 1) == [Tight]
  {
    WindowStart(bars, s.windowBars, 0);
    assert Trailing(bars, 0, s.trailBars) == [bars[0].open];
    NoConfirmationNoDelay(Chop, RawReads(s, det, bars, 1), det.confirmN);
  }

  /** The whipsaw bound of a sweep, for every policy map: strategy changes times the number of
      confirmations never exceed the number of windows. */
  lemma {:induction false} SweepSwitchBound(s: Settings, det: Detector, policy: Policy, bars: seq<Candle>, k: nat)
    requires s.windowBars >= 1 && k <= WindowCount(bars, s.windowBars)
    ensures det.confirmN * Changes(SweepPlan(s, det, policy, bars, k)) <= k
  {
    var raws, plan := RawReads(s, det, bars, k), SweepPlan(s, det, policy, bars, k);
    forall j | 0 <= j < k
      ensures plan[j] == policy.Pick(CommittedSeq(Chop, raws, det.confirmN)[j])
    {
      CommittedAt(Chop, raws, det.confirmN, j);
      MachineCommitsLastRun(Chop, raws[..j + 1], det.confirmN);
      assert raws[..j + 1] == RawReads(s, det, bars, j + 1);
    }
    SwitchesAreRationed(Chop, raws, det.confirmN, r => policy.Pick(r), plan);
  }

  // --- windowed runs are scripts ---

  /** The whole run of a plan as one script of operations. */
  function PlanScript(s: Settings, bars: seq<Candle>, plan: seq<Strategy>, k: nat): seq<Action>
    requires s.windowBars >= 1 && k <= |plan| && k <= WindowCount(bars, s.windowBars)
  {
    if k == 0 then [] else
      var w := Window(bars, s.windowBars, k - 1);
      PlanScript(s, bars, plan, k - 1) + (ApplyActions(s, plan[k - 1], w[0].open) + BarScript(w))
  }

  lemma {:induction false} PlayedIsRun(s: Settings, bars: seq<Candle>, plan: seq<Strategy>, k: nat)
    requires s.windowBars >= 1 && bars != [] && bars[0].open != 0.0
    requires k <= |plan| && k <= WindowCount(bars, s.windowBars)
    ensures Played(s, bars, plan, k) == Run(s.p, SeedBook(s, bars), PlanScript(s, bars, plan, k))
  {
    hide Window, WindowCount, BarScript, ApplyActions, SeedBook, AfterWindow, Step;
    if k > 0 {
      var w := Window(bars, s.windowBars, k - 1);
      var before := PlanScript(s, bars, plan, k - 1);
      var b := Played(s, bars, plan, k - 1);
      PlayedIsRun(s, bars, plan, k - 1);
      RunAppend(s.p, SeedBook(s, bars), before, ApplyActions(s, plan[k - 1], w[0].open) + BarScript(w));
      AfterWindowIsRun(s, b, plan[k - 1], w);
    }
  }

  lemma {:induction false} AfterWindowIsRun(s: Settings, b: Book, strategy: Strategy, window: seq<Candle>)
    requires window != []
    ensures AfterWindow(s, b, strategy, window) ==
            Run(s.p, b, ApplyActions(s, strategy, window[0].open) + BarScript(window))
  {
    hide Run, ApplyActions, BarScript;
    RunAppend(s.p, b, ApplyActions(s, strategy, window[0].open), BarScript(window));
  }

  predicate SaneSettings(s: Settings) {
    SaneGrid(s.p, s.tight) && s.wide > 0.0 && s.windowBars >= 1
  }

  lemma {:induction false} BarScriptProper(p: Params, b: Book, window: seq<Candle>)
    requires forall i :: 0 <= i < |window| ==> window[i].low > 0.0 && window[i].close > 0.0
    ensures BookSafety.ProperRun(p, b, BarScript(window))
  {
    if window != [] {
      var n := |window| - 1;
      BarScriptProper(p, b, window[..n]);
      ShortProper(p, Run(p, b, BarScript(window[..n])),
        [Bar(window[n].high, window[n].low), Reanchor(window[n].close)]);
      BookSafety.ProperAppend(p, b, BarScript(window[..n]),
                              [Bar(window[n].high, window[n].low), Reanchor(window[n].close)]);
    }
  }

  /** A strategy change cancels first, so its grid is laid on an empty book. */
  lemma {:induction false} ApplyProper(s: Settings, b: Book, strategy: Strategy, price: real)
    requires SaneSettings(s) && price > 0.0
    ensures BookSafety.ProperRun(s.p, b, ApplyActions(s, strategy, price))
  {
    hide LayGrid, DeriskToCash;
    ProperThree(s.p, b, ApplyActions(s, strategy, price));
  }

  /** A script of at most three actions, checked one action at a time. */
  lemma {:induction false} ProperThree(p: Params, b: Book, script: seq<Action>)
    requires |script| <= 3
    requires |script| >= 1 ==> BookSafety.Proper(b, script[0])
    requires |script| >= 2 ==> BookSafety.Proper(Step(p, b, script[0]), script[1])
    requires |script| >= 3 ==> BookSafety.Proper(Step(p, Step(p, b, script[0]), script[1]), script[2])
    ensures BookSafety.ProperRun(p, b, script)
  {
    hide Step, BookSafety.Proper;
    if script != [] {
      var before := script[..|script| - 1];
      ProperThree(p, b, before);
      RunShort(p, b, before);
    }
  }

  lemma {:induction false} PlanProper(s: Settings, bars: seq<Candle>, plan: seq<Strategy>, k: nat)
    requires SaneSettings(s) && Market(bars) && k <= |plan| && k <= WindowCount(bars, s.windowBars)
    ensures BookSafety.ProperRun(s.p, SeedBook(s, bars), PlanScript(s, bars, plan, k))
  {
    if k > 0 {
      var w := Window(bars, s.windowBars, k - 1);
      var seed, before := SeedBook(s, bars), PlanScript(s, bars, plan, k - 1);
      var apply := ApplyActions(s, plan[k - 1], w[0].open);
      WindowStart(bars, s.windowBars, k - 1);
      assert forall i :: 0 <= i < |w| ==> w[i] == bars[(k - 1) * s.windowBars + i];
      hide Window, SeedBook, Run, ApplyActions;
      PlanProper(s, bars, plan, k - 1);
      ApplyProper(s, Run(s.p, seed, before), plan[k - 1], w[0].open);
      BarScriptProper(s.p, Run(s.p, Run(s.p, seed, before), apply), w);
      BookSafety.ProperAppend(s.p, Run(s.p, seed, before), apply, BarScript(w));
      BookSafety.ProperAppend(s.p, seed, before, apply + BarScript(w));
    }
  }

  /** Whatever is played, window after window: the carried-forward portfolio stays solvent, its
      book fits the grid and stands on one ladder. */
  lemma {:induction false} EveryWindowSafe(s: Settings, bars: seq<Candle>, plan: seq<Strategy>, k: nat)
    requires SaneSettings(s) && Market(bars) && k <= |plan| && k <= WindowCount(bars, s.windowBars)
    ensures var b := Played(s, bars, plan, k);
            && b.freeBtc >= 0.0 && TotalBtc(b) >= 0.0 && b.freeUsd + b.feesPaid >= 0.0
            && |b.orders| <= BookSafety.Rungs(s.p)
            && BookSafety.OnLadder(s.p, b)
  {
    var seed, script := SeedBook(s, bars), PlanScript(s, bars, plan, k);
    PlayedIsRun(s, bars, plan, k);
    PlanProper(s, bars, plan, k);
    SeedSolvent(s.p, s.tight, bars[0].open);
    BookSafety.RunSolvent(s.p, seed, script);
    BookSafety.RunSize(s.p, seed, script);
    BookSafety.RunOnLadder(s.p, seed, script);
    var b := Played(s, bars, plan, k);
    BookSafety.BackedReserves(b.orders, b.curSpacing);
  }

  /** The profit of a windowed run at the last close, from its fills. */
  lemma {:induction false} PlanProfit(s: Settings, bars: seq<Candle>, plan: seq<Strategy>, k: nat, q: real)
    requires s.windowBars >= 1 && bars != [] && bars[0].open != 0.0
    requires k <= |plan| && k <= WindowCount(bars, s.windowBars)
    ensures var seed := SeedBook(s, bars);
            PortfolioValue(Played(s, bars, plan, k), q) - PortfolioValue(seed, bars[0].open) ==
            TotalBtc(seed) * (q - bars[0].open)
            + BookValue.Gains(BookValue.FillsOfRun(s.p, seed, PlanScript(s, bars, plan, k)), q)
            - (Played(s, bars, plan, k).feesPaid - seed.feesPaid)
  {
    hide *;
    PlayedIsRun(s, bars, plan, k);
    BookValue.ProfitDecomposition(s.p, SeedBook(s, bars), PlanScript(s, bars, plan, k), bars[0].open, q);
  }

  /** At the end of every window of an oracle run the portfolio is worth at least what its
      inventory at the window's start is worth then, and at least what cashing that inventory
      out at the window's first price would have given. */
  lemma {:induction false} OracleRunFloor(s: Settings, bars: seq<Candle>, k: nat)
    requires SaneSettings(s) && Market(bars) && k < WindowCount(bars, s.windowBars)
    ensures var w := Window(bars, s.windowBars, k);
            var close := w[|w| - 1].close;
            var before := Played(s, bars, OraclePlan(s, bars, k), k);
            var after := Played(s, bars, OraclePlan(s, bars, k + 1), k + 1);
            && PortfolioValue(after, close) >= PortfolioValue(before, close)
            && PortfolioValue(after, close) >= Liquidation(s.p, before, w[0].open)
            && PortfolioValue(after, close) >= Outcome(s, before, Tight, w)
            && PortfolioValue(after, close) >= Outcome(s, before, Wide, w)
  {
    var w := Window(bars, s.windowBars, k);
    var before, plan := OraclePlan(s, bars, k), OraclePlan(s, bars, k + 1);
    var b := Played(s, bars, before, k);
    EveryWindowSafe(s, bars, before, k);
    SamePrefix(s, bars, before, plan, k);
    assert plan[k] == OracleChoice(s, b, w);
    assert Played(s, bars, plan, k + 1) == AfterWindow(s, b, plan[k], w);
    hide Played, Window, OraclePlan;
    PickFloor(s, b, plan[k], w);
  }

  lemma {:induction false} PickFloor(s: Settings, b: Book, pick: Strategy, w: seq<Candle>)
    requires w != [] && pick == OracleChoice(s, b, w) && TotalBtc(b) >= 0.0
    ensures var close := w[|w| - 1].close;
            var value := PortfolioValue(AfterWindow(s, b, pick, w), close);
            && value >= PortfolioValue(b, close) && value >= Liquidation(s.p, b, w[0].open)
            && value >= Outcome(s, b, Tight, w) && value >= Outcome(s, b, Wide, w)
  {
    hide AfterWindow, OracleChoice, PortfolioValue, Liquidation, TotalBtc;
    OracleNeverWorse(s, b, w);
  }

  lemma {:induction false} SamePrefix(
    s: Settings, bars: seq<Candle>, plan: seq<Strategy>, longer: seq<Strategy>, k: nat)
    requires s.windowBars >= 1 && bars != [] && bars[0].open != 0.0
    requires k <= |plan| && k <= |longer| && k <= WindowCount(bars, s.windowBars) && plan[..k] == longer[..k]
    ensures Played(s, bars, plan, k) == Played(s, bars, longer, k)
  {
    if k > 0 {
      assert plan[k - 1] == plan[..k][k - 1] && longer[k - 1] == longer[..k][k - 1];
      assert plan[..k - 1] == plan[..k][..k - 1] && longer[..k - 1] == longer[..k][..k - 1];
      SamePrefix(s, bars, plan, longer, k - 1);
      hide AfterWindow, Window, SeedBook;
    }
  }
}
