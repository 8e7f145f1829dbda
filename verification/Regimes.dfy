/** The regime-switching portfolio as values: classifiers, policies, the greedy oracle, and
    the plan each simulator follows over a tape cut into windows. */
module Regimes {
  import opened GridGeometry
  import opened OrderBook
  import opened RunSim
  import opened Hysteresis
  import BookSafety
  import RSquared

  datatype Regime = Chop | Up | Down

  datatype Strategy = Tight | Wide | Flat | InCash

  datatype Policy = Policy(chop: Strategy, up: Strategy, down: Strategy) {
    function Pick(r: Regime): Strategy {
      match r case Chop => chop case Up => up case Down => down
    }
  }

  const POLICY := Policy(Tight, Flat, InCash)

  const MENU: seq<Strategy> := [Tight, Wide, Flat, InCash]

  datatype Settings = Settings(
    p: Params, tight: real, wide: real, windowBars: int, trailBars: int,
    chopThreshold: real, measureAgreement: bool)

  datatype Detector = Detector(chopPct: real, confirmN: int, multi: bool, r2Min: real)

  // --- classifiers ---

  function Abs(x: real): real { if x < 0.0 then -x else x }

  /** The lagging read of the switch backtest. */
  function Classify(trailing: seq<real>, chop: real): Regime {
    if |trailing| < 2 || trailing[0] <= 0.0 then Chop
    else
      var drift := (trailing[|trailing| - 1] - trailing[0]) / trailing[0];
      if Abs(drift) < chop then Chop else if drift > 0.0 then Up else Down
  }

  function TrailDrift(trailing: seq<real>): real {
    if |trailing| < 2 || trailing[0] <= 0.0 then 0.0
    else (trailing[|trailing| - 1] - trailing[0]) / trailing[0]
  }

  /** Every `step`-th element, from the first. */
  function Stride(xs: seq<real>, step: nat): seq<real>
    requires step >= 1
  {
    if xs == [] then [] else [xs[0]] + (if |xs| <= step then [] else Stride(xs[step..], step))
  }

  /** The sweep's read: drift alone, or drift gated by the strength of the trend. */
  function Detect(trailing: seq<real>, det: Detector): Regime {
    var drift := TrailDrift(trailing);
    if Abs(drift) < det.chopPct then Chop
    else
      var step := if |trailing| / 200 > 1 then |trailing| / 200 else 1;
      if det.multi && RSquared.RSquared(Stride(trailing, step)) < det.r2Min then Chop
      else if drift > 0.0 then Up else Down
  }

  /** The two drift-only classifiers agree on every history exactly when the chop threshold
      is positive. */
  lemma {:induction false} ClassifiersAgree(chop: real, det: Detector)
    requires det.chopPct == chop && !det.multi
    ensures (forall trailing :: Detect(trailing, det) == Classify(trailing, chop)) <==> chop > 0.0
  {
    if chop <= 0.0 {
      assert Detect([], det) == Down && Classify([], chop) == Chop;
    }
  }

  // --- windows ---

  /** `range(0, len(bars) - 1, wb)` has this many elements. */
  function WindowCount(bars: seq<Candle>, wb: int): nat
    requires wb >= 1
  {
    if |bars| <= 1 then 0 else (|bars| - 2) / wb + 1
  }

  lemma {:induction false} WindowStart(bars: seq<Candle>, wb: int, k: nat)
    requires wb >= 1
    ensures k < WindowCount(bars, wb) <==> k * wb < |bars| - 1
  {
    if |bars| >= 2 {
      var q := (|bars| - 2) / wb;
      assert q * wb <= |bars| - 2 < q * wb + wb;
      if k <= q { MulOrder(k, q, wb); } else { MulOrder(q + 1, k, wb); }
    }
  }

  lemma {:induction false} MulOrder(m: int, n: int, c: nat)
    requires m <= n
    ensures m * c <= n * c
  {
    assert (n - m) * c >= 0;
  }

  function Window(bars: seq<Candle>, wb: int, k: nat): (w: seq<Candle>)
    requires wb >= 1 && k < WindowCount(bars, wb)
    ensures w != []
  {
    WindowStart(bars, wb, k);
    bars[k * wb .. if (k + 1) * wb <= |bars| then (k + 1) * wb else |bars|]
  }

  function Closes(bars: seq<Candle>): seq<real> {
    seq(|bars|, i requires 0 <= i < |bars| => bars[i].close)
  }

  /** The closes the classifier may look at before the bar `start`, or the current price when
      there are none. */
  function Trailing(bars: seq<Candle>, start: nat, trail: int): seq<real>
    requires start < |bars|
  {
    var lo := Max0(start - trail);
    var history := if lo <= start then Closes(bars)[lo..start] else [];
    if history == [] then [bars[start].open] else history
  }

  function Read(s: Settings, bars: seq<Candle>, k: nat): Regime
    requires s.windowBars >= 1 && k < WindowCount(bars, s.windowBars)
  {
    WindowStart(bars, s.windowBars, k);
    Classify(Trailing(bars, k * s.windowBars, s.trailBars), s.chopThreshold)
  }

  function RawRead(s: Settings, det: Detector, bars: seq<Candle>, k: nat): Regime
    requires s.windowBars >= 1 && k < WindowCount(bars, s.windowBars)
  {
    WindowStart(bars, s.windowBars, k);
    Detect(Trailing(bars, k * s.windowBars, s.trailBars), det)
  }

  /** The raw reads of the first `k` windows. */
  function RawReads(s: Settings, det: Detector, bars: seq<Candle>, k: nat): seq<Regime>
    requires s.windowBars >= 1 && k <= WindowCount(bars, s.windowBars)
  {
    seq(k, j requires 0 <= j < k => RawRead(s, det, bars, j))
  }

  function Reads(s: Settings, bars: seq<Candle>, k: nat): seq<Regime>
    requires s.windowBars >= 1 && k <= WindowCount(bars, s.windowBars)
  {
    seq(k, j requires 0 <= j < k => Read(s, bars, j))
  }

  // --- the plans ---

  /** What the realistic policy plays in the first `k` windows. */
  function RealisticPlan(s: Settings, bars: seq<Candle>, k: nat): seq<Strategy>
    requires s.windowBars >= 1 && k <= WindowCount(bars, s.windowBars)
  {
    seq(k, j requires 0 <= j < k => POLICY.Pick(Read(s, bars, j)))
  }

  /** What a sweep plays: the policy applied to the last confirmed regime. */
  function SweepPlan(s: Settings, det: Detector, policy: Policy, bars: seq<Candle>, k: nat): seq<Strategy>
    requires s.windowBars >= 1 && k <= WindowCount(bars, s.windowBars)
  {
    seq(k, j requires 0 <= j < k =>
      policy.Pick(LastConfirmed(Chop, RawReads(s, det, bars, j + 1), det.confirmN)))
  }

  // --- playing a plan ---

  function ApplyActions(s: Settings, strategy: Strategy, price: real): seq<Action> {
    match strategy
    case InCash => [Cancel, Cash(price)]
    case Flat => [Cancel]
    case Tight => [Cancel, Spacing(s.tight), Lay(price)]
    case Wide => [Cancel, Spacing(s.wide), Lay(price)]
  }

  function BarScript(window: seq<Candle>): seq<Action> {
    if window == [] then [] else
      var bar := window[|window| - 1];
      BarScript(window[..|window| - 1]) + [Bar(bar.high, bar.low), Reanchor(bar.close)]
  }

  function Applied(s: Settings, b: Book, strategy: Strategy, price: real): Book {
    Run(s.p, b, ApplyActions(s, strategy, price))
  }

  function AfterWindow(s: Settings, b: Book, strategy: Strategy, window: seq<Candle>): Book
    requires window != []
  {
    Run(s.p, Applied(s, b, strategy, window[0].open), BarScript(window))
  }

  function Outcome(s: Settings, b: Book, strategy: Strategy, window: seq<Candle>): real
    requires window != []
  {
    PortfolioValue(AfterWindow(s, b, strategy, window), window[|window| - 1].close)
  }

  function SeedBook(s: Settings, bars: seq<Candle>): Book
    requires bars != [] && bars[0].open != 0.0
  {
    BookSafety.Seed(s.p, s.tight, bars[0].open)
  }

  /** The portfolio after playing the first `k` entries of a plan. */
  function Played(s: Settings, bars: seq<Candle>, plan: seq<Strategy>, k: nat): Book
    requires s.windowBars >= 1 && bars != [] && bars[0].open != 0.0
    requires k <= |plan| && k <= WindowCount(bars, s.windowBars)
  {
    if k == 0 then SeedBook(s, bars)
    else AfterWindow(s, Played(s, bars, plan, k - 1), plan[k - 1], Window(bars, s.windowBars, k - 1))
  }

  /** The fees of the strategy changes themselves (the cash-out sells). */
  function SwitchFees(s: Settings, bars: seq<Candle>, plan: seq<Strategy>, k: nat): real
    requires s.windowBars >= 1 && bars != [] && bars[0].open != 0.0
    requires k <= |plan| && k <= WindowCount(bars, s.windowBars)
  {
    if k == 0 then 0.0 else
      var b := Played(s, bars, plan, k - 1);
      SwitchFees(s, bars, plan, k - 1)
      + (Applied(s, b, plan[k - 1], Window(bars, s.windowBars, k - 1)[0].open).feesPaid - b.feesPaid)
  }

  function Count<T(==)>(xs: seq<T>, x: T): nat {
    if xs == [] then 0 else Count(xs[..|xs| - 1], x) + (if xs[|xs| - 1] == x then 1 else 0)
  }

  // --- the oracle ---

  /** The best of the first `k` menu entries over the actual window; ties go to the earlier. */
  function BestOf(s: Settings, b: Book, window: seq<Candle>, k: nat): Strategy
    requires window != [] && 1 <= k <= |MENU|
  {
    if k == 1 then MENU[0] else
      var best := BestOf(s, b, window, k - 1);
      if Outcome(s, b, MENU[k - 1], window) > Outcome(s, b, best, window) then MENU[k - 1] else best
  }

  function OracleChoice(s: Settings, b: Book, window: seq<Candle>): Strategy
    requires window != []
  {
    BestOf(s, b, window, |MENU|)
  }

  /** The oracle's plan for the first `k` windows; each choice sees the portfolio its earlier
      choices produced. */
  function OraclePlan(s: Settings, bars: seq<Candle>, k: nat): (plan: seq<Strategy>)
    requires s.windowBars >= 1 && bars != [] && bars[0].open != 0.0 && k <= WindowCount(bars, s.windowBars)
    ensures |plan| == k
  {
    if k == 0 then [] else
      var before := OraclePlan(s, bars, k - 1);
      before + [OracleChoice(s, Played(s, bars, before, k - 1), Window(bars, s.windowBars, k - 1))]
  }

  /** In how many of the first `k` windows the plan agrees with the oracle, asked about the
      portfolio the plan itself produced. */
  function Agreements(s: Settings, bars: seq<Candle>, plan: seq<Strategy>, k: nat): nat
    requires s.windowBars >= 1 && bars != [] && bars[0].open != 0.0
    requires k <= |plan| && k <= WindowCount(bars, s.windowBars)
  {
    if k == 0 then 0 else
      Agreements(s, bars, plan, k - 1)
      + (if plan[k - 1] == OracleChoice(s, Played(s, bars, plan, k - 1), Window(bars, s.windowBars, k - 1))
         then 1 else 0)
  }

  lemma {:induction false} BestOfIsBest(s: Settings, b: Book, window: seq<Candle>, k: nat, j: nat)
    requires window != [] && 1 <= k <= |MENU| && j < k
    ensures Outcome(s, b, BestOf(s, b, window, k), window) >= Outcome(s, b, MENU[j], window)
  {
    hide Outcome;
    if k > 1 && j < k - 1 { BestOfIsBest(s, b, window, k - 1, j); }
  }

  /** An empty book is inert: no bar fills anything and nothing is re-anchored. */
  lemma {:induction false} EmptyBookInert(p: Params, b: Book, window: seq<Candle>)
    requires b.orders == []
    ensures Run(p, b, BarScript(window)) == b
  {
    if window != [] {
      var n := |window| - 1;
      var bar := window[n];
      EmptyBookInert(p, b, window[..n]);
      RunAppend(p, b, BarScript(window[..n]), [Bar(bar.high, bar.low), Reanchor(bar.close)]);
      RunShort(p, b, [Bar(bar.high, bar.low), Reanchor(bar.close)]);
    }
  }

  /** Holding flat over a window keeps the inventory: its outcome is the value, at the last
      close, of what the portfolio held before. */
  lemma {:induction false} FlatHolds(s: Settings, b: Book, window: seq<Candle>)
    requires window != []
    ensures Outcome(s, b, Flat, window) == PortfolioValue(b, window[|window| - 1].close)
  {
    hide Run, BarScript;
    RunShort(s.p, b, [Cancel]);
    EmptyBookInert(s.p, CancelAll(b), window);
    CancelTotals(b);
  }

  lemma {:induction false} CancelTotals(b: Book)
    ensures TotalUsd(CancelAll(b)) == TotalUsd(b) && TotalBtc(CancelAll(b)) == TotalBtc(b)
    ensures CancelAll(b).orders == []
  {
  }

  /** All holdings turned into cash at `price`, less the taker fee and slippage. */
  function Liquidation(p: Params, b: Book, price: real): real {
    TotalUsd(b) + (TotalBtc(b) * price - TotalBtc(b) * price * DeriskRate(p))
  }

  /** Cashing out sells the whole inventory at the window's first price. */
  lemma {:induction false} CashLocksIn(s: Settings, b: Book, window: seq<Candle>)
    requires window != [] && TotalBtc(b) >= 0.0
    ensures Outcome(s, b, InCash, window) == Liquidation(s.p, b, window[0].open)
  {
    var price := window[0].open;
    hide Liquidation, PortfolioValue, DeriskToCash, OrderBook.CancelAll, TotalBtc;
    RunShort(s.p, b, [Cancel, Cash(price)]);
    CashValue(s.p, b, price, window[|window| - 1].close);
    EmptyBookInert(s.p, DeriskToCash(s.p, CancelAll(b), price), window);
  }

  lemma {:induction false} CancelTwice(b: Book)
    ensures CancelAll(CancelAll(b)) == CancelAll(b)
    ensures CancelAll(b).freeUsd == TotalUsd(b) && CancelAll(b).freeBtc == TotalBtc(b)
  {
  }

  lemma {:induction false} CashValue(p: Params, b: Book, price: real, q: real)
    requires TotalBtc(b) >= 0.0
    ensures DeriskToCash(p, CancelAll(b), price).orders == []
    ensures PortfolioValue(DeriskToCash(p, CancelAll(b), price), q) == Liquidation(p, b, price)
  {
    CancelTwice(b);
    var c := DeriskToCash(p, CancelAll(b), price);
    assert c.orders == [] && c.freeBtc == 0.0;
    assert ReservedUsd([]) == 0.0 && ReservedBtc([]) == 0.0;
    hide ReservedUsd, ReservedBtc, DeriskRate;
    assert TotalBtc(c) == 0.0;
  }

  /** The oracle's window ends at least as high as every menu entry: in particular at least as
      high as holding the current inventory, as cashing it out, and as either grid. */
  lemma {:induction false} OracleNeverWorse(s: Settings, b: Book, window: seq<Candle>)
    requires window != []
    ensures var best := Outcome(s, b, OracleChoice(s, b, window), window);
            && best >= PortfolioValue(b, window[|window| - 1].close)
            && (TotalBtc(b) >= 0.0 ==> best >= Liquidation(s.p, b, window[0].open))
            && best >= Outcome(s, b, Tight, window) && best >= Outcome(s, b, Wide, window)
  {
    hide Outcome, BestOf, Liquidation, PortfolioValue;
    BestOfIsBest(s, b, window, |MENU|, 0);
    BestOfIsBest(s, b, window, |MENU|, 1);
    BestOfIsBest(s, b, window, |MENU|, 2);
    BestOfIsBest(s, b, window, |MENU|, 3);
    FlatHolds(s, b, window);
    if TotalBtc(b) >= 0.0 { CashLocksIn(s, b, window); }
  }
}
