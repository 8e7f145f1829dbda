/** The three windowed simulators as the loops they are, over one mutable portfolio carried
    from window to window; each is proved to play the plan Regimes.dfy specifies. */
module RegimeSims {
  import opened OrderBook
  import opened Feasibility
  import opened GridSim
  import opened RunSim
  import opened Hysteresis
  import opened Regimes
  import opened RegimeTheorems
  import opened Wrappers

  datatype PolicyResult = PolicyResult(
    startValue: real, endValue: real, switches: nat, switchFees: real,
    regimeCounts: map<Regime, nat>, strategyCounts: map<Strategy, nat>, oracleAgreement: real)

  datatype SweepRow = SweepRow(retPct: real, switches: nat)

  datatype PolicyRow = PolicyRow(retPct: real, switches: nat, strategyCounts: map<Strategy, nat>)

  // --- where the source does not raise ---

  /** The next window can be played: no grid is laid in it that cannot be. */
  predicate WindowGoes(s: Settings, b: Book, strategy: Strategy, window: seq<Candle>) requires window != [] {
    && RunsThrough(s.p, b, ApplyActions(s, strategy, window[0].open))
    && RunsThrough(s.p, Applied(s, b, strategy, window[0].open), BarScript(window))
  }

  /** So it can be with every entry of the menu, for the oracle's clones. */
  predicate MenuGoes(s: Settings, b: Book, window: seq<Candle>) requires window != [] {
    forall i :: 0 <= i < |MENU| ==> WindowGoes(s, b, MENU[i], window)
  }

  method ApplyStrategy(sim: Sim, s: Settings, strategy: Strategy, price: real) returns (fees: real)
    requires sim.p == s.p && RunsThrough(s.p, sim.State(), ApplyActions(s, strategy, price))
    modifies sim
    ensures sim.State() == Applied(s, old(sim.State()), strategy, price)
    ensures fees == Applied(s, old(sim.State()), strategy, price).feesPaid - old(sim.State()).feesPaid
  {
    RunShort(s.p, sim.State(), ApplyActions(s, strategy, price));
    RunsShort(s.p, sim.State(), ApplyActions(s, strategy, price));
    hide OrderBook.LayGrid, OrderBook.DeriskToCash, CanLay, Run, RunsThrough;
    var feesBefore := sim.feesPaid;
    sim.CancelAll();
    if strategy == InCash {
      sim.DeriskToCash(price);
    } else if strategy == Flat {
    } else {
      sim.spacingPct := if strategy == Tight then s.tight else s.wide;
      sim.LayGrid(price);
    }
    fees := sim.feesPaid - feesBefore;
  }

  lemma {:induction false} BarScriptGoes(p: Params, b: Book, window: seq<Candle>, i: nat)
    requires RunsThrough(p, b, BarScript(window)) && i < |window|
    ensures var mid := ProcessBar(p, Run(p, b, BarScript(window[..i])), window[i].high, window[i].low);
            && NeedsReanchor(p, mid, window[i].close) ==> CanLay(p, mid.spacingPct, window[i].close)
    decreases |window|
  {
    hide ProcessBar, NeedsReanchor, CanLay, Run, RunsThrough, BarScript;
    var n := |window| - 1;
    var before, pair := BarScript(window[..n]), [Bar(window[n].high, window[n].low), Reanchor(window[n].close)];
    BarScriptUnfolded(window);
    RunsAppend(p, b, before, pair);
    if i < n {
      assert window[..n][..i] == window[..i] && window[..n][i] == window[i];
      BarScriptGoes(p, b, window[..n], i);
    } else {
      RunsShort(p, Run(p, b, before), pair);
    }
  }

  lemma {:induction false} BarScriptUnfolded(window: seq<Candle>)
    requires window != []
    ensures var n := |window| - 1;
            BarScript(window) ==
            BarScript(window[..n]) + [Bar(window[n].high, window[n].low), Reanchor(window[n].close)]
  {
  }

  method RunWindow(sim: Sim, window: seq<Candle>)
    requires RunsThrough(sim.p, sim.State(), BarScript(window))
    modifies sim
    ensures sim.State() == Run(sim.p, old(sim.State()), BarScript(window))
  {
    ghost var b := sim.State();
    assert BarScript(window[..0]) == [];
    for i := 0 to |window|
      invariant sim.State() == Run(sim.p, b, BarScript(window[..i]))
    {
      hide CanLay, OrderBook.ProcessBar, OrderBook.MaybeReanchor, Run, RunsThrough, NeedsReanchor;
      ghost var mid := sim.State();
      assert window[..i + 1][..i] == window[..i];
      BarScriptGoes(sim.p, b, window, i);
      RunAppend(sim.p, b, BarScript(window[..i]), [Bar(window[i].high, window[i].low), Reanchor(window[i].close)]);
      RunShort(sim.p, mid, [Bar(window[i].high, window[i].low), Reanchor(window[i].close)]);
      sim.ProcessBar(window[i].high, window[i].low);
      sim.MaybeReanchor(window[i].close);
    }
    assert window[..|window|] == window;
  }

  /** Tries the whole menu on clones. Nothing but the clones is modified, so the portfolio the
      caller holds is the same before and after. */
  method OraclePick(sim: Sim, window: seq<Candle>, price: real, s: Settings) returns (best: Strategy)
    requires window != [] && price == window[0].open
    requires sim.p == s.p && MenuGoes(s, sim.State(), window)
    ensures best == OracleChoice(s, sim.State(), window)
  {
    hide Outcome, WindowGoes;
    best := Flat;
    var bestValue: Option<real> := None;
    var endPrice := window[|window| - 1].close;
    for i := 0 to |MENU|
      invariant i == 0 ==> bestValue == None
      invariant i > 0 ==> best == BestOf(s, sim.State(), window, i)
      invariant i > 0 ==> bestValue == Some(Outcome(s, sim.State(), best, window))
    {
      var clone := new Sim.Clone(sim);
      var value := TryStrategy(clone, window, price, s, MENU[i], endPrice);
      if bestValue == None || value > bestValue.value {
        bestValue := Some(value);
        best := MENU[i];
      }
    }
  }

  /** One menu entry played out on a clone. */
  method TryStrategy(clone: Sim, window: seq<Candle>, price: real, s: Settings, strategy: Strategy, endPrice: real)
    returns (value: real)
    requires window != [] && price == window[0].open && endPrice == window[|window| - 1].close
    requires clone.p == s.p && WindowGoes(s, clone.State(), strategy, window)
    modifies clone
    ensures value == Outcome(s, old(clone.State()), strategy, window)
  {
    var _ := ApplyStrategy(clone, s, strategy, price);
    hide Applied, Run, RunsThrough, OrderBook.PortfolioValue;
    RunWindow(clone, window);
    value := clone.PortfolioValue(endPrice);
  }

  /** The next window, played for real. */
  method PlayWindow(sim: Sim, window: seq<Candle>, s: Settings, strategy: Strategy) returns (fees: real)
    requires window != [] && sim.p == s.p && WindowGoes(s, sim.State(), strategy, window)
    modifies sim
    ensures sim.State() == AfterWindow(s, old(sim.State()), strategy, window)
    ensures fees == Applied(s, old(sim.State()), strategy, window[0].open).feesPaid - old(sim.State()).feesPaid
  {
    hide Applied, Run, RunsThrough, BarScript;
    fees := ApplyStrategy(sim, s, strategy, window[0].open);
    RunWindow(sim, window);
  }

  /** One more entry of a plan: portfolio, switch fees, agreements and counters. */
  lemma {:induction false} PlanSnoc(s: Settings, bars: seq<Candle>, plan: seq<Strategy>, strategy: Strategy)
    requires s.windowBars >= 1 && bars != [] && bars[0].open != 0.0 && |plan| < WindowCount(bars, s.windowBars)
    ensures var k := |plan|;
            var b, w := Played(s, bars, plan, k), Window(bars, s.windowBars, k);
            && Played(s, bars, plan + [strategy], k) == b
            && Played(s, bars, plan + [strategy], k + 1) == AfterWindow(s, b, strategy, w)
            && SwitchFees(s, bars, plan + [strategy], k + 1) ==
               SwitchFees(s, bars, plan, k) + (Applied(s, b, strategy, w[0].open).feesPaid - b.feesPaid)
            && Agreements(s, bars, plan + [strategy], k + 1) ==
               Agreements(s, bars, plan, k) + (if strategy == OracleChoice(s, b, w) then 1 else 0)
  {
    var k, longer := |plan|, plan + [strategy];
    assert plan[..k] == longer[..k];
    SamePrefix(s, bars, plan, longer, k);
    SameSums(s, bars, plan, longer, k);
    hide AfterWindow, Applied, OracleChoice, Window;
  }

  lemma {:induction false} SameSums(s: Settings, bars: seq<Candle>, plan: seq<Strategy>, longer: seq<Strategy>, k: nat)
    requires s.windowBars >= 1 && bars != [] && bars[0].open != 0.0
    requires k <= |plan| && k <= |longer| && k <= WindowCount(bars, s.windowBars) && plan[..k] == longer[..k]
    ensures SwitchFees(s, bars, plan, k) == SwitchFees(s, bars, longer, k)
    ensures Agreements(s, bars, plan, k) == Agreements(s, bars, longer, k)
  {
    if k > 0 {
      assert plan[k - 1] == plan[..k][k - 1] && longer[k - 1] == longer[..k][k - 1];
      assert plan[..k - 1] == plan[..k][..k - 1] && longer[..k - 1] == longer[..k][..k - 1];
      SamePrefix(s, bars, plan, longer, k - 1);
      SameSums(s, bars, plan, longer, k - 1);
      hide AfterWindow, Applied, OracleChoice, Window, Played;
    }
  }

  lemma {:induction false} CountSnoc<T>(xs: seq<T>, x: T, y: T)
    ensures Count(xs + [y], x) == Count(xs, x) + (if y == x then 1 else 0)
  {
    assert (xs + [y])[..|xs|] == xs;
  }

  lemma {:induction false} ChangesSnoc<T>(xs: seq<T>, y: T)
    ensures Changes(xs + [y]) == Changes(xs) + (if xs != [] && xs[|xs| - 1] != y then 1 else 0)
  {
    assert (xs + [y])[..|xs|] == xs;
  }

  ghost predicate Counts<T(!new)>(m: map<T, nat>, xs: seq<T>) {
    forall x :: x in m && m[x] == Count(xs, x)
  }

  lemma {:induction false} CountsSnoc<T(!new)>(m: map<T, nat>, xs: seq<T>, y: T)
    requires Counts(m, xs)
    ensures y in m && Counts(m[y := m[y] + 1], xs + [y])
  {
    var m' := m[y := m[y] + 1];
    forall x ensures x in m' && m'[x] == Count(xs + [y], x) {
      CountSnoc(xs, x, y);
      assert x in m;
    }
  }

  lemma {:induction false} ZeroCounts(regimes: map<Regime, nat>, strategies: map<Strategy, nat>)
    requires regimes == map[Chop := 0, Up := 0, Down := 0]
    requires strategies == map[Tight := 0, Wide := 0, Flat := 0, InCash := 0]
    ensures Counts(regimes, []) && Counts(strategies, [])
  {
    forall x: Regime ensures x in regimes && regimes[x] == 0 { match x case Chop => case Up => case Down => }
    forall x: Strategy ensures x in strategies && strategies[x] == 0 {
      match x case Tight => case Wide => case Flat => case InCash =>
    }
  }

  function Last<T>(xs: seq<T>): Option<T> { if xs == [] then None else Some(xs[|xs| - 1]) }

  method SeedSim(bars: seq<Candle>, s: Settings) returns (sim: Sim)
    requires bars != [] && bars[0].open != 0.0
    ensures fresh(sim) && sim.p == s.p && sim.State() == SeedBook(s, bars)
  {
    sim := NewSeeded(s.p, s.tight, bars[0].open);
  }

  /** The plan a mode follows in the first `k` windows. */
  function PlanOf(s: Settings, bars: seq<Candle>, oracle: bool, k: nat): (plan: seq<Strategy>)
    requires s.windowBars >= 1 && bars != [] && bars[0].open != 0.0 && k <= WindowCount(bars, s.windowBars)
    ensures |plan| == k
  {
    if oracle then OraclePlan(s, bars, k) else RealisticPlan(s, bars, k)
  }

  function ReadsOf(s: Settings, bars: seq<Candle>, oracle: bool, k: nat): seq<Regime>
    requires s.windowBars >= 1 && k <= WindowCount(bars, s.windowBars)
  {
    if oracle then [] else Reads(s, bars, k)
  }

  /** What the mode plays in window `k` with portfolio `b`. */
  function NextPick(s: Settings, bars: seq<Candle>, oracle: bool, b: Book, k: nat): Strategy
    requires s.windowBars >= 1 && k < WindowCount(bars, s.windowBars)
  {
    if oracle then OracleChoice(s, b, Window(bars, s.windowBars, k)) else POLICY.Pick(Read(s, bars, k))
  }

  /** Window `k` of the mode's own run can be played, and the menu on clones when it is tried. */
  predicate PolicyGoesAt(s: Settings, bars: seq<Candle>, oracle: bool, k: nat)
    requires s.windowBars >= 1 && bars != [] && bars[0].open != 0.0 && k < WindowCount(bars, s.windowBars)
  {
    var b, w := Played(s, bars, PlanOf(s, bars, oracle, k), k), Window(bars, s.windowBars, k);
    && WindowGoes(s, b, NextPick(s, bars, oracle, b, k), w)
    && (oracle || s.measureAgreement ==> MenuGoes(s, b, w))
  }

  predicate PolicyGoes(s: Settings, bars: seq<Candle>, oracle: bool) {
    && s.windowBars >= 1 && bars != [] && bars[0].open != 0.0
    && forall k :: 0 <= k < WindowCount(bars, s.windowBars) ==> PolicyGoesAt(s, bars, oracle, k)
  }

  /** The strategy for the window that starts at bar `start`, with the regime read behind it
      when the mode has one. */
  method Choose(sim: Sim, bars: seq<Candle>, s: Settings, oracle: bool, start: nat, window: seq<Candle>, ghost k: nat)
    returns (strategy: Strategy, regime: Option<Regime>)
    requires s.windowBars >= 1 && sim.p == s.p
    requires k < WindowCount(bars, s.windowBars) && start == k * s.windowBars < |bars|
    requires window == Window(bars, s.windowBars, k) && (oracle ==> MenuGoes(s, sim.State(), window))
    ensures regime == if oracle then None else Some(Read(s, bars, k))
    ensures strategy == NextPick(s, bars, oracle, sim.State(), k)
  {
    if oracle {
      hide OracleChoice, Window, MenuGoes;
      regime := None;
      strategy := OraclePick(sim, window, window[0].open, s);
    } else {
      var r := Classify(Trailing(bars, start, s.trailBars), s.chopThreshold);
      regime := Some(r);
      strategy := POLICY.Pick(r);
    }
  }

  /** The counters the loop keeps beside the portfolio. */
  datatype Tally = Tally(
    switches: nat, switchFees: real, agree: nat, decisions: nat, prev: Option<Strategy>,
    regimeCounts: map<Regime, nat>, strategyCounts: map<Strategy, nat>)

  /** The counters agree with the plan played so far. */
  ghost predicate Tallied(s: Settings, bars: seq<Candle>, oracle: bool, plan: seq<Strategy>, t: Tally)
    requires s.windowBars >= 1 && bars != [] && bars[0].open != 0.0 && |plan| <= WindowCount(bars, s.windowBars)
  {
    && plan == PlanOf(s, bars, oracle, |plan|)
    && PlanTallied(s, bars, plan, t)
    && ReadsTallied(s, bars, oracle, plan, t)
  }

  ghost predicate PlanTallied(s: Settings, bars: seq<Candle>, plan: seq<Strategy>, t: Tally)
    requires s.windowBars >= 1 && bars != [] && bars[0].open != 0.0 && |plan| <= WindowCount(bars, s.windowBars)
  {
    && t.switches == Changes(plan) && t.prev == Last(plan)
    && t.switchFees == SwitchFees(s, bars, plan, |plan|)
    && Counts(t.strategyCounts, plan)
  }

  ghost predicate ReadsTallied(s: Settings, bars: seq<Candle>, oracle: bool, plan: seq<Strategy>, t: Tally)
    requires s.windowBars >= 1 && bars != [] && bars[0].open != 0.0 && |plan| <= WindowCount(bars, s.windowBars)
  {
    && Counts(t.regimeCounts, ReadsOf(s, bars, oracle, |plan|))
    && (if !oracle && s.measureAgreement then t.agree == Agreements(s, bars, plan, |plan|) && t.decisions == |plan|
        else t.decisions == 0)
  }

  function NoTally(): Tally {
    Tally(0, 0.0, 0, 0, None, map[Chop := 0, Up := 0, Down := 0], map[Tight := 0, Wide := 0, Flat := 0, InCash := 0])
  }

  lemma {:induction false} NothingTallied(s: Settings, bars: seq<Candle>, oracle: bool)
    requires s.windowBars >= 1 && bars != [] && bars[0].open != 0.0
    ensures Tallied(s, bars, oracle, [], NoTally())
    ensures Played(s, bars, [], 0) == SeedBook(s, bars)
  {
    ZeroCounts(NoTally().regimeCounts, NoTally().strategyCounts);
    hide Counts, SeedBook;
  }

  /** The counters after one more window: `pick` is the shadow oracle's choice, when asked. */
  function Bump(t: Tally, strategy: Strategy, regime: Option<Regime>, pick: Option<Strategy>, fees: real): Tally
    requires strategy in t.strategyCounts && (regime.Some? ==> regime.value in t.regimeCounts)
  {
    t.(switches := t.switches + (if t.prev.Some? && strategy != t.prev.value then 1 else 0),
       switchFees := t.switchFees + fees,
       agree := t.agree + (if pick == Some(strategy) then 1 else 0),
       decisions := t.decisions + (if pick.Some? then 1 else 0),
       prev := Some(strategy),
       regimeCounts := if regime.Some? then t.regimeCounts[regime.value := t.regimeCounts[regime.value] + 1]
                       else t.regimeCounts,
       strategyCounts := t.strategyCounts[strategy := t.strategyCounts[strategy] + 1])
  }

  lemma {:induction false} TallyCovers(s: Settings, bars: seq<Candle>, oracle: bool, plan: seq<Strategy>, t: Tally)
    requires s.windowBars >= 1 && bars != [] && bars[0].open != 0.0 && |plan| <= WindowCount(bars, s.windowBars)
    requires Tallied(s, bars, oracle, plan, t)
    ensures forall st: Strategy :: st in t.strategyCounts
    ensures forall r: Regime :: r in t.regimeCounts
    ensures plan == PlanOf(s, bars, oracle, |plan|)
  {
  }

  lemma {:induction false} TallyStep(
    s: Settings, bars: seq<Candle>, oracle: bool, plan: seq<Strategy>, t: Tally,
    strategy: Strategy, regime: Option<Regime>, pick: Option<Strategy>, fees: real)
    requires s.windowBars >= 1 && bars != [] && bars[0].open != 0.0 && |plan| < WindowCount(bars, s.windowBars)
    requires Tallied(s, bars, oracle, plan, t)
    requires var k := |plan|;
             var b, w := Played(s, bars, plan, k), Window(bars, s.windowBars, k);
             && strategy == NextPick(s, bars, oracle, b, k)
             && regime == (if oracle then None else Some(Read(s, bars, k)))
             && pick == (if !oracle && s.measureAgreement then Some(OracleChoice(s, b, w)) else None)
             && fees == Applied(s, b, strategy, w[0].open).feesPaid - b.feesPaid
    ensures strategy in t.strategyCounts && (regime.Some? ==> regime.value in t.regimeCounts)
    ensures Tallied(s, bars, oracle, plan + [strategy], Bump(t, strategy, regime, pick, fees))
    ensures Played(s, bars, plan + [strategy], |plan| + 1) ==
            AfterWindow(s, Played(s, bars, plan, |plan|), strategy, Window(bars, s.windowBars, |plan|))
  {
    hide Played, Window, WindowCount, PlanOf, AfterWindow, Applied, Read, OracleChoice, PlanTallied, ReadsTallied,
      Bump;
    TallyCovers(s, bars, oracle, plan, t);
    PlanGrows(s, bars, oracle, |plan|, plan, strategy);
    PlanSnoc(s, bars, plan, strategy);
    PlanTallyStep(s, bars, plan, t, strategy, regime, pick, fees);
    ReadsTallyStep(s, bars, oracle, plan, t, strategy, regime, pick, fees);
  }

  lemma {:induction false} PlanTallyStep(
    s: Settings, bars: seq<Candle>, plan: seq<Strategy>, t: Tally,
    strategy: Strategy, regime: Option<Regime>, pick: Option<Strategy>, fees: real)
    requires s.windowBars >= 1 && bars != [] && bars[0].open != 0.0 && |plan| < WindowCount(bars, s.windowBars)
    requires PlanTallied(s, bars, plan, t) && strategy in t.strategyCounts
    requires regime.Some? ==> regime.value in t.regimeCounts
    requires fees ==
             Applied(s, Played(s, bars, plan, |plan|), strategy, Window(bars, s.windowBars, |plan|)[0].open).feesPaid
                     - Played(s, bars, plan, |plan|).feesPaid
    ensures PlanTallied(s, bars, plan + [strategy], Bump(t, strategy, regime, pick, fees))
  {
    hide Played, SwitchFees, Agreements, Window, WindowCount, Counts, Changes, AfterWindow, Applied, OracleChoice;
    assert |plan + [strategy]| == |plan| + 1;
    PlanSnoc(s, bars, plan, strategy);
    CountsSnoc(t.strategyCounts, plan, strategy);
    ChangesSnoc(plan, strategy);
  }

  lemma {:induction false} ReadsTallyStep(
    s: Settings, bars: seq<Candle>, oracle: bool, plan: seq<Strategy>, t: Tally,
    strategy: Strategy, regime: Option<Regime>, pick: Option<Strategy>, fees: real)
    requires s.windowBars >= 1 && bars != [] && bars[0].open != 0.0 && |plan| < WindowCount(bars, s.windowBars)
    requires ReadsTallied(s, bars, oracle, plan, t) && strategy in t.strategyCounts
    requires regime == if oracle then None else Some(Read(s, bars, |plan|))
    requires pick == if !oracle && s.measureAgreement
                     then Some(OracleChoice(s, Played(s, bars, plan, |plan|), Window(bars, s.windowBars, |plan|)))
                     else None
    ensures regime.Some? ==> regime.value in t.regimeCounts
    ensures ReadsTallied(s, bars, oracle, plan + [strategy], Bump(t, strategy, regime, pick, fees))
  {
    hide Played, SwitchFees, Agreements, Window, WindowCount, Counts, AfterWindow, Applied, Read, ReadsOf,
      OracleChoice;
    assert |plan + [strategy]| == |plan| + 1;
    PlanSnoc(s, bars, plan, strategy);
    ReadsGrow(s, bars, oracle, |plan|);
    if !oracle { CountsSnoc(t.regimeCounts, ReadsOf(s, bars, oracle, |plan|), Read(s, bars, |plan|)); }
  }

  lemma {:induction false} ReadsGrow(s: Settings, bars: seq<Candle>, oracle: bool, k: nat)
    requires s.windowBars >= 1 && k < WindowCount(bars, s.windowBars)
    ensures oracle ==> ReadsOf(s, bars, oracle, k + 1) == ReadsOf(s, bars, oracle, k)
    ensures !oracle ==> ReadsOf(s, bars, oracle, k + 1) == ReadsOf(s, bars, oracle, k) + [Read(s, bars, k)]
  {
    hide Read;
  }

  /** What the switch backtest reports about the plan of its mode; `measureAgreement` only adds
      the agreement figure. */
  ghost predicate PolicyReport(r: PolicyResult, bars: seq<Candle>, s: Settings, oracle: bool)
    requires s.windowBars >= 1 && bars != [] && bars[0].open != 0.0
  {
    var n := WindowCount(bars, s.windowBars);
    var plan := PlanOf(s, bars, oracle, n);
    && r.startValue == PortfolioValue(SeedBook(s, bars), bars[0].open)
    && r.endValue == PortfolioValue(Played(s, bars, plan, n), bars[|bars| - 1].close)
    && r.switches == Changes(plan)
    && r.switchFees == SwitchFees(s, bars, plan, n)
    && Counts(r.regimeCounts, ReadsOf(s, bars, oracle, n))
    && Counts(r.strategyCounts, plan)
    && r.oracleAgreement ==
       (if !oracle && s.measureAgreement && n > 0
        then Agreements(s, bars, plan, n) as real / n as real else 0.0)
  }

  /** The switch backtest. */
  method SimulatePolicy(bars: seq<Candle>, s: Settings, oracle: bool) returns (r: PolicyResult)
    requires PolicyGoes(s, bars, oracle)
    ensures PolicyReport(r, bars, s, oracle)
  {
    hide Played, OrderBook.PortfolioValue, SeedBook, Window, WindowCount, Tallied, Bump, AfterWindow, Applied, Read,
      OracleChoice, Run, WindowGoes, MenuGoes, PolicyGoesAt, NextPick, PlanOf;
    var wb := s.windowBars;
    NothingTallied(s, bars, oracle);
    WindowStart(bars, wb, 0);
    var sim := SeedSim(bars, s);
    var startValue := sim.PortfolioValue(bars[0].open);
    var tally := NoTally();
    var start := 0;
    ghost var plan: seq<Strategy> := [];
    while start < |bars| - 1
      invariant |plan| <= WindowCount(bars, wb) && start == |plan| * wb
      invariant start < |bars| - 1 <==> |plan| < WindowCount(bars, wb)
      invariant sim.p == s.p && fresh(sim)
      invariant sim.State() == Played(s, bars, plan, |plan|)
      invariant Tallied(s, bars, oracle, plan, tally)
      decreases |bars| - start
    {
      WindowIs(bars, wb, |plan|);
      TallyCovers(s, bars, oracle, plan, tally);
      PolicyNext(s, bars, oracle, |plan|);
      var window := bars[start .. if start + wb <= |bars| then start + wb else |bars|];
      var strategy, regime := Choose(sim, bars, s, oracle, start, window, |plan|);
      var pick: Option<Strategy> := None;
      if !oracle && s.measureAgreement {
        var shadow := OraclePick(sim, window, window[0].open, s);
        pick := Some(shadow);
      }
      var fees := PlayWindow(sim, window, s, strategy);
      TallyStep(s, bars, oracle, plan, tally, strategy, regime, pick, fees);
      WindowStart(bars, wb, |plan| + 1);
      tally := Bump(tally, strategy, regime, pick, fees);
      plan := plan + [strategy];
      start := start + wb;
    }
    TallyCovers(s, bars, oracle, plan, tally);
    var endValue := sim.PortfolioValue(bars[|bars| - 1].close);
    r := PolicyResult(startValue, endValue, tally.switches, tally.switchFees, tally.regimeCounts, tally.strategyCounts,
                      if tally.decisions > 0 then tally.agree as real / tally.decisions as real else 0.0);
    Reported(s, bars, oracle, plan, tally, r);
  }

  lemma {:induction false} PolicyNext(s: Settings, bars: seq<Candle>, oracle: bool, k: nat)
    requires PolicyGoes(s, bars, oracle) && k < WindowCount(bars, s.windowBars)
    ensures var b, w := Played(s, bars, PlanOf(s, bars, oracle, k), k), Window(bars, s.windowBars, k);
            && WindowGoes(s, b, NextPick(s, bars, oracle, b, k), w)
            && (oracle || s.measureAgreement ==> MenuGoes(s, b, w))
  {
    hide Played, PlanOf, Window, WindowGoes, MenuGoes, NextPick, WindowCount;
    assert PolicyGoesAt(s, bars, oracle, k);
  }

  lemma {:induction false} Reported(
    s: Settings, bars: seq<Candle>, oracle: bool, plan: seq<Strategy>, t: Tally, r: PolicyResult)
    requires s.windowBars >= 1 && bars != [] && bars[0].open != 0.0 && |plan| == WindowCount(bars, s.windowBars)
    requires Tallied(s, bars, oracle, plan, t)
    requires r.switches == t.switches && r.switchFees == t.switchFees && r.regimeCounts == t.regimeCounts
    requires r.strategyCounts == t.strategyCounts
    requires r.oracleAgreement == if t.decisions > 0 then t.agree as real / t.decisions as real else 0.0
    ensures var n := WindowCount(bars, s.windowBars);
            && r.switches == Changes(plan) && r.switchFees == SwitchFees(s, bars, plan, n)
            && Counts(r.regimeCounts, ReadsOf(s, bars, oracle, n)) && Counts(r.strategyCounts, plan)
            && r.oracleAgreement ==
               (if !oracle && s.measureAgreement && n > 0
                then Agreements(s, bars, plan, n) as real / n as real else 0.0)
  {
    hide Counts, Changes, SwitchFees, Agreements, PlanOf, ReadsOf;
  }

  lemma {:induction false} WindowIs(bars: seq<Candle>, wb: int, k: nat)
    requires wb >= 1 && k < WindowCount(bars, wb)
    ensures k * wb < |bars| && (k + 1) * wb == k * wb + wb
    ensures Window(bars, wb, k) == bars[k * wb .. if k * wb + wb <= |bars| then k * wb + wb else |bars|]
  {
    WindowStart(bars, wb, k);
  }

  /** The plan of a mode grows by the strategy chosen for the next window. */
  lemma {:induction false} PlanGrows(
    s: Settings, bars: seq<Candle>, oracle: bool, k: nat, plan: seq<Strategy>, strategy: Strategy)
    requires s.windowBars >= 1 && bars != [] && bars[0].open != 0.0 && k < WindowCount(bars, s.windowBars)
    requires plan == PlanOf(s, bars, oracle, k)
    requires strategy ==
             if oracle then OracleChoice(s, Played(s, bars, plan, k), Window(bars, s.windowBars, k))
             else POLICY.Pick(Read(s, bars, k))
    ensures PlanOf(s, bars, oracle, k + 1) == plan + [strategy]
  {
    hide Read, OracleChoice, Played, Window;
  }

  // --- the sweeps ---

  /** One step of the confirmation machine, branch by branch. */
  method Confirm(committed: Regime, pending: Option<Regime>, pendingN: int, raw: Regime, confirmN: int)
    returns (committed': Regime, pending': Option<Regime>, pendingN': int)
    ensures Machine(committed', pending', pendingN') == Next(Machine(committed, pending, pendingN), raw, confirmN)
  {
    committed', pending', pendingN' := committed, pending, pendingN;
    if raw == committed {
      pending', pendingN' := None, 0;
    } else if Some(raw) == pending {
      pendingN' := pendingN + 1;
      if pendingN' >= confirmN {
        committed', pending', pendingN' := raw, None, 0;
      }
    } else {
      pending', pendingN' := Some(raw), 1;
      if confirmN <= 1 {
        committed', pending', pendingN' := raw, None, 0;
      }
    }
  }

  function RetPct(start: real, end: real): real {
    if start != 0.0 then (end - start) / start * 100.0 else 0.0
  }

  /** What a sweep's loop knows after `|plan|` windows. */
  ghost predicate SweepTallied(
    s: Settings, det: Detector, policy: Policy, bars: seq<Candle>, plan: seq<Strategy>,
    m: Machine<Regime>, switches: nat, prev: Option<Strategy>)
    requires s.windowBars >= 1 && |plan| <= WindowCount(bars, s.windowBars)
  {
    && plan == SweepPlan(s, det, policy, bars, |plan|)
    && m == Machines(Chop, RawReads(s, det, bars, |plan|), det.confirmN)
    && switches == Changes(plan) && prev == Last(plan)
  }

  lemma {:induction false} SweepTallyStep(
    s: Settings, det: Detector, policy: Policy, bars: seq<Candle>, plan: seq<Strategy>,
    m: Machine<Regime>, switches: nat, prev: Option<Strategy>)
    requires s.windowBars >= 1 && |plan| < WindowCount(bars, s.windowBars)
    requires SweepTallied(s, det, policy, bars, plan, m, switches, prev)
    ensures var m' := Next(m, RawRead(s, det, bars, |plan|), det.confirmN);
            var strategy := policy.Pick(m'.committed);
            var switched := if prev.Some? && strategy != prev.value then 1 else 0;
            SweepTallied(s, det, policy, bars, plan + [strategy], m', switches + switched, Some(strategy))
  {
    hide RawRead, WindowCount, LastConfirmed;
    var k := |plan|;
    var raws, longer := RawReads(s, det, bars, k), RawReads(s, det, bars, k + 1);
    assert longer == raws + [RawRead(s, det, bars, k)];
    assert longer[..|longer| - 1] == raws;
    MachineCommitsLastRun(Chop, longer, det.confirmN);
    var strategy := policy.Pick(Machines(Chop, longer, det.confirmN).committed);
    assert |plan + [strategy]| == k + 1;
    assert SweepPlan(s, det, policy, bars, k + 1) == plan + [strategy];
    ChangesSnoc(plan, strategy);
  }

  /** Window `k` of the sweep's own run can be played. */
  predicate SweepGoesAt(s: Settings, bars: seq<Candle>, det: Detector, policy: Policy, k: nat)
    requires s.windowBars >= 1 && bars != [] && bars[0].open != 0.0 && k < WindowCount(bars, s.windowBars)
  {
    WindowGoes(s, Played(s, bars, SweepPlan(s, det, policy, bars, k), k), SweepPlan(s, det, policy, bars, k + 1)[k],
               Window(bars, s.windowBars, k))
  }

  predicate SweepGoes(s: Settings, bars: seq<Candle>, det: Detector, policy: Policy) {
    && s.windowBars >= 1 && bars != [] && bars[0].open != 0.0
    && forall k :: 0 <= k < WindowCount(bars, s.windowBars) ==> SweepGoesAt(s, bars, det, policy, k)
  }

  lemma {:induction false} SweepNext(
    s: Settings, bars: seq<Candle>, det: Detector, policy: Policy, plan: seq<Strategy>,
    m: Machine<Regime>, switches: nat, prev: Option<Strategy>)
    requires SweepGoes(s, bars, det, policy) && |plan| < WindowCount(bars, s.windowBars)
    requires SweepTallied(s, det, policy, bars, plan, m, switches, prev)
    ensures WindowGoes(s, Played(s, bars, plan, |plan|),
                       policy.Pick(Next(m, RawRead(s, det, bars, |plan|), det.confirmN).committed),
                       Window(bars, s.windowBars, |plan|))
  {
    hide Played, Window, WindowGoes, RawRead, WindowCount, LastConfirmed;
    var k := |plan|;
    SweepTallyStep(s, det, policy, bars, plan, m, switches, prev);
    assert SweepGoesAt(s, bars, det, policy, k);
  }

  /** What a sweep reports: return and switches of the plan "policy of the last confirmed
      regime". */
  predicate SweepReport(row: SweepRow, bars: seq<Candle>, s: Settings, det: Detector, policy: Policy)
    requires s.windowBars >= 1 && bars != [] && bars[0].open != 0.0
  {
    var n := WindowCount(bars, s.windowBars);
    var plan := SweepPlan(s, det, policy, bars, n);
    && row.switches == Changes(plan)
    && row.retPct == RetPct(PortfolioValue(SeedBook(s, bars), bars[0].open),
                            PortfolioValue(Played(s, bars, plan, n), bars[|bars| - 1].close))
  }

  /** The detection sweep: the fixed policy over the confirmed regime. */
  method SimulateDetection(bars: seq<Candle>, s: Settings, det: Detector) returns (row: SweepRow)
    requires SweepGoes(s, bars, det, POLICY)
    ensures SweepReport(row, bars, s, det, POLICY)
  {
    hide Played, OrderBook.PortfolioValue, SeedBook, Window, WindowCount, SweepTallied, AfterWindow, RawRead, Run,
      Next, Detect, Trailing, Changes, SweepPlan, WindowGoes, SweepGoesAt, SwitchFees, Agreements;
    var wb := s.windowBars;
    WindowStart(bars, wb, 0);
    NothingSwept(s, det, POLICY, bars);
    var sim := SeedSim(bars, s);
    var startValue := sim.PortfolioValue(bars[0].open);
    var committed, pending, pendingN := Chop, None, 0;
    var prev: Option<Strategy>, switches: nat := None, 0;
    var start := 0;
    ghost var plan: seq<Strategy> := [];
    while start < |bars| - 1
      invariant |plan| <= WindowCount(bars, wb) && start == |plan| * wb
      invariant start < |bars| - 1 <==> |plan| < WindowCount(bars, wb)
      invariant sim.p == s.p && fresh(sim)
      invariant sim.State() == Played(s, bars, plan, |plan|)
      invariant SweepTallied(s, det, POLICY, bars, plan, Machine(committed, pending, pendingN), switches, prev)
      decreases |bars| - start
    {
      WindowIs(bars, wb, |plan|);
      var window := bars[start .. if start + wb <= |bars| then start + wb else |bars|];
      var raw := Detect(Trailing(bars, start, s.trailBars), det);
      RawReadIs(s, det, bars, |plan|);
      SweepNext(s, bars, det, POLICY, plan, Machine(committed, pending, pendingN), switches, prev);
      SweepTallyStep(s, det, POLICY, bars, plan, Machine(committed, pending, pendingN), switches, prev);
      committed, pending, pendingN := Confirm(committed, pending, pendingN, raw, det.confirmN);
      var strategy := POLICY.Pick(committed);
      PlanSnoc(s, bars, plan, strategy);
      WindowStart(bars, wb, |plan| + 1);
      var _ := PlayWindow(sim, window, s, strategy);
      if prev.Some? && strategy != prev.value { switches := switches + 1; }
      prev := Some(strategy);
      plan := plan + [strategy];
      start := start + wb;
    }
    SweepPlanOf(s, det, POLICY, bars, plan, Machine(committed, pending, pendingN), switches, prev);
    var endValue := sim.PortfolioValue(bars[|bars| - 1].close);
    row := SweepRow(RetPct(startValue, endValue), switches);
  }

  /** The policy sweep: the same machine with the policy map as a parameter. */
  method SimulatePolicyMap(bars: seq<Candle>, s: Settings, det: Detector, policy: Policy) returns (row: PolicyRow)
    requires SweepGoes(s, bars, det, policy)
    ensures SweepReport(SweepRow(row.retPct, row.switches), bars, s, det, policy)
    ensures Counts(row.strategyCounts, SweepPlan(s, det, policy, bars, WindowCount(bars, s.windowBars)))
  {
    hide Played, OrderBook.PortfolioValue, SeedBook, Window, WindowCount, SweepTallied, AfterWindow, RawRead, Run,
      Next, Counts, Detect, Trailing, Changes, SweepPlan, WindowGoes, SweepGoesAt, SwitchFees, Agreements;
    var wb := s.windowBars;
    WindowStart(bars, wb, 0);
    NothingSwept(s, det, policy, bars);
    var sim := SeedSim(bars, s);
    var startValue := sim.PortfolioValue(bars[0].open);
    var committed, pending, pendingN := Chop, None, 0;
    var prev: Option<Strategy>, switches: nat := None, 0;
    var counts: map<Strategy, nat> := NoTally().strategyCounts;
    ZeroCounts(NoTally().regimeCounts, counts);
    var start := 0;
    ghost var plan: seq<Strategy> := [];
    while start < |bars| - 1
      invariant |plan| <= WindowCount(bars, wb) && start == |plan| * wb
      invariant start < |bars| - 1 <==> |plan| < WindowCount(bars, wb)
      invariant sim.p == s.p && fresh(sim)
      invariant sim.State() == Played(s, bars, plan, |plan|)
      invariant SweepTallied(s, det, policy, bars, plan, Machine(committed, pending, pendingN), switches, prev)
      invariant Counts(counts, plan)
      decreases |bars| - start
    {
      WindowIs(bars, wb, |plan|);
      var window := bars[start .. if start + wb <= |bars| then start + wb else |bars|];
      var raw := Detect(Trailing(bars, start, s.trailBars), det);
      RawReadIs(s, det, bars, |plan|);
      SweepNext(s, bars, det, policy, plan, Machine(committed, pending, pendingN), switches, prev);
      SweepTallyStep(s, det, policy, bars, plan, Machine(committed, pending, pendingN), switches, prev);
      committed, pending, pendingN := Confirm(committed, pending, pendingN, raw, det.confirmN);
      var strategy := policy.Pick(committed);
      CountsSnoc(counts, plan, strategy);
      counts := counts[strategy := counts[strategy] + 1];
      PlanSnoc(s, bars, plan, strategy);
      WindowStart(bars, wb, |plan| + 1);
      var _ := PlayWindow(sim, window, s, strategy);
      if prev.Some? && strategy != prev.value { switches := switches + 1; }
      prev := Some(strategy);
      plan := plan + [strategy];
      start := start + wb;
    }
    SweepPlanOf(s, det, policy, bars, plan, Machine(committed, pending, pendingN), switches, prev);
    var endValue := sim.PortfolioValue(bars[|bars| - 1].close);
    row := PolicyRow(RetPct(startValue, endValue), switches, counts);
  }

  lemma {:induction false} RawReadIs(s: Settings, det: Detector, bars: seq<Candle>, k: nat)
    requires s.windowBars >= 1 && k < WindowCount(bars, s.windowBars)
    ensures k * s.windowBars < |bars|
    ensures RawRead(s, det, bars, k) == Detect(Trailing(bars, k * s.windowBars, s.trailBars), det)
  {
    WindowStart(bars, s.windowBars, k);
  }

  lemma {:induction false} NothingSwept(s: Settings, det: Detector, policy: Policy, bars: seq<Candle>)
    requires s.windowBars >= 1 && bars != [] && bars[0].open != 0.0
    ensures SweepTallied(s, det, policy, bars, [], Start(Chop), 0, None)
    ensures Played(s, bars, [], 0) == SeedBook(s, bars)
  {
  }

  lemma {:induction false} SweepPlanOf(
    s: Settings, det: Detector, policy: Policy, bars: seq<Candle>, plan: seq<Strategy>,
    m: Machine<Regime>, switches: nat, prev: Option<Strategy>)
    requires s.windowBars >= 1 && |plan| <= WindowCount(bars, s.windowBars)
    requires SweepTallied(s, det, policy, bars, plan, m, switches, prev)
    ensures plan == SweepPlan(s, det, policy, bars, |plan|) && switches == Changes(plan)
  {
  }

  // --- the reports agree ---

  /** Without confirmation, on drift alone and with a positive threshold, the detection sweep
      reports the switches and the return of the realistic switch backtest, on every tape. */
  lemma {:induction false} BacktestIsSweep(
    r: PolicyResult, row: SweepRow, bars: seq<Candle>, s: Settings, det: Detector)
    requires s.windowBars >= 1 && bars != [] && bars[0].open != 0.0
    requires det.confirmN <= 1 && !det.multi && det.chopPct == s.chopThreshold > 0.0
    requires PolicyReport(r, bars, s, false) && SweepReport(row, bars, s, det, POLICY)
    ensures row.switches == r.switches && row.retPct == RetPct(r.startValue, r.endValue)
  {
    hide Played, PortfolioValue, SeedBook, WindowCount, RealisticPlan, SweepPlan, Changes, SwitchFees, Agreements,
      Counts, ReadsOf, RetPct;
    SweepIsRealistic(s, det, bars, WindowCount(bars, s.windowBars));
  }

  /** A sweep's report is determined by its arguments: the policy sweep with the fixed map and the
      detection sweep report the same return and switches, for every detector. */
  lemma {:induction false} SweepsAgree(
    a: SweepRow, b: PolicyRow, bars: seq<Candle>, s: Settings, det: Detector, policy: Policy)
    requires s.windowBars >= 1 && bars != [] && bars[0].open != 0.0
    requires SweepReport(a, bars, s, det, policy) && SweepReport(SweepRow(b.retPct, b.switches), bars, s, det, policy)
    ensures a.retPct == b.retPct && a.switches == b.switches
  {
    hide Played, PortfolioValue, SeedBook, WindowCount, SweepPlan, Changes, RetPct;
  }

  // --- what the caller can check ---

  predicate AnchorsBoth(s: Settings, price: real) { CanLay(s.p, s.tight, price) && CanLay(s.p, s.wide, price) }

  predicate OnMenu(s: Settings, pct: real) { pct == s.tight || pct == s.wide }

  predicate AllAnchor(s: Settings, bars: seq<Candle>) {
    forall i :: 0 <= i < |bars| ==> AnchorsBoth(s, bars[i].open) && AnchorsBoth(s, bars[i].close)
  }

  lemma {:induction false} BarScriptAnchors(s: Settings, window: seq<Candle>)
    requires AllAnchor(s, window)
    ensures Anchorable(s.p, s.tight, s.wide, BarScript(window))
  {
    hide CanLay;
    if window != [] {
      var n := |window| - 1;
      assert forall i :: 0 <= i < n ==> window[..n][i] == window[i];
      BarScriptAnchors(s, window[..n]);
      assert AnchorsBoth(s, window[n].close);
    }
  }

  lemma {:induction false} WindowAnchors(s: Settings, b: Book, strategy: Strategy, window: seq<Candle>)
    requires window != [] && AllAnchor(s, window) && OnMenu(s, b.spacingPct)
    ensures WindowGoes(s, b, strategy, window)
    ensures OnMenu(s, AfterWindow(s, b, strategy, window).spacingPct)
  {
    hide CanLay, RunsThrough, Run, BarScript;
    BarScriptAnchors(s, window);
    assert AnchorsBoth(s, window[0].open);
    AnchorableRuns(s.p, s.tight, s.wide, b, ApplyActions(s, strategy, window[0].open));
    AnchorableRuns(s.p, s.tight, s.wide, Applied(s, b, strategy, window[0].open), BarScript(window));
  }

  lemma {:induction false} WindowOfTape(s: Settings, bars: seq<Candle>, k: nat)
    requires s.windowBars >= 1 && k < WindowCount(bars, s.windowBars) && AllAnchor(s, bars)
    ensures AllAnchor(s, Window(bars, s.windowBars, k))
  {
    hide AnchorsBoth;
    WindowStart(bars, s.windowBars, k);
    var w := Window(bars, s.windowBars, k);
    assert forall i :: 0 <= i < |w| ==> w[i] == bars[k * s.windowBars + i];
  }

  lemma {:induction false} PlayedOnMenu(s: Settings, bars: seq<Candle>, plan: seq<Strategy>, k: nat)
    requires s.windowBars >= 1 && bars != [] && bars[0].open != 0.0 && AllAnchor(s, bars)
    requires k <= |plan| && k <= WindowCount(bars, s.windowBars)
    ensures OnMenu(s, Played(s, bars, plan, k).spacingPct)
  {
    hide AllAnchor, Window, WindowCount, AfterWindow;
    if k > 0 {
      PlayedOnMenu(s, bars, plan, k - 1);
      WindowOfTape(s, bars, k - 1);
      WindowAnchors(s, Played(s, bars, plan, k - 1), plan[k - 1], Window(bars, s.windowBars, k - 1));
    }
  }

  /** Enough for every simulator to go through, and checkable before the run: each open and each
      close of the tape can anchor a grid of either menu spacing. */
  lemma {:induction false} TapeGoes(s: Settings, bars: seq<Candle>, oracle: bool, det: Detector, policy: Policy)
    requires s.windowBars >= 1 && bars != [] && bars[0].open != 0.0 && AllAnchor(s, bars)
    ensures PolicyGoes(s, bars, oracle) && SweepGoes(s, bars, det, policy)
  {
    hide AllAnchor, Played, Window, WindowCount, WindowGoes, AfterWindow, OnMenu, PlanOf, NextPick;
    forall k | 0 <= k < WindowCount(bars, s.windowBars)
      ensures PolicyGoesAt(s, bars, oracle, k) && SweepGoesAt(s, bars, det, policy, k)
    {
      var w := Window(bars, s.windowBars, k);
      WindowOfTape(s, bars, k);
      var mine, swept := PlanOf(s, bars, oracle, k), SweepPlan(s, det, policy, bars, k);
      PlayedOnMenu(s, bars, mine, k);
      PlayedOnMenu(s, bars, swept, k);
      forall strategy ensures WindowGoes(s, Played(s, bars, mine, k), strategy, w) {
        WindowAnchors(s, Played(s, bars, mine, k), strategy, w);
      }
      WindowAnchors(s, Played(s, bars, swept, k), SweepPlan(s, det, policy, bars, k + 1)[k], w);
    }
  }
}
