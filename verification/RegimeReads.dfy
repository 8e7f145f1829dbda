/** What a regime read looks at and what it decides, in terms of the tape and its prices; and which
    part of the tape the windows play. */
module RegimeReads {
  import opened GridGeometry
  import opened OrderBook
  import opened RunSim
  import opened Hysteresis
  import opened Regimes
  import opened RegimeTheorems
  import RSquared

  // --- the evidence ---

  function Least(m: int, n: int): int { if m <= n then m else n }

  /** A read looks at the closes of the last `trail` bars before the window, or of all of them when
      there are fewer, in order and up to the last one. */
  lemma {:induction false} TrailingExactly(bars: seq<Candle>, start: nat, trail: int)
    requires 0 < trail && 0 < start < |bars|
    ensures var t := Trailing(bars, start, trail);
            && |t| == Least(trail, start)
            && forall j :: 0 <= j < |t| ==> t[j] == bars[start - |t| + j].close
  {
    var lo := if trail <= start then start - trail else 0;
    var t := Trailing(bars, start, trail);
    assert |t| == start - lo;
    forall j | 0 <= j < |t| ensures t[j] == bars[lo + j].close {
      assert t[j] == Closes(bars)[lo + j];
    }
  }

  /** The bars a read may look at. */
  function Past(bars: seq<Candle>, start: nat, trail: int): seq<Candle>
    requires 0 < trail && start <= |bars|
  {
    bars[start - Least(trail, start)..start]
  }

  /** Nothing before the trailing bars matters, and neither does the position of the window: two
      windows, of one tape or of two, that come after the same trailing bars are read alike. */
  lemma {:induction false} ReadForgetsThePast(
    s: Settings, det: Detector, bars: seq<Candle>, other: seq<Candle>, k: nat, k': nat)
    requires s.windowBars >= 1 && s.trailBars >= 1 && k >= 1 && k' >= 1
    requires k < WindowCount(bars, s.windowBars) && k' < WindowCount(other, s.windowBars)
    requires k * s.windowBars <= |bars| && k' * s.windowBars <= |other|
    requires Past(bars, k * s.windowBars, s.trailBars) == Past(other, k' * s.windowBars, s.trailBars)
    ensures Read(s, bars, k) == Read(s, other, k')
    ensures RawRead(s, det, bars, k) == RawRead(s, det, other, k')
  {
    WindowStart(bars, s.windowBars, k);
    WindowStart(other, s.windowBars, k');
    MulOrder(1, k, s.windowBars);
    MulOrder(1, k', s.windowBars);
    SameEvidence(bars, other, k * s.windowBars, k' * s.windowBars, s.trailBars);
    hide Trailing, Classify, Detect;
  }

  lemma {:induction false} SameEvidence(
    bars: seq<Candle>, other: seq<Candle>, start: nat, start': nat, trail: int)
    requires 0 < trail && 0 < start < |bars| && 0 < start' < |other|
    requires Past(bars, start, trail) == Past(other, start', trail)
    ensures Trailing(bars, start, trail) == Trailing(other, start', trail)
  {
    TrailingExactly(bars, start, trail);
    TrailingExactly(other, start', trail);
    var t, u := Trailing(bars, start, trail), Trailing(other, start', trail);
    hide Trailing;
    assert |t| == |Past(bars, start, trail)| == |u|;
    forall j | 0 <= j < |t| ensures t[j] == u[j] {
      assert Past(bars, start, trail)[j] == bars[start - |t| + j];
      assert Past(other, start', trail)[j] == other[start' - |u| + j];
    }
  }

  // --- the decision ---

  /** From `first` to `last` the price moved by at least the share `chop`. */
  predicate Moved(first: real, last: real, chop: real) {
    last - first >= chop * first || first - last >= chop * first
  }

  lemma {:induction false} DriftByPrice(first: real, last: real, chop: real)
    requires first > 0.0
    ensures Abs((last - first) / first) >= chop <==> Moved(first, last, chop)
    ensures (last - first) / first > 0.0 <==> last > first
  {
    var drift := (last - first) / first;
    ShareOfPrice(first, last - first, drift);
    InOrder(chop, drift, first);
    InOrder(chop, -drift, first);
    InOrder(drift, 0.0, first);
  }

  lemma {:induction false} ShareOfPrice(first: real, change: real, share: real)
    requires first > 0.0 && share == change / first
    ensures share * first == change && (-share) * first == -change && 0.0 * first == 0.0
  {
    assert (-share) * first == -(share * first);
  }

  lemma {:induction false} InOrder(x: real, y: real, scale: real)
    requires scale > 0.0
    ensures x <= y <==> x * scale <= y * scale
  {
    if x <= y { assert (y - x) * scale >= 0.0; } else { assert (x - y) * scale > 0.0; }
  }

  /** The read of the switch backtest: chop without two closes or a positive first one, and else by
      the move from the first close to the last; exactly at the threshold it is no longer chop. */
  lemma {:induction false} ClassifyExactly(t: seq<real>, chop: real)
    ensures |t| < 2 || t[0] <= 0.0 ==> Classify(t, chop) == Chop
    ensures |t| >= 2 && t[0] > 0.0 ==>
              Classify(t, chop) ==
              if !Moved(t[0], t[|t| - 1], chop) then Chop else if t[|t| - 1] > t[0] then Up else Down
  {
    if |t| >= 2 && t[0] > 0.0 { DriftByPrice(t[0], t[|t| - 1], chop); }
  }

  /** What the realistic policy plays in a window, by the closes before it: with fewer than two of
      them to look at, or a first one that is not positive, the tight grid; else it holds after a rise
      of at least the threshold, sits in cash after a fall of at least the threshold, and lays the
      tight grid in between. */
  lemma {:induction false} StrategyByPrice(s: Settings, bars: seq<Candle>, k: nat)
    requires s.windowBars >= 1 && k < WindowCount(bars, s.windowBars) && k * s.windowBars <= |bars|
    ensures var start := k * s.windowBars;
            RealisticPlan(s, bars, k + 1)[k] ==
            if s.trailBars < 2 || start < 2 then Tight
            else
              var first, last := bars[start - Least(s.trailBars, start)].close, bars[start - 1].close;
              if first <= 0.0 || !Moved(first, last, s.chopThreshold) then Tight
              else if last > first then Flat else InCash
  {
    var start := k * s.windowBars;
    WindowStart(bars, s.windowBars, k);
    var t := Trailing(bars, start, s.trailBars);
    if 0 < s.trailBars && 0 < start { TrailingExactly(bars, start, s.trailBars); }
    hide Classify;
    ClassifyExactly(t, s.chopThreshold);
  }

  /** The sample the trend is fitted to: every `m`-th close from the first, `m` a two-hundredth of
      their number, at least one. */
  ghost predicate Sampled(t: seq<real>, m: nat, u: seq<real>) {
    && m == (if |t| < 400 then 1 else |t| / 200)
    && (|u| - 1) * m < |t| <= |u| * m
    && forall i {:trigger u[i]} :: 0 <= i < |u| ==> 0 <= i * m < |t| && u[i] == t[i * m]
  }

  lemma {:induction false} StrideExactly(xs: seq<real>, step: nat, i: nat)
    requires step >= 1 && i < |Stride(xs, step)|
    ensures i * step < |xs| && Stride(xs, step)[i] == xs[i * step]
  {
    if i == 0 {
      assert 0 * step == 0;
    } else {
      StrideFront(xs, step, i);
      hide Stride;
      StrideExactly(xs[step..], step, i - 1);
      OneMoreStep(i - 1, step);
      var k := (i - 1) * step;
      assert 0 <= k by { MulOrder(0, i - 1, step); }
      Dropped(xs, step, k);
    }
  }

  lemma {:induction false} StrideFront(xs: seq<real>, step: nat, i: nat)
    requires step >= 1 && 1 <= i < |Stride(xs, step)|
    ensures step <= |xs| && i - 1 < |Stride(xs[step..], step)|
    ensures Stride(xs, step)[i] == Stride(xs[step..], step)[i - 1]
  {
  }

  lemma {:induction false} Dropped(xs: seq<real>, step: nat, k: int)
    requires step <= |xs| && 0 <= k < |xs| - step
    ensures xs[step..][k] == xs[step + k]
  {
  }

  lemma {:induction false} OneMoreStep(n: int, step: int)
    ensures (n + 1) * step == n * step + step
  {
  }

  lemma {:induction false} StrideLength(xs: seq<real>, step: nat)
    requires step >= 1
    ensures xs != [] ==> (|Stride(xs, step)| - 1) * step < |xs| <= |Stride(xs, step)| * step
  {
    if |xs| > step {
      StrideLength(xs[step..], step);
      var n := |Stride(xs[step..], step)|;
      assert (n + 1) * step == n * step + step && n * step == (n - 1) * step + step;
    }
  }

  lemma {:induction false} StrideSamples(t: seq<real>, m: nat)
    requires t != [] && m == (if |t| / 200 > 1 then |t| / 200 else 1)
    ensures Sampled(t, m, Stride(t, m))
  {
    StrideLength(t, m);
    forall i | 0 <= i < |Stride(t, m)| ensures 0 <= i * m < |t| && Stride(t, m)[i] == t[i * m] {
      StrideExactly(t, m, i);
    }
  }

  lemma {:induction false} SampleUnique(t: seq<real>, m: nat, u: seq<real>, v: seq<real>)
    requires Sampled(t, m, u) && Sampled(t, m, v)
    ensures u == v
  {
    if |u| < |v| { MulOrder(|u|, |v| - 1, m); }
    if |v| < |u| { MulOrder(|v|, |u| - 1, m); }
  }

  /** The read of the sweeps: chop unless the price moved and, when the trend counts, the sampled
      closes fit a line at least as well as asked; then up after a rise and down after anything else.
      Without two closes or a positive first one the move is zero. */
  lemma {:induction false} DetectExactly(t: seq<real>, det: Detector, m: nat, u: seq<real>)
    requires t != [] && Sampled(t, m, u)
    ensures var usable := |t| >= 2 && t[0] > 0.0;
            Detect(t, det) ==
            if !(if usable then Moved(t[0], t[|t| - 1], det.chopPct) else det.chopPct <= 0.0) then Chop
            else if det.multi && RSquared.RSquared(u) < det.r2Min then Chop
            else if usable && t[|t| - 1] > t[0] then Up else Down
  {
    hide Sampled, Stride, RSquared.RSquared;
    var step := if |t| / 200 > 1 then |t| / 200 else 1;
    StrideSamples(t, step);
    SampleFacts(t, m, u);
    SampleUnique(t, m, u, Stride(t, m));
    if |t| >= 2 && t[0] > 0.0 { DriftByPrice(t[0], t[|t| - 1], det.chopPct); }
  }

  /** How large the sample is: two hundred points or fewer if and only if there are no more closes
      than that, or a whole multiple of two hundred of them; and always fewer than four hundred. */
  lemma {:induction false} SampleSize(t: seq<real>, m: nat, u: seq<real>)
    requires t != [] && Sampled(t, m, u)
    ensures |u| <= 200 <==> |t| <= 200 || |t| % 200 == 0
    ensures |u| < 400
  {
    var n, r := |t|, |t| % 200;
    hide Sampled;
    SampleFacts(t, m, u);
    if n >= 400 {
      assert n == 200 * m + r;
      if |u| <= 200 { MulOrder(|u|, 200, m); }
      if r == 0 && |u| > 200 { MulOrder(200, |u| - 1, m); }
      if |u| >= 400 { MulOrder(399, |u| - 1, m); assert false; }
    }
  }

  lemma {:induction false} SampleFacts(t: seq<real>, m: nat, u: seq<real>)
    requires Sampled(t, m, u)
    ensures m == (if |t| < 400 then 1 else |t| / 200)
    ensures (|u| - 1) * m < |t| <= |u| * m
    ensures |t| < 400 ==> |u| == |t|
  {
  }

  // --- confirmation ---

  /** Before as many windows as a confirmation takes have been read, every sweep plays the strategy
      for chop. */
  lemma {:induction false} PatientStart(s: Settings, det: Detector, policy: Policy, bars: seq<Candle>, k: nat, j: nat)
    requires s.windowBars >= 1 && j < k <= WindowCount(bars, s.windowBars) && j + 1 < det.confirmN
    ensures SweepPlan(s, det, policy, bars, k)[j] == policy.chop
  {
    hide RawRead;
    TooShort(Chop, RawReads(s, det, bars, j + 1), det.confirmN);
  }

  lemma {:induction false} TooShort<T>(initial: T, raws: seq<T>, confirmN: int)
    requires |raws| < Needed(confirmN)
    ensures LastConfirmed(initial, raws, confirmN) == initial
  {
    if raws != [] { TooShort(initial, raws[..|raws| - 1], confirmN); }
  }

  /** And once the last `confirmN` windows were read alike, it plays the strategy for that read. */
  lemma {:induction false} ConfirmedIsPlayed(
    s: Settings, det: Detector, policy: Policy, bars: seq<Candle>, k: nat, j: nat, r: Regime)
    requires s.windowBars >= 1 && j < k <= WindowCount(bars, s.windowBars) && det.confirmN <= j + 1
    requires RawRead(s, det, bars, j) == r
    requires forall i :: 0 <= i <= j && j + 1 - det.confirmN <= i ==> RawRead(s, det, bars, i) == r
    ensures SweepPlan(s, det, policy, bars, k)[j] ==
            match r case Chop => policy.chop case Up => policy.up case Down => policy.down
  {
    hide RawRead;
    var raws := RawReads(s, det, bars, j + 1);
    assert raws[j] == r;
    assert forall i :: 0 <= i <= j ==> raws[i] == RawRead(s, det, bars, i);
    assert EndsWithRun(raws, Needed(det.confirmN));
  }

  // --- the windows ---

  /** The bars of the first `k` windows, one after the other. */
  function PlayedBars(bars: seq<Candle>, wb: int, k: nat): seq<Candle>
    requires wb >= 1 && k <= WindowCount(bars, wb)
  {
    if k == 0 then [] else PlayedBars(bars, wb, k - 1) + Window(bars, wb, k - 1)
  }

  /** The windows tile the tape from its first bar, without a gap and without an overlap. */
  lemma {:induction false} WindowsTile(bars: seq<Candle>, wb: int, k: nat)
    requires wb >= 1 && k <= WindowCount(bars, wb)
    ensures 0 <= Least(k * wb, |bars|) <= |bars|
    ensures PlayedBars(bars, wb, k) == bars[..Least(k * wb, |bars|)]
  {
    MulOrder(0, k, wb);
    if k > 0 {
      WindowsTile(bars, wb, k - 1);
      WindowStart(bars, wb, k - 1);
      assert k * wb == (k - 1) * wb + wb;
      var from, upto := (k - 1) * wb, Least(k * wb, |bars|);
      assert (k - 1 + 1) * wb == k * wb;
      assert Window(bars, wb, k - 1) == bars[from..upto];
      assert bars[..from] + bars[from..upto] == bars[..upto];
    }
  }

  /** All bars are played but possibly the last one, which is left out exactly when the bars before
      it fill whole windows: no window starts at the last bar. */
  lemma {:induction false} LastBarLeftOut(bars: seq<Candle>, wb: int)
    requires wb >= 1 && bars != []
    ensures PlayedBars(bars, wb, WindowCount(bars, wb)) ==
            if (|bars| - 1) % wb == 0 then bars[..|bars| - 1] else bars
  {
    var n, m := WindowCount(bars, wb), |bars|;
    WindowsTile(bars, wb, n);
    hide PlayedBars;
    if m >= 2 {
      WindowStart(bars, wb, n);
      WindowStart(bars, wb, n - 1);
      hide WindowCount;
      OneMoreStep(n - 1, wb);
      if (m - 1) % wb == 0 {
        Multiples(m - 1, n, wb);
      } else {
        Remainder(m - 1, n, wb);
      }
    }
    assert bars[..m] == bars;
  }

  lemma {:induction false} Remainder(x: nat, n: nat, wb: int)
    requires wb >= 1 && x % wb != 0
    ensures n * wb != x
  {
    var q := x / wb;
    assert q * wb < x < q * wb + wb;
    OneMoreStep(q, wb);
    if n <= q { MulOrder(n, q, wb); } else { MulOrder(q + 1, n, wb); }
  }

  lemma {:induction false} Multiples(x: nat, n: nat, wb: int)
    requires wb >= 1 && x % wb == 0 && x <= n * wb < x + wb
    ensures n * wb == x
  {
    var q := x / wb;
    assert x == q * wb;
    OneMoreStep(q, wb);
    if n > q { MulOrder(q + 1, n, wb); } else { MulOrder(n, q, wb); }
  }

  // --- the oracle ---

  /** The oracle takes the first best entry of the menu (tight, wide, flat, cash, in this order):
      nothing on it ends the window higher, and everything before it ends the window lower. */
  lemma {:induction false} OracleTakesFirstBest(s: Settings, b: Book, window: seq<Candle>) returns (i: nat)
    requires window != []
    ensures i < 4 && OracleChoice(s, b, window) == [Tight, Wide, Flat, InCash][i]
    ensures forall j :: 0 <= j < 4 ==>
              var entry := [Tight, Wide, Flat, InCash][j];
              && Outcome(s, b, entry, window) <= Outcome(s, b, OracleChoice(s, b, window), window)
              && (j < i ==> Outcome(s, b, entry, window) < Outcome(s, b, OracleChoice(s, b, window), window))
  {
    hide Outcome;
    i := FirstBest(s, b, window, 4);
  }

  lemma {:induction false} FirstBest(s: Settings, b: Book, window: seq<Candle>, k: nat) returns (i: nat)
    requires window != [] && 1 <= k <= |MENU|
    ensures i < k && BestOf(s, b, window, k) == MENU[i]
    ensures forall j :: 0 <= j < k ==>
              && Outcome(s, b, MENU[j], window) <= Outcome(s, b, MENU[i], window)
              && (j < i ==> Outcome(s, b, MENU[j], window) < Outcome(s, b, MENU[i], window))
  {
    hide Outcome;
    if k == 1 {
      i := 0;
    } else {
      i := FirstBest(s, b, window, k - 1);
      if Outcome(s, b, MENU[k - 1], window) > Outcome(s, b, MENU[i], window) { i := k - 1; }
    }
  }
}
