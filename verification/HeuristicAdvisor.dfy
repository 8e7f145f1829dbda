/** The deterministic guard layer of the advisor and the piecewise-linear curve behind its
    widen floor. Floats are reals. */
module HeuristicAdvisor {
  import opened Numbers
  import opened Wrappers

  datatype Knot = Knot(vol: real, spacing: real)

  /** What the spec loader accepts: two knots or more, strictly increasing in volatility. */
  predicate ValidCurve(curve: seq<Knot>) {
    |curve| >= 2 && forall i, j :: 0 <= i < j < |curve| ==> curve[i].vol < curve[j].vol
  }

  function Interpolate(lo: Knot, hi: Knot, vol: real): real
    requires lo.vol < hi.vol
  {
    lo.spacing + (vol - lo.vol) / (hi.vol - lo.vol) * (hi.spacing - lo.spacing)
  }

  predicate Brackets(curve: seq<Knot>, i: nat, vol: real)
    requires i + 1 < |curve|
  {
    curve[i].vol <= vol <= curve[i + 1].vol
  }

  /** The search loop: the first bracket from segment `i` on. */
  function FindBracket(curve: seq<Knot>, i: nat, vol: real): (r: Option<nat>)
    requires i < |curve|
    ensures r.Some? ==> i <= r.value && r.value + 1 < |curve| && Brackets(curve, r.value, vol)
    decreases |curve| - i
  {
    if i + 1 >= |curve| then None
    else if Brackets(curve, i, vol) then Some(i)
    else FindBracket(curve, i + 1, vol)
  }

  /** The curve at `vol`, flat beyond its ends, before the fee floor. */
  function Curve(curve: seq<Knot>, vol: real): real
    requires ValidCurve(curve)
  {
    if vol <= curve[0].vol then curve[0].spacing
    else if vol >= curve[|curve| - 1].vol then curve[|curve| - 1].spacing
    else
      var b := FindBracket(curve, 0, vol);
      if b.Some? then Interpolate(curve[b.value], curve[b.value + 1], vol) else curve[|curve| - 1].spacing
  }

  function Ideal(curve: seq<Knot>, floor: real, vol: real): real
    requires ValidCurve(curve)
  {
    Max(Curve(curve, vol), floor)
  }

  // --- one segment ---

  function Fraction(a: real, b: real): real requires b != 0.0 { a / b }

  lemma {:induction false} FractionBounds(a: real, a': real, b: real)
    requires b > 0.0 && 0.0 <= a <= a' <= b
    ensures 0.0 <= Fraction(a, b) <= Fraction(a', b) <= 1.0
    ensures a == 0.0 ==> Fraction(a, b) == 0.0
    ensures a == b ==> Fraction(a, b) == 1.0
  {
  }

  /** Between its ends a segment stays between their spacings, hits both, and moves with them. */
  lemma {:induction false} SegmentShape(lo: Knot, hi: Knot, vol: real, vol': real)
    requires lo.vol < hi.vol && lo.vol <= vol <= vol' <= hi.vol
    ensures vol == lo.vol ==> Interpolate(lo, hi, vol) == lo.spacing
    ensures vol == hi.vol ==> Interpolate(lo, hi, vol) == hi.spacing
    ensures lo.spacing <= hi.spacing ==>
              lo.spacing <= Interpolate(lo, hi, vol) <= Interpolate(lo, hi, vol') <= hi.spacing
    ensures lo.spacing >= hi.spacing ==>
              lo.spacing >= Interpolate(lo, hi, vol) >= Interpolate(lo, hi, vol') >= hi.spacing
  {
    var w := hi.vol - lo.vol;
    FractionBounds(vol - lo.vol, vol' - lo.vol, w);
    var f, f', d := (vol - lo.vol) / w, (vol' - lo.vol) / w, hi.spacing - lo.spacing;
    if d >= 0.0 { Weigh(f, f', d); } else { Weigh(f, f', -d); assert f * (-d) == -(f * d) && f' * (-d) == -(f' * d); }
  }

  lemma {:induction false} Weigh(f: real, f': real, d: real)
    requires 0.0 <= f <= f' <= 1.0 && d >= 0.0
    ensures 0.0 <= f * d <= f' * d <= d
  {
    assert (f' - f) * d >= 0.0 && (1.0 - f') * d >= 0.0;
  }

  // --- the search ---

  /** Between the end knots the loop always finds a bracket: the return after it is dead code. */
  lemma {:induction false} BracketExists(curve: seq<Knot>, i: nat, vol: real)
    requires ValidCurve(curve) && i + 1 < |curve|
    requires curve[i].vol <= vol <= curve[|curve| - 1].vol
    ensures FindBracket(curve, i, vol).Some?
    decreases |curve| - i
  {
    if !Brackets(curve, i, vol) {
      BracketExists(curve, i + 1, vol);
    }
  }

  /** Any bracket gives the curve's value: where two segments meet they agree. */
  lemma {:induction false} AnyBracket(curve: seq<Knot>, vol: real, i: nat)
    requires ValidCurve(curve) && i + 1 < |curve| && Brackets(curve, i, vol)
    ensures Curve(curve, vol) == Interpolate(curve[i], curve[i + 1], vol)
  {
    SegmentShape(curve[i], curve[i + 1], vol, vol);
    if curve[0].vol < vol < curve[|curve| - 1].vol {
      BracketExists(curve, 0, vol);
      var j := FindBracket(curve, 0, vol).value;
      SegmentShape(curve[j], curve[j + 1], vol, vol);
      hide Interpolate;
      if j < i { assert vol == curve[j + 1].vol == curve[i].vol && j + 1 == i; }
      if j > i { assert vol == curve[i + 1].vol == curve[j].vol && i + 1 == j; }
    }
  }

  /** Between two neighbouring knots the curve is the straight line through them. */
  lemma {:induction false} StraightBetweenKnots(curve: seq<Knot>, vol: real, i: nat)
    requires ValidCurve(curve) && i + 1 < |curve| && curve[i].vol <= vol <= curve[i + 1].vol
    ensures (Curve(curve, vol) - curve[i].spacing) * (curve[i + 1].vol - curve[i].vol) ==
            (vol - curve[i].vol) * (curve[i + 1].spacing - curve[i].spacing)
  {
    AnyBracket(curve, vol, i);
    hide Curve;
    var w := curve[i + 1].vol - curve[i].vol;
    var f := (vol - curve[i].vol) / w;
    assert f * w == vol - curve[i].vol;
  }

  /** The curve passes through every knot. */
  lemma {:induction false} HitsKnots(curve: seq<Knot>, floor: real, i: nat)
    requires ValidCurve(curve) && i < |curve|
    ensures Ideal(curve, floor, curve[i].vol) == Max(curve[i].spacing, floor)
  {
    if 0 < i < |curve| - 1 {
      AnyBracket(curve, curve[i].vol, i);
      SegmentShape(curve[i], curve[i + 1], curve[i].vol, curve[i].vol);
    }
  }

  /** Every value lies between the spacings of two neighbouring knots. */
  lemma {:induction false} BetweenNeighbours(curve: seq<Knot>, vol: real) returns (i: nat)
    requires ValidCurve(curve)
    ensures i + 1 < |curve|
    ensures curve[i].spacing <= Curve(curve, vol) <= curve[i + 1].spacing ||
            curve[i + 1].spacing <= Curve(curve, vol) <= curve[i].spacing
    ensures vol <= curve[0].vol ==> i == 0 && Curve(curve, vol) == curve[0].spacing
    ensures vol >= curve[|curve| - 1].vol ==> i == |curve| - 2 && Curve(curve, vol) == curve[|curve| - 1].spacing
    ensures curve[0].vol < vol < curve[|curve| - 1].vol ==> Brackets(curve, i, vol)
  {
    if vol <= curve[0].vol {
      i := 0;
    } else if vol >= curve[|curve| - 1].vol {
      i := |curve| - 2;
    } else {
      BracketExists(curve, 0, vol);
      i := FindBracket(curve, 0, vol).value;
      SegmentShape(curve[i], curve[i + 1], vol, vol);
      hide Interpolate;
    }
  }

  /** The ideal spacing never falls below the fee floor and stays within the range of the
      curve's spacings, floored. */
  lemma {:induction false} StaysInRange(curve: seq<Knot>, floor: real, vol: real, least: real, most: real)
    requires ValidCurve(curve)
    requires forall i :: 0 <= i < |curve| ==> least <= curve[i].spacing <= most
    ensures floor <= Ideal(curve, floor, vol)
    ensures Max(least, floor) <= Ideal(curve, floor, vol) <= Max(most, floor)
  {
    hide Curve;
    var i := BetweenNeighbours(curve, vol);
  }

  predicate Rising(curve: seq<Knot>) {
    forall i, j :: 0 <= i <= j < |curve| ==> curve[i].spacing <= curve[j].spacing
  }

  /** More volatility never asks for a tighter grid, when the knots do not. */
  lemma {:induction false} Monotone(curve: seq<Knot>, floor: real, vol: real, vol': real)
    requires ValidCurve(curve) && Rising(curve) && vol <= vol'
    ensures Ideal(curve, floor, vol) <= Ideal(curve, floor, vol')
  {
    var i := BetweenNeighbours(curve, vol);
    var j := BetweenNeighbours(curve, vol');
    if curve[0].vol < vol && vol' < curve[|curve| - 1].vol {
      if i == j {
        AnyBracket(curve, vol, i);
        AnyBracket(curve, vol', i);
        SegmentShape(curve[i], curve[i + 1], vol, vol');
      } else if i > j {
        assert vol == vol';
      }
    }
    hide Curve, Interpolate;
    assert curve[0].spacing <= curve[j].spacing && curve[i + 1].spacing <= curve[|curve| - 1].spacing;
    if i < j { assert curve[i + 1].spacing <= curve[j].spacing; }
  }

  // --- the guards ---

  datatype Direction = Widen | Hold | Tighten

  datatype Reason =
    NoCurrentGrid | DirectionalRunaway | DefensiveDrawdown | DontFixWorking | FeeFloorCalm | NoGuardFired

  datatype Verdict = Verdict(direction: Direction, target: Option<real>, clearMatch: bool, reason: Reason)

  datatype Summary = Summary(volatility: real, current: Option<real>, drawdown: real, winRate: real, cycles: int)

  datatype Spec = Spec(
    curve: seq<Knot>, feeFloor: real,
    runawayOn: bool, runawayThreshold: real,
    defensiveOn: bool, defensiveThreshold: real, widenFactor: real,
    workingOn: bool, winRateMin: real, cyclesMin: int, drawdownMax: real,
    calmOn: bool, calmVol: real, nearFloorSpacing: real)

  function HoldFor(reason: Reason, clear: bool): Verdict { Verdict(Hold, None, clear, reason) }

  function Widened(spacing: real, factor: real): real { spacing * factor }

  function Evaluate(s: Summary, spec: Spec): Verdict
    requires ValidCurve(spec.curve)
  {
    if s.current.None? || s.current.value <= 0.0 then HoldFor(NoCurrentGrid, false)
    else if spec.runawayOn && s.cycles == 0 && s.drawdown <= spec.runawayThreshold
      then HoldFor(DirectionalRunaway, true)
    else if spec.defensiveOn && s.drawdown <= spec.defensiveThreshold then
      Verdict(Widen,
              Some(Max(Widened(s.current.value, spec.widenFactor), Ideal(spec.curve, spec.feeFloor, s.volatility))),
              true, DefensiveDrawdown)
    else if spec.workingOn && s.winRate >= spec.winRateMin && s.cycles >= spec.cyclesMin
      && s.drawdown >= spec.drawdownMax
    then HoldFor(DontFixWorking, true)
    else if spec.calmOn && s.current.value <= spec.nearFloorSpacing && s.volatility <= spec.calmVol
    then HoldFor(FeeFloorCalm, true)
    else HoldFor(NoGuardFired, false)
  }

  /** What a verdict can be. It never tightens; it names a target exactly when it widens, and
      then the target, before rounding, is above the current spacing, not below the fee floor
      and not below the curve; and it is clear exactly when a guard fired. */
  lemma {:induction false} VerdictShape(s: Summary, spec: Spec)
    requires ValidCurve(spec.curve) && spec.widenFactor > 1.0
    ensures var v := Evaluate(s, spec);
            && v.direction != Tighten
            && (v.target.Some? <==> v.direction == Widen)
            && (v.direction == Widen ==>
                  && s.current.Some? && v.clearMatch
                  && v.target.value > s.current.value
                  && v.target.value >= Widened(s.current.value, spec.widenFactor)
                  && v.target.value >= Ideal(spec.curve, spec.feeFloor, s.volatility) >= spec.feeFloor)
            && (v.clearMatch <==> v.reason != NoCurrentGrid && v.reason != NoGuardFired)
  {
    hide Curve, Widened;
    if s.current.Some? && s.current.value > 0.0 { Stretch(s.current.value, spec.widenFactor); }
  }

  lemma {:induction false} Stretch(x: real, factor: real)
    requires x > 0.0 && factor > 1.0
    ensures Widened(x, factor) > x
  {
    assert x * (factor - 1.0) > 0.0;
  }

  /** Deepening the drawdown or raising the volatility takes a widening back in one case only: no
      cycle was completed and the deeper drawdown now counts as a runaway. Otherwise the target
      does not come down either. */
  lemma {:induction false} WideningStable(s: Summary, worse: Summary, spec: Spec)
    requires ValidCurve(spec.curve) && Rising(spec.curve)
    requires worse.current == s.current && worse.cycles == s.cycles
    requires worse.drawdown <= s.drawdown && worse.volatility >= s.volatility
    requires Evaluate(s, spec).direction == Widen
    ensures Evaluate(worse, spec).direction == Widen <==>
            !(spec.runawayOn && s.cycles == 0 && worse.drawdown <= spec.runawayThreshold)
    ensures Evaluate(worse, spec).direction == Widen ==>
              Evaluate(worse, spec).target.value >= Evaluate(s, spec).target.value
  {
    hide Curve, Ideal, Widened;
    Monotone(spec.curve, spec.feeFloor, s.volatility, worse.volatility);
  }

  // --- when each guard fires ---

  /** There is a grid to judge: a positive current spacing. */
  predicate HasGrid(s: Summary) { s.current != None && s.current.value > 0.0 }

  /** The guards in their order of precedence: each fires at its threshold and beyond, and only where
      none before it does. */
  lemma {:induction false} GuardsInOrder(s: Summary, spec: Spec)
    requires ValidCurve(spec.curve)
    ensures var reason := Evaluate(s, spec).reason;
            var ranAway := spec.runawayOn && s.cycles == 0 && !(s.drawdown > spec.runawayThreshold);
            var sharp := spec.defensiveOn && !(s.drawdown > spec.defensiveThreshold);
            var working :=
              && spec.workingOn
              && !(s.winRate < spec.winRateMin || s.cycles < spec.cyclesMin || s.drawdown < spec.drawdownMax);
            && (reason == NoCurrentGrid <==> !HasGrid(s))
            && (reason == DirectionalRunaway <==> HasGrid(s) && ranAway)
            && (reason == DefensiveDrawdown <==> HasGrid(s) && !ranAway && sharp)
            && (reason == DontFixWorking <==> HasGrid(s) && !ranAway && !sharp && working)
            && (reason == FeeFloorCalm <==>
                  && HasGrid(s) && !ranAway && !sharp && !working && spec.calmOn
                  && !(s.current.value > spec.nearFloorSpacing || s.volatility > spec.calmVol))
    ensures Evaluate(s, spec).direction == Widen <==> Evaluate(s, spec).reason == DefensiveDrawdown
    ensures Evaluate(s, spec).direction == Widen ==>
              var target := Evaluate(s, spec).target.value;
              && target >= s.current.value * spec.widenFactor
              && target >= Ideal(spec.curve, spec.feeFloor, s.volatility)
              && (target == s.current.value * spec.widenFactor ||
                  target == Ideal(spec.curve, spec.feeFloor, s.volatility))
  {
    hide Curve, Ideal;
  }

  /** A grid left alone because it works stays left alone when it works better: with a higher win
      rate, more completed cycles and a shallower drawdown, at any volatility and spacing. */
  lemma {:induction false} WorkingStable(s: Summary, better: Summary, spec: Spec)
    requires ValidCurve(spec.curve) && s.cycles >= 0 && HasGrid(better)
    requires better.winRate >= s.winRate && better.cycles >= s.cycles && better.drawdown >= s.drawdown
    requires Evaluate(s, spec).reason == DontFixWorking
    ensures Evaluate(better, spec) == Evaluate(s, spec) == Verdict(Hold, None, true, DontFixWorking)
  {
    hide Curve, Ideal, Widened;
  }

  /** A runaway stays one when the price runs further, whatever else is reported. */
  lemma {:induction false} RunawayStable(s: Summary, further: Summary, spec: Spec)
    requires ValidCurve(spec.curve) && HasGrid(further)
    requires further.cycles == s.cycles && further.drawdown <= s.drawdown
    requires Evaluate(s, spec).reason == DirectionalRunaway
    ensures Evaluate(further, spec) == Evaluate(s, spec) == Verdict(Hold, None, true, DirectionalRunaway)
  {
    hide Curve, Ideal, Widened;
  }

  /** A calm hold stays one in a calmer market on a tighter grid, all else equal. */
  lemma {:induction false} CalmStable(s: Summary, calmer: Summary, spec: Spec)
    requires ValidCurve(spec.curve) && HasGrid(s) && HasGrid(calmer)
    requires calmer.drawdown == s.drawdown && calmer.winRate == s.winRate && calmer.cycles == s.cycles
    requires calmer.volatility <= s.volatility && calmer.current.value <= s.current.value
    requires Evaluate(s, spec).reason == FeeFloorCalm
    ensures Evaluate(calmer, spec) == Evaluate(s, spec) == Verdict(Hold, None, true, FeeFloorCalm)
  {
    hide Curve, Ideal, Widened;
  }

  /** The volatility alone never turns a hold into a widening or back. */
  lemma {:induction false} VolatilityNeverDecides(s: Summary, other: Summary, spec: Spec)
    requires ValidCurve(spec.curve)
    requires other == s.(volatility := other.volatility)
    ensures Evaluate(other, spec).direction == Evaluate(s, spec).direction
  {
    hide Curve, Ideal, Widened;
  }
}
