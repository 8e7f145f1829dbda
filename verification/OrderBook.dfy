/** The grid simulator's ledger as a value, one function per operation, and whole runs
    as scripts of operations. The class in GridSim.dfy is proved against these functions;
    the theorems about them are in BookValue.dfy and BookSafety.dfy. Decimals are reals. */
module OrderBook {
  import opened GridGeometry
  import Sequences

  datatype Order = Order(side: Side, price: real, amount: real, isCounter: bool)

  datatype Params = Params(
    levelsAbove: int, levelsBelow: int, orderSize: real, makerFee: real,
    reanchorMargin: real, takerFee: real, slippageBps: real, deriskSlippageBps: real)

  datatype Book = Book(
    spacingPct: real, freeUsd: real, freeBtc: real, orders: seq<Order>,
    buyFills: int, sellFills: int, feesPaid: real, reanchors: int,
    anchor: real, curSpacing: real, lowEdge: real, highEdge: real)

  /** A portfolio that has not traded and has no grid yet. */
  function FreshBook(spacingPct: real, usd: real, btc: real): Book {
    Book(spacingPct, usd, btc, [], 0, 0, 0.0, 0, 0.0, 0.0, 0.0, 0.0)
  }

  // --- money tied up in open orders ---

  function Notional(o: Order): real { o.price * o.amount }

  function UsdHeld(o: Order): real { if o.side == Buy then Notional(o) else 0.0 }

  function BtcHeld(o: Order): real { if o.side == Sell then o.amount else 0.0 }

  function ReservedUsd(os: seq<Order>): real {
    if os == [] then 0.0 else ReservedUsd(os[..|os| - 1]) + UsdHeld(os[|os| - 1])
  }

  function ReservedBtc(os: seq<Order>): real {
    if os == [] then 0.0 else ReservedBtc(os[..|os| - 1]) + BtcHeld(os[|os| - 1])
  }

  function TotalUsd(b: Book): real { b.freeUsd + ReservedUsd(b.orders) }

  function TotalBtc(b: Book): real { b.freeBtc + ReservedBtc(b.orders) }

  function PortfolioValue(b: Book, price: real): real { TotalUsd(b) + TotalBtc(b) * price }

  // --- placement ---

  predicate Accepts(b: Book, side: Side, price: real, amount: real) {
    if side == Buy then b.freeUsd >= price * amount else b.freeBtc >= amount
  }

  function Place(b: Book, o: Order): Book {
    if !Accepts(b, o.side, o.price, o.amount) then b
    else if o.side == Buy then b.(freeUsd := b.freeUsd - o.price * o.amount, orders := b.orders + [o])
    else b.(freeBtc := b.freeBtc - o.amount, orders := b.orders + [o])
  }

  function CancelAll(b: Book): Book {
    b.(freeUsd := TotalUsd(b), freeBtc := TotalBtc(b), orders := [])
  }

  function DeriskRate(p: Params): real { p.takerFee + p.deriskSlippageBps / 10000.0 }

  function DeriskToCash(p: Params, b: Book, price: real): Book {
    var c := CancelAll(b);
    if c.freeBtc > 0.0 then
      var proceeds := c.freeBtc * price;
      var cost := proceeds * DeriskRate(p);
      c.(feesPaid := c.feesPaid + cost, freeUsd := c.freeUsd + (proceeds - cost),
         sellFills := c.sellFills + 1, freeBtc := 0.0)
    else c
  }

  /** Base units for one rung. The source divides and raises at a zero price; that case is
      excluded by `CanLay` wherever the operation is carried out. */
  function Units(orderSize: real, price: real): real {
    if price == 0.0 then 0.0 else orderSize / price
  }

  function LayoutOrder(p: Params, level: GridLevel): Order {
    Order(level.side, level.price, Units(p.orderSize, level.price), false)
  }

  function PlaceLevels(p: Params, b: Book, levels: seq<GridLevel>): Book {
    if levels == [] then b
    else Place(PlaceLevels(p, b, levels[..|levels| - 1]), LayoutOrder(p, levels[|levels| - 1]))
  }

  function Levels(p: Params, spacingPct: real, anchor: real): seq<GridLevel> {
    ComputeGridLevels(anchor, spacingPct, p.levelsAbove, p.levelsBelow)
  }

  /** Exactly when laying a grid does not raise: there is a rung (for the cached edges) and
      no rung has price zero (for the division). */
  predicate CanLay(p: Params, spacingPct: real, anchor: real) {
    var levels := Levels(p, spacingPct, anchor);
    levels != [] && forall i :: 0 <= i < |levels| ==> levels[i].price != 0.0
  }

  function Percents(k: int, pct: real): real { k as real * pct }

  /** When that is: a non-zero anchor, at least one rung, and no rung a full hundred percent
      away from it. The anchor's size does not matter. */
  lemma {:induction false} CanLayExactly(p: Params, pct: real, anchor: real)
    ensures CanLay(p, pct, anchor) <==>
            && anchor != 0.0 && (p.levelsBelow > 0 || p.levelsAbove > 0)
            && (forall k :: 1 <= k <= p.levelsBelow ==> Percents(k, pct) != 100.0)
            && (forall k :: 1 <= k <= p.levelsAbove ==> Percents(k, pct) != -100.0)
  {
    hide Levels, Percents;
    var levels, below := Levels(p, pct, anchor), Max0(p.levelsBelow);
    LevelCount(p, pct, anchor);
    if CanLay(p, pct, anchor) {
      LevelAtZero(p, pct, anchor, 0);
      forall k | 1 <= k <= p.levelsBelow ensures Percents(k, pct) != 100.0 { LevelAtZero(p, pct, anchor, below - k); }
      forall k | 1 <= k <= p.levelsAbove
        ensures Percents(k, pct) != -100.0 { LevelAtZero(p, pct, anchor, below + k - 1); }
    } else if levels != [] {
      var i :| 0 <= i < |levels| && levels[i].price == 0.0;
      LevelAtZero(p, pct, anchor, i);
    }
  }

  lemma {:induction false} LevelCount(p: Params, pct: real, anchor: real)
    ensures |Levels(p, pct, anchor)| == Max0(p.levelsBelow) + Max0(p.levelsAbove)
  {
  }

  lemma {:induction false} LevelAtZero(p: Params, pct: real, anchor: real, i: nat)
    requires i < |Levels(p, pct, anchor)|
    ensures var below := Max0(p.levelsBelow);
            Levels(p, pct, anchor)[i].price == 0.0 <==>
            anchor == 0.0 || (if i < below then Percents(below - i, pct) == 100.0
              else Percents(i - below + 1, pct) == -100.0)
  {
    hide Percents, GridSpacing;
    var below, price := Max0(p.levelsBelow), Levels(p, pct, anchor)[i].price;
    if i < below {
      ScaleNegated(below - i, GridSpacing(anchor, pct));
      RungAtZero(anchor, pct, -(below - i), price);
    } else {
      RungAtZero(anchor, pct, i - below + 1, price);
    }
  }

  lemma {:induction false} ScaleNegated(k: int, d: real)
    ensures (-k) as real * d == -(k as real * d)
  {
  }

  lemma {:induction false} RungAtZero(anchor: real, pct: real, k: int, price: real)
    requires price == anchor + k as real * GridSpacing(anchor, pct)
    ensures price == 0.0 <==> anchor == 0.0 || Percents(-k, pct) == 100.0
    ensures Percents(-k, pct) == -Percents(k, pct)
  {
    var share := 1.0 + k as real * pct / 100.0;
    assert price == anchor * share;
    assert price == 0.0 <==> anchor == 0.0 || share == 0.0;
  }

  /** The portfolio with the geometry of the next grid cached, before any rung is offered. */
  function Cached(p: Params, b: Book, anchor: real): Book {
    var levels := Levels(p, b.spacingPct, anchor);
    b.(anchor := anchor, curSpacing := GridSpacing(anchor, b.spacingPct),
       lowEdge := if levels == [] then 0.0 else levels[0].price,
       highEdge := if levels == [] then 0.0 else levels[|levels| - 1].price)
  }

  function LayGrid(p: Params, b: Book, anchor: real): Book {
    PlaceLevels(p, Cached(p, b, anchor), Levels(p, b.spacingPct, anchor))
  }

  // --- fills ---

  predicate Touched(o: Order, high: real, low: real) {
    if o.side == Buy then low <= o.price else high >= o.price
  }

  /** The orders of `os` that the bar touches (`hit`) or misses (`!hit`), in book order. */
  function Select(os: seq<Order>, high: real, low: real, hit: bool): seq<Order> {
    if os == [] then [] else
      var rest := Select(os[..|os| - 1], high, low, hit);
      if Touched(os[|os| - 1], high, low) == hit then rest + [os[|os| - 1]] else rest
  }

  function MakerRate(p: Params): real { p.makerFee + p.slippageBps / 10000.0 }

  function Counter(o: Order, spacing: real): Order {
    var c := NextCounterAction(o.side, o.price, spacing);
    Order(c.side, c.price, o.amount, true)
  }

  function MakerCost(p: Params, o: Order): real { Notional(o) * MakerRate(p) }

  /** Balances after a fill of `o`, before its counter is placed. */
  function Credit(p: Params, b: Book, o: Order): Book {
    var cost := MakerCost(p, o);
    if o.side == Buy then
      b.(feesPaid := b.feesPaid + cost, buyFills := b.buyFills + 1,
         freeBtc := b.freeBtc + o.amount, freeUsd := b.freeUsd - cost)
    else
      b.(feesPaid := b.feesPaid + cost, sellFills := b.sellFills + 1,
         freeUsd := b.freeUsd + (Notional(o) - cost))
  }

  function Fill(p: Params, b: Book, o: Order): Book {
    Place(Credit(p, b, o), Counter(o, b.curSpacing))
  }

  /** The fills of `os` one after the other, collecting only the accepted counters. */
  function Settle(p: Params, b: Book, os: seq<Order>): Book {
    if os == [] then b.(orders := [])
    else Fill(p, Settle(p, b, os[..|os| - 1]), os[|os| - 1])
  }

  /** One bar: untouched orders keep their place, touched ones are settled, and the accepted
      counters queue up behind. */
  function ProcessBar(p: Params, b: Book, high: real, low: real): Book {
    var settled := Settle(p, b, Select(b.orders, high, low, true));
    settled.(orders := Select(b.orders, high, low, false) + settled.orders)
  }

  predicate NeedsReanchor(p: Params, b: Book, price: real) {
    && b.orders != []
    && !(b.lowEdge <= price <= b.highEdge)
    && (if price < b.lowEdge then b.lowEdge - price else price - b.highEdge) >= p.reanchorMargin * b.curSpacing
  }

  function MaybeReanchor(p: Params, b: Book, price: real): Book {
    if NeedsReanchor(p, b, price) then
      var laid := LayGrid(p, CancelAll(b), price);
      laid.(reanchors := laid.reanchors + 1)
    else b
  }

  // --- runs ---

  /** Everything the tools ever do to a portfolio. */
  datatype Action =
    | Cancel
    | Cash(price: real)
    | Lay(anchor: real)
    | Bar(high: real, low: real)
    | Reanchor(price: real)
    | Spacing(pct: real)

  function Step(p: Params, b: Book, a: Action): Book {
    match a
    case Cancel => CancelAll(b)
    case Cash(price) => DeriskToCash(p, b, price)
    case Lay(anchor) => LayGrid(p, b, anchor)
    case Bar(high, low) => ProcessBar(p, b, high, low)
    case Reanchor(price) => MaybeReanchor(p, b, price)
    case Spacing(pct) => b.(spacingPct := pct)
  }

  function Run(p: Params, b: Book, script: seq<Action>): Book {
    if script == [] then b
    else Step(p, Run(p, b, script[..|script| - 1]), script[|script| - 1])
  }

  lemma {:induction false} RunSnoc(p: Params, b: Book, script: seq<Action>, a: Action)
    ensures Run(p, b, script + [a]) == Step(p, Run(p, b, script), a)
  {
    assert (script + [a])[..|script|] == script;
  }

  lemma {:induction false} RunShort(p: Params, b: Book, script: seq<Action>)
    requires |script| <= 3
    ensures |script| == 0 ==> Run(p, b, script) == b
    ensures |script| == 1 ==> Run(p, b, script) == Step(p, b, script[0])
    ensures |script| == 2 ==> Run(p, b, script) == Step(p, Step(p, b, script[0]), script[1])
    ensures |script| == 3 ==> Run(p, b, script) == Step(p, Step(p, Step(p, b, script[0]), script[1]), script[2])
  {
    hide Step, Run;
    if |script| == 0 {
      RunNone(p, b);
    } else if |script| == 1 {
      assert script == [script[0]];
      RunOne(p, b, script[0]);
    } else if |script| == 2 {
      assert script == [script[0], script[1]];
      RunTwo(p, b, script[0], script[1]);
    } else {
      assert script == [script[0], script[1]] + [script[2]];
      RunTwo(p, b, script[0], script[1]);
      RunSnoc(p, b, [script[0], script[1]], script[2]);
    }
  }

  lemma {:induction false} RunNone(p: Params, b: Book)
    ensures Run(p, b, []) == b
  {
  }

  lemma {:induction false} RunOne(p: Params, b: Book, a: Action)
    ensures Run(p, b, [a]) == Step(p, b, a)
  {
    hide Step, Run;
    RunNone(p, b);
    RunSnoc(p, b, [], a);
    assert [] + [a] == [a];
  }

  lemma {:induction false} RunTwo(p: Params, b: Book, a: Action, c: Action)
    ensures Run(p, b, [a, c]) == Step(p, Step(p, b, a), c)
  {
    hide Step, Run;
    RunOne(p, b, a);
    RunSnoc(p, b, [a], c);
    assert [a] + [c] == [a, c];
  }

  lemma {:induction false} RunAppend(p: Params, b: Book, first: seq<Action>, second: seq<Action>)
    ensures Run(p, b, first + second) == Run(p, Run(p, b, first), second)
  {
    if second == [] {
      assert first + second == first;
    } else {
      var n := |second| - 1;
      RunAppend(p, b, first, second[..n]);
      Sequences.AppendSplit(first, second);
      RunSnoc(p, b, first + second[..n], second[n]);
    }
  }
}
