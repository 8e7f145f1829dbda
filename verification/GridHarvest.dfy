/** What a grid earns between two lays. Within a cell an order and its counter-orders take turns;
    when the spread of every cell covers the fees of its two legs no counter is ever refused, so
    the book stays full and free cash never goes below zero. */
module GridHarvest {
  import opened GridGeometry
  import opened OrderBook
  import opened BookSafety
  import BookValue
  import Sequences

  // --- stretches without a new grid ---

  /** Bars and re-anchor checks that do nothing: the grid stays where it was laid. */
  predicate Undisturbed(p: Params, b: Book, script: seq<Action>) {
    script == [] ||
    var n := |script| - 1;
    && Undisturbed(p, b, script[..n])
    && (script[n].Bar? || (script[n].Reanchor? && !NeedsReanchor(p, Run(p, b, script[..n]), script[n].price)))
  }

  lemma {:induction false} GridStays(p: Params, b: Book, script: seq<Action>)
    requires Undisturbed(p, b, script)
    ensures Run(p, b, script).curSpacing == b.curSpacing && Run(p, b, script).reanchors == b.reanchors
  {
    if script != [] {
      var n := |script| - 1;
      GridStays(p, b, script[..n]);
      var before := Run(p, b, script[..n]);
      if script[n].Bar? {
        BarKeepsSlots(p, before, script[n].high, script[n].low);
        SettleFrame(p, before, Select(before.orders, script[n].high, script[n].low, true));
      }
      hide Slots, Select, Settle, NeedsReanchor, ProcessBar;
    }
  }

  // --- one cell ---

  /** The orders, and the fills, that trade in one cell. */
  function OrdersIn(os: seq<Order>, cell: real, spacing: real): seq<Order> {
    if os == [] then [] else
      var rest := OrdersIn(os[..|os| - 1], cell, spacing);
      if Cell(os[|os| - 1].side, os[|os| - 1].price, spacing) == cell then rest + [os[|os| - 1]] else rest
  }

  function FillsIn(fs: seq<BookValue.Fill>, cell: real, spacing: real): seq<BookValue.Fill> {
    if fs == [] then [] else
      var rest := FillsIn(fs[..|fs| - 1], cell, spacing);
      if Cell(fs[|fs| - 1].side, fs[|fs| - 1].price, spacing) == cell then rest + [fs[|fs| - 1]] else rest
  }

  /** An order after `i` turns: its counter, the counter's counter, and so on. */
  function Turn(o: Order, i: nat, spacing: real): Order {
    if i == 0 then o else Counter(Turn(o, i - 1, spacing), spacing)
  }

  /** The first `n` fills of an order and its descendants. */
  function Turns(p: Params, o: Order, n: nat, spacing: real): seq<BookValue.Fill> {
    seq(n, i requires 0 <= i < n => BookValue.FillOf(p, Turn(o, i, spacing)))
  }

  lemma {:induction false} OrdersInAppend(xs: seq<Order>, ys: seq<Order>, cell: real, spacing: real)
    ensures OrdersIn(xs + ys, cell, spacing) == OrdersIn(xs, cell, spacing) + OrdersIn(ys, cell, spacing)
  {
    if ys == [] {
      assert xs + ys == xs;
    } else {
      OrdersInAppend(xs, ys[..|ys| - 1], cell, spacing);
      Sequences.AppendSplit(xs, ys);
    }
  }

  lemma {:induction false} FillsInAppend(xs: seq<BookValue.Fill>, ys: seq<BookValue.Fill>, cell: real, spacing: real)
    ensures FillsIn(xs + ys, cell, spacing) == FillsIn(xs, cell, spacing) + FillsIn(ys, cell, spacing)
  {
    if ys == [] {
      assert xs + ys == xs;
    } else {
      FillsInAppend(xs, ys[..|ys| - 1], cell, spacing);
      Sequences.AppendSplit(xs, ys);
    }
  }

  /** The cell's part of a selection is the selection of the cell's part. */
  lemma {:induction false} SelectIn(os: seq<Order>, high: real, low: real, hit: bool, cell: real, spacing: real)
    ensures OrdersIn(Select(os, high, low, hit), cell, spacing) == Select(OrdersIn(os, cell, spacing), high, low, hit)
  {
    if os != [] {
      var n := |os| - 1;
      SelectIn(os[..n], high, low, hit, cell, spacing);
      var rest, mine := Select(os[..n], high, low, hit), OrdersIn(os[..n], cell, spacing);
      hide Touched, Cell;
      assert (rest + [os[n]])[..|rest|] == rest;
      assert (mine + [os[n]])[..|mine|] == mine;
    }
  }

  lemma {:induction false} FilledIn(p: Params, os: seq<Order>, cell: real, spacing: real)
    ensures FillsIn(BookValue.FillsOfOrders(p, os), cell, spacing) ==
            BookValue.FillsOfOrders(p, OrdersIn(os, cell, spacing))
  {
    if os != [] {
      var n := |os| - 1;
      FilledIn(p, os[..n], cell, spacing);
      var rest, mine := BookValue.FillsOfOrders(p, os[..n]), OrdersIn(os[..n], cell, spacing);
      hide Cell, MakerCost;
      assert (rest + [BookValue.FillOf(p, os[n])])[..|rest|] == rest;
      assert (mine + [os[n]])[..|mine|] == mine;
    }
  }

  /** Settling touches a cell only through the cell's own orders: with none there it stays empty,
      with one it holds the counter or, if that was refused, nothing. */
  lemma {:induction false} SettledIn(p: Params, b: Book, os: seq<Order>, cell: real)
    ensures var mine, left := OrdersIn(os, cell, b.curSpacing), OrdersIn(Settle(p, b, os).orders, cell, b.curSpacing);
            && (mine == [] ==> left == [])
            && (|mine| == 1 ==> left == [] || left == [Counter(mine[0], b.curSpacing)])
    ensures Settle(p, b, os).curSpacing == b.curSpacing
  {
    if os != [] {
      var n, spacing := |os| - 1, b.curSpacing;
      var before := Settle(p, b, os[..n]);
      SettledIn(p, b, os[..n], cell);
      CounterKeepsSlot(os[n], spacing);
      FillAppends(p, before, os[n]);
      OrdersInAppend(before.orders, [Counter(os[n], spacing)], cell, spacing);
      OrdersInOne(Counter(os[n], spacing), cell, spacing);
      hide Counter, Cell, Fill;
    }
  }

  lemma {:induction false} OrdersInOne(o: Order, cell: real, spacing: real)
    ensures OrdersIn([o], cell, spacing) == if Cell(o.side, o.price, spacing) == cell then [o] else []
  {
  }

  lemma {:induction false} FillAppends(p: Params, b: Book, o: Order)
    ensures Fill(p, b, o).curSpacing == b.curSpacing
    ensures Fill(p, b, o).orders == b.orders || Fill(p, b, o).orders == b.orders + [Counter(o, b.curSpacing)]
  {
  }

  /** One bar in a cell that holds at most one order: either nothing happens there, or that order
      fills once and makes way for its counter. */
  lemma {:induction false} BarInCell(p: Params, b: Book, high: real, low: real, cell: real)
    requires |OrdersIn(b.orders, cell, b.curSpacing)| <= 1
    ensures var spacing, b' := b.curSpacing, ProcessBar(p, b, high, low);
            var mine, left := OrdersIn(b.orders, cell, spacing), OrdersIn(b'.orders, cell, spacing);
            var fs := FillsIn(BookValue.FillsOfAction(p, b, Bar(high, low)), cell, spacing);
            && b'.curSpacing == spacing
            && if mine != [] && Touched(mine[0], high, low)
               then fs == [BookValue.FillOf(p, mine[0])] && (left == [] || left == [Counter(mine[0], spacing)])
               else fs == [] && left == mine
  {
    hide OrdersIn, FillsIn, Settle, Touched, Counter, Select, Cell, BookValue.FillsOfOrders, BookValue.FillOf;
    var spacing := b.curSpacing;
    var mine := OrdersIn(b.orders, cell, spacing);
    var hits, misses := Select(b.orders, high, low, true), Select(b.orders, high, low, false);
    SelectIn(b.orders, high, low, true, cell, spacing);
    SelectIn(b.orders, high, low, false, cell, spacing);
    FilledIn(p, hits, cell, spacing);
    SettledIn(p, b, hits, cell);
    OrdersInAppend(misses, Settle(p, b, hits).orders, cell, spacing);
    SelectFew(mine, high, low);
    OneFill(p, mine);
  }

  lemma {:induction false} SelectFew(os: seq<Order>, high: real, low: real)
    requires |os| <= 1
    ensures Select(os, high, low, true) == if os != [] && Touched(os[0], high, low) then os else []
    ensures Select(os, high, low, false) == if os != [] && !Touched(os[0], high, low) then os else []
  {
  }

  lemma {:induction false} OneFill(p: Params, os: seq<Order>)
    requires |os| <= 1
    ensures BookValue.FillsOfOrders(p, os) == if os == [] then [] else [BookValue.FillOf(p, os[0])]
    ensures BookValue.FillsOfOrders(p, []) == []
  {
  }

  /** The whole history of a cell between two lays. If it starts empty it stays empty; otherwise
      its fills, over all the bars, are exactly the turns of the order that was laid there, and
      while the cell is occupied it holds the next turn. */
  lemma {:induction false} CellHistory(p: Params, b: Book, script: seq<Action>, cell: real)
    requires Undisturbed(p, b, script) && |OrdersIn(b.orders, cell, b.curSpacing)| <= 1
    ensures var spacing, first := b.curSpacing, OrdersIn(b.orders, cell, b.curSpacing);
            var fs := FillsIn(BookValue.FillsOfRun(p, b, script), cell, spacing);
            var left := OrdersIn(Run(p, b, script).orders, cell, spacing);
            if first == [] then fs == [] && left == []
            else fs == Turns(p, first[0], |fs|, spacing) && (left == [] || left == [Turn(first[0], |fs|, spacing)])
  {
    var spacing, first := b.curSpacing, OrdersIn(b.orders, cell, b.curSpacing);
    if script == [] {
      if first != [] { assert first == [Turn(first[0], 0, spacing)]; }
    } else {
      var n := |script| - 1;
      var mid := Run(p, b, script[..n]);
      CellHistory(p, b, script[..n], cell);
      GridStays(p, b, script[..n]);
      var past, latest := BookValue.FillsOfRun(p, b, script[..n]), BookValue.FillsOfAction(p, mid, script[n]);
      FillsInAppend(past, latest, cell, spacing);
      var fs := FillsIn(past, cell, spacing);
      if script[n].Bar? {
        BarInCell(p, mid, script[n].high, script[n].low, cell);
      } else {
        NoFills(cell, spacing);
      }
      hide OrdersIn, FillsIn, ProcessBar, Touched, Counter, NeedsReanchor, BookValue.FillsOfAction, BookValue.FillOf;
      if first != [] { TurnsSnoc(p, first[0], |fs|, spacing); }
    }
  }

  lemma {:induction false} NoFills(cell: real, spacing: real)
    ensures FillsIn([], cell, spacing) == []
  {
  }

  lemma {:induction false} TurnsSnoc(p: Params, o: Order, n: nat, spacing: real)
    ensures Turns(p, o, n + 1, spacing) == Turns(p, o, n, spacing) + [BookValue.FillOf(p, Turn(o, n, spacing))]
    ensures Turn(o, n + 1, spacing) == Counter(Turn(o, n, spacing), spacing)
  {
  }

  // --- what a cell earns ---

  function Spread(o: Order, spacing: real): real { spacing * o.amount }

  /** Turns alternate sides, keep the amount, and stay one spacing apart in the same cell. */
  lemma {:induction false} TurnShape(o: Order, i: nat, spacing: real)
    ensures var t := Turn(o, i, spacing);
            && (t.side == o.side <==> i % 2 == 0) && t.amount == o.amount
            && Cell(t.side, t.price, spacing) == Cell(o.side, o.price, spacing)
            && t.price == Cell(o.side, o.price, spacing) + (if t.side == Buy then 0.0 else spacing)
  {
    if i > 0 { TurnShape(o, i - 1, spacing); }
  }

  /** A fill and the fill of its counter earn the spread, at every mark price. */
  lemma {:induction false} PairGain(p: Params, o: Order, spacing: real, q: real)
    ensures BookValue.FillOf(p, o).Gain(q) + BookValue.FillOf(p, Counter(o, spacing)).Gain(q) == Spread(o, spacing)
  {
  }

  function Harvest(pairs: nat, spread: real): real { pairs as real * spread }

  function Opposite(side: Side): Side { if side == Buy then Sell else Buy }

  lemma {:induction false} TurnsCount(p: Params, o: Order, n: nat, spacing: real)
    ensures var fs := Turns(p, o, n, spacing);
            BookValue.CountSide(fs, o.side) == (n + 1) / 2 && BookValue.CountSide(fs, Opposite(o.side)) == n / 2
  {
    hide Turns, Turn, Counter, Cell, MakerCost, BookValue.CountSide;
    if n > 0 {
      var before, last := Turns(p, o, n - 1, spacing), BookValue.FillOf(p, Turn(o, n - 1, spacing));
      TurnsCount(p, o, n - 1, spacing);
      TurnsSnoc(p, o, n - 1, spacing);
      TurnShape(o, n - 1, spacing);
      BookValue.FillSumsSnoc(before, last, 0.0);
    } else {
      TurnsNone(p, o, spacing);
      assert o.side == Buy || o.side == Sell;
    }
  }

  lemma {:induction false} TurnsNone(p: Params, o: Order, spacing: real)
    ensures Turns(p, o, 0, spacing) == []
    ensures BookValue.CountSide([], Buy) == 0 && BookValue.CountSide([], Sell) == 0 && BookValue.Gains([], 0.0) == 0.0
  {
  }

  /** Completed pairs earn one spread each; an open leg is marked to market. */
  lemma {:induction false} TurnsEarn(p: Params, o: Order, n: nat, spacing: real, q: real)
    ensures BookValue.Gains(Turns(p, o, n, spacing), q) ==
            Harvest(n / 2, Spread(o, spacing)) + OpenLeg(p, o, n, spacing, q)
  {
    hide Turns, Turn, Spread, Harvest, Counter, Cell, BookValue.FillOf;
    if n == 0 {
      TurnsNone(p, o, spacing);
      HarvestNone(Spread(o, spacing));
    } else {
      TurnsEarn(p, o, n - 1, spacing, q);
      TurnsSnoc(p, o, n - 1, spacing);
      BookValue.FillSumsSnoc(Turns(p, o, n - 1, spacing), BookValue.FillOf(p, Turn(o, n - 1, spacing)), q);
      if n % 2 == 0 {
        var opening := Turn(o, n - 2, spacing);
        TurnsSnoc(p, o, n - 2, spacing);
        PairGain(p, opening, spacing, q);
        SameSpread(o, n - 2, spacing);
        HarvestSnoc(n / 2 - 1, Spread(o, spacing));
      }
    }
  }

  lemma {:induction false} SameSpread(o: Order, n: nat, spacing: real)
    ensures Spread(Turn(o, n, spacing), spacing) == Spread(o, spacing)
  {
    TurnShape(o, n, spacing);
  }

  lemma {:induction false} HarvestNone(spread: real)
    ensures Harvest(0, spread) == 0.0
  {
  }

  /** The profit at mark price `q` of the last of `n` turns, when it is not part of a pair. */
  function OpenLeg(p: Params, o: Order, n: nat, spacing: real, q: real): real {
    if n % 2 == 1 then BookValue.FillOf(p, Turn(o, n - 1, spacing)).Gain(q) else 0.0
  }

  lemma {:induction false} HarvestSnoc(pairs: nat, spread: real)
    ensures Harvest(pairs + 1, spread) == Harvest(pairs, spread) + spread
  {
  }

  /** Fill `i` of a cell: sides alternate, the amount is that of the order laid there, a BUY is at
      the cell's price and a SELL one spacing above. */
  predicate TakesTurns(f: BookValue.Fill, i: nat, o: Order, cell: real, spacing: real) {
    && f.amount == o.amount && (f.side == o.side <==> i % 2 == 0)
    && f.price == cell + (if f.side == Buy then 0.0 else spacing)
  }

  lemma {:induction false} TurnsShape(p: Params, o: Order, n: nat, cell: real, spacing: real)
    requires Cell(o.side, o.price, spacing) == cell
    ensures forall i :: 0 <= i < n ==> TakesTurns(Turns(p, o, n, spacing)[i], i, o, cell, spacing)
  {
    forall i | 0 <= i < n ensures TakesTurns(Turns(p, o, n, spacing)[i], i, o, cell, spacing) {
      TurnShape(o, i, spacing);
    }
  }

  /** Between two lays, each cell on its own: fills take turns, BUY and SELL fills differ by at
      most one in number, every completed pair earns spacing times amount before fees at every
      mark price, and at most one leg is open. */
  lemma {:induction false} CellEarns(p: Params, b: Book, script: seq<Action>, cell: real, q: real)
    requires Undisturbed(p, b, script) && |OrdersIn(b.orders, cell, b.curSpacing)| == 1
    ensures var o := OrdersIn(b.orders, cell, b.curSpacing)[0];
            var fs := FillsIn(BookValue.FillsOfRun(p, b, script), cell, b.curSpacing);
            && BookValue.Gains(fs, q) ==
               Harvest(|fs| / 2, Spread(o, b.curSpacing)) + (if |fs| % 2 == 1 then fs[|fs| - 1].Gain(q) else 0.0)
            && -1 <= BookValue.CountSide(fs, Buy) - BookValue.CountSide(fs, Sell) <= 1
            && forall i :: 0 <= i < |fs| ==> TakesTurns(fs[i], i, o, cell, b.curSpacing)
  {
    hide OrdersIn, FillsIn, Undisturbed, BookValue.FillsOfRun, BookValue.Gains, BookValue.CountSide, Harvest, Spread,
      TakesTurns, Run, Cell, Turn, BookValue.FillOf;
    var spacing := b.curSpacing;
    var o, fs := OrdersIn(b.orders, cell, spacing)[0], FillsIn(BookValue.FillsOfRun(p, b, script), cell, spacing);
    CellHistory(p, b, script, cell);
    TurnsEarn(p, o, |fs|, spacing, q);
    TurnsCount(p, o, |fs|, spacing);
    InItsCell(b.orders, cell, spacing);
    TurnsShape(p, o, |fs|, cell, spacing);
  }

  lemma {:induction false} InItsCell(os: seq<Order>, cell: real, spacing: real)
    ensures forall i :: 0 <= i < |OrdersIn(os, cell, spacing)| ==>
              var o := OrdersIn(os, cell, spacing)[i]; o in os && Cell(o.side, o.price, spacing) == cell
  {
    if os != [] { InItsCell(os[..|os| - 1], cell, spacing); }
  }

  lemma {:induction false} InCell(os: seq<Order>, k: nat, cell: real, spacing: real)
    requires k < |os| && Cell(os[k].side, os[k].price, spacing) == cell
    ensures os[k] in OrdersIn(os, cell, spacing)
  {
    hide Cell;
    if k < |os| - 1 { InCell(os[..|os| - 1], k, cell, spacing); }
  }

  /** No two orders trade in the same cell. */
  predicate DistinctCells(os: seq<Order>, spacing: real) {
    forall k, m :: 0 <= k < m < |os| ==>
      Cell(os[k].side, os[k].price, spacing) != Cell(os[m].side, os[m].price, spacing)
  }

  lemma {:induction false} LadderDistinct(p: Params, b: Book)
    requires OnLadder(p, b)
    ensures DistinctCells(b.orders, b.curSpacing)
  {
    forall k, m | 0 <= k < m < |b.orders|
      ensures Cell(b.orders[k].side, b.orders[k].price, b.curSpacing) !=
              Cell(b.orders[m].side, b.orders[m].price, b.curSpacing)
    {
      OrdersInDistinctCells(p, b, k, m);
    }
    hide OnLadder;
  }

  /** A grid on its ladder meets the condition in every cell. */
  lemma {:induction false} LadderCells(p: Params, b: Book, cell: real)
    requires OnLadder(p, b)
    ensures |OrdersIn(b.orders, cell, b.curSpacing)| <= 1
  {
    hide OnLadder;
    LadderDistinct(p, b);
    FewInCell(b.orders, cell, b.curSpacing);
  }

  lemma {:induction false} FewInCell(os: seq<Order>, cell: real, spacing: real)
    requires DistinctCells(os, spacing)
    ensures |OrdersIn(os, cell, spacing)| <= 1
  {
    hide Cell;
    if os != [] {
      var n := |os| - 1;
      FewInCell(os[..n], cell, spacing);
      InItsCell(os[..n], cell, spacing);
      if OrdersIn(os[..n], cell, spacing) != [] {
        var o := OrdersIn(os[..n], cell, spacing)[0];
        var k :| 0 <= k < n && os[..n][k] == o;
        assert os[k] == o;
      }
    }
  }

  // --- a grid that pays for its fees ---

  /** The spread of the order's cell covers the maker cost of both its legs. */
  predicate Viable(p: Params, o: Order, spacing: real) {
    MakerCost(p, o) + MakerCost(p, Counter(o, spacing)) <= Spread(o, spacing)
  }

  /** The break-even rule: whatever the amount, an order is viable if and only if the fee rate on
      the two prices of its cell together does not exceed the spacing. */
  lemma {:induction false} ViableExactly(p: Params, o: Order, spacing: real)
    requires o.amount > 0.0
    ensures Viable(p, o, spacing) <==> (2.0 * Cell(o.side, o.price, spacing) + spacing) * MakerRate(p) <= spacing
  {
    var prices := 2.0 * Cell(o.side, o.price, spacing) + spacing;
    assert Notional(o) + Notional(Counter(o, spacing)) == prices * o.amount;
    LegsTogether(Notional(o), Notional(Counter(o, spacing)), prices, o.amount, MakerRate(p));
    CancelAmount(prices * MakerRate(p), spacing, o.amount);
  }

  lemma {:induction false} LegsTogether(x: real, y: real, prices: real, amount: real, rate: real)
    requires x + y == prices * amount
    ensures x * rate + y * rate == prices * rate * amount
  {
    assert x * rate + y * rate == (x + y) * rate;
  }

  lemma {:induction false} CancelAmount(x: real, y: real, amount: real)
    requires amount > 0.0
    ensures x * amount <= y * amount <==> x <= y
  {
    if x <= y { assert (y - x) * amount >= 0.0; } else { assert (x - y) * amount > 0.0; }
  }

  predicate AllViable(p: Params, os: seq<Order>, spacing: real) {
    forall i :: 0 <= i < |os| ==> Viable(p, os[i], spacing)
  }

  /** The fees that the open BUYs will cost when they fill: a BUY reserves its price, not its fee. */
  function BuyFees(p: Params, os: seq<Order>): real {
    if os == [] then 0.0 else BuyFees(p, os[..|os| - 1]) + BuyFee(p, os[|os| - 1])
  }

  function BuyFee(p: Params, o: Order): real { if o.side == Buy then MakerCost(p, o) else 0.0 }

  /** Free cash is enough for the fees of all the open BUYs. */
  predicate Funded(p: Params, b: Book) { b.freeUsd >= BuyFees(p, b.orders) }

  function Counters(os: seq<Order>, spacing: real): seq<Order> {
    seq(|os|, i requires 0 <= i < |os| => Counter(os[i], spacing))
  }

  lemma {:induction false} BuyFeesAppend(p: Params, xs: seq<Order>, ys: seq<Order>)
    ensures BuyFees(p, xs + ys) == BuyFees(p, xs) + BuyFees(p, ys)
  {
    hide BuyFee;
    if ys == [] {
      assert xs + ys == xs;
    } else {
      BuyFeesAppend(p, xs, ys[..|ys| - 1]);
      Sequences.AppendSplit(xs, ys);
    }
  }

  lemma {:induction false} BuyFeesSelect(p: Params, os: seq<Order>, high: real, low: real)
    ensures BuyFees(p, os) == BuyFees(p, Select(os, high, low, true)) + BuyFees(p, Select(os, high, low, false))
  {
    if os != [] {
      var n := |os| - 1;
      BuyFeesSelect(p, os[..n], high, low);
      var hit := Touched(os[n], high, low);
      var rest := Select(os[..n], high, low, hit);
      hide BuyFee, Touched;
      assert (rest + [os[n]])[..|rest|] == rest;
    }
  }

  lemma {:induction false} BuyFeesPositive(p: Params, os: seq<Order>, spacing: real)
    requires NonNegative(p) && forall i :: 0 <= i < |os| ==> Backed(os[i], spacing)
    ensures BuyFees(p, os) >= 0.0
  {
    if os != [] {
      var n := |os| - 1;
      assert forall i :: 0 <= i < n ==> os[..n][i] == os[i];
      BuyFeesPositive(p, os[..n], spacing);
      if os[n].side == Buy { ScaleCost(Notional(os[n]), MakerRate(p)); }
    }
  }

  /** A viable order and its counter are viable alike: same spread, same two legs. */
  lemma {:induction false} CounterViable(p: Params, o: Order, spacing: real)
    ensures Viable(p, Counter(o, spacing), spacing) <==> Viable(p, o, spacing)
  {
    CounterKeepsSlot(o, spacing);
    var back := Counter(Counter(o, spacing), spacing);
    assert Notional(back) == Notional(o);
  }

  lemma {:induction false} LegFees(p: Params, o: Order, spacing: real)
    requires NonNegative(p) && Executable(o, spacing) && spacing >= 0.0
    ensures MakerCost(p, o) >= 0.0
    ensures o.side == Sell ==> MakerCost(p, Counter(o, spacing)) >= 0.0
  {
    ScaleCost(o.price, o.amount);
    ScaleCost(Notional(o), MakerRate(p));
    if o.side == Sell {
      CounterBacked(o, spacing);
      ScaleCost(Notional(Counter(o, spacing)), MakerRate(p));
    }
  }

  /** One fill in a funded, viable book: the counter is placed, and free cash above the fees of the
      open BUYs does not shrink by more than the fee the fill itself had set aside. */
  lemma {:induction false} FillFunded(p: Params, b: Book, o: Order)
    requires NonNegative(p) && Solvent(b) && Executable(o, b.curSpacing) && Viable(p, o, b.curSpacing)
    requires o.side == Sell ==> b.freeUsd >= 0.0
    ensures Fill(p, b, o).orders == b.orders + [Counter(o, b.curSpacing)]
    ensures Fill(p, b, o).freeUsd - BuyFee(p, Counter(o, b.curSpacing)) >= b.freeUsd - BuyFee(p, o)
  {
    FillSolvent(p, b, o);
    LegFees(p, o, b.curSpacing);
    CounterBacked(o, b.curSpacing);
    FillCash(p, b, o);
  }

  lemma {:induction false} FillCash(p: Params, b: Book, o: Order)
    ensures var after := Fill(p, b, o);
            && (o.side == Buy ==> after.freeUsd == b.freeUsd - MakerCost(p, o))
            && (o.side == Sell && after.orders == b.orders + [Counter(o, b.curSpacing)] ==>
                  after.freeUsd == b.freeUsd + (Notional(o) - MakerCost(p, o)) - Notional(Counter(o, b.curSpacing)))
  {
    assert |b.orders + [Counter(o, b.curSpacing)]| == |b.orders| + 1;
    hide MakerCost;
  }

  /** Settling the touched orders of a funded, viable book places every counter. */
  lemma {:induction false} SettleFunded(p: Params, b: Book, os: seq<Order>)
    requires NonNegative(p) && Solvent(b) && AllExecutable(os, b.curSpacing) && AllViable(p, os, b.curSpacing)
    requires b.freeUsd >= BuyFees(p, os)
    ensures var s := Settle(p, b, os);
            && s.orders == Counters(os, b.curSpacing) && s.curSpacing == b.curSpacing
            && s.freeUsd - BuyFees(p, s.orders) >= b.freeUsd - BuyFees(p, os)
  {
    hide Fill, Viable, Executable, BuyFee, Counter;
    if os != [] {
      var n := |os| - 1;
      var before := Settle(p, b, os[..n]);
      ExecutableFees(p, b, os);
      SettleFunded(p, b, os[..n]);
      SettleSolvent(p, b, os[..n]);
      BuyFeesPositive(p, before.orders, before.curSpacing);
      SellCostsNoBuyFee(p, os[n]);
      FillFunded(p, before, os[n]);
      FillAppends(p, before, os[n]);
      BuyFeesSnoc(p, before.orders, Counter(os[n], b.curSpacing));
      assert Counters(os, b.curSpacing) == Counters(os[..n], b.curSpacing) + [Counter(os[n], b.curSpacing)];
    } else {
      assert Counters(os, b.curSpacing) == [];
    }
  }

  lemma {:induction false} SellCostsNoBuyFee(p: Params, o: Order)
    ensures o.side == Sell ==> BuyFee(p, o) == 0.0
  {
  }

  lemma {:induction false} BuyFeesSnoc(p: Params, os: seq<Order>, o: Order)
    ensures BuyFees(p, os + [o]) == BuyFees(p, os) + BuyFee(p, o)
  {
    assert (os + [o])[..|os|] == os;
  }

  lemma {:induction false} ExecutableFees(p: Params, b: Book, os: seq<Order>)
    requires NonNegative(p) && Solvent(b) && AllExecutable(os, b.curSpacing) && os != []
    ensures AllExecutable(os[..|os| - 1], b.curSpacing)
    ensures BuyFees(p, os) >= BuyFees(p, os[..|os| - 1])
  {
    var n := |os| - 1;
    assert forall i :: 0 <= i < n ==> os[..n][i] == os[i];
    LegFees(p, os[n], b.curSpacing);
  }

  lemma {:induction false} CounterSlots(os: seq<Order>, spacing: real)
    ensures Slots(Counters(os, spacing), spacing) == Slots(os, spacing)
  {
    hide Counter, SlotOf;
    if os != [] {
      var n := |os| - 1;
      CounterSlots(os[..n], spacing);
      CounterKeepsSlot(os[n], spacing);
      assert Counters(os, spacing)[..n] == Counters(os[..n], spacing);
    }
  }

  lemma {:induction false} ViableParts(p: Params, os: seq<Order>, high: real, low: real, hit: bool, spacing: real)
    requires AllViable(p, os, spacing)
    ensures AllViable(p, Select(os, high, low, hit), spacing)
  {
    hide Viable, Touched, Select;
    var part := Select(os, high, low, hit);
    BookValue.SelectMembers(os, high, low, hit);
    forall i | 0 <= i < |part| ensures Viable(p, part[i], spacing) {
      assert part[i] in os;
    }
  }

  /** A bar in a funded, viable book loses no counter: the book keeps its size and all of its slots,
      and is funded and viable again. */
  lemma {:induction false} BarFunded(p: Params, b: Book, high: real, low: real)
    requires NonNegative(p) && Solvent(b) && low > 0.0 && Funded(p, b) && AllViable(p, b.orders, b.curSpacing)
    ensures var b' := ProcessBar(p, b, high, low);
            && b'.orders ==
               Select(b.orders, high, low, false) + Counters(Select(b.orders, high, low, true), b.curSpacing)
            && b'.curSpacing == b.curSpacing && |b'.orders| == |b.orders|
            && Slots(b'.orders, b.curSpacing) == Slots(b.orders, b.curSpacing)
            && Funded(p, b') && AllViable(p, b'.orders, b.curSpacing)
  {
    var hit, miss, spacing := Select(b.orders, high, low, true), Select(b.orders, high, low, false), b.curSpacing;
    hide Select, Settle, Slots, BuyFees, Counter, Viable, NonNegative, Solvent, Executable;
    TouchedAllExecutable(b, high, low);
    ViableParts(p, b.orders, high, low, true, spacing);
    ViableParts(p, b.orders, high, low, false, spacing);
    BuyFeesSelect(p, b.orders, high, low);
    MissFees(p, b, high, low);
    SettleFunded(p, b, hit);
    BookValue.SelectSplits(b.orders, high, low);
    SlotsSelect(b.orders, high, low, spacing);
    SlotsAppend(miss, Counters(hit, spacing), spacing);
    CounterSlots(hit, spacing);
    BuyFeesAppend(p, miss, Counters(hit, spacing));
    forall i | 0 <= i < |hit| ensures Viable(p, Counters(hit, spacing)[i], spacing) {
      CounterViable(p, hit[i], spacing);
    }
  }

  lemma {:induction false} MissFees(p: Params, b: Book, high: real, low: real)
    requires NonNegative(p) && Solvent(b)
    ensures BuyFees(p, Select(b.orders, high, low, false)) >= 0.0
  {
    hide Select, Backed;
    var miss := Select(b.orders, high, low, false);
    BookValue.SelectMembers(b.orders, high, low, false);
    forall i | 0 <= i < |miss| ensures Backed(miss[i], b.curSpacing) {
      assert miss[i] in b.orders;
    }
    BuyFeesPositive(p, miss, b.curSpacing);
  }

  lemma {:induction false} FundedNeverShort(p: Params, b: Book)
    requires NonNegative(p) && Solvent(b) && Funded(p, b)
    ensures b.freeUsd >= 0.0
  {
    BuyFeesPositive(p, b.orders, b.curSpacing);
  }

  /** Over any stretch between two lays: if the spread of every open order covers the fees of both
      its legs, and free cash covers the fees of the open BUYs at the start, then no counter is ever
      refused, the book keeps its size and its slots, and free cash never goes below zero. */
  lemma {:induction false} NoCounterLost(p: Params, b: Book, script: seq<Action>)
    requires NonNegative(p) && Solvent(b) && ProperRun(p, b, script) && Undisturbed(p, b, script)
    requires Funded(p, b) && AllViable(p, b.orders, b.curSpacing)
    ensures var b' := Run(p, b, script);
            && |b'.orders| == |b.orders| && Slots(b'.orders, b.curSpacing) == Slots(b.orders, b.curSpacing)
            && b'.curSpacing == b.curSpacing && b'.freeUsd >= 0.0
            && Funded(p, b') && AllViable(p, b'.orders, b.curSpacing)
  {
    hide Solvent, Funded, AllViable, Slots, ProcessBar, NeedsReanchor, NonNegative;
    if script != [] {
      var n := |script| - 1;
      var mid := Run(p, b, script[..n]);
      NoCounterLost(p, b, script[..n]);
      RunSolvent(p, b, script[..n]);
      if script[n].Bar? { BarFunded(p, mid, script[n].high, script[n].low); }
    }
    RunSolvent(p, b, script);
    FundedNeverShort(p, Run(p, b, script));
  }

  /** So the turns in a cell never stop: whatever the bars, it holds the next one. */
  lemma {:induction false} CellNeverStops(p: Params, b: Book, script: seq<Action>, cell: real)
    requires NonNegative(p) && Solvent(b) && ProperRun(p, b, script) && Undisturbed(p, b, script)
    requires Funded(p, b) && AllViable(p, b.orders, b.curSpacing) && |OrdersIn(b.orders, cell, b.curSpacing)| == 1
    ensures var o := OrdersIn(b.orders, cell, b.curSpacing)[0];
            var fs := FillsIn(BookValue.FillsOfRun(p, b, script), cell, b.curSpacing);
            OrdersIn(Run(p, b, script).orders, cell, b.curSpacing) == [Turn(o, |fs|, b.curSpacing)]
  {
    hide Solvent, Funded, AllViable, Slots, NonNegative, OrdersIn, FillsIn, Turn, Turns, Undisturbed, ProperRun, Run,
      BookValue.FillsOfRun;
    CellHistory(p, b, script, cell);
    NoCounterLost(p, b, script);
    Occupied(b.orders, Run(p, b, script).orders, cell, b.curSpacing);
  }

  lemma {:induction false} Occupied(os: seq<Order>, other: seq<Order>, cell: real, spacing: real)
    requires Slots(os, spacing) == Slots(other, spacing) && OrdersIn(os, cell, spacing) != []
    ensures OrdersIn(other, cell, spacing) != []
  {
    var o := OrdersIn(os, cell, spacing)[0];
    InItsCell(os, cell, spacing);
    hide OrdersIn, Slots;
    var k :| 0 <= k < |os| && os[k] == o;
    SlotMember(os, k, spacing);
    SlotSource(other, SlotOf(o, spacing), spacing);
  }

  lemma {:induction false} SlotSource(os: seq<Order>, slot: (real, real), spacing: real)
    requires slot in Slots(os, spacing)
    ensures OrdersIn(os, slot.0, spacing) != []
  {
    var n := |os| - 1;
    if SlotOf(os[n], spacing) != slot { SlotSource(os[..n], slot, spacing); }
  }
}
