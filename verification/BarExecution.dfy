/** Which orders a bar executes, at what cost, and when a grid is moved: the ledger's decisions in
    terms of market prices. */
module BarExecution {
  import opened GridGeometry
  import opened OrderBook
  import BookSafety
  import BookValue
  import Sequences

  // --- which orders fill ---

  /** Price `x` is at the order's limit or better. */
  predicate AtLimit(o: Order, x: real) { if o.side == Buy then x <= o.price else x >= o.price }

  /** Somewhere in the bar's range the market is at the order's limit or better. */
  ghost predicate Marketable(o: Order, high: real, low: real) { exists x: real :: low <= x <= high && AtLimit(o, x) }

  ghost function Marketables(os: seq<Order>, high: real, low: real): seq<Order> {
    if os == [] then [] else
      Marketables(os[..|os| - 1], high, low) + (if Marketable(os[|os| - 1], high, low) then [os[|os| - 1]] else [])
  }

  ghost function Passed(os: seq<Order>, high: real, low: real): seq<Order> {
    if os == [] then [] else
      Passed(os[..|os| - 1], high, low) + (if Marketable(os[|os| - 1], high, low) then [] else [os[|os| - 1]])
  }

  lemma {:induction false} TouchedIsMarketable(o: Order, high: real, low: real)
    requires low <= high
    ensures Touched(o, high, low) <==> Marketable(o, high, low)
  {
    if Touched(o, high, low) {
      assert AtLimit(o, if o.side == Buy then low else high);
    }
  }

  lemma {:induction false} SelectIsMarketable(os: seq<Order>, high: real, low: real)
    requires low <= high
    ensures Select(os, high, low, true) == Marketables(os, high, low)
    ensures Select(os, high, low, false) == Passed(os, high, low)
  {
    hide Touched, Marketable;
    if os != [] {
      SelectIsMarketable(os[..|os| - 1], high, low);
      TouchedIsMarketable(os[|os| - 1], high, low);
    }
  }

  /** A bar executes exactly the orders that were open before it and whose limit the market reached
      within its range, each once and in book order; the rest stay, in order, ahead of the counters
      those executions leave behind. */
  lemma {:induction false} BarFillsExactly(p: Params, b: Book, high: real, low: real)
    requires low <= high
    ensures BookValue.FillsOfAction(p, b, Bar(high, low)) ==
            BookValue.FillsOfOrders(p, Marketables(b.orders, high, low))
    ensures ProcessBar(p, b, high, low).orders ==
            Passed(b.orders, high, low) + Settle(p, b, Marketables(b.orders, high, low)).orders
  {
    hide Settle, Marketable;
    SelectIsMarketable(b.orders, high, low);
  }

  /** The same order by order: an open order is executed if and only if some price of the range is at
      its limit or better, and stays in the book otherwise. */
  lemma {:induction false} OrderFillsExactly(p: Params, b: Book, high: real, low: real, o: Order)
    requires low <= high && o in b.orders
    ensures (exists x: real :: low <= x <= high && AtLimit(o, x)) <==>
            multiset(Marketables(b.orders, high, low))[o] == multiset(b.orders)[o]
    ensures (exists x: real :: low <= x <= high && AtLimit(o, x)) ==>
              BookValue.FillOf(p, o) in BookValue.FillsOfAction(p, b, Bar(high, low))
    ensures !(exists x: real :: low <= x <= high && AtLimit(o, x)) ==>
              o in ProcessBar(p, b, high, low).orders && o !in Marketables(b.orders, high, low)
  {
    hide BookValue.FillOf, Settle;
    assert Marketable(o, high, low) <==> exists x: real :: low <= x <= high && AtLimit(o, x);
    hide Marketable, AtLimit;
    MarketablesCount(b.orders, high, low, o);
    Sequences.OccursCount(b.orders, o);
    Sequences.OccursCount(Marketables(b.orders, high, low), o);
    Sequences.OccursCount(Passed(b.orders, high, low), o);
    BarFillsExactly(p, b, high, low);
    if Marketable(o, high, low) { FillsCover(p, Marketables(b.orders, high, low), o); }
  }

  lemma {:induction false} MarketablesCount(os: seq<Order>, high: real, low: real, o: Order)
    ensures multiset(Marketables(os, high, low))[o] == if Marketable(o, high, low) then multiset(os)[o] else 0
    ensures multiset(Passed(os, high, low))[o] == if Marketable(o, high, low) then 0 else multiset(os)[o]
  {
    if os == [] {
      hide Marketable;
    } else {
      hide *;
      var n := |os| - 1;
      MarketablesCount(os[..n], high, low, o);
      MarketablesLast(os, high, low);
      CountLast(os, o);
      if Marketable(os[n], high, low) {
        Sequences.SnocCount(Marketables(os[..n], high, low), os[n], o);
      } else {
        Sequences.SnocCount(Passed(os[..n], high, low), os[n], o);
      }
    }
  }

  lemma {:induction false} CountLast(os: seq<Order>, o: Order)
    requires os != []
    ensures multiset(os)[o] == multiset(os[..|os| - 1])[o] + (if os[|os| - 1] == o then 1 else 0)
  {
    assert os == os[..|os| - 1] + [os[|os| - 1]];
    Sequences.SnocCount(os[..|os| - 1], os[|os| - 1], o);
  }

  lemma {:induction false} MarketablesLast(os: seq<Order>, high: real, low: real)
    requires os != []
    ensures var n := |os| - 1;
            var hits, misses := Marketables(os[..n], high, low), Passed(os[..n], high, low);
            && Marketables(os, high, low) == (if Marketable(os[n], high, low) then hits + [os[n]] else hits)
            && Passed(os, high, low) == (if Marketable(os[n], high, low) then misses else misses + [os[n]])
  {
    hide Marketable;
  }

  lemma {:induction false} FillsCover(p: Params, os: seq<Order>, o: Order)
    requires o in os
    ensures BookValue.FillOf(p, o) in BookValue.FillsOfOrders(p, os)
  {
    hide BookValue.FillOf;
    var n := |os| - 1;
    assert os == os[..n] + [os[n]];
    if o in os[..n] { FillsCover(p, os[..n], o); }
  }

  /** A wider bar executes at least the same orders. */
  lemma {:induction false} WiderBarFillsMore(os: seq<Order>, high: real, low: real, high': real, low': real)
    requires low' <= low && high <= high'
    ensures multiset(Select(os, high, low, true)) <= multiset(Select(os, high', low', true))
  {
    if os != [] { WiderBarFillsMore(os[..|os| - 1], high, low, high', low'); }
  }

  // --- what it costs ---

  /** Every execution of a bar costs the maker fee plus the slippage, in basis points, on its value;
      the market sell of a cash-out the taker fee plus its own slippage. */
  lemma {:induction false} FeesByRate(p: Params, b: Book, a: Action, i: nat)
    requires i < |BookValue.FillsOfAction(p, b, a)|
    ensures var f := BookValue.FillsOfAction(p, b, a)[i];
            && (a.Bar? ==> 10000.0 * f.fee == f.price * f.amount * (10000.0 * p.makerFee + p.slippageBps))
            && (a.Cash? ==> 10000.0 * f.fee == f.price * f.amount * (10000.0 * p.takerFee + p.deriskSlippageBps)
                            && f.side == Sell && f.price == a.price && f.amount == TotalBtc(b) > 0.0)
  {
    match a {
      case Bar(high, low) => OrderFee(p, Select(b.orders, high, low, true), i);
      case Cash(price) => RateCost(TotalBtc(b) * price, p.takerFee, p.deriskSlippageBps);
      case _ =>
    }
  }

  lemma {:induction false} RateCost(value: real, fee: real, bps: real)
    ensures 10000.0 * (value * (fee + bps / 10000.0)) == value * (10000.0 * fee + bps)
  {
    assert 10000.0 * (fee + bps / 10000.0) == 10000.0 * fee + bps;
  }

  lemma {:induction false} OrderFee(p: Params, os: seq<Order>, i: nat)
    requires i < |BookValue.FillsOfOrders(p, os)|
    ensures var f := BookValue.FillsOfOrders(p, os)[i];
            10000.0 * f.fee == f.price * f.amount * (10000.0 * p.makerFee + p.slippageBps)
  {
    var n := |os| - 1;
    if i < |BookValue.FillsOfOrders(p, os[..n])| {
      OrderFee(p, os[..n], i);
    } else {
      RateCost(Notional(os[n]), p.makerFee, p.slippageBps);
    }
  }

  /** Every rung of a grid that can be laid is worth the order size at its own price. */
  lemma {:induction false} RungsWorthOrderSize(p: Params, pct: real, anchor: real, i: nat)
    requires CanLay(p, pct, anchor) && i < |Levels(p, pct, anchor)|
    ensures var o := BookSafety.Layout(p, Levels(p, pct, anchor))[i];
            && o.price * o.amount == p.orderSize && !o.isCounter
            && o.side == Levels(p, pct, anchor)[i].side && o.price == Levels(p, pct, anchor)[i].price
  {
    var price := Levels(p, pct, anchor)[i].price;
    assert p.orderSize / price * price == p.orderSize;
  }

  /** Rung `k` above or below the anchor is `k` times the spacing percentage away from it. */
  lemma {:induction false} RungsByPercent(p: Params, pct: real, anchor: real, i: nat)
    requires i < |Levels(p, pct, anchor)|
    ensures var level := Levels(p, pct, anchor)[i];
            var m := i - Max0(p.levelsBelow) + (if i < Max0(p.levelsBelow) then 0 else 1);
            && 100.0 * level.price == anchor * (100.0 + Percents(m, pct))
            && (level.side == Buy <==> m < 0) && m != 0
  {
    LevelCell(anchor, pct, p.levelsAbove, p.levelsBelow, i);
    var k := i - Max0(p.levelsBelow);
    var m := if k < 0 then k else k + 1;
    assert Levels(p, pct, anchor)[i].price == anchor + m as real * GridSpacing(anchor, pct);
    PercentOf(anchor, pct, m);
  }

  lemma {:induction false} PercentOf(anchor: real, pct: real, m: int)
    ensures 100.0 * (anchor + m as real * GridSpacing(anchor, pct)) == anchor * (100.0 + Percents(m, pct))
  {
    assert 100.0 * GridSpacing(anchor, pct) == anchor * pct;
    assert 100.0 * (m as real * GridSpacing(anchor, pct)) == m as real * (anchor * pct);
    assert m as real * (anchor * pct) == anchor * (m as real * pct);
  }

  // --- when the grid moves ---

  /** The cached edges are the lowest and the highest rung: no rung lies outside them, and both are
      rungs. */
  lemma {:induction false} EdgesExactly(p: Params, b: Book, anchor: real)
    requires anchor > 0.0 && b.spacingPct > 0.0 && Levels(p, b.spacingPct, anchor) != []
    ensures var laid, levels := LayGrid(p, b, anchor), Levels(p, b.spacingPct, anchor);
            && (forall i :: 0 <= i < |levels| ==> laid.lowEdge <= levels[i].price <= laid.highEdge)
            && (exists i :: 0 <= i < |levels| && levels[i].price == laid.lowEdge)
            && (exists i :: 0 <= i < |levels| && levels[i].price == laid.highEdge)
  {
    var levels := Levels(p, b.spacingPct, anchor);
    BookSafety.LayFrame(p, b, anchor);
    assert Cached(p, b, anchor).lowEdge == levels[0].price;
    assert Cached(p, b, anchor).highEdge == levels[|levels| - 1].price;
    LevelCount(p, b.spacingPct, anchor);
    hide LayGrid, ComputeGridLevels;
    forall i | 0 <= i < |levels| ensures levels[0].price <= levels[i].price <= levels[|levels| - 1].price {
      if i > 0 { LadderShape(anchor, b.spacingPct, p.levelsAbove, p.levelsBelow, 0, i); }
      if i < |levels| - 1 { LadderShape(anchor, b.spacingPct, p.levelsAbove, p.levelsBelow, i, |levels| - 1); }
    }
  }

  /** The price is outside an edge by the margin, in spacings, or more. */
  predicate Outside(p: Params, b: Book, price: real) {
    var away := p.reanchorMargin * b.curSpacing;
    if price < b.lowEdge then price + away <= b.lowEdge else price > b.highEdge && price >= b.highEdge + away
  }

  /** The grid follows the price exactly when it has open orders and the price is far enough outside;
      then it is laid around the price and counted, and otherwise nothing changes. */
  lemma {:induction false} ReanchorsExactly(p: Params, b: Book, price: real)
    ensures MaybeReanchor(p, b, price).reanchors == b.reanchors + 1 <==> b.orders != [] && Outside(p, b, price)
    ensures MaybeReanchor(p, b, price).reanchors == b.reanchors + 1 ==>
              && MaybeReanchor(p, b, price).anchor == price
              && 100.0 * MaybeReanchor(p, b, price).curSpacing == price * b.spacingPct
    ensures MaybeReanchor(p, b, price).reanchors != b.reanchors + 1 ==> MaybeReanchor(p, b, price) == b
  {
    NeededOutside(p, b, price);
    BookSafety.LayFrame(p, CancelAll(b), price);
    hide LayGrid, Levels, NeedsReanchor, Outside, TotalUsd, TotalBtc;
  }

  lemma {:induction false} NeededOutside(p: Params, b: Book, price: real)
    ensures NeedsReanchor(p, b, price) <==> b.orders != [] && Outside(p, b, price)
  {
    MarginAround(b.lowEdge, b.highEdge, price, p.reanchorMargin * b.curSpacing);
  }

  lemma {:induction false} MarginAround(low: real, high: real, price: real, away: real)
    ensures !(low <= price <= high) && (if price < low then low - price else price - high) >= away <==>
            if price < low then price + away <= low else price > high && price >= high + away
  {
  }

  // --- which rungs are taken ---

  /** Every BUY rung costs the order size, so a grid takes as many BUY rungs as the free cash pays for,
      and no more, the farthest first. What happens to the SELL rungs afterwards makes no difference. */
  lemma {:induction false} GridTakesBuys(p: Params, b: Book, anchor: real) returns (m: nat)
    requires p.orderSize > 0.0 && CanLay(p, b.spacingPct, anchor)
    ensures m <= Max0(p.levelsBelow) <= |Levels(p, b.spacingPct, anchor)|
    ensures BookSafety.OfSide(LayGrid(p, b, anchor).orders, Buy) ==
            BookSafety.OfSide(b.orders, Buy) + BookSafety.Layout(p, Levels(p, b.spacingPct, anchor)[..m])
    ensures m > 0 ==> p.orderSize * m as real <= b.freeUsd
    ensures m < Max0(p.levelsBelow) ==> p.orderSize * (m + 1) as real > b.freeUsd
  {
    hide LayoutOrder, BookSafety.OfSide, BookSafety.Layout, PlaceLevels, Levels, Owed;
    var levels, below := Levels(p, b.spacingPct, anchor), Max0(p.levelsBelow);
    var cached := Cached(p, b, anchor);
    LevelSides(p, b.spacingPct, anchor);
    m := BuyRungsTaken(p, cached, levels[..below]);
    assert levels[..below][..m] == levels[..m];
    SellsKeepBuys(p, cached, levels, below);
    BookSafety.OfSideAppend(b.orders, BookSafety.Layout(p, levels[..m]), Buy);
    LayoutOfBuys(p, levels[..m]);
    OwedIs(p, m);
    OwedIs(p, m + 1);
  }

  lemma {:induction false} OwedIs(p: Params, n: nat)
    ensures Owed(p, n) == p.orderSize * n as real
  {
  }

  lemma {:induction false} LevelSides(p: Params, pct: real, anchor: real)
    ensures var levels, below := Levels(p, pct, anchor), Max0(p.levelsBelow);
            below <= |levels| && forall i :: 0 <= i < |levels| ==> (levels[i].side == Buy <==> i < below)
  {
  }

  lemma {:induction false} SellsKeepBuys(p: Params, b: Book, levels: seq<GridLevel>, k: nat)
    requires k <= |levels| && forall i :: k <= i < |levels| ==> levels[i].side == Sell
    ensures BookSafety.OfSide(PlaceLevels(p, b, levels).orders, Buy) ==
            BookSafety.OfSide(PlaceLevels(p, b, levels[..k]).orders, Buy)
  {
    hide Units;
    var n := |levels| - 1;
    if k == |levels| {
      assert levels[..k] == levels;
    } else {
      assert levels[..n][..k] == levels[..k];
      SellsKeepBuys(p, b, levels[..n], k);
      BookSafety.OfSideAppend(PlaceLevels(p, b, levels[..n]).orders, [LayoutOrder(p, levels[n])], Buy);
      assert PlaceLevels(p, b, levels[..n]).orders + [] == PlaceLevels(p, b, levels[..n]).orders;
    }
  }

  lemma {:induction false} LayoutOfBuys(p: Params, levels: seq<GridLevel>)
    requires forall i :: 0 <= i < |levels| ==> levels[i].side == Buy
    ensures BookSafety.OfSide(BookSafety.Layout(p, levels), Buy) == BookSafety.Layout(p, levels)
  {
    hide Units;
    if levels != [] {
      var n := |levels| - 1;
      LayoutOfBuys(p, levels[..n]);
      BookSafety.LayoutSnoc(p, levels);
      BookSafety.OfSideAppend(BookSafety.Layout(p, levels[..n]), [LayoutOrder(p, levels[n])], Buy);
    }
  }

  lemma {:induction false} BuyRungsTaken(p: Params, b: Book, levels: seq<GridLevel>) returns (m: nat)
    requires p.orderSize > 0.0
    requires forall i :: 0 <= i < |levels| ==> levels[i].side == Buy && levels[i].price != 0.0
    ensures m <= |levels|
    ensures PlaceLevels(p, b, levels).orders == b.orders + BookSafety.Layout(p, levels[..m])
    ensures PlaceLevels(p, b, levels).freeUsd == b.freeUsd - Owed(p, m)
    ensures m > 0 ==> Owed(p, m) <= b.freeUsd
    ensures m < |levels| ==> Owed(p, m + 1) > b.freeUsd
  {
    hide BookSafety.Layout, Owed, LayoutOrder, Place, Accepts;
    if levels == [] {
      m := 0;
      NothingOwed(p);
      NothingLaid(p, b);
    } else {
      var n := |levels| - 1;
      var before, o := PlaceLevels(p, b, levels[..n]), LayoutOrder(p, levels[n]);
      m := BuyRungsTaken(p, b, levels[..n]);
      assert levels[..n][..m] == levels[..m] && levels[..n + 1] == levels;
      OfferBuy(p, before, levels[n]);
      OweMore(p, m);
      BookSafety.LayoutSnoc(p, levels);
      if before.freeUsd >= p.orderSize {
        assert m == n;
        m := n + 1;
        assert (b.orders + BookSafety.Layout(p, levels[..n])) + [o] == b.orders + BookSafety.Layout(p, levels);
      }
    }
  }

  lemma {:induction false} OfferBuy(p: Params, b: Book, level: GridLevel)
    requires p.orderSize > 0.0 && level.side == Buy && level.price != 0.0
    ensures var o := LayoutOrder(p, level);
            && Place(b, o).orders == (if b.freeUsd >= p.orderSize then b.orders + [o] else b.orders)
            && Place(b, o).freeUsd == (if b.freeUsd >= p.orderSize then b.freeUsd - p.orderSize else b.freeUsd)
  {
    BookSafety.UnitsTimesPrice(p.orderSize, level.price);
  }

  lemma {:induction false} NothingLaid(p: Params, b: Book)
    ensures BookSafety.Layout(p, []) == [] && b.orders + [] == b.orders
  {
  }

  /** What `n` rungs of the order size cost. */
  function Owed(p: Params, n: nat): real { p.orderSize * n as real }

  lemma {:induction false} NothingOwed(p: Params)
    ensures Owed(p, 0) == 0.0
  {
  }

  lemma {:induction false} OweMore(p: Params, m: nat)
    ensures Owed(p, m + 1) == Owed(p, m) + p.orderSize
  {
  }
}
