/** The simulator itself: a mutable portfolio whose methods update balances and the order
    list in place, each proved against its function in OrderBook. */
module GridSim {
  import opened GridGeometry
  import opened OrderBook
  import BookValue
  import Sequences

  function WithoutFirst(os: seq<Order>, o: Order): seq<Order> {
    if os == [] then [] else if os[0] == o then os[1..] else [os[0]] + WithoutFirst(os[1..], o)
  }

  /** `list.remove`: drops the first element equal to `o`. */
  method RemoveFirst(os: seq<Order>, o: Order) returns (rest: seq<Order>)
    requires o in os
    ensures rest == WithoutFirst(os, o)
    ensures multiset(rest) == multiset(os) - multiset{o}
  {
    var i := 0;
    while os[i] != o
      invariant 0 <= i < |os| && o in os[i..] && o !in os[..i]
      decreases |os| - i
    {
      assert os[i..] == [os[i]] + os[i + 1..];
      i := i + 1;
    }
    rest := os[..i] + os[i + 1..];
    DropFirst(os[..i], o, os[i + 1..]);
    assert os == os[..i] + [o] + os[i + 1..];
    Sequences.MultisetTakeOut(os, i);
  }

  lemma {:induction false} PrefixReserves(os: seq<Order>, i: nat)
    requires i < |os|
    ensures ReservedUsd(os[..i + 1]) == ReservedUsd(os[..i]) + UsdHeld(os[i])
    ensures ReservedBtc(os[..i + 1]) == ReservedBtc(os[..i]) + BtcHeld(os[i])
  {
    hide *;
    assert os[..i + 1] == os[..i] + [os[i]];
    BookValue.ReservedSnoc(os[..i], os[i]);
  }

  class Sim {
    const p: Params
    var spacingPct: real
    var freeUsd: real
    var freeBtc: real
    var orders: seq<Order>
    var buyFills: int
    var sellFills: int
    var feesPaid: real
    var reanchors: int
    var anchor: real
    var curSpacing: real
    var lowEdge: real
    var highEdge: real

    ghost function State(): Book reads this {
      Book(spacingPct, freeUsd, freeBtc, orders, buyFills, sellFills, feesPaid, reanchors,
           anchor, curSpacing, lowEdge, highEdge)
    }

    constructor (p: Params, spacingPct: real, usd: real, btc: real)
      ensures this.p == p && State() == FreshBook(spacingPct, usd, btc)
    {
      this.p, this.spacingPct, freeUsd, freeBtc := p, spacingPct, usd, btc;
      orders, buyFills, sellFills, feesPaid, reanchors := [], 0, 0, 0.0, 0;
      anchor, curSpacing, lowEdge, highEdge := 0.0, 0.0, 0.0, 0.0;
    }

    /** A deep copy: equal state, separate object. */
    constructor Clone(other: Sim)
      ensures p == other.p && State() == other.State()
    {
      p, spacingPct, freeUsd, freeBtc := other.p, other.spacingPct, other.freeUsd, other.freeBtc;
      orders, buyFills, sellFills := other.orders, other.buyFills, other.sellFills;
      feesPaid, reanchors := other.feesPaid, other.reanchors;
      anchor, curSpacing, lowEdge, highEdge := other.anchor, other.curSpacing, other.lowEdge, other.highEdge;
    }

    method Place(side: Side, price: real, amount: real, isCounter: bool) returns (placed: bool)
      modifies this
      ensures State() == OrderBook.Place(old(State()), Order(side, price, amount, isCounter))
      ensures placed == Accepts(old(State()), side, price, amount)
    {
      if side == Buy {
        var cost := price * amount;
        if freeUsd < cost { return false; }
        freeUsd := freeUsd - cost;
      } else {
        if freeBtc < amount { return false; }
        freeBtc := freeBtc - amount;
      }
      orders := orders + [Order(side, price, amount, isCounter)];
      return true;
    }

    method CancelAll()
      modifies this
      ensures State() == OrderBook.CancelAll(old(State()))
    {
      ghost var before := State();
      var i := 0;
      while i < |orders|
        invariant 0 <= i <= |orders|
        invariant State() == before.(freeUsd := before.freeUsd + ReservedUsd(orders[..i]),
                                     freeBtc := before.freeBtc + ReservedBtc(orders[..i]))
      {
        hide Notional, ReservedUsd, ReservedBtc;
        PrefixReserves(orders, i);
        if orders[i].side == Buy {
          freeUsd := freeUsd + Notional(orders[i]);
        } else {
          freeBtc := freeBtc + orders[i].amount;
        }
        i := i + 1;
      }
      assert orders[..i] == orders;
      orders := [];
    }

    method DeriskToCash(price: real)
      modifies this
      ensures State() == OrderBook.DeriskToCash(p, old(State()), price)
    {
      CancelAll();
      if freeBtc > 0.0 {
        var proceeds := freeBtc * price;
        var cost := proceeds * (p.takerFee + p.deriskSlippageBps / 10000.0);
        feesPaid := feesPaid + cost;
        freeUsd := freeUsd + (proceeds - cost);
        sellFills := sellFills + 1;
        freeBtc := 0.0;
      }
    }

    method LayGrid(at: real)
      requires CanLay(p, spacingPct, at)
      modifies this
      ensures State() == OrderBook.LayGrid(p, old(State()), at)
    {
      anchor := at;
      var levels := ComputeGridLevels(at, spacingPct, p.levelsAbove, p.levelsBelow);
      curSpacing := GridSpacing(at, spacingPct);
      lowEdge := levels[0].price;
      highEdge := levels[|levels| - 1].price;
      ghost var cached := State();
      for i := 0 to |levels|
        invariant State() == PlaceLevels(p, cached, levels[..i])
      {
        hide ComputeGridLevels, GridSpacing, OrderBook.Place;
        var amount := p.orderSize / levels[i].price;
        var _ := Place(levels[i].side, levels[i].price, amount, false);
        assert levels[..i + 1][..i] == levels[..i];
      }
      assert levels[..|levels|] == levels;
    }

    /** Settles an order already taken off the list, and places its counter. */
    method Execute(o: Order, spacing: real)
      requires spacing == curSpacing
      modifies this
      ensures State() == Fill(p, old(State()), o)
    {
      var cost := Notional(o) * (p.makerFee + p.slippageBps / 10000.0);
      feesPaid := feesPaid + cost;
      if o.side == Buy {
        buyFills := buyFills + 1;
        freeBtc := freeBtc + o.amount;
        freeUsd := freeUsd - cost;
      } else {
        sellFills := sellFills + 1;
        freeUsd := freeUsd + (Notional(o) - cost);
      }
      assert State() == Credit(p, old(State()), o);
      var counter := NextCounterAction(o.side, o.price, spacing);
      var _ := Place(counter.side, counter.price, o.amount, true);
    }

    /** Walks a snapshot of the book; every touched order is found again by equality, removed
        and settled, and its counter is appended. */
    method ProcessBar(high: real, low: real)
      modifies this
      ensures State() == OrderBook.ProcessBar(p, old(State()), high, low)
    {
      ghost var before := State();
      var snapshot := orders;
      var spacing := curSpacing;
      MidBarEnds(p, before, high, low);
      for k := 0 to |snapshot|
        invariant State() == MidBar(p, before, snapshot, k, high, low)
        invariant curSpacing == spacing
      {
        hide MidBar, Fill, Select, Settle;
        var o := snapshot[k];
        if Touched(o, high, low) {
          ghost var pre, post := MidBarHit(p, before, snapshot, k, high, low);
          DropFirst(pre, o, post);
          orders := RemoveFirst(orders, o);
          Execute(o, spacing);
        } else {
          MidBarMiss(p, before, snapshot, k, high, low);
        }
      }
    }

    method MaybeReanchor(price: real)
      requires CanLay(p, spacingPct, price) || !NeedsReanchor(p, State(), price)
      modifies this
      ensures State() == OrderBook.MaybeReanchor(p, old(State()), price)
    {
      if orders == [] { return; }
      if lowEdge <= price <= highEdge { return; }
      var beyond := if price < lowEdge then lowEdge - price else price - highEdge;
      if beyond < p.reanchorMargin * curSpacing { return; }
      CancelAll();
      LayGrid(price);
      reanchors := reanchors + 1;
    }

    method PortfolioValue(price: real) returns (value: real)
      ensures value == OrderBook.PortfolioValue(State(), price)
    {
      var totalUsd, totalBtc := freeUsd, freeBtc;
      for i := 0 to |orders|
        invariant totalUsd == freeUsd + ReservedUsd(orders[..i])
        invariant totalBtc == freeBtc + ReservedBtc(orders[..i])
      {
        hide Notional, ReservedUsd, ReservedBtc;
        PrefixReserves(orders, i);
        if orders[i].side == Buy {
          totalUsd := totalUsd + Notional(orders[i]);
        } else {
          totalBtc := totalBtc + orders[i].amount;
        }
      }
      assert orders[..|orders|] == orders;
      value := totalUsd + totalBtc * price;
    }
  }

  /** The portfolio after the first `k` orders of the snapshot: the untouched ones and the
      ones still to come are in place, the accepted counters wait at the end. */
  ghost function MidBar(p: Params, b: Book, snapshot: seq<Order>, k: nat, high: real, low: real): Book
    requires k <= |snapshot|
  {
    var settled := Settle(p, b, Select(snapshot[..k], high, low, true));
    settled.(orders := Select(snapshot[..k], high, low, false) + snapshot[k..] + settled.orders)
  }

  lemma {:induction false} SettleSpacing(p: Params, b: Book, os: seq<Order>)
    ensures Settle(p, b, os).curSpacing == b.curSpacing
  {
    if os != [] { SettleSpacing(p, b, os[..|os| - 1]); }
  }

  lemma {:induction false} MidBarEnds(p: Params, b: Book, high: real, low: real)
    ensures MidBar(p, b, b.orders, 0, high, low) == b
    ensures MidBar(p, b, b.orders, |b.orders|, high, low) == OrderBook.ProcessBar(p, b, high, low)
  {
    assert b.orders[..|b.orders|] == b.orders;
    assert [] + b.orders + [] == b.orders;
  }

  lemma {:induction false} MidBarMiss(p: Params, b: Book, snapshot: seq<Order>, k: nat, high: real, low: real)
    requires k < |snapshot| && !Touched(snapshot[k], high, low)
    ensures MidBar(p, b, snapshot, k + 1, high, low) == MidBar(p, b, snapshot, k, high, low)
  {
    var missed := Select(snapshot[..k], high, low, false);
    assert snapshot[..k + 1][..k] == snapshot[..k];
    assert missed + [snapshot[k]] + snapshot[k + 1..] == missed + snapshot[k..];
  }

  /** The next touched order stands right behind the untouched ones, none of which equals it;
      taking it out and filling it is the next state. */
  lemma {:induction false} MidBarHit(p: Params, b: Book, snapshot: seq<Order>, k: nat, high: real, low: real)
    returns (pre: seq<Order>, post: seq<Order>)
    requires k < |snapshot| && Touched(snapshot[k], high, low)
    ensures var mid := MidBar(p, b, snapshot, k, high, low);
            && mid.orders == pre + [snapshot[k]] + post && snapshot[k] !in pre
            && mid.curSpacing == b.curSpacing
            && MidBar(p, b, snapshot, k + 1, high, low) == Fill(p, mid.(orders := pre + post), snapshot[k])
            && MidBar(p, b, snapshot, k + 1, high, low).curSpacing == b.curSpacing
  {
    var hit := Select(snapshot[..k], high, low, true);
    var settled := Settle(p, b, hit);
    pre, post := Select(snapshot[..k], high, low, false), snapshot[k + 1..] + settled.orders;
    BookValue.SelectMembers(snapshot[..k], high, low, false);
    SettleSpacing(p, b, hit);
    assert snapshot[..k + 1][..k] == snapshot[..k];
    assert (hit + [snapshot[k]])[..|hit|] == hit;
    FillPrefix(p, settled, snapshot[k], pre + snapshot[k + 1..]);
    hide Fill, Place, Credit;
    assert pre + snapshot[k..] + settled.orders == pre + [snapshot[k]] + post;
    assert pre + post == pre + snapshot[k + 1..] + settled.orders;
  }

  lemma {:induction false} DropFirst(pre: seq<Order>, o: Order, post: seq<Order>)
    requires o !in pre
    ensures o in pre + [o] + post && WithoutFirst(pre + [o] + post, o) == pre + post
  {
    var os := pre + [o] + post;
    assert os[|pre|] == o;
    if pre == [] {
      assert os[1..] == post;
    } else {
      DropFirst(pre[1..], o, post);
      assert os[1..] == pre[1..] + [o] + post;
      assert pre + post == [pre[0]] + (pre[1..] + post);
    }
  }

  /** Orders already in the book do not influence a fill. */
  lemma {:induction false} FillPrefix(p: Params, b: Book, o: Order, prefix: seq<Order>)
    ensures var f := Fill(p, b, o);
            Fill(p, b.(orders := prefix + b.orders), o) == f.(orders := prefix + f.orders)
  {
    assert prefix + (b.orders + [Counter(o, b.curSpacing)]) == prefix + b.orders + [Counter(o, b.curSpacing)];
  }
}
