/** Why the spread has to cover the fees: a cell where it does not can be bled by the market until
    its counter-order is refused. */
module GridAttrition {
  import opened GridGeometry
  import opened OrderBook
  import opened BookSafety
  import opened GridHarvest
  import opened GridReturns
  import BookValue

  /** The market dips to the cell's price and comes back, `n` times. */
  function Zigzag(cell: real, spacing: real, n: nat): seq<Action> {
    if n == 0 then [] else Zigzag(cell, spacing, n - 1) + [Bar(cell, cell), Bar(cell + spacing, cell + spacing)]
  }

  /** The dip touches the open BUY `o` and nothing else, and the return touches no other order. */
  predicate Exposed(b: Book, o: Order, rest: seq<Order>) {
    && o.side == Buy
    && Select(b.orders, o.price, o.price, true) == [o]
    && Select(b.orders, o.price, o.price, false) == rest
    && Select(rest, o.price + b.curSpacing, o.price + b.curSpacing, true) == []
  }

  lemma {:induction false} SelectSnoc(os: seq<Order>, o: Order, high: real, low: real, hit: bool)
    ensures Select(os + [o], high, low, hit) ==
            Select(os, high, low, hit) + (if Touched(o, high, low) == hit then [o] else [])
  {
    hide Touched;
    assert (os + [o])[..|os|] == os;
  }

  lemma {:induction false} SelectAgain(os: seq<Order>, high: real, low: real)
    ensures Select(Select(os, high, low, false), high, low, true) == []
    ensures Select(Select(os, high, low, false), high, low, false) == Select(os, high, low, false)
  {
    hide Touched;
    if os != [] {
      var n := |os| - 1;
      SelectAgain(os[..n], high, low);
      var rest := Select(os[..n], high, low, false);
      SelectSnoc(rest, os[n], high, low, true);
      SelectSnoc(rest, os[n], high, low, false);
    }
  }

  lemma {:induction false} NoneHit(os: seq<Order>, high: real, low: real)
    requires Select(os, high, low, true) == []
    ensures Select(os, high, low, false) == os
  {
    hide Touched;
    if os != [] { NoneHit(os[..|os| - 1], high, low); }
  }

  lemma {:induction false} SettleOne(p: Params, b: Book, o: Order)
    ensures Settle(p, b, [o]) == Fill(p, b.(orders := []), o)
  {
    assert [o][..0] == [];
  }

  /** One dip and return: a pair of fills. The cash changes by the net return of the pair; the BUY
      comes back exactly when that leaves no debt, and is lost otherwise. */
  lemma {:induction false} ZigzagOnce(p: Params, b: Book, o: Order, rest: seq<Order>)
    requires NonNegative(p) && Solvent(b) && Exposed(b, o, rest) && o.price > 0.0
    ensures var b' := Run(p, b, [Bar(o.price, o.price), Bar(o.price + b.curSpacing, o.price + b.curSpacing)]);
            var cash := b.freeUsd + NetPair(p, o, b.curSpacing);
            && b'.curSpacing == b.curSpacing && Solvent(b')
            && if cash >= 0.0 then b'.freeUsd == cash && b'.orders == rest + [o.(isCounter := true)]
               else b'.orders == rest
  {
    hide Select, NetPair, Solvent, Counter, MakerCost, ProcessBar, Executable, Run, Touched, NonNegative;
    var cell, top, spacing := o.price, o.price + b.curSpacing, b.curSpacing;
    var sell := Counter(o, spacing);
    var mid := ProcessBar(p, b, cell, cell);
    RunTwo(p, b, Bar(cell, cell), Bar(top, top));
    SellAtTop(b, o);
    BarSolvent(p, b, cell, cell);
    HitExecutable(b, o, cell, cell);
    BarOnOne(p, b, o, rest, cell, cell);
    BarSolvent(p, mid, top, top);
    CounterKeepsSlot(o, spacing);
    SelectSnoc(rest, sell, top, top, true);
    SelectSnoc(rest, sell, top, top, false);
    NoneHit(rest, top, top);
    assert rest + [] == rest && [] + [sell] == [sell];
    HitExecutable(mid, sell, top, top);
    BarOnOne(p, mid, sell, rest, top, top);
    SellLegs(p, o, spacing);
  }

  lemma {:induction false} SellAtTop(b: Book, o: Order)
    requires Solvent(b) && o.side == Buy && o.price > 0.0
    ensures var sell := Counter(o, b.curSpacing);
            sell.side == Sell && sell.price == o.price + b.curSpacing > 0.0
            && Touched(sell, o.price + b.curSpacing, o.price + b.curSpacing)
  {
  }

  lemma {:induction false} RunTwo(p: Params, b: Book, first: Action, second: Action)
    ensures Run(p, b, [first, second]) == Step(p, Step(p, b, first), second)
  {
    RunShort(p, b, [first, second]);
  }

  lemma {:induction false} HitExecutable(b: Book, o: Order, high: real, low: real)
    requires Solvent(b) && low > 0.0 && Select(b.orders, high, low, true) == [o]
    ensures Executable(o, b.curSpacing)
  {
    TouchedAllExecutable(b, high, low);
    assert [o][0] == o;
  }

  /** A bar that touches one order only. */
  lemma {:induction false} BarOnOne(p: Params, b: Book, o: Order, rest: seq<Order>, high: real, low: real)
    requires NonNegative(p) && Solvent(b) && Executable(o, b.curSpacing)
    requires Select(b.orders, high, low, true) == [o] && Select(b.orders, high, low, false) == rest
    ensures var b' := ProcessBar(p, b, high, low);
            && b'.curSpacing == b.curSpacing
            && (o.side == Buy ==>
                  b'.orders == rest + [Counter(o, b.curSpacing)] && b'.freeUsd == b.freeUsd - MakerCost(p, o))
            && (o.side == Sell ==>
                  if b.freeUsd + b.curSpacing * o.amount >= MakerCost(p, o)
                  then b'.orders == rest + [Counter(o, b.curSpacing)]
                       && b'.freeUsd == b.freeUsd + b.curSpacing * o.amount - MakerCost(p, o)
                  else b'.orders == rest)
  {
    var empty := b.(orders := []);
    SettleOne(p, b, o);
    FillSolvent(p, empty, o);
    FillCash(p, empty, o);
    FillAppends(p, empty, o);
    CounterBacked(o, b.curSpacing);
    hide Select, Settle, Fill, MakerCost, Counter;
    assert rest + [] == rest && [] + [Counter(o, b.curSpacing)] == [Counter(o, b.curSpacing)];
  }

  lemma {:induction false} SellLegs(p: Params, o: Order, spacing: real)
    ensures var sell := Counter(o, spacing);
            NetPair(p, o, spacing) == spacing * sell.amount - MakerCost(p, o) - MakerCost(p, sell)
  {
  }

  /** The cash that `n` dips leave, as long as the order comes back. */
  function Drained(cash: real, pair: real, n: nat): real { cash + n as real * pair }

  lemma {:induction false} DrainedSnoc(cash: real, pair: real, n: nat)
    ensures Drained(cash, pair, 0) == cash
    ensures Drained(cash, pair, n + 1) == Drained(cash, pair, n) + pair
  {
  }

  /** However much cash there is, enough losses use it up. */
  lemma {:induction false} UsedUp(cash: real, pair: real) returns (n: nat)
    requires pair < 0.0
    ensures n >= 1 && Drained(cash, pair, n) < 0.0
  {
    var trips := cash / -pair;
    n := if trips < 0.0 then 1 else trips.Floor + 1;
    assert trips * -pair == cash;
    TripsCost(trips, n, -pair);
    assert n as real * pair == -(n as real * -pair);
  }

  lemma {:induction false} TripsCost(trips: real, n: nat, loss: real)
    requires trips < n as real && loss > 0.0
    ensures trips * loss < n as real * loss
  {
    assert (n as real - trips) * loss > 0.0;
  }

  /** The order, or after a return its twin, is still the last of the book. */
  predicate Alive(p: Params, b: Book, o: Order, rest: seq<Order>, now: Book, n: nat) {
    && now.curSpacing == b.curSpacing && Solvent(now)
    && now.freeUsd == Drained(b.freeUsd, NetPair(p, o, b.curSpacing), n)
    && (n == 0 ==> now == b) && (n > 0 ==> now.freeUsd >= 0.0 && now.orders == rest + [o.(isCounter := true)])
  }

  lemma {:induction false} StillExposed(b: Book, o: Order, rest: seq<Order>, now: Book)
    requires Exposed(b, o, rest) && now.curSpacing == b.curSpacing && now.orders == rest + [o.(isCounter := true)]
    ensures Exposed(now, o.(isCounter := true), rest)
  {
    var twin := o.(isCounter := true);
    SelectAgain(b.orders, o.price, o.price);
    SelectSnoc(rest, twin, o.price, o.price, true);
    SelectSnoc(rest, twin, o.price, o.price, false);
    hide Select;
    assert [] + [twin] == [twin] && rest + [] == rest;
  }

  lemma {:induction false} TwinNet(p: Params, o: Order, spacing: real)
    ensures NetPair(p, o.(isCounter := true), spacing) == NetPair(p, o, spacing)
  {
  }

  lemma {:induction false} ZigzagSnoc(p: Params, b: Book, cell: real, spacing: real, n: nat)
    ensures Run(p, b, Zigzag(cell, spacing, n + 1)) ==
            Run(p, Run(p, b, Zigzag(cell, spacing, n)), [Bar(cell, cell), Bar(cell + spacing, cell + spacing)])
  {
    RunAppend(p, b, Zigzag(cell, spacing, n), [Bar(cell, cell), Bar(cell + spacing, cell + spacing)]);
  }

  /** A round from a book where the order is alive: alive again exactly when the cash allows it. */
  lemma {:induction false} NextRound(p: Params, b: Book, o: Order, rest: seq<Order>, n: nat)
    requires NonNegative(p) && Solvent(b) && Exposed(b, o, rest) && o.price > 0.0
    requires Alive(p, b, o, rest, Run(p, b, Zigzag(o.price, b.curSpacing, n)), n)
    ensures var next := Run(p, b, Zigzag(o.price, b.curSpacing, n + 1));
            if Drained(b.freeUsd, NetPair(p, o, b.curSpacing), n + 1) >= 0.0
            then Alive(p, b, o, rest, next, n + 1) else next.orders == rest
  {
    hide Solvent, NonNegative, Exposed, NetPair, Drained, Run, Zigzag;
    var now := Run(p, b, Zigzag(o.price, b.curSpacing, n));
    ZigzagSnoc(p, b, o.price, b.curSpacing, n);
    DrainedSnoc(b.freeUsd, NetPair(p, o, b.curSpacing), n);
    if n == 0 {
      ZigzagOnce(p, b, o, rest);
    } else {
      StillExposed(b, o, rest, now);
      TwinNet(p, o, b.curSpacing);
      ZigzagOnce(p, now, o.(isCounter := true), rest);
    }
  }

  /** As long as the drained cash has not gone below zero the order comes back each time. */
  lemma {:induction false} AliveWhileFunded(p: Params, b: Book, o: Order, rest: seq<Order>, n: nat)
    requires NonNegative(p) && Solvent(b) && Exposed(b, o, rest) && o.price > 0.0
    requires forall k :: 1 <= k <= n ==> Drained(b.freeUsd, NetPair(p, o, b.curSpacing), k) >= 0.0
    ensures Alive(p, b, o, rest, Run(p, b, Zigzag(o.price, b.curSpacing, n)), n)
  {
    hide Solvent, NonNegative, Exposed, NetPair, Drained;
    if n == 0 {
      DrainedSnoc(b.freeUsd, NetPair(p, o, b.curSpacing), 0);
    } else {
      AliveWhileFunded(p, b, o, rest, n - 1);
      NextRound(p, b, o, rest, n - 1);
    }
    hide Alive, Run, Zigzag;
  }

  /** The number of the first round that cannot be paid for. */
  lemma {:induction false} FirstUnpaid(cash: real, pair: real, n: nat) returns (m: nat)
    requires n >= 1 && Drained(cash, pair, n) < 0.0
    ensures 1 <= m <= n && Drained(cash, pair, m) < 0.0
    ensures forall k :: 1 <= k < m ==> Drained(cash, pair, k) >= 0.0
  {
    m := 1;
    while Drained(cash, pair, m) >= 0.0
      invariant 1 <= m <= n && forall k :: 1 <= k < m ==> Drained(cash, pair, k) >= 0.0
      decreases n - m
    {
      m := m + 1;
    }
  }

  /** The converse of the break-even rule. If the spread of a cell does not cover the fees of its two
      legs, the market can bleed it: after some number of dips into the cell and back, with every
      other order untouched, the counter-order is refused and the cell stands empty. */
  lemma {:induction false} UnviableIsBled(p: Params, b: Book, o: Order, rest: seq<Order>)
    requires NonNegative(p) && Solvent(b) && Exposed(b, o, rest) && o.price > 0.0
    requires !Viable(p, o, b.curSpacing)
    ensures exists n: nat :: Run(p, b, Zigzag(o.price, b.curSpacing, n)).orders == rest
    ensures |b.orders| == |rest| + 1
  {
    hide Solvent, NonNegative, Drained, Run, Zigzag, Select, NetPair;
    var pair := NetPair(p, o, b.curSpacing);
    PairsNeverLose(p, o, 0, b.curSpacing);
    var n := UsedUp(b.freeUsd, pair);
    var m := FirstUnpaid(b.freeUsd, pair, n);
    AliveWhileFunded(p, b, o, rest, m - 1);
    NextRound(p, b, o, rest, m - 1);
    assert Run(p, b, Zigzag(o.price, b.curSpacing, m)).orders == rest;
    BookValue.SelectSplits(b.orders, o.price, o.price);
  }

  lemma {:induction false} NeverDrained(cash: real, pair: real, n: nat)
    requires cash >= 0.0 && pair >= 0.0
    ensures Drained(cash, pair, n) >= 0.0
  {
    ScaleCost(pair, n as real);
  }

  /** And exactly then: from free cash that is not negative, the cell survives every number of dips
      if and only if its spread covers its fees. */
  lemma {:induction false} SurvivesExactly(p: Params, b: Book, o: Order, rest: seq<Order>)
    requires NonNegative(p) && Solvent(b) && Exposed(b, o, rest) && o.price > 0.0 && b.freeUsd >= 0.0
    ensures Viable(p, o, b.curSpacing) <==>
            forall n: nat :: |Run(p, b, Zigzag(o.price, b.curSpacing, n)).orders| == |b.orders|
  {
    hide Solvent, NonNegative, Drained, Run, Zigzag, Select, NetPair, Viable;
    BookValue.SelectSplits(b.orders, o.price, o.price);
    PairsNeverLose(p, o, 0, b.curSpacing);
    if Viable(p, o, b.curSpacing) {
      forall n: nat ensures |Run(p, b, Zigzag(o.price, b.curSpacing, n)).orders| == |b.orders| {
        forall k | 1 <= k <= n ensures Drained(b.freeUsd, NetPair(p, o, b.curSpacing), k) >= 0.0 {
          NeverDrained(b.freeUsd, NetPair(p, o, b.curSpacing), k);
        }
        AliveWhileFunded(p, b, o, rest, n);
      }
    } else {
      UnviableIsBled(p, b, o, rest);
      var n: nat :| Run(p, b, Zigzag(o.price, b.curSpacing, n)).orders == rest;
      assert |Run(p, b, Zigzag(o.price, b.curSpacing, n)).orders| != |b.orders|;
    }
  }
}
