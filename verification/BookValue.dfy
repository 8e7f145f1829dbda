/** Conservation: what a run of the grid simulator earns is exactly what its fills earned,
    less fees, for every mark price. */
module BookValue {
  import opened GridGeometry
  import opened OrderBook
  import Sequences

  /** One execution: an order filled by a bar, or the market sell of a cash-out. */
  datatype Fill = Fill(side: Side, price: real, amount: real, fee: real) {
    function UsdFlow(): real { if side == Buy then -(price * amount) else price * amount }
    function BtcFlow(): real { if side == Buy then amount else -amount }
    /** Profit at mark price `q`, before the fee. */
    function Gain(q: real): real { BtcFlow() * (q - price) }
  }

  function FillsOfOrders(p: Params, os: seq<Order>): seq<Fill> {
    if os == [] then [] else FillsOfOrders(p, os[..|os| - 1]) + [FillOf(p, os[|os| - 1])]
  }

  /** What an action executes: a bar fills the orders that were open before it and that it
      touches; a cash-out sells the whole inventory. */
  function FillsOfAction(p: Params, b: Book, a: Action): seq<Fill> {
    match a
    case Bar(high, low) => FillsOfOrders(p, Select(b.orders, high, low, true))
    case Cash(price) =>
      if TotalBtc(b) > 0.0
      then [Fill(Sell, price, TotalBtc(b), TotalBtc(b) * price * DeriskRate(p))] else []
    case _ => []
  }

  function FillsOfRun(p: Params, b: Book, script: seq<Action>): seq<Fill> {
    if script == [] then [] else
      var n := |script| - 1;
      FillsOfRun(p, b, script[..n]) + FillsOfAction(p, Run(p, b, script[..n]), script[n])
  }

  function Gains(fs: seq<Fill>, q: real): real {
    if fs == [] then 0.0 else Gains(fs[..|fs| - 1], q) + fs[|fs| - 1].Gain(q)
  }

  function Fees(fs: seq<Fill>): real {
    if fs == [] then 0.0 else Fees(fs[..|fs| - 1]) + fs[|fs| - 1].fee
  }

  function NetUsd(fs: seq<Fill>): real {
    if fs == [] then 0.0 else NetUsd(fs[..|fs| - 1]) + fs[|fs| - 1].UsdFlow()
  }

  function NetBtc(fs: seq<Fill>): real {
    if fs == [] then 0.0 else NetBtc(fs[..|fs| - 1]) + fs[|fs| - 1].BtcFlow()
  }

  function CountSide(fs: seq<Fill>, side: Side): nat {
    if fs == [] then 0 else CountSide(fs[..|fs| - 1], side) + (if fs[|fs| - 1].side == side then 1 else 0)
  }

  // --- sums over concatenations ---

  lemma {:induction false} ReservedAppend(xs: seq<Order>, ys: seq<Order>)
    ensures ReservedUsd(xs + ys) == ReservedUsd(xs) + ReservedUsd(ys)
    ensures ReservedBtc(xs + ys) == ReservedBtc(xs) + ReservedBtc(ys)
  {
    if ys == [] {
      assert xs + ys == xs;
    } else {
      var n := |ys| - 1;
      ReservedAppend(xs, ys[..n]);
      Sequences.AppendSplit(xs, ys);
    }
  }

  lemma {:induction false} ReservedSnoc(xs: seq<Order>, o: Order)
    ensures ReservedUsd(xs + [o]) == ReservedUsd(xs) + UsdHeld(o)
    ensures ReservedBtc(xs + [o]) == ReservedBtc(xs) + BtcHeld(o)
  {
    assert (xs + [o])[..|xs|] == xs;
  }

  lemma {:induction false} SelectSplitsReserves(os: seq<Order>, high: real, low: real)
    ensures ReservedUsd(os) ==
            ReservedUsd(Select(os, high, low, true)) + ReservedUsd(Select(os, high, low, false))
    ensures ReservedBtc(os) ==
            ReservedBtc(Select(os, high, low, true)) + ReservedBtc(Select(os, high, low, false))
  {
    if os != [] {
      var n := |os| - 1;
      SelectSplitsReserves(os[..n], high, low);
      if Touched(os[n], high, low) {
        ReservedSnoc(Select(os[..n], high, low, true), os[n]);
      } else {
        ReservedSnoc(Select(os[..n], high, low, false), os[n]);
      }
    }
  }

  /** Every order of the book is either touched or not, and keeps its multiplicity. */
  lemma {:induction false} SelectSplits(os: seq<Order>, high: real, low: real)
    ensures multiset(os) == multiset(Select(os, high, low, true)) + multiset(Select(os, high, low, false))
    ensures |os| == |Select(os, high, low, true)| + |Select(os, high, low, false)|
  {
    if os != [] {
      var n := |os| - 1;
      SelectSplits(os[..n], high, low);
      assert os == os[..n] + [os[n]];
    }
  }

  lemma {:induction false} SelectMembers(os: seq<Order>, high: real, low: real, hit: bool)
    ensures forall o :: o in Select(os, high, low, hit) <==> o in os && Touched(o, high, low) == hit
  {
    if os != [] {
      var n := |os| - 1;
      SelectMembers(os[..n], high, low, hit);
      assert os == os[..n] + [os[n]];
    }
  }

  lemma {:induction false} FillSumsAppend(xs: seq<Fill>, ys: seq<Fill>, q: real)
    ensures Gains(xs + ys, q) == Gains(xs, q) + Gains(ys, q)
    ensures Fees(xs + ys) == Fees(xs) + Fees(ys)
    ensures NetUsd(xs + ys) == NetUsd(xs) + NetUsd(ys) && NetBtc(xs + ys) == NetBtc(xs) + NetBtc(ys)
    ensures CountSide(xs + ys, Buy) == CountSide(xs, Buy) + CountSide(ys, Buy)
    ensures CountSide(xs + ys, Sell) == CountSide(xs, Sell) + CountSide(ys, Sell)
  {
    if ys == [] {
      assert xs + ys == xs;
    } else {
      var n := |ys| - 1;
      FillSumsAppend(xs, ys[..n], q);
      Sequences.AppendSplit(xs, ys);
    }
  }

  // --- actions that execute nothing ---

  /** Reserving funds moves money, it does not change how much there is. */
  lemma {:induction false} PlaceKeepsTotals(b: Book, o: Order)
    ensures TotalUsd(Place(b, o)) == TotalUsd(b) && TotalBtc(Place(b, o)) == TotalBtc(b)
    ensures Place(b, o).(freeUsd := b.freeUsd, freeBtc := b.freeBtc, orders := b.orders) == b
  {
    ReservedSnoc(b.orders, o);
  }

  lemma {:induction false} LayingKeepsTotals(p: Params, b: Book, levels: seq<GridLevel>)
    ensures var l := PlaceLevels(p, b, levels);
            && TotalUsd(l) == TotalUsd(b) && TotalBtc(l) == TotalBtc(b)
            && l.feesPaid == b.feesPaid && l.buyFills == b.buyFills && l.sellFills == b.sellFills
  {
    if levels != [] {
      var n := |levels| - 1;
      LayingKeepsTotals(p, b, levels[..n]);
      PlaceKeepsTotals(PlaceLevels(p, b, levels[..n]), LayoutOrder(p, levels[n]));
    }
  }

  /** Cancelling, laying, re-anchoring and changing the spacing leave the portfolio value
      unchanged at every price, and charge no fee. */
  lemma {:induction false} QuietActionsKeepValue(p: Params, b: Book, a: Action, q: real)
    requires !a.Bar? && !a.Cash?
    ensures PortfolioValue(Step(p, b, a), q) == PortfolioValue(b, q)
    ensures Step(p, b, a).feesPaid == b.feesPaid
    ensures Step(p, b, a).buyFills == b.buyFills && Step(p, b, a).sellFills == b.sellFills
  {
    hide LayGrid, MaybeReanchor, CancelAll, TotalUsd, TotalBtc;
    CancelKeepsTotals(b);
    match a {
      case Lay(anchor) => LayKeepsTotals(p, b, anchor);
      case Reanchor(price) => ReanchorKeepsTotals(p, b, price);
      case Spacing(pct) => SpacingApart(b, pct);
      case Cancel =>
    }
  }

  lemma {:induction false} CancelKeepsTotals(b: Book)
    ensures var c := CancelAll(b);
            && TotalUsd(c) == TotalUsd(b) && TotalBtc(c) == TotalBtc(b)
            && c.feesPaid == b.feesPaid && c.buyFills == b.buyFills && c.sellFills == b.sellFills
  {
  }

  lemma {:induction false} ReanchorKeepsTotals(p: Params, b: Book, price: real)
    ensures var r := MaybeReanchor(p, b, price);
            && TotalUsd(r) == TotalUsd(b) && TotalBtc(r) == TotalBtc(b)
            && r.feesPaid == b.feesPaid && r.buyFills == b.buyFills && r.sellFills == b.sellFills
  {
    hide LayGrid, NeedsReanchor, CancelAll, ReservedUsd, ReservedBtc;
    CancelKeepsTotals(b);
    LayKeepsTotals(p, CancelAll(b), price);
  }

  lemma {:induction false} SpacingApart(b: Book, pct: real)
    ensures var c := b.(spacingPct := pct); TotalUsd(c) == TotalUsd(b) && TotalBtc(c) == TotalBtc(b)
  {
  }

  lemma {:induction false} LayKeepsTotals(p: Params, b: Book, anchor: real)
    ensures var l := LayGrid(p, b, anchor);
            && TotalUsd(l) == TotalUsd(b) && TotalBtc(l) == TotalBtc(b)
            && l.feesPaid == b.feesPaid && l.buyFills == b.buyFills && l.sellFills == b.sellFills
  {
    LayingKeepsTotals(p, Cached(p, b, anchor), Levels(p, b.spacingPct, anchor));
  }

  // --- actions that execute ---

  lemma {:induction false} FillSumsSnoc(xs: seq<Fill>, f: Fill, q: real)
    ensures Gains(xs + [f], q) == Gains(xs, q) + f.Gain(q)
    ensures Fees(xs + [f]) == Fees(xs) + f.fee
    ensures NetUsd(xs + [f]) == NetUsd(xs) + f.UsdFlow() && NetBtc(xs + [f]) == NetBtc(xs) + f.BtcFlow()
    ensures CountSide(xs + [f], Buy) == CountSide(xs, Buy) + (if f.side == Buy then 1 else 0)
    ensures CountSide(xs + [f], Sell) == CountSide(xs, Sell) + (if f.side == Sell then 1 else 0)
  {
    assert (xs + [f])[..|xs|] == xs;
  }

  lemma {:induction false} GainIsNetFlow(fs: seq<Fill>, q: real)
    ensures Gains(fs, q) == NetUsd(fs) + NetBtc(fs) * q
  {
    if fs != [] {
      var n := |fs| - 1;
      GainIsNetFlow(fs[..n], q);
      var f, rest := fs[n], NetBtc(fs[..n]);
      assert f.Gain(q) == f.UsdFlow() + f.BtcFlow() * q;
      assert (rest + f.BtcFlow()) * q == rest * q + f.BtcFlow() * q;
    }
  }

  function FillOf(p: Params, o: Order): Fill { Fill(o.side, o.price, o.amount, MakerCost(p, o)) }

  lemma {:induction false} CreditAccounts(p: Params, b: Book, o: Order)
    ensures var b' := Credit(p, b, o);
            var f := FillOf(p, o);
            && TotalUsd(b') == TotalUsd(b) + UsdHeld(o) + f.UsdFlow() - f.fee
            && TotalBtc(b') == TotalBtc(b) + BtcHeld(o) + f.BtcFlow()
  {
  }

  lemma {:induction false} FillAccounts(p: Params, b: Book, o: Order)
    ensures var b' := OrderBook.Fill(p, b, o);
            var f := FillOf(p, o);
            && TotalUsd(b') == TotalUsd(b) + UsdHeld(o) + f.UsdFlow() - f.fee
            && TotalBtc(b') == TotalBtc(b) + BtcHeld(o) + f.BtcFlow()
            && b'.feesPaid == b.feesPaid + f.fee
            && b'.buyFills == b.buyFills + (if o.side == Buy then 1 else 0)
            && b'.sellFills == b.sellFills + (if o.side == Sell then 1 else 0)
  {
    hide TotalUsd, TotalBtc, Accepts;
    CreditAccounts(p, b, o);
    PlaceKeepsTotals(Credit(p, b, o), Counter(o, b.curSpacing));
  }

  /** Settling `os` turns their reservations into holdings at the limit price, less the fee. */
  lemma {:induction false} SettleAccounts(p: Params, b: Book, os: seq<Order>)
    ensures var s := Settle(p, b, os);
            var fs := FillsOfOrders(p, os);
            && TotalUsd(s) == b.freeUsd + ReservedUsd(os) + NetUsd(fs) - Fees(fs)
            && TotalBtc(s) == b.freeBtc + ReservedBtc(os) + NetBtc(fs)
            && s.feesPaid == b.feesPaid + Fees(fs)
            && s.buyFills == b.buyFills + CountSide(fs, Buy)
            && s.sellFills == b.sellFills + CountSide(fs, Sell)
  {
    if os != [] {
      var n := |os| - 1;
      SettleAccounts(p, b, os[..n]);
      FillSumsSnoc(FillsOfOrders(p, os[..n]), FillOf(p, os[n]), 0.0);
      FillAccounts(p, Settle(p, b, os[..n]), os[n]);
    }
  }

  lemma {:induction false} BarAccounts(p: Params, b: Book, high: real, low: real)
    ensures var fs := FillsOfAction(p, b, Bar(high, low));
            var b' := ProcessBar(p, b, high, low);
            && TotalUsd(b') == TotalUsd(b) + NetUsd(fs) - Fees(fs)
            && TotalBtc(b') == TotalBtc(b) + NetBtc(fs)
            && b'.feesPaid == b.feesPaid + Fees(fs)
            && b'.buyFills == b.buyFills + CountSide(fs, Buy)
            && b'.sellFills == b.sellFills + CountSide(fs, Sell)
  {
    var hit, missed := Select(b.orders, high, low, true), Select(b.orders, high, low, false);
    SettleAccounts(p, b, hit);
    SelectSplitsReserves(b.orders, high, low);
    ReservedAppend(missed, Settle(p, b, hit).orders);
  }

  lemma {:induction false} CashAccounts(p: Params, b: Book, price: real)
    ensures var fs := FillsOfAction(p, b, Cash(price));
            var b' := DeriskToCash(p, b, price);
            && TotalUsd(b') == TotalUsd(b) + NetUsd(fs) - Fees(fs)
            && TotalBtc(b') == TotalBtc(b) + NetBtc(fs)
            && b'.feesPaid == b.feesPaid + Fees(fs)
            && b'.buyFills == b.buyFills + CountSide(fs, Buy)
            && b'.sellFills == b.sellFills + CountSide(fs, Sell)
  {
    var held := TotalBtc(b);
    if held > 0.0 {
      var f := Fill(Sell, price, held, held * price * DeriskRate(p));
      FillSumsSnoc([], f, 0.0);
      assert [] + [f] == [f];
    }
  }

  lemma {:induction false} RunAccounts(p: Params, b: Book, script: seq<Action>)
    ensures var fs := FillsOfRun(p, b, script);
            var b' := Run(p, b, script);
            && TotalUsd(b') == TotalUsd(b) + NetUsd(fs) - Fees(fs)
            && TotalBtc(b') == TotalBtc(b) + NetBtc(fs)
            && b'.feesPaid == b.feesPaid + Fees(fs)
            && b'.buyFills == b.buyFills + CountSide(fs, Buy)
            && b'.sellFills == b.sellFills + CountSide(fs, Sell)
  {
    if script != [] {
      var n := |script| - 1;
      RunAccounts(p, b, script[..n]);
      var before, a := Run(p, b, script[..n]), script[n];
      FillSumsAppend(FillsOfRun(p, b, script[..n]), FillsOfAction(p, before, a), 0.0);
      match a {
        case Bar(high, low) => BarAccounts(p, before, high, low);
        case Cash(price) => CashAccounts(p, before, price);
        case Lay(anchor) => LayKeepsTotals(p, before, anchor);
        case Reanchor(price) => LayKeepsTotals(p, CancelAll(before), price);
        case _ =>
      }
    }
  }

  lemma {:induction false} MarkToMarket(
    usd: real, btc: real, usdIn: real, btcIn: real, fees: real, q: real, gains: real)
    requires gains == usdIn + btcIn * q
    ensures (usd + usdIn - fees) + (btc + btcIn) * q == usd + btc * q + gains - fees
  {
  }

  /** The whole-run decomposition. Over any script of operations, from any portfolio, at any
      mark price: end value = start value + what the fills gained - fees; the fee counter and
      the fill counters are exactly the sums over those fills. */
  lemma {:induction false} RunReconciles(p: Params, b: Book, script: seq<Action>, q: real)
    ensures var fs := FillsOfRun(p, b, script);
            var b' := Run(p, b, script);
            && PortfolioValue(b', q) ==
               TotalUsd(b) + TotalBtc(b) * q + Gains(fs, q) - (b'.feesPaid - b.feesPaid)
            && b'.feesPaid == b.feesPaid + Fees(fs)
            && b'.buyFills == b.buyFills + CountSide(fs, Buy)
            && b'.sellFills == b.sellFills + CountSide(fs, Sell)
  {
    hide TotalUsd, TotalBtc, Run, FillsOfRun, Gains, Fees, NetUsd, NetBtc;
    var fs := FillsOfRun(p, b, script);
    RunAccounts(p, b, script);
    GainIsNetFlow(fs, q);
    MarkToMarket(TotalUsd(b), TotalBtc(b), NetUsd(fs), NetBtc(fs), Fees(fs), q, Gains(fs, q));
  }

  /** The same, between two mark prices: holding gain plus trading gain less fees. */
  lemma {:induction false} ProfitDecomposition(p: Params, b: Book, script: seq<Action>, open: real, close: real)
    ensures PortfolioValue(Run(p, b, script), close) - PortfolioValue(b, open) ==
            TotalBtc(b) * (close - open) + Gains(FillsOfRun(p, b, script), close)
            - (Run(p, b, script).feesPaid - b.feesPaid)
  {
    RunReconciles(p, b, script, close);
    var usd, held := TotalUsd(b), TotalBtc(b);
    hide Run, FillsOfRun, Gains, TotalUsd, TotalBtc;
    assert held * (close - open) == held * close - held * open;
  }
}
