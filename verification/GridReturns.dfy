/** What a whole grid returns between two lays, net of fees: a closed form over its rungs. */
module GridReturns {
  import opened GridGeometry
  import opened OrderBook
  import opened BookSafety
  import opened GridHarvest
  import BookValue
  import Sequences

  // --- one cell, net of fees ---

  /** What a completed pair leaves: the spread less the fees of both legs. */
  function NetPair(p: Params, o: Order, spacing: real): real {
    Spread(o, spacing) - MakerCost(p, o) - MakerCost(p, Counter(o, spacing))
  }

  function Net(fs: seq<BookValue.Fill>, q: real): real { BookValue.Gains(fs, q) - BookValue.Fees(fs) }

  function NetOf(f: BookValue.Fill, q: real): real { f.Gain(q) - f.fee }

  /** The open leg at mark price `q`, its fee paid. */
  function OpenNet(p: Params, o: Order, n: nat, spacing: real, q: real): real {
    if n % 2 == 1 then NetOf(BookValue.FillOf(p, Turn(o, n - 1, spacing)), q) else 0.0
  }

  /** The return of a cell after `n` fills. */
  function CellNet(p: Params, o: Order, n: nat, spacing: real, q: real): real {
    Harvest(n / 2, NetPair(p, o, spacing)) + OpenNet(p, o, n, spacing, q)
  }

  lemma {:induction false} NetSnoc(fs: seq<BookValue.Fill>, f: BookValue.Fill, q: real)
    ensures Net(fs + [f], q) == Net(fs, q) + NetOf(f, q)
  {
    BookValue.FillSumsSnoc(fs, f, q);
  }

  lemma {:induction false} NetNone(q: real)
    ensures Net([], q) == 0.0
  {
  }

  lemma {:induction false} PairNet(p: Params, o: Order, spacing: real, q: real)
    ensures NetOf(BookValue.FillOf(p, o), q) + NetOf(BookValue.FillOf(p, Counter(o, spacing)), q) ==
            NetPair(p, o, spacing)
  {
    PairGain(p, o, spacing, q);
    hide Counter, MakerCost, Spread;
  }

  lemma {:induction false} CounterNet(p: Params, o: Order, spacing: real)
    ensures NetPair(p, Counter(o, spacing), spacing) == NetPair(p, o, spacing)
  {
    CounterKeepsSlot(o, spacing);
    assert Notional(Counter(Counter(o, spacing), spacing)) == Notional(o);
  }

  lemma {:induction false} TurnNet(p: Params, o: Order, n: nat, spacing: real)
    ensures NetPair(p, Turn(o, n, spacing), spacing) == NetPair(p, o, spacing)
  {
    hide NetPair, Counter;
    if n > 0 {
      TurnNet(p, o, n - 1, spacing);
      CounterNet(p, Turn(o, n - 1, spacing), spacing);
    }
  }

  /** Net of fees, every completed pair leaves the same amount; an open leg is marked to market. */
  lemma {:induction false} TurnsNet(p: Params, o: Order, n: nat, spacing: real, q: real)
    ensures Net(Turns(p, o, n, spacing), q) == CellNet(p, o, n, spacing, q)
  {
    hide Turns, Turn, Harvest, Counter, NetPair, Net, NetOf, BookValue.FillOf;
    if n == 0 {
      TurnsNone(p, o, spacing);
      NetNone(q);
      HarvestNone(NetPair(p, o, spacing));
    } else {
      TurnsNet(p, o, n - 1, spacing, q);
      TurnsSnoc(p, o, n - 1, spacing);
      NetSnoc(Turns(p, o, n - 1, spacing), BookValue.FillOf(p, Turn(o, n - 1, spacing)), q);
      if n % 2 == 0 {
        TurnsSnoc(p, o, n - 2, spacing);
        PairNet(p, Turn(o, n - 2, spacing), spacing, q);
        TurnNet(p, o, n - 2, spacing);
        HarvestSnoc(n / 2 - 1, NetPair(p, o, spacing));
      }
    }
  }

  // --- all cells together ---

  function CellOf(o: Order, spacing: real): real { Cell(o.side, o.price, spacing) }

  function HomeOf(f: BookValue.Fill, spacing: real): real { Cell(f.side, f.price, spacing) }

  predicate Home(os: seq<Order>, cell: real, spacing: real) {
    exists k :: 0 <= k < |os| && CellOf(os[k], spacing) == cell
  }

  function NetByCell(os: seq<Order>, fs: seq<BookValue.Fill>, spacing: real, q: real): real {
    if os == [] then 0.0
    else NetByCell(os[..|os| - 1], fs, spacing, q) + Net(FillsIn(fs, CellOf(os[|os| - 1], spacing), spacing), q)
  }

  lemma {:induction false} FillsInSnoc(fs: seq<BookValue.Fill>, f: BookValue.Fill, cell: real, spacing: real)
    ensures FillsIn(fs + [f], cell, spacing) ==
            FillsIn(fs, cell, spacing) + (if HomeOf(f, spacing) == cell then [f] else [])
  {
    assert (fs + [f])[..|fs|] == fs;
  }

  /** A fill counts in exactly one cell, when there is one for it. */
  lemma {:induction false} CountsOnce(
    os: seq<Order>, fs: seq<BookValue.Fill>, f: BookValue.Fill, spacing: real, q: real)
    requires DistinctCells(os, spacing)
    ensures NetByCell(os, fs + [f], spacing, q) ==
            NetByCell(os, fs, spacing, q) + (if Home(os, HomeOf(f, spacing), spacing) then NetOf(f, q) else 0.0)
  {
    hide FillsIn, Cell, Net, NetOf, HomeOf;
    if os != [] {
      var n := |os| - 1;
      var cell, mine := CellOf(os[n], spacing), FillsIn(fs, CellOf(os[n], spacing), spacing);
      CountsOnce(os[..n], fs, f, spacing, q);
      FillsInSnoc(fs, f, cell, spacing);
      NetSnoc(mine, f, q);
      HomeSnoc(os, HomeOf(f, spacing), spacing);
      assert mine + [] == mine;
      hide Home, DistinctCells;
    }
  }

  lemma {:induction false} HomeSnoc(os: seq<Order>, cell: real, spacing: real)
    requires os != [] && DistinctCells(os, spacing)
    ensures var n := |os| - 1;
            && (Home(os, cell, spacing) <==> Home(os[..n], cell, spacing) || CellOf(os[n], spacing) == cell)
            && !(Home(os[..n], cell, spacing) && CellOf(os[n], spacing) == cell)
  {
    hide Cell;
    var n := |os| - 1;
    if k :| 0 <= k < |os| && CellOf(os[k], spacing) == cell {
      if k < n { assert os[..n][k] == os[k]; }
    }
    if k :| 0 <= k < n && CellOf(os[..n][k], spacing) == cell {
      assert os[k] == os[..n][k];
    }
  }

  lemma {:induction false} NothingByCell(os: seq<Order>, spacing: real, q: real)
    ensures NetByCell(os, [], spacing, q) == 0.0
  {
    if os != [] {
      NothingByCell(os[..|os| - 1], spacing, q);
      NoFills(CellOf(os[|os| - 1], spacing), spacing);
      NetNone(q);
    }
  }

  predicate AllHome(os: seq<Order>, fs: seq<BookValue.Fill>, spacing: real) {
    forall i :: 0 <= i < |fs| ==> Home(os, HomeOf(fs[i], spacing), spacing)
  }

  lemma {:induction false} NetSplits(os: seq<Order>, fs: seq<BookValue.Fill>, spacing: real, q: real)
    requires DistinctCells(os, spacing) && AllHome(os, fs, spacing)
    ensures Net(fs, q) == NetByCell(os, fs, spacing, q)
  {
    hide NetByCell, Net, NetOf, Home, DistinctCells, HomeOf;
    if fs == [] {
      NetNone(q);
      NothingByCell(os, spacing, q);
    } else {
      var n := |fs| - 1;
      assert forall i :: 0 <= i < n ==> fs[..n][i] == fs[i];
      NetSplits(os, fs[..n], spacing, q);
      CountsOnce(os, fs[..n], fs[n], spacing, q);
      NetSnoc(fs[..n], fs[n], q);
      assert fs == fs[..n] + [fs[n]];
    }
  }

  lemma {:induction false} InFillsIn(fs: seq<BookValue.Fill>, i: nat, spacing: real)
    requires i < |fs|
    ensures FillsIn(fs, HomeOf(fs[i], spacing), spacing) != []
  {
    hide Cell;
    if i < |fs| - 1 { InFillsIn(fs[..|fs| - 1], i, spacing); }
  }

  /** Between two lays every fill happens in the cell of an order laid at the start. */
  lemma {:induction false} FillsAtHome(p: Params, b: Book, script: seq<Action>)
    requires Undisturbed(p, b, script) && DistinctCells(b.orders, b.curSpacing)
    ensures AllHome(b.orders, BookValue.FillsOfRun(p, b, script), b.curSpacing)
  {
    hide Undisturbed, DistinctCells, Run, Cell, FillsIn, OrdersIn, Turns, Turn, BookValue.FillsOfRun;
    var fs, spacing := BookValue.FillsOfRun(p, b, script), b.curSpacing;
    forall i | 0 <= i < |fs| ensures Home(b.orders, HomeOf(fs[i], spacing), spacing) {
      var cell := HomeOf(fs[i], spacing);
      FewInCell(b.orders, cell, spacing);
      CellHistory(p, b, script, cell);
      InFillsIn(fs, i, spacing);
      InItsCell(b.orders, cell, spacing);
      var o := OrdersIn(b.orders, cell, spacing)[0];
      var k :| 0 <= k < |b.orders| && b.orders[k] == o;
      assert CellOf(b.orders[k], spacing) == cell;
    }
  }

  /** The return of a grid laid as `os`, each rung with as many fills as its cell had. */
  function GridNet(p: Params, os: seq<Order>, fs: seq<BookValue.Fill>, spacing: real, q: real): real {
    if os == [] then 0.0
    else
      var o := os[|os| - 1];
      GridNet(p, os[..|os| - 1], fs, spacing, q)
      + CellNet(p, o, |FillsIn(fs, CellOf(o, spacing), spacing)|, spacing, q)
  }

  /** Every rung's fills are the turns of its order. */
  predicate AllTurns(p: Params, os: seq<Order>, fs: seq<BookValue.Fill>, spacing: real) {
    forall k :: 0 <= k < |os| ==>
      var mine := FillsIn(fs, CellOf(os[k], spacing), spacing); mine == Turns(p, os[k], |mine|, spacing)
  }

  lemma {:induction false} TurnsSum(p: Params, os: seq<Order>, fs: seq<BookValue.Fill>, spacing: real, q: real)
    requires AllTurns(p, os, fs, spacing)
    ensures NetByCell(os, fs, spacing, q) == GridNet(p, os, fs, spacing, q)
  {
    hide FillsIn, Turns, Net, CellNet, CellOf;
    if os != [] {
      var n := |os| - 1;
      assert forall k :: 0 <= k < n ==> os[..n][k] == os[k];
      TurnsSum(p, os[..n], fs, spacing, q);
      TurnsNet(p, os[n], |FillsIn(fs, CellOf(os[n], spacing), spacing)|, spacing, q);
    }
  }

  lemma {:induction false} RungTurns(p: Params, b: Book, script: seq<Action>, k: nat)
    requires Undisturbed(p, b, script) && DistinctCells(b.orders, b.curSpacing) && k < |b.orders|
    ensures var mine := FillsIn(BookValue.FillsOfRun(p, b, script), CellOf(b.orders[k], b.curSpacing), b.curSpacing);
            mine == Turns(p, b.orders[k], |mine|, b.curSpacing)
  {
    hide Undisturbed, DistinctCells, Run, Cell, FillsIn, OrdersIn, Turns, Turn, BookValue.FillsOfRun;
    var o, cell := b.orders[k], CellOf(b.orders[k], b.curSpacing);
    FewInCell(b.orders, cell, b.curSpacing);
    InCell(b.orders, k, cell, b.curSpacing);
    assert OrdersIn(b.orders, cell, b.curSpacing) == [o];
    CellHistory(p, b, script, cell);
  }

  /** The whole grid, exactly. Between two lays, whatever the bars and at every mark price, the gains
      of all the fills less all the fees are the sum over the rungs of completed pairs at the spread
      less two fees, and of open legs; and the portfolio value changes by just that. */
  lemma {:induction false} GridEarns(p: Params, b: Book, script: seq<Action>, q: real)
    requires Undisturbed(p, b, script) && DistinctCells(b.orders, b.curSpacing)
    ensures var fs := BookValue.FillsOfRun(p, b, script);
            && Net(fs, q) == GridNet(p, b.orders, fs, b.curSpacing, q)
            && PortfolioValue(Run(p, b, script), q) == PortfolioValue(b, q) + GridNet(p, b.orders, fs, b.curSpacing, q)
  {
    hide Undisturbed, DistinctCells, Run, FillsIn, Turns, GridNet, NetByCell, PortfolioValue, BookValue.FillsOfRun,
      BookValue.Gains, BookValue.Fees, CellOf, AllHome;
    var fs := BookValue.FillsOfRun(p, b, script);
    FillsAtHome(p, b, script);
    NetSplits(b.orders, fs, b.curSpacing, q);
    forall k | 0 <= k < |b.orders|
      ensures var mine := FillsIn(fs, CellOf(b.orders[k], b.curSpacing), b.curSpacing);
              mine == Turns(p, b.orders[k], |mine|, b.curSpacing)
    {
      RungTurns(p, b, script, k);
    }
    TurnsSum(p, b.orders, fs, b.curSpacing, q);
    ValueChange(p, b, script, q);
  }

  lemma {:induction false} ValueChange(p: Params, b: Book, script: seq<Action>, q: real)
    ensures PortfolioValue(Run(p, b, script), q) == PortfolioValue(b, q) + Net(BookValue.FillsOfRun(p, b, script), q)
  {
    hide Run, BookValue.FillsOfRun, BookValue.Gains, BookValue.Fees, TotalUsd, TotalBtc;
    BookValue.RunReconciles(p, b, script, q);
  }

  /** The open legs of the grid at mark price `q`, their fees paid. */
  function OpenLegs(p: Params, os: seq<Order>, fs: seq<BookValue.Fill>, spacing: real, q: real): real {
    if os == [] then 0.0
    else
      var o := os[|os| - 1];
      OpenLegs(p, os[..|os| - 1], fs, spacing, q)
      + OpenNet(p, o, |FillsIn(fs, CellOf(o, spacing), spacing)|, spacing, q)
  }

  /** A viable grid loses nothing but its open legs. */
  lemma {:induction false} ViableGridEarns(p: Params, os: seq<Order>, fs: seq<BookValue.Fill>, spacing: real, q: real)
    requires AllViable(p, os, spacing)
    ensures GridNet(p, os, fs, spacing, q) >= OpenLegs(p, os, fs, spacing, q)
  {
    hide FillsIn, CellOf, OpenNet, Harvest, Viable;
    if os != [] {
      var n := |os| - 1;
      assert forall k :: 0 <= k < n ==> os[..n][k] == os[k];
      ViableGridEarns(p, os[..n], fs, spacing, q);
      PairsNeverLose(p, os[n], |FillsIn(fs, CellOf(os[n], spacing), spacing)| / 2, spacing);
    }
  }

  /** An order is viable exactly when its completed pairs lose nothing. */
  lemma {:induction false} PairsNeverLose(p: Params, o: Order, pairs: nat, spacing: real)
    ensures Viable(p, o, spacing) <==> NetPair(p, o, spacing) >= 0.0
    ensures Viable(p, o, spacing) ==> Harvest(pairs, NetPair(p, o, spacing)) >= 0.0
  {
    hide MakerCost, Spread, Counter;
    if NetPair(p, o, spacing) >= 0.0 { ScaleCost(NetPair(p, o, spacing), pairs as real); }
  }
}
