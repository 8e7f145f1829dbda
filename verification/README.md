# Wobblebot verification

A model of the decision and accounting core of Wobblebot, in Dafny, with proofs of what it
promises. `dafny verify dfyconfig.toml` checks all of it.

## What is modelled

**The grid ledger.** `OrderBook.dfy` gives each operation of the grid simulator as a function on a
portfolio value (balances, open orders, fees, cached grid geometry), and whole histories as scripts
of operations. `GridSim.dfy` is the simulator as the mutable object it is: a class whose methods
reserve funds, walk a snapshot of the book, remove orders by equality, place counters and re-anchor
in place. Each method is proved to be its function. `BarExecution.dfy` says in market prices which
orders a bar executes, what that costs, and when a grid moves. `BookValue.dfy` proves conservation (where
every unit of profit comes from), `BookSafety.dfy` proves solvency, the bound on the book, and the
ladder on which every order stays. `GridHarvest.dfy` follows one cell of the grid through all the
bars between two lays and says when no counter-order is ever refused, `GridReturns.dfy` gives the
return of the whole grid in closed form, and `GridAttrition.dfy` shows how a cell that does not pay
for its fees is lost; `StaticHarvest.dfy` and `WindowHarvest.dfy` apply that to static runs and to
the windows of a regime run. `GridGeometry.dfy` holds the rung arithmetic, `Feasibility.dfy` when a
script of operations raises.

**Runs.** `RunSim.dfy` is a static run over a tape with its downtrend guardrail, `Guardrails.dfy` the
guardrail's rule and the run's report in terms of the tape. `Regimes.dfy`,
`Hysteresis.dfy` and `RSquared.dfy` give the classifiers, the confirmation machine, the policies and
the greedy oracle as values; `RegimeSims.dfy` has the three windowed simulators as loops over one
mutable portfolio, with the oracle trying the menu on clones; `RegimeTheorems.dfy` proves no
look-ahead, the equivalence of the simulators, the whipsaw bound, the oracle's floor, and carries
the ledger theorems over to windowed runs. `RegimeReads.dfy` says in prices what a read looks at and
decides, `RegimeReports.dfy` reconciles the reports, and `LeastSquares.dfy` says what R-squared is.

**The exchange client.** `NonceProtocol.dfy` is a transition system of tasks, adapters, per-key
locks and counters, the network and a server that wants strictly increasing nonces. An event is one
step of one task, a delivery in any order, or an abandoned call whose request may still arrive; the
clock may show anything. `KrakenClient.dfy` has the shared dictionaries, the nonce draw and the
retry loop as code, and quantization with the order checks. `Pagination.dfy` has the paged walks
against any server with a fixed history that is free in how it cuts pages.

**Kernels.** `KendallTau.dfy` (tau-b and the calibration axis), `HeuristicAdvisor.dfy` (the curve
and the guard chain), `ProviderWatch.dfy`, `WatchTheorems.dfy` and `WatchLedger.dfy` (the transition
ledger of the provider watch, its tables updated in place), `IsoTime.dfy` (timestamps as strings), `Vectors.dfy`, `Sequences.dfy`,
`Numbers.dfy` and `Wrappers.dfy`.

Every lemma carries `{:induction false}`: each induction is written out in its proof, and no proof
rests on an induction hypothesis the verifier supplies by itself.

## Where code and documentation differ

The model follows the code.

- `get_ledger_entries` is documented as paginated exactly like `get_trade_history`
  (src/wobblebot/adapters/kraken_exchange.py:537). It counts raw rows against the limit and filters
  afterwards; `Pagination.LedgerExact` says exactly when its answer is the promised one, and
  `Pagination.LedgerMissesOlderEntries` gives a history on which it is not.
- A constant confidence is documented to score 0.0 (tools/probe_freejudge.py:1177-1178); the code
  returns `None` for it, and that is what is proved.
- The drift-only read of the detection sweep is the read of the switch backtest only for a positive
  chop threshold; `Regimes.ClassifiersAgree` is the exact condition.
- The trend read is commented to sample at most 200 points (tools/regime_detection_sweep.py:108); it
  may take up to 399, and `RegimeReads.SampleSize` says exactly when it keeps to 200.
- The windowed simulators never start a window at the last bar, so it may be left unplayed although
  the result is marked at its close; `RegimeReads.LastBarLeftOut` says exactly when.
- The anchor of a grid is not a rung, so the two middle cells of a ladder meet at a price where no
  initial order stands: orders alternate inside cells, one spacing wide, which `BookSafety` makes
  precise.
- The nonce comments promise acceptance outright. A server that is ahead of this process's clock
  when the process starts refuses its requests until the counter has passed it;
  `NonceProtocol.LiveRequestsAccepted` states exactly when a live request is accepted,
  `NonceProtocol.DrawDecides` the same from what is known at the draw, and
  `NonceProtocol.RefusalReached` is a run that ends in a refusal.

## Model

| member | source | states |
|---|---|---|
| `GridGeometry.LadderShape` | src/wobblebot/domain/grid.py:111-140 | for positive inputs: BUYs at least one spacing below the anchor, SELLs at least one above, prices strictly ascending, and any two rungs `i < j` exactly `j - i` spacings apart, one more when the anchor lies between them |
| `GridGeometry.LevelCell` | src/wobblebot/domain/grid.py:111-140 | the exact rung count and side split, and that rung `i` owns cell number `i - below`: the two sides tile the band with no gap or overlap, for every sign of the inputs |
| `OrderBook.CanLayExactly` | tools/grid_backtest.py:167-182 | laying a grid does not raise if and only if the anchor is non-zero, there is at least one rung, and no rung is a full 100 percent of the anchor away from it |
| `GridSim.RemoveFirst` | tools/grid_backtest.py:196 | `list.remove`: the first equal element goes, everything else keeps its place and its multiplicity |
| `GridSim.Sim.constructor` | tools/grid_backtest.py:103-127 | a fresh portfolio has exactly the given balances, no orders and zero counters |
| `GridSim.Sim.Clone` | tools/regime_switch_backtest.py:138 | a deep copy has equal state and is a separate object |
| `GridSim.Sim.Place` | tools/grid_backtest.py:131-144 | the whole new state and the returned flag: funds are reserved and the order appended exactly when the free balance covers it, otherwise nothing changes |
| `GridSim.Sim.CancelAll` | tools/grid_backtest.py:146-152 | the loop refunds exactly the reservations of the book and empties it |
| `GridSim.Sim.DeriskToCash` | tools/grid_backtest.py:154-165 | the whole state after cancelling and selling all inventory at taker fee plus slippage; nothing is sold when there is nothing to sell |
| `GridSim.Sim.LayGrid` | tools/grid_backtest.py:167-182 | the whole state after re-caching spacing and edges and offering every rung to `_place` in ladder order |
| `GridSim.Sim.Execute` | tools/grid_backtest.py:197-209 | one fill: balances, fee and counters, then the counter-order, which is refused when it cannot be funded |
| `GridSim.Sim.ProcessBar` | tools/grid_backtest.py:186-209 | walking a snapshot and removing by equality, in place, is the simultaneous bar: the untouched orders keep their order, the touched ones are each filled once in book order, the accepted counters queue up behind and none of them fills in the same bar; removal never fails even with equal orders |
| `GridSim.Sim.MaybeReanchor` | tools/grid_backtest.py:211-223 | the whole state: unchanged inside the band or within the margin, else cancelled and re-laid at the price |
| `GridSim.Sim.PortfolioValue` | tools/grid_backtest.py:225-232 | the two summing loops compute free plus reserved cash and inventory, marked at the price |
| `BarExecution.BarFillsExactly` | tools/grid_backtest.py:186-209 | a bar executes exactly the orders open before it at whose limit, or better, some price of its range is, each once and in book order; all others stay, in order, ahead of the counters |
| `BarExecution.OrderFillsExactly` | tools/grid_backtest.py:189-196 | order by order: an open order is executed, as often as it stands in the book, if and only if some price between low and high is at its limit or better (BUY at most, SELL at least); otherwise it is still in the book after the bar |
| `BarExecution.WiderBarFillsMore` | tools/grid_backtest.py:189-193 | a bar with a wider range executes at least the same orders |
| `BarExecution.FeesByRate` | tools/grid_backtest.py:154-200 | every execution of a bar costs the maker fee plus the slippage in basis points on its value; the one sale of a cash-out, of the whole inventory at the given price, the taker fee plus its own slippage |
| `BarExecution.RungsWorthOrderSize` | tools/grid_backtest.py:180-182 | every rung laid is worth the order size at its own price |
| `BarExecution.RungsByPercent` | src/wobblebot/domain/grid.py:111-140 | rung k above or below the anchor is k times the spacing percentage of the anchor away from it, BUYs below and SELLs above |
| `BarExecution.EdgesExactly` | tools/grid_backtest.py:177-179 | the cached edges are the lowest and the highest rung |
| `BarExecution.ReanchorsExactly` | tools/grid_backtest.py:211-223 | the re-anchor counter moves if and only if orders are open and the price is below the low edge, or above the high edge, by the margin in spacings or more; then the grid stands around that price with the portfolio's spacing percentage, and otherwise nothing changes |
| `BarExecution.GridTakesBuys` | tools/grid_backtest.py:131-182 | a grid takes as many BUY rungs as the free cash pays for at the order size each and no more, the farthest first, whatever the SELLs do |
| `BookValue.SelectSplits` | tools/grid_backtest.py:189-196 | as a multiset the book before a bar is its touched plus its untouched orders |
| `BookValue.SelectMembers` | tools/grid_backtest.py:190-195 | an order is settled (kept) by a bar if and only if it was in the book before the bar and the bar touches (misses) it |
| `BookValue.QuietActionsKeepValue` | tools/grid_backtest.py:146-182 | cancelling, laying, re-anchoring and re-spacing change the portfolio value at no price, charge no fee and count no fill |
| `BookValue.SettleAccounts` | tools/grid_backtest.py:194-209 | settling any list of orders turns their reservations into signed flows at their limit prices less the fees, whatever counters are accepted or refused |
| `BookValue.BarAccounts` | tools/grid_backtest.py:186-209 | one bar's change of total cash, total inventory, fees and fill counters, from its fills alone |
| `BookValue.CashAccounts` | tools/grid_backtest.py:154-165 | one cash-out is one SELL fill of the whole inventory at the given price with its fee |
| `BookValue.RunAccounts` | tools/grid_backtest.py:131-232 | over every script of operations: cash, inventory, fees and counters are the start plus the sums over the fills |
| `BookValue.RunReconciles` | tools/grid_backtest.py:131-232 | for every start, every script and every mark price q: end value = start cash + start inventory at q + sum over fills (cash-outs included) of signed amount times (q - fill price) - fees paid; `fees_paid`, `buy_fills`, `sell_fills` are exactly the sums over those fills |
| `BookValue.ProfitDecomposition` | tools/grid_backtest.py:225-232 | between two mark prices the profit is the holding gain of the starting inventory plus the gain of the fills less fees |
| `BookSafety.FillSolvent` | tools/grid_backtest.py:197-209 | a fill keeps the ledger solvent; a BUY fill's SELL counter is always accepted; a SELL fill's BUY counter is accepted if and only if free cash plus spacing times amount covers the fee |
| `BookSafety.BarSolvent` | tools/grid_backtest.py:186-209 | a bar with a positive low keeps the ledger solvent and never grows the book |
| `BookSafety.RunSolvent` | tools/grid_backtest.py:131-223 | in every run with non-negative parameters and positive prices: free inventory is never negative, free cash plus fees paid is never negative, and every open order stays backed |
| `BookSafety.BuyFillsAlwaysCountered` | tools/grid_backtest.py:201-209 | in a solvent ledger the SELLs a bar adds are exactly the counters of its BUY fills, all of them and in fill order; the BUYs it adds are counters of distinct SELL fills |
| `BookSafety.BarCounters` | tools/grid_backtest.py:186-209 | after a bar the SELLs of the book are those it missed followed by the counter of every BUY it filled, in fill order; the BUYs are those it missed and counters of SELL fills |
| `BookSafety.RunSize` | tools/grid_backtest.py:167-223 | the book never holds more orders than `levels_above + levels_below`, in any run that lays grids on an empty book |
| `BookSafety.CounterKeepsSlot` | src/wobblebot/domain/grid.py:165-174 | an order and its counter share cell and amount, take opposite sides, and the counter's counter is back at the original price |
| `BookSafety.BarKeepsSlots` | tools/grid_backtest.py:186-209 | a bar neither creates nor duplicates a (cell, amount) slot: as a multiset the occupied slots can only shrink, and spacing and edges stay |
| `BookSafety.LayFrame` | tools/grid_backtest.py:167-182 | laying a grid caches its geometry, moves balances into reservations and adds orders, and changes nothing else |
| `BookSafety.RunOnLadder` | tools/grid_backtest.py:167-223 | the ladder invariant holds in every state of every such run: the cached geometry is that of one laid grid and each of its slots is occupied at most once |
| `BookSafety.OrdersOnRungs` | tools/grid_backtest.py:167-216 | on the ladder every open order trades the amount laid for a rung in that rung's cell, at a price a whole number of spacings from the anchor and no further out than the grid (a rung's price or the anchor), inside the cached edges when both sides have a rung |
| `BookSafety.OrdersInDistinctCells` | tools/grid_backtest.py:196 | on the ladder no two open orders share a cell, hence no two are equal and removal by equality is never ambiguous |
| `BookSafety.SeedFillsTheLadder` | tools/grid_backtest.py:273-301 | the two-fold seed makes every initial reservation succeed for every anchor, spacing and pair of level counts: the first book is the complete layout, and the price of the whole BUY side is still left in cash |
| `GridHarvest.BarInCell` | tools/grid_backtest.py:186-209 | in a cell with at most one order a bar either does nothing, or fills that order once and leaves its counter or, if that is refused, nothing |
| `GridHarvest.CellHistory` | tools/grid_backtest.py:186-223 | over any stretch of bars between two lays the fills of a cell are exactly the order laid there, its counter, the counter's counter and so on, in turn, and an occupied cell holds the next turn |
| `GridHarvest.CellEarns` | tools/grid_backtest.py:92-100 | between two lays, in every cell: sides alternate with one amount, one spacing apart; BUY and SELL fills differ by at most one; every completed pair earns spacing times amount before fees at every mark price, with at most one open leg |
| `GridHarvest.LadderCells` | tools/grid_backtest.py:167-182 | a grid on its ladder holds at most one order per cell |
| `GridHarvest.ViableExactly` | tools/grid_backtest.py:197-209 | the spread of a cell covers the fees of both its legs if and only if the fee rate on the sum of its two prices does not exceed the spacing, whatever the amount |
| `GridHarvest.SettleFunded` | tools/grid_backtest.py:194-209 | when free cash covers the fees of the open BUYs and every spread covers its two fees, settling places every counter |
| `GridHarvest.BarFunded` | tools/grid_backtest.py:186-209 | under the same conditions a bar keeps the size and all the slots of the book, and the conditions |
| `GridHarvest.NoCounterLost` | tools/grid_backtest.py:186-223 | so over any stretch between two lays no counter is ever refused, the book keeps its size and slots, and free cash never goes below zero |
| `GridHarvest.CellNeverStops` | tools/grid_backtest.py:186-223 | and every occupied cell keeps taking turns: whatever the bars, it holds the next one |
| `GridReturns.TurnsNet` | tools/grid_backtest.py:197-209 | net of fees, every completed pair of a cell leaves the spread less the fees of its two legs, with at most one open leg |
| `GridReturns.FillsAtHome` | tools/grid_backtest.py:186-223 | between two lays every fill happens in the cell of an order laid at the start |
| `GridReturns.GridEarns` | tools/grid_backtest.py:92-100 | the whole grid, exactly: between two lays, at every mark price, gains less fees of all fills are the sum over the rungs of completed pairs at the spread less two fees and of open legs, and the portfolio value changes by just that |
| `GridReturns.PairsNeverLose` | tools/grid_backtest.py:197-209 | the spread of a cell covers its two fees if and only if its completed pairs lose nothing |
| `GridReturns.ViableGridEarns` | tools/grid_backtest.py:92-100 | a grid whose spreads cover their fees loses nothing but its open legs |
| `GridAttrition.ZigzagOnce` | tools/grid_backtest.py:186-209 | one dip to an open BUY and back that touches no other order: the cash changes by the net return of the pair, and the BUY comes back if and only if that leaves no debt |
| `GridAttrition.UnviableIsBled` | tools/grid_backtest.py:131-140 | a cell whose spread does not cover its two fees: after some number of such dips its counter-order is refused and the cell stands empty, from any solvent book |
| `GridAttrition.SurvivesExactly` | tools/grid_backtest.py:131-140 | from free cash that is not negative, a cell survives every number of such dips if and only if its spread covers its fees |
| `StaticHarvest.AfterIsTicks` | tools/regime_switch_backtest.py:124-128 | an undefended static run is its first lay followed by the same bar-and-re-anchor steps a window of the regime runs takes |
| `StaticHarvest.CountedUndisturbed` | tools/grid_backtest.py:211-223 | as long as the re-anchor counter stands still, every re-anchor check was idle and the grid is the one laid |
| `StaticHarvest.LaidFunded` | tools/grid_backtest.py:297-301 | the seeded and laid portfolio is solvent and its free cash covers the fees of all its BUYs, for a fee rate up to one |
| `StaticHarvest.StaticStaysFull` | tools/grid_backtest.py:297-321 | until its first re-anchor an undefended static run whose spreads cover its fees holds exactly one order per rung slot after every bar, with free cash never below zero |
| `StaticHarvest.StaticValue` | tools/grid_backtest.py:297-326 | until the first re-anchor the value of an undefended static run in closed form, at every mark price: the seed's value plus, per rung, completed pairs at the spread less two fees and the open leg |
| `StaticHarvest.FreshGridBled` | tools/grid_backtest.py:297-321 | a fresh seeded grid whose highest BUY cell does not pay for its fees can be made to lose a rung |
| `StaticHarvest.StaticRungs` | tools/grid_backtest.py:297-321 | in that run the fills in a rung's cell are the turns of the order laid on the rung, and the cell holds the next turn |
| `RunSim.CheckGuardrail` | tools/grid_backtest.py:305-316 | the guardrail's effect on the portfolio and its flag, branch by branch |
| `RunSim.AfterStep` | tools/grid_backtest.py:304-321 | one more bar of the run script is guardrail, bar and re-anchor, or a stood-down bar that does nothing else |
| `RunSim.Simulate` | tools/grid_backtest.py:256-334 | whenever no grid the run lays raises, the loop returns the value, counters, fees, balances and stand-down share of the run's script of operations |
| `Guardrails.GuardExactly` | tools/grid_backtest.py:305-316 | in prices: the run stands down at a bar exactly when it is trading, the trend is checked there and close < (1 - down fraction) * close one window earlier, and resumes exactly when it is standing down, the trend is checked and close > close one window earlier |
| `Guardrails.DefensiveExactly` | tools/grid_backtest.py:304-319 | the flag as a rule over the tape: it is up if and only if some check found a fall and no later one a rise |
| `Guardrails.UntriggeredIsUndefended` | tools/grid_backtest.py:305-321 | a tape on which no check finds a fall is run exactly as without a guardrail, bar after bar |
| `Guardrails.RisingTapeUndefended` | tools/grid_backtest.py:305-321 | in particular one whose closes are never below those a window earlier: never defensive, and the portfolio of the undefended run at the end |
| `Guardrails.GuardrailEffect` | tools/grid_backtest.py:305-316 | standing down empties the book; a pause keeps the value at every price and all inventory; cashing out leaves no inventory and costs the taker fee and slippage on it; resuming lays a grid around the close and costs nothing |
| `Guardrails.StandDownCount` | tools/grid_backtest.py:317-319 | the stand-down counter is the number of bars after which the flag is up |
| `Guardrails.MoveCount` | tools/grid_backtest.py:211-223 | the re-anchor counter of a run is the number of bars that move the grid, neither the first lay nor a resumed one among them |
| `Guardrails.SeedWorth` | tools/grid_backtest.py:297-298 | the seed is twice the order size per BUY level in cash and per SELL level in inventory, with all counters at zero |
| `Guardrails.ReportReconciles` | tools/grid_backtest.py:322-334 | the reported figures reconcile: start value from the parameters, profit from the fills, prices and fees, fees and fill counts from the fills, re-anchors and stand-down share from the tape |
| `Feasibility.RunsAppend` | tools/grid_backtest.py:167-223 | a script of operations goes through if and only if its parts do, each from where the earlier one left the portfolio |
| `Feasibility.AnchorableRuns` | tools/grid_backtest.py:167-223 | a script all of whose prices can anchor a grid raises nowhere, whatever the book looks like on the way |
| `RunSim.GoesAt` | tools/grid_backtest.py:304-321 | a run that goes through can lay a grid at every bar where it resumes or re-anchors |
| `RunSim.TapeGoes` | tools/grid_backtest.py:301-321 | a condition checkable before the run: if the first open and every close can anchor the grid, the run does not raise |
| `RunSim.DefensiveMeansEmpty` | tools/grid_backtest.py:302-319 | while the flag is up the book is empty, and in cash mode there is no inventory |
| `RunSim.ScriptProper` | tools/grid_backtest.py:301-321 | every static run on positive prices lays grids only on an empty book: resuming and re-anchoring never stack two grids |
| `RunSim.EveryBarSafe` | tools/grid_backtest.py:297-321 | after every bar of every static run: inventory non-negative, cash short by at most the fees paid, book within its bound and on its ladder |
| `RunSim.StaticRunProfit` | tools/grid_backtest.py:300-334 | the reported profit is the seeded inventory's holding gain plus the fills' gain at the last close less the fees |
| `RunSim.StandDownFreezes` | tools/grid_backtest.py:317-319 | through any stretch of stood-down bars the whole portfolio is unchanged |
| `RunSim.CashIgnoresPrice` | tools/grid_backtest.py:309-319 | in cash mode a stood-down portfolio is worth the same at every price |
| `Hysteresis.MachineCommitsLastRun` | tools/regime_detection_sweep.py:141-150 | the confirmation machine commits exactly the value of the last run of at least `confirm_n` equal raw reads, for reads of any kind and any `confirm_n` |
| `Hysteresis.FlipsExactlyOnConfirmedRuns` | tools/regime_detection_sweep.py:141-150 | the committed regime changes at a window if and only if the last `confirm_n` raw reads agree with each other and not with it |
| `Hysteresis.FlipsAreRationed` | tools/regime_detection_sweep.py:141-150 | `confirm_n` times the number of flips, plus the reads pending, is at most the number of windows |
| `Hysteresis.SwitchesAreRationed` | tools/regime_detection_sweep.py:141-155 | whatever the regimes are mapped to, the picks change at most once per `confirm_n` windows |
| `Hysteresis.NoConfirmationNoDelay` | tools/regime_detection_sweep.py:118-122 | with `confirm_n` at most 1 the latest read is committed at once |
| `RSquared.ResidualSum` | tools/regime_detection_sweep.py:91-97 | the residual sum of squares is exactly syy - sxy^2 / sxx |
| `RSquared.RSquaredExact` | tools/regime_detection_sweep.py:82-98 | for three points or more and a non-constant series the result equals sxy^2 / (sxx * syy), lies in [0, 1], and the clamp at zero never acts |
| `RSquared.RSquaredInvariant` | tools/regime_detection_sweep.py:82-98 | shifting a series, or scaling it by any non-zero factor, does not change its R-squared |
| `RSquared.PerfectFit` | tools/regime_detection_sweep.py:82-98 | R-squared is 1 if and only if the series is not constant and lies on a straight line |
| `LeastSquares.RSquaredIsLeastSquares` | tools/regime_detection_sweep.py:82-98 | R-squared is one minus the least squared error of any line over that of any constant, with every best line and best constant; zero for a constant series and for fewer than three points |
| `LeastSquares.FitReaches` | tools/regime_detection_sweep.py:96-97 | the regression line the code computes reaches that least error |
| `Vectors.CauchySchwarz` | tools/regime_detection_sweep.py:91-93 | sxy^2 <= sxx * syy for all sums of products |
| `Vectors.Projection` | tools/regime_detection_sweep.py:96-97 | removing the least-squares projection leaves exactly |a|^2 - (a.b)^2 / |b|^2 |
| `Regimes.ClassifiersAgree` | tools/regime_switch_backtest.py:114-121 | the switch backtest's read and the drift-only read of the sweep agree on every history if and only if the chop threshold is positive |
| `Regimes.WindowStart` | tools/regime_switch_backtest.py:168 | which windows the range over bars produces |
| `RegimeReads.WindowsTile` | tools/regime_switch_backtest.py:168-169 | the windows tile the tape from its first bar, in order, without gap or overlap |
| `RegimeReads.LastBarLeftOut` | tools/regime_switch_backtest.py:168-171 | every bar is played, except that the last one is left out exactly when the bars before it fill whole windows |
| `RegimeReads.TrailingExactly` | tools/regime_switch_backtest.py:177 | a read looks at exactly min(trail, start) closes: element j is the close of bar start - length + j |
| `RegimeReads.ReadForgetsThePast` | tools/regime_switch_backtest.py:177-178 | two windows, of one tape or of two, wherever they stand, that come after the same trailing bars get the same read, plain and raw, whatever came earlier |
| `RegimeReads.ClassifyExactly` | tools/regime_switch_backtest.py:114-121 | the read in prices: chop without two closes or a positive first one; else chop unless the last close is away from the first by at least the threshold's share of it, and then up if and only if it is higher |
| `RegimeReads.StrategyByPrice` | tools/regime_switch_backtest.py:177-179 | what the realistic policy plays in each window by the closes before it: hold after a rise, cash after a fall, the tight grid otherwise |
| `RegimeReads.StrideExactly` | tools/regime_detection_sweep.py:110 | the sample is every step-th close from the first |
| `RegimeReads.DetectExactly` | tools/regime_detection_sweep.py:101-112 | the sweep's read in prices, trend gate included, for the sample it takes |
| `RegimeReads.SampleSize` | tools/regime_detection_sweep.py:108-110 | the sample has 200 points or fewer if and only if there are at most 200 closes or a multiple of 200, and always fewer than 400 |
| `RegimeReads.PatientStart` | tools/regime_detection_sweep.py:128-151 | before `confirm_n` windows have been read every sweep plays the strategy for chop |
| `RegimeReads.ConfirmedIsPlayed` | tools/regime_detection_sweep.py:141-151 | and once the last `confirm_n` windows were read alike it plays the strategy for that read |
| `RegimeReads.OracleTakesFirstBest` | tools/regime_switch_backtest.py:131-145 | the oracle takes the first best of tight, wide, flat and cash: none ends the window higher, and every earlier one ends it lower |
| `Regimes.EmptyBookInert` | tools/regime_switch_backtest.py:124-128 | an empty book is inert over any window |
| `Regimes.FlatHolds` | tools/regime_switch_backtest.py:103-107 | holding flat over a window ends at exactly the value, at the last close, of what was held before |
| `Regimes.CashLocksIn` | tools/regime_switch_backtest.py:103-105 | cashing out ends at exactly the liquidation value at the window's first price |
| `Regimes.OracleNeverWorse` | tools/regime_switch_backtest.py:131-145 | the oracle's window ends at least as high as holding the inventory, cashing it out, and either grid |
| `RegimeTheorems.ReadIgnoresTheFuture` | tools/regime_switch_backtest.py:177-178 | a read for a window depends on nothing from that window on, although an empty history falls back on the current price |
| `RegimeTheorems.RealisticNoLookAhead` | tools/regime_switch_backtest.py:168-192 | two tapes that agree on the first k windows get the same regimes and strategies up to and including window k |
| `RegimeTheorems.SweepNoLookAhead` | tools/regime_detection_sweep.py:134-151 | the same for the raw reads and the committed strategies of the sweeps, for every detector and policy map |
| `RegimeTheorems.PortfolioIgnoresTheFuture` | tools/regime_switch_backtest.py:187-191 | from the second window on, the portfolio entering a window is the same on two tapes that agree before it (the seed of the first is priced at the first open) |
| `RegimeTheorems.SweepIsRealistic` | tools/regime_detection_sweep.py:115-159 | with no confirmation, drift alone and a positive threshold the raw reads and the plan of the detection sweep are those of the realistic policy |
| `RegimeTheorems.NonPositiveThresholdDiffers` | tools/regime_detection_sweep.py:101-106 | with a threshold of zero or less the two differ from the first window on |
| `RegimeTheorems.SweepSwitchBound` | tools/regime_policy_sweep.py:96-111 | strategy switches times `confirm_n` never exceed the number of windows, for every policy map |
| `RegimeTheorems.PlayedIsRun` | tools/regime_switch_backtest.py:168-191 | a windowed run is one script of ledger operations, so every ledger theorem applies to it |
| `RegimeTheorems.PlanProper` | tools/regime_switch_backtest.py:97-111 | every strategy change cancels before it lays, so no windowed run stacks two grids |
| `RegimeTheorems.EveryWindowSafe` | tools/regime_switch_backtest.py:168-191 | whatever is played, after every window the portfolio is solvent, within its size bound and on its ladder |
| `RegimeTheorems.PlanProfit` | tools/regime_switch_backtest.py:192-195 | the profit of a windowed run from its fills and fees, at every mark price |
| `RegimeTheorems.OracleRunFloor` | tools/regime_switch_backtest.py:173-191 | at the end of every window of an oracle run the carried-forward portfolio is worth at least the four alternatives from the portfolio it entered with |
| `WindowHarvest.WindowTakesTurns` | tools/regime_switch_backtest.py:97-128 | in a tight or wide window of any plan without a re-anchor, the fills of every cell are exactly the order laid there, its counter and so on, and an occupied cell holds the next turn |
| `WindowHarvest.WindowEarns` | tools/regime_switch_backtest.py:97-128 | such a window changes the portfolio value, at every mark price, by completed pairs at the spread less two fees and by open legs, and by nothing else |
| `WindowHarvest.WindowStaysFull` | tools/regime_switch_backtest.py:97-128 | such a window that starts funded, with spreads that cover their fees, loses no counter and never takes cash below zero |
| `WindowHarvest.LaidSpacing` | tools/regime_switch_backtest.py:103-110 | what a window starts with: the tight or the wide spacing in percent of its first price, around that price, or an empty book for flat and cash |
| `RegimeSims.ApplyStrategy` | tools/regime_switch_backtest.py:97-111 | the whole state after the switch and the fees it caused |
| `RegimeSims.RunWindow` | tools/regime_switch_backtest.py:124-128 | the loop is the window's script of bars and re-anchors |
| `RegimeSims.OraclePick` | tools/regime_switch_backtest.py:131-145 | the first best menu entry over the window, found on clones: the method modifies nothing, so the real portfolio is untouched |
| `RegimeSims.SimulatePolicy` | tools/regime_switch_backtest.py:148-201 | values, switches, switch fees, regime and strategy counts and agreement are those of the mode's plan; measuring agreement changes nothing else |
| `RegimeSims.Confirm` | tools/regime_detection_sweep.py:141-150 | the six-way branch of the confirmation step is one step of the machine |
| `RegimeSims.SimulateDetection` | tools/regime_detection_sweep.py:115-159 | return and switches are those of the plan 'policy of the last confirmed regime' |
| `RegimeSims.SimulatePolicyMap` | tools/regime_policy_sweep.py:70-115 | return, switches and strategy counts of the same plan with the map as a parameter |
| `RegimeSims.BacktestIsSweep` | tools/regime_detection_sweep.py:118-159 | the reports agree: without confirmation, on drift alone and with a positive threshold, the detection sweep reports the switches and the return of the realistic switch backtest on every tape |
| `RegimeSims.SweepsAgree` | tools/regime_policy_sweep.py:73-76 | the reports agree: the policy sweep and the detection sweep report the same return and switches for the same map, for every detector |
| `RegimeReports.ReturnExactly` | tools/regime_detection_sweep.py:157-159 | start + start * return / 100 = end, and a zero start value reports zero |
| `RegimeReports.ChangesExactly` | tools/regime_switch_backtest.py:188-190 | the switch counter is the number of windows that play something else than the one before |
| `RegimeReports.AgreementsExactly` | tools/regime_switch_backtest.py:182-185 | the agreement counter is the number of windows in which the plan plays the oracle's choice for the portfolio it has then |
| `RegimeReports.SwitchFeesExactly` | tools/regime_switch_backtest.py:97-111 | a strategy change costs the taker fee and slippage on the inventory at the window's first price when it cashes one out, and nothing otherwise |
| `RegimeReports.PolicyReconciles` | tools/regime_switch_backtest.py:192-201 | the switch backtest's report reconciles: start value from the parameters, profit from fills, prices and fees, switches, regime and strategy counts as multiplicities, agreement as a share of the windows |
| `RegimeReports.SweepReconciles` | tools/regime_detection_sweep.py:156-159 | a sweep's report reconciles: switches, and a return that takes the seed's value to what seed, fills and fees are worth at the last close |
| `RegimeSims.TapeGoes` | tools/regime_switch_backtest.py:97-128 | a condition checkable before the run: if every open and close can anchor both grids, no simulator raises, the oracle's clones included |
| `NonceProtocol.LiveRequestsAccepted` | src/wobblebot/adapters/kraken_exchange.py:113-160 | in every state reachable by any interleaving of tasks, adapters, network and server, with any clock and with abandoned requests still in the network: a request delivered while its sender holds the key's lock is accepted if and only if its nonce is above what the server had seen before this process started; it is the only live one of its key and above all others on their way |
| `NonceProtocol.DrawDecides` | src/wobblebot/adapters/kraken_exchange.py:1419-1426 | foreseen at the draw: the request drawn at clock reading `now` is accepted while live if and only if `now` is above what the server had seen at the start, or this process has already drawn at least that much for the key, whatever happens in between |
| `NonceProtocol.RefusalReached` | src/wobblebot/adapters/kraken_exchange.py:1419-1426 | a concrete run that ends with a live request refused: a clock that shows 5 against a server that has seen 100 |
| `NonceProtocol.AcceptedForGood` | src/wobblebot/adapters/kraken_exchange.py:1393-1426 | once a key's counter has passed what the server had seen at the start, every later live request on it is accepted, however far back the clock jumps |
| `NonceProtocol.CallsBounded` | src/wobblebot/adapters/kraken_exchange.py:1322-1354 | each retry of a call draws a strictly larger nonce, there are at most four attempts, and the backoff before attempt n + 1 adds up to 2^n - 1, at most seven |
| `NonceProtocol.RetriesExactly` | src/wobblebot/adapters/kraken_exchange.py:1340-1352 | in every reachable state: a call is tried again exactly after a rate-limited answer to one of its first three attempts, 1, 2 or 4 seconds later; any other answer ends it; the lock is free afterwards and no counter moves |
| `NonceProtocol.AcceptedOnce` | src/wobblebot/adapters/kraken_exchange.py:1393-1426 | once a request is accepted and recorded, no request on the key with its nonce or a smaller one is accepted in any state that follows |
| `NonceProtocol.DoInv` | src/wobblebot/adapters/kraken_exchange.py:1302-1317 | every event keeps the protocol invariant (exact locks, counter on top, newest request inside) and lowers no counter |
| `NonceProtocol.RunInv` | src/wobblebot/adapters/kraken_exchange.py:1302-1317 | the invariant and the counters' monotonicity over whole runs |
| `NonceProtocol.LockExcludes` | src/wobblebot/adapters/kraken_exchange.py:136-139 | two tasks inside the lock of one key are the same task |
| `NonceProtocol.DrawTops` | src/wobblebot/adapters/kraken_exchange.py:1419-1426 | a drawn nonce is above every number drawn, sent or seen since the start for its key |
| `KrakenClient.Registry.LockFor` | src/wobblebot/adapters/kraken_exchange.py:149-160 | get-or-create: one lock object per key for good, no other key's lock touched |
| `KrakenClient.Adapter.MakeNonce` | src/wobblebot/adapters/kraken_exchange.py:1419-1426 | the draw as code: the shared counter of this key and this adapter's copy move to the protocol's next nonce, nothing else moves |
| `KrakenClient.CallWithRateLimitRetry` | src/wobblebot/adapters/kraken_exchange.py:1322-1354 | the loop returns the first attempt that is not rate limited, or the fourth, with sleeps 1, 2, 4 |
| `KrakenClient.QuantizeBounds` | src/wobblebot/adapters/kraken_exchange.py:1481-1490 | for non-negative values q <= v < q + 10^-d, and q has d decimals |
| `KrakenClient.QuantizeLargest` | src/wobblebot/adapters/kraken_exchange.py:1481-1490 | q is the largest value with d decimals that does not exceed v |
| `KrakenClient.QuantizeIdempotent` | src/wobblebot/adapters/kraken_exchange.py:1481-1490 | quantizing twice changes nothing more |
| `KrakenClient.QuantizeMonotone` | src/wobblebot/adapters/kraken_exchange.py:1481-1490 | order is preserved |
| `KrakenClient.QuantizeOdd` | src/wobblebot/adapters/kraken_exchange.py:1481-1490 | negative values are cut toward zero as well |
| `KrakenClient.SubmittedOrder` | src/wobblebot/adapters/kraken_exchange.py:851-871 | a submitted order never costs more than intended, falls short by less than price * 10^-lot_decimals + volume * 10^-pair_decimals, meets `ordermin` and `costmin`, and has the pair's precision |
| `KrakenClient.PlacedExactly` | src/wobblebot/adapters/kraken_exchange.py:851-871 | an order is accepted if and only if its cut price and volume meet both minimums, equality included; equivalently, if and only if some order the exchange can express within the intended price and volume meets both; it fails on the volume exactly when no expressible volume reaches `ordermin`, and else on the cost, which is reported |
| `KrakenClient.PlacementStable` | src/wobblebot/adapters/kraken_exchange.py:851-871 | raising price or volume never turns an accepted order into a refused one, and a submitted order passes again unchanged |
| `Pagination.SortSorts` | src/wobblebot/adapters/kraken_exchange.py:767 | the ordering step returns a permutation in order of time, newest or oldest first as asked |
| `Pagination.SortOfSorted` | src/wobblebot/adapters/kraken_exchange.py:767 | a stable sort leaves rows that are already in order alone, ties included |
| `Pagination.FilterExactly` | src/wobblebot/adapters/kraken_exchange.py:748-751 | a filter keeps a row as often as it occurs if it carries the tag asked for, or none was, and drops it otherwise |
| `Pagination.TruncationExact` | src/wobblebot/adapters/kraken_exchange.py:741-768 | stopping after some rows gives 'filter, then take limit' of everything if and only if those rows hold enough matches or the rest holds none |
| `Pagination.FiftyPerPage` | src/wobblebot/adapters/kraken_exchange.py:725-735 | with full pages of fifty, k pages cover min(50 k, all) rows |
| `Pagination.GetTradeHistory` | src/wobblebot/adapters/kraken_exchange.py:737-768 | the walk stops at the first request that fills the limit or exhausts the history, or at 20; the answer is 'filter by symbol, take limit' of the pages fetched, and of the whole history if and only if those pages hold enough matches or the rest holds none, in particular whenever 20 pages suffice |
| `Pagination.GetLedgerEntries` | src/wobblebot/adapters/kraken_exchange.py:562-593 | the walk stops on raw rows, paces every page but the first, and filters by asset afterwards; the answer is right if and only if the rows seen hold enough entries or the rest holds none; without an asset it is 'take limit' of the history |
| `Pagination.LedgerExact` | src/wobblebot/adapters/kraken_exchange.py:566-593 | exactly when the ledger walk answers 'filter by asset, take limit' of the whole history, at the point where counting raw rows stops it |
| `Pagination.LedgerMissesOlderEntries` | src/wobblebot/adapters/kraken_exchange.py:566-593 | a concrete history on which the ledger walk returns nothing although a matching entry exists: it is not paginated like the trade walk, as its documentation says |
| `Pagination.FetchedExact` | src/wobblebot/adapters/kraken_exchange.py:821-827 | however the ids are cut into chunks, the rows fetched are the known rows among them, and without repeats each as often as asked for |
| `Pagination.GetOrderTrades` | src/wobblebot/adapters/kraken_exchange.py:817-831 | every id is asked for exactly once, in order, in ceil(n / 20) non-empty chunks of at most 20, and exactly the order's own known trades come back, oldest first; a response is a dictionary, so only an id repeated within one chunk loses its repeats |
| `KendallTau.KendallTauB` | tools/probe_freejudge.py:1204-1236 | the nested loop over index pairs, which tests the sign of a product, computes the pairwise definition of tau-b, `None` included |
| `KendallTau.TauInRange` | tools/probe_freejudge.py:1232-1236 | (concordant - discordant)^2 <= (n0 - tie_x)(n0 - tie_y), so |tau| <= 1 |
| `KendallTau.ExtremeExactly` | tools/probe_freejudge.py:1232-1236 | |tau| = 1 if and only if no pair is tied in one list only and all untied pairs point the same way |
| `KendallTau.UndefinedExactly` | tools/probe_freejudge.py:1212-1235 | `None` if and only if there are fewer than two points or one list is constant |
| `KendallTau.PlusOneExactly` | tools/probe_freejudge.py:1215-1236 | where it is defined the coefficient is +1 if and only if any two points stand to each other in the second list as in the first (below, level or above), and -1 if and only if the other way round |
| `KendallTau.SelfAssociation` | tools/probe_freejudge.py:1204-1236 | a list that is not constant has +1 with itself |
| `KendallTau.SymmetricAndOdd` | tools/probe_freejudge.py:1204-1236 | exchanging the lists changes nothing, negating one flips the sign |
| `KendallTau.CoefficientOrderFree` | tools/probe_freejudge.py:1215-1231 | permuting both lists together changes nothing |
| `KendallTau.CalibrationTau` | tools/probe_freejudge.py:1239-1250 | the coefficient of the usable (evidence, rank) points, unusable answers skipped |
| `KendallTau.UsableExactly` | tools/probe_freejudge.py:1243-1249 | the points are those of the answers with one of the three confidence words and a count of evidence, and no others |
| `KendallTau.PerfectCalibration` | tools/probe_freejudge.py:1178-1250 | where it is defined, a model scores +1 if and only if of any two usable answers the one with more evidence is the more confident, low before medium before high, and only it |
| `KendallTau.ConstantConfidenceUnscored` | tools/probe_freejudge.py:1204-1250 | a model that always reports one confidence gets no score, whatever the evidence |
| `HeuristicAdvisor.BracketExists` | src/wobblebot/adapters/heuristic_advisor.py:229-235 | between the ends the search always finds a bracket: the final return is unreachable |
| `HeuristicAdvisor.AnyBracket` | src/wobblebot/adapters/heuristic_advisor.py:229-233 | any bracket gives the same value, so the first-match loop does not depend on its order |
| `HeuristicAdvisor.StraightBetweenKnots` | src/wobblebot/adapters/heuristic_advisor.py:229-233 | between two neighbouring knots the curve is the straight line through them |
| `HeuristicAdvisor.HitsKnots` | src/wobblebot/adapters/heuristic_advisor.py:215-235 | the curve passes through every knot, floored |
| `HeuristicAdvisor.StaysInRange` | src/wobblebot/adapters/heuristic_advisor.py:215-235 | never below the fee floor, and within the range of the spacings floored at it |
| `HeuristicAdvisor.Monotone` | src/wobblebot/adapters/heuristic_advisor.py:215-235 | more volatility never asks for a tighter grid when the knots do not |
| `HeuristicAdvisor.VerdictShape` | src/wobblebot/adapters/heuristic_advisor.py:104-213 | a verdict never tightens; it names a target exactly when it widens, and then, before rounding, the target is above the current spacing, at least the widened spacing and at least the curve, hence the fee floor; it is clear exactly when a guard fired |
| `HeuristicAdvisor.WideningStable` | src/wobblebot/adapters/heuristic_advisor.py:144-161 | a deeper drawdown or a higher volatility takes a widening back if and only if no cycle was completed and the deeper drawdown reaches the enabled runaway threshold; otherwise it does not lower the target either |
| `HeuristicAdvisor.GuardsInOrder` | src/wobblebot/adapters/heuristic_advisor.py:113-213 | each guard fires at its threshold and beyond, and only where none before it does; a widening's target is the larger of the widened spacing and the curve |
| `HeuristicAdvisor.WorkingStable` | src/wobblebot/adapters/heuristic_advisor.py:163-182 | a grid held because it works is still held, for that reason, with a higher win rate, more cycles and a shallower drawdown |
| `HeuristicAdvisor.RunawayStable` | src/wobblebot/adapters/heuristic_advisor.py:128-142 | a runaway stays one when the price runs further |
| `HeuristicAdvisor.CalmStable` | src/wobblebot/adapters/heuristic_advisor.py:184-200 | a calm hold stays one in a calmer market on a tighter grid |
| `HeuristicAdvisor.VolatilityNeverDecides` | src/wobblebot/adapters/heuristic_advisor.py:104-213 | volatility alone never changes the direction of a verdict |
| `IsoTime.IsoOrderIsChronological` | tools/provider_watch.py:69-98 | for all valid UTC timestamps, with and without a fraction, comparing the `isoformat()` strings is comparing the instants, and equal strings are equal instants |
| `IsoTime.DateOrder` | tools/provider_watch.py:64-69 | calendar dates are ordered by year, month and day exactly as their day numbers, leap years included |
| `IsoTime.IsoReads` | tools/provider_watch.py:94 | the string of a timestamp reads back as its year, month, day, hour, minute and second, with a six-digit fraction exactly when there are microseconds and the offset at the end |
| `IsoTime.CalendarAnchored` | tools/provider_watch.py:64-69 | the calendar is the Gregorian one: its leap days, and 1970-01-01 as day 719163 |
| `ProviderWatch.AllDistinct` | tools/provider_watch.py:76-78 | the duplicate test is exact |
| `WatchLedger.Ledger.Ingest` | tools/provider_watch.py:72-140 | one batch on the two tables: accepted exactly for 1 to 1000 rows of distinct sources that all fit the old table; then each source holds its row, exactly the transitions the rows bring are added, the events are exactly those, each once, in row order, with the time and owner on record, and missing are the expected pairs no source covers; otherwise the error names its cause and nothing changes |
| `WatchLedger.IngestLaw` | tools/provider_watch.py:72-140 | the same about the batch as a value, for every pair of tables and every batch |
| `WatchLedger.FirstMisfit` | tools/provider_watch.py:90-98 | a refusal is that of the first row that does not fit the tables as they were before the batch |
| `WatchLedger.ReportedInRowOrder` | tools/provider_watch.py:113-124 | events stand in the order of the rows that caused them |
| `WatchLedger.MissingListed` | tools/provider_watch.py:125-139 | missing coverage spelled out: all providers have a contract, all but the exchange prices and models too, less what is stored |
| `WatchTheorems.ProcessClosed` | tools/provider_watch.py:90-131 | the row-by-row loop in closed form: a batch of distinct sources is accepted if and only if each row fits the store as it was before the batch |
| `WatchTheorems.BatchOrderFree` | tools/provider_watch.py:90-131 | the order of rows within a batch affects neither acceptance nor the resulting store, nor the events as a multiset |
| `WatchTheorems.EventsReal` | tools/provider_watch.py:99-124 | every reported event is a real change across its batch, from the digest held before to the one held after, and was not on record |
| `WatchTheorems.ChangesRecorded` | tools/provider_watch.py:99-131 | whenever a batch replaces a digest the transition is on record afterwards, and nothing on record is lost or altered |
| `WatchTheorems.TimestampsForward` | tools/provider_watch.py:94-98 | a batch never loses a source and never lowers its stored timestamp, as a string |
| `WatchTheorems.StampedKept` | tools/provider_watch.py:91-131 | every stored timestamp is the string of a valid instant: true of the empty ledger and kept by every batch |
| `WatchTheorems.InstantsForward` | tools/provider_watch.py:90-131 | over any sequence of accepted and rejected batches a source stays stored, and its instant after all of them is no earlier than after the first i |
| `WatchTheorems.ReplayIsNoOp` | tools/provider_watch.py:90-131 | sending an accepted batch again is accepted, changes nothing and reports nothing |
| `WatchTheorems.ReportedAtMostOnce` | tools/provider_watch.py:105-124 | over any sequence of accepted and rejected batches each transition is reported at most once and is on record |
| `WatchTheorems.CoverageGrows` | tools/provider_watch.py:129-139 | missing coverage only shrinks |

## Left out

- Decimal and float rounding: amounts, prices, fees and statistics are reals.
- Square root of tau-b: a coefficient is its numerator and the square of its denominator.
- `GridSim.Sim.LayGrid`: requires a layout that does not raise (`OrderBook.CanLay`, characterised by `OrderBook.CanLayExactly`); what a half-laid grid looks like after the exception is not modelled.
- Runs that raise: `RunSim.Goes`, `RegimeSims.PolicyGoes` and `RegimeSims.SweepGoes` say exactly that none of the grids laid raises; what an aborted run leaves behind is not modelled.
- A guardrail with a negative window or a zero cadence.
- `RunSim.EveryBarSafe`, `RegimeTheorems.EveryWindowSafe`: positive prices, non-negative fees, sizes and level counts; scripts with negative ones are covered by `BookValue.RunReconciles` only.
- `top_sell` counter mode, `is_offside` and grid slots of the production engine: the simulator does not use them.
- Reading CSV tapes, rolling windows, hold benchmarks, static-best comparison, derived report figures and printing.
- Several processes sharing one API key: the code names this as unsolved; the model is one process.
- `NonceProtocol.LiveRequestsAccepted`: a request that is delivered after its sender gave up is not promised acceptance; nor is fairness, so a task may wait for a lock for ever.
- `KrakenClient.CallWithRateLimitRetry`: what each attempt meets is a parameter; the text matching of error messages is not modelled.
- HTTP, signing, envelope parsing, credential and permission classification, dry-run placement.
- `Pagination.GetTradeHistory`, `Pagination.GetLedgerEntries`: the history does not change during a walk, a reported count is the true one, pages are not empty while history remains, and the limit is not negative; malformed rows and counts are left out.
- `Pagination.GetOrderTrades`: a response holds exactly the ids asked for that the exchange knows, in the order asked; the order has an exchange id and the id list is already cleaned of entries that are not non-empty strings.
- `WatchLedger.Ledger.Ingest`: the missing coverage is a set of pairs; its sorting and formatting, and the constant fields of the report, are left out.
- SQLite: the two tables are maps and a transaction restores them; event identifiers are the transitions themselves, which takes SHA-256 to be injective.
- Validation of one observation (URL form, provider names, time zone, not in the future): a batch is taken after it, with timestamps already in UTC.
- The final rounding of an advisor target, its confidence text and the cascade around it.
- `evidence_quality`: it adds up two thresholds.
- Auditor, cost gate, recommendation scoring, probe fixtures, cloud and local model adapters, Discord.
