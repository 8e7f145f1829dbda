/** When a script of operations goes through: the source raises exactly where a grid is laid that
    cannot be (no rung, or a rung at price zero). */
module Feasibility {
  import opened OrderBook
  import BookSafety
  import Sequences

  /** The operation does not raise in this state. */
  predicate Allows(p: Params, b: Book, a: Action) {
    match a
    case Lay(anchor) => CanLay(p, b.spacingPct, anchor)
    case Reanchor(price) => NeedsReanchor(p, b, price) ==> CanLay(p, b.spacingPct, price)
    case _ => true
  }

  /** No operation of the script raises, each in the state the earlier ones left. */
  predicate RunsThrough(p: Params, b: Book, script: seq<Action>) {
    script == [] ||
    var n := |script| - 1;
    RunsThrough(p, b, script[..n]) && Allows(p, Run(p, b, script[..n]), script[n])
  }

  lemma {:induction false} RunsAppend(p: Params, b: Book, first: seq<Action>, second: seq<Action>)
    ensures RunsThrough(p, b, first + second) <==>
            RunsThrough(p, b, first) && RunsThrough(p, Run(p, b, first), second)
  {
    hide Allows;
    if second == [] {
      assert first + second == first;
    } else {
      var n := |second| - 1;
      RunsAppend(p, b, first, second[..n]);
      RunAppend(p, b, first, second[..n]);
      Sequences.AppendSplit(first, second);
    }
  }

  lemma {:induction false} RunsShort(p: Params, b: Book, script: seq<Action>)
    requires |script| <= 3
    ensures RunsThrough(p, b, script) <==>
            && (|script| >= 1 ==> Allows(p, b, script[0]))
            && (|script| >= 2 ==> Allows(p, Step(p, b, script[0]), script[1]))
            && (|script| >= 3 ==> Allows(p, Step(p, Step(p, b, script[0]), script[1]), script[2]))
  {
    hide Step, Allows;
    if script != [] {
      var before := script[..|script| - 1];
      RunsShort(p, b, before);
      RunShort(p, b, before);
    }
  }

  // --- what the caller can check ---

  /** Only a change of spacing changes the spacing. */
  lemma {:induction false} StepSpacing(p: Params, b: Book, a: Action)
    ensures Step(p, b, a).spacingPct == if a.Spacing? then a.pct else b.spacingPct
  {
    hide LayGrid;
    match a {
      case Lay(anchor) => BookSafety.LayFrame(p, b, anchor);
      case Reanchor(price) => BookSafety.LayFrame(p, CancelAll(b), price);
      case Bar(high, low) => BookSafety.SettleFrame(p, b, Select(b.orders, high, low, true));
      case _ =>
    }
  }

  /** Every price a script may lay at can anchor a grid of either spacing. */
  predicate Anchorable(p: Params, x: real, y: real, script: seq<Action>) {
    forall k :: 0 <= k < |script| ==> AnchorableAt(p, x, y, script[k])
  }

  predicate AnchorableAt(p: Params, x: real, y: real, a: Action) {
    match a
    case Lay(price) => CanLay(p, x, price) && CanLay(p, y, price)
    case Reanchor(price) => CanLay(p, x, price) && CanLay(p, y, price)
    case Spacing(pct) => pct == x || pct == y
    case _ => true
  }

  /** Prices alone are enough: a script all of whose prices can anchor a grid goes through,
      whatever the book looks like on the way. */
  lemma {:induction false} AnchorableRuns(p: Params, x: real, y: real, b: Book, script: seq<Action>)
    requires (b.spacingPct == x || b.spacingPct == y) && Anchorable(p, x, y, script)
    ensures RunsThrough(p, b, script)
    ensures Run(p, b, script).spacingPct == x || Run(p, b, script).spacingPct == y
  {
    hide CanLay, NeedsReanchor, Step;
    if script != [] {
      var n := |script| - 1;
      assert forall k :: 0 <= k < n ==> script[..n][k] == script[k];
      AnchorableRuns(p, x, y, b, script[..n]);
      StepSpacing(p, Run(p, b, script[..n]), script[n]);
      assert AnchorableAt(p, x, y, script[n]);
    }
  }
}
