/** The confirmation machine of the regime sweeps: a new raw read must repeat before it is
    committed. Proved equal to "the value of the last long-enough run of equal reads". */
module Hysteresis {
  import opened Wrappers

  datatype Machine<T> = Machine(committed: T, pending: Option<T>, pendingN: int)

  function Next<T(==)>(m: Machine<T>, raw: T, confirmN: int): Machine<T> {
    if raw == m.committed then m.(pending := None, pendingN := 0)
    else if Some(raw) == m.pending then
      if m.pendingN + 1 >= confirmN then Machine(raw, None, 0) else m.(pendingN := m.pendingN + 1)
    else if confirmN <= 1 then Machine(raw, None, 0)
    else m.(pending := Some(raw), pendingN := 1)
  }

  function Start<T>(initial: T): Machine<T> { Machine(initial, None, 0) }

  /** The machine after the reads `raws`. */
  function Machines<T(==)>(initial: T, raws: seq<T>, confirmN: int): Machine<T> {
    if raws == [] then Start(initial)
    else Next(Machines(initial, raws[..|raws| - 1], confirmN), raws[|raws| - 1], confirmN)
  }

  // --- the specification ---

  function Needed(confirmN: int): nat { if confirmN <= 1 then 1 else confirmN }

  predicate EndsWithRun<T(==)>(raws: seq<T>, n: nat) {
    n <= |raws| && forall k :: |raws| - n <= k < |raws| ==> raws[k] == raws[|raws| - 1]
  }

  /** The value of the last run of at least `Needed(confirmN)` equal reads, or the initial one. */
  function LastConfirmed<T(==)>(initial: T, raws: seq<T>, confirmN: int): T {
    if raws == [] then initial
    else if EndsWithRun(raws, Needed(confirmN)) then raws[|raws| - 1]
    else LastConfirmed(initial, raws[..|raws| - 1], confirmN)
  }

  /** How often the committed value changed during `raws`. */
  function Flips<T(==)>(initial: T, raws: seq<T>, confirmN: int): nat {
    if raws == [] then 0 else
      var before := raws[..|raws| - 1];
      Flips(initial, before, confirmN) +
      (if Machines(initial, raws, confirmN).committed != Machines(initial, before, confirmN).committed then 1 else 0)
  }

  // --- the machine meets it ---

  function TrailingRun<T(==)>(raws: seq<T>): nat {
    if |raws| <= 1 then |raws|
    else if raws[|raws| - 1] == raws[|raws| - 2] then TrailingRun(raws[..|raws| - 1]) + 1
    else 1
  }

  lemma {:induction false} TrailingRunIsRun<T>(raws: seq<T>, n: nat)
    requires raws != [] && n >= 1
    ensures EndsWithRun(raws, n) <==> TrailingRun(raws) >= n
  {
    if |raws| >= 2 {
      var before := raws[..|raws| - 1];
      var same := raws[|raws| - 1] == raws[|raws| - 2];
      if n >= 2 {
        TrailingRunIsRun(before, n - 1);
        if same && EndsWithRun(before, n - 1) {
          assert forall k :: |raws| - n <= k < |raws| - 1 ==> raws[k] == before[k];
        }
        if EndsWithRun(raws, n) {
          assert raws[|raws| - 2] == raws[|raws| - 1];
          assert forall k :: |before| - (n - 1) <= k < |before| ==> before[k] == raws[k];
        }
      }
    }
  }

  /** What the machine remembers: nothing while the last read is the committed one, and
      otherwise the length of the run of reads that ends now. */
  lemma {:induction false} MachineMemory<T>(initial: T, raws: seq<T>, confirmN: int)
    requires raws != []
    ensures var m := Machines(initial, raws, confirmN);
            var last := raws[|raws| - 1];
            if m.committed == last then m.pending == None && m.pendingN == 0
            else m.pending == Some(last) && m.pendingN == TrailingRun(raws) < Needed(confirmN)
  {
    if |raws| >= 2 {
      MachineMemory(initial, raws[..|raws| - 1], confirmN);
    }
  }

  /** The machine commits exactly the last confirmed read. */
  lemma {:induction false} MachineCommitsLastRun<T>(initial: T, raws: seq<T>, confirmN: int)
    ensures Machines(initial, raws, confirmN).committed == LastConfirmed(initial, raws, confirmN)
  {
    if raws != [] {
      MachineCommitsLastRun(initial, raws[..|raws| - 1], confirmN);
      MachineMemory(initial, raws, confirmN);
      TrailingRunIsRun(raws, Needed(confirmN));
      if |raws| >= 2 { MachineMemory(initial, raws[..|raws| - 1], confirmN); }
    }
  }

  /** The committed value changes at a read if and only if the last `Needed(confirmN)` reads
      agree with each other and not with the committed value. */
  lemma {:induction false} FlipsExactlyOnConfirmedRuns<T>(initial: T, raws: seq<T>, confirmN: int)
    requires raws != []
    ensures var before := Machines(initial, raws[..|raws| - 1], confirmN).committed;
            var after := Machines(initial, raws, confirmN).committed;
            && (after != before <==> EndsWithRun(raws, Needed(confirmN)) && raws[|raws| - 1] != before)
            && (after != before ==> after == raws[|raws| - 1])
  {
    MachineCommitsLastRun(initial, raws, confirmN);
    MachineCommitsLastRun(initial, raws[..|raws| - 1], confirmN);
  }

  /** Every flip uses up its own reads. */
  lemma {:induction false} FlipsAreRationed<T>(initial: T, raws: seq<T>, confirmN: int)
    ensures Needed(confirmN) * Flips(initial, raws, confirmN) + Machines(initial, raws, confirmN).pendingN <= |raws|
    ensures Machines(initial, raws, confirmN).pendingN >= 0
  {
    hide Needed, Next;
    if raws != [] {
      var before := raws[..|raws| - 1];
      FlipsAreRationed(initial, before, confirmN);
      NextIsRationed(Machines(initial, before, confirmN), raws[|raws| - 1], confirmN);
      OneMore(Needed(confirmN), Flips(initial, before, confirmN));
    } else {
      OneMore(Needed(confirmN), 0);
    }
  }

  lemma {:induction false} OneMore(need: nat, flips: nat)
    ensures need * 0 == 0 && need * (flips + 1) == need * flips + need
  {
  }

  /** A flip needs enough reads pending and forgets them; otherwise at most one more is pending. */
  lemma {:induction false} NextIsRationed<T>(m: Machine<T>, raw: T, confirmN: int)
    requires m.pendingN >= 0
    ensures var m' := Next(m, raw, confirmN);
            && 0 <= m'.pendingN <= m.pendingN + 1
            && (m'.committed != m.committed ==> m'.pendingN == 0 && m.pendingN + 1 >= Needed(confirmN))
  {
  }

  /** Without confirmation every read is committed at once. */
  lemma {:induction false} NoConfirmationNoDelay<T>(initial: T, raws: seq<T>, confirmN: int)
    requires raws != [] && confirmN <= 1
    ensures LastConfirmed(initial, raws, confirmN) == raws[|raws| - 1]
  {
  }

  /** How often a sequence changes from one entry to the next. */
  function Changes<T(==)>(xs: seq<T>): nat {
    if |xs| <= 1 then 0
    else Changes(xs[..|xs| - 1]) + (if xs[|xs| - 1] != xs[|xs| - 2] then 1 else 0)
  }

  /** The committed value at each read. */
  function CommittedSeq<T(==)>(initial: T, raws: seq<T>, confirmN: int): (cs: seq<T>)
    ensures |cs| == |raws|
  {
    if raws == [] then [] else
      CommittedSeq(initial, raws[..|raws| - 1], confirmN) + [Machines(initial, raws, confirmN).committed]
  }

  lemma {:induction false} CommittedAt<T>(initial: T, raws: seq<T>, confirmN: int, k: nat)
    requires k < |raws|
    ensures CommittedSeq(initial, raws, confirmN)[k] == Machines(initial, raws[..k + 1], confirmN).committed
  {
    if k < |raws| - 1 {
      CommittedAt(initial, raws[..|raws| - 1], confirmN, k);
      assert raws[..|raws| - 1][..k + 1] == raws[..k + 1];
    } else {
      assert raws[..k + 1] == raws;
    }
  }

  /** Whatever the committed values are mapped to, the picks change at most once per
      `confirmN` windows: this is the whipsaw bound. */
  lemma {:induction false} SwitchesAreRationed<T, U>(
    initial: T, raws: seq<T>, confirmN: int, pick: T -> U, picks: seq<U>)
    requires |picks| == |raws|
    requires forall k :: 0 <= k < |raws| ==> picks[k] == pick(CommittedSeq(initial, raws, confirmN)[k])
    ensures Changes(picks) <= Flips(initial, raws, confirmN)
    ensures Needed(confirmN) * Changes(picks) <= |raws|
    ensures confirmN * Changes(picks) <= |raws|
  {
    if raws != [] {
      var n := |raws| - 1;
      SwitchesAreRationed(initial, raws[..n], confirmN, pick, picks[..n]);
      if n > 0 {
        CommittedAt(initial, raws, confirmN, n);
        CommittedAt(initial, raws, confirmN, n - 1);
        assert raws[..n + 1] == raws;
        assert raws[..n - 1 + 1] == raws[..n];
      }
    }
    FlipsAreRationed(initial, raws, confirmN);
    Ration(Needed(confirmN), confirmN, Changes(picks), Flips(initial, raws, confirmN));
  }

  lemma {:induction false} Ration(need: nat, n: int, few: nat, many: nat)
    requires few <= many && n <= need
    ensures need * few <= need * many && n * few <= need * few
  {
    assert need * (many - few) >= 0;
    assert (need - n) * few >= 0;
  }
}
