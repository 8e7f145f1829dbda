/** What the watch ledger keeps over batches: independence of the rows of a batch, one report
    per transition over any history, timestamps that only move forward, harmless replays. */
module WatchTheorems {
  import opened IsoTime
  import opened ProviderWatch
  import opened Wrappers
  import Sequences

  // --- a batch in closed form ---

  /** Two stores treat a row alike when they agree on its source and on what is known of it. */
  predicate SameView(st: Store, other: Store, row: Observation) {
    && (row.key in st.sources <==> row.key in other.sources)
    && (row.key in st.sources ==> st.sources[row.key] == other.sources[row.key])
    && (Changes(st, row) ==> (TransitionOf(st, row) in st.changes <==> TransitionOf(st, row) in other.changes))
  }

  lemma {:induction false} SameTreatment(st: Store, other: Store, row: Observation)
    requires Valid(row.observedAt) && SameView(st, other, row)
    ensures Refusal(st, row) == Refusal(other, row)
    ensures Changes(st, row) == Changes(other, row) && Reports(st, row) == Reports(other, row)
    ensures Changes(st, row) ==>
            TransitionOf(st, row) == TransitionOf(other, row) && EventOf(st, row) == EventOf(other, row)
  {
    hide LexLess, Iso, Valid;
  }

  /** Every row of the batch fits the store as it was before the batch. */
  predicate AllFit(st: Store, rows: seq<Observation>) requires Timed(rows) {
    forall i :: 0 <= i < |rows| ==> Refusal(st, rows[i]) == None
  }

  /** The events of a batch, each row judged against the store before it. */
  function Reported(st: Store, rows: seq<Observation>): seq<Event> requires Timed(rows) {
    if rows == [] then [] else
      var n := |rows| - 1;
      Reported(st, rows[..n]) + Announced(st, rows[n])
  }

  /** What one row has to report: one event or none. */
  function Announced(st: Store, row: Observation): seq<Event> requires Valid(row.observedAt) {
    if Reports(st, row) then [EventOf(st, row)] else []
  }

  function Latest(rows: seq<Observation>): map<Key, Source> requires Timed(rows) {
    if rows == [] then map[] else
      var n := |rows| - 1;
      Latest(rows[..n])[rows[n].key := SourceOf(rows[n])]
  }

  function Discovered(st: Store, rows: seq<Observation>): map<Transition, Change> requires Timed(rows) {
    if rows == [] then map[] else
      var n := |rows| - 1;
      var before := Discovered(st, rows[..n]);
      if Reports(st, rows[n])
      then before[TransitionOf(st, rows[n]) := Change(Stamp(rows[n]), Owner(rows[n].key.kind))] else before
  }

  function Merged(st: Store, rows: seq<Observation>): Store requires Timed(rows) {
    Store(st.sources + Latest(rows), st.changes + Discovered(st, rows))
  }

  lemma {:induction false} KeysFromRows(st: Store, rows: seq<Observation>)
    requires Timed(rows)
    ensures forall k :: k in Latest(rows) <==> exists i :: 0 <= i < |rows| && rows[i].key == k
    ensures forall t :: t in Discovered(st, rows) ==>
              t !in st.changes && exists i :: 0 <= i < |rows| && Reports(st, rows[i]) && t == TransitionOf(st, rows[i])
    ensures forall i :: 0 <= i < |rows| && Reports(st, rows[i]) ==> TransitionOf(st, rows[i]) in Discovered(st, rows)
  {
    hide Iso, LexLess, Valid;
    if rows != [] {
      var n := |rows| - 1;
      KeysFromRows(st, rows[..n]);
      assert forall i :: 0 <= i < n ==> rows[..n][i] == rows[i];
    }
  }

  lemma {:induction false} NextRowUntouched(st: Store, rows: seq<Observation>)
    requires Timed(rows) && DistinctSources(rows) && rows != []
    ensures SameView(st, Merged(st, rows[..|rows| - 1]), rows[|rows| - 1])
  {
    var n := |rows| - 1;
    hide Iso, LexLess, Valid;
    KeysFromRows(st, rows[..n]);
    hide Latest, Discovered;
    assert rows[n].key !in Latest(rows[..n]);
  }

  /** The loop in closed form: a batch of distinct sources is accepted exactly when every row
      fits the old store, and then updates every source and records what is new. */
  lemma {:induction false} ProcessClosed(st: Store, rows: seq<Observation>)
    requires Timed(rows) && DistinctSources(rows)
    ensures Process(st, rows).Running? <==> AllFit(st, rows)
    ensures AllFit(st, rows) ==> Process(st, rows) == Running(Merged(st, rows), Reported(st, rows))
  {
    if rows == [] {
      assert st.sources + map[] == st.sources && st.changes + map[] == st.changes;
    } else {
      var n := |rows| - 1;
      ProcessClosed(st, rows[..n]);
      AllFitLast(st, rows);
      if AllFit(st, rows[..n]) {
        NextRowUntouched(st, rows);
        SameTreatment(st, Merged(st, rows[..n]), rows[n]);
        MergedLast(st, rows);
      }
      hide Merged, Refusal, Record, AllFit, SameView;
    }
  }

  lemma {:induction false} AllFitLast(st: Store, rows: seq<Observation>)
    requires Timed(rows) && rows != []
    ensures AllFit(st, rows) <==> AllFit(st, rows[..|rows| - 1]) && Refusal(st, rows[|rows| - 1]) == None
  {
    hide Refusal;
    assert forall i :: 0 <= i < |rows| - 1 ==> rows[..|rows| - 1][i] == rows[i];
  }

  lemma {:induction false} MergedLast(st: Store, rows: seq<Observation>)
    requires Timed(rows) && DistinctSources(rows) && rows != []
    ensures Merged(st, rows) == Record(Merged(st, rows[..|rows| - 1]), rows[|rows| - 1])
  {
    var n := |rows| - 1;
    NextRowUntouched(st, rows);
    SameTreatment(st, Merged(st, rows[..n]), rows[n]);
    hide Iso, LexLess, Valid;
    assert st.sources + Latest(rows) == (st.sources + Latest(rows[..n]))[rows[n].key := SourceOf(rows[n])];
  }

  // --- the order of rows ---

  lemma {:induction false} LatestAt(rows: seq<Observation>, i: nat)
    requires Timed(rows) && DistinctSources(rows) && i < |rows|
    ensures rows[i].key in Latest(rows) && Latest(rows)[rows[i].key] == SourceOf(rows[i])
  {
    hide Iso, Valid;
    if i < |rows| - 1 { LatestAt(rows[..|rows| - 1], i); }
  }

  lemma {:induction false} DiscoveredAt(st: Store, rows: seq<Observation>, i: nat)
    requires Timed(rows) && DistinctSources(rows) && i < |rows| && Reports(st, rows[i])
    ensures TransitionOf(st, rows[i]) in Discovered(st, rows)
    ensures Discovered(st, rows)[TransitionOf(st, rows[i])] == Change(Stamp(rows[i]), Owner(rows[i].key.kind))
  {
    hide Iso, Valid;
    if i < |rows| - 1 { DiscoveredAt(st, rows[..|rows| - 1], i); }
  }

  ghost predicate Within(rows: seq<Observation>, other: seq<Observation>) {
    forall i :: 0 <= i < |rows| ==> rows[i] in other
  }

  lemma {:induction false} LatestWithin(rows: seq<Observation>, other: seq<Observation>, k: Key)
    requires Timed(rows) && Timed(other) && DistinctSources(rows) && DistinctSources(other) && Within(rows, other)
    requires k in Latest(rows)
    ensures k in Latest(other) && Latest(other)[k] == Latest(rows)[k]
  {
    hide Iso, Valid, Latest, Discovered, Reports, DistinctSources;
    KeysFromRows(Store(map[], map[]), rows);
    var i :| 0 <= i < |rows| && rows[i].key == k;
    assert rows[i] in other;
    var j :| 0 <= j < |other| && other[j] == rows[i];
    LatestAt(rows, i);
    LatestAt(other, j);
  }

  lemma {:induction false} DiscoveredWithin(st: Store, rows: seq<Observation>, other: seq<Observation>, t: Transition)
    requires Timed(rows) && Timed(other) && DistinctSources(rows) && DistinctSources(other) && Within(rows, other)
    requires t in Discovered(st, rows)
    ensures t in Discovered(st, other) && Discovered(st, other)[t] == Discovered(st, rows)[t]
  {
    hide Iso, Valid, Latest, Discovered, DistinctSources;
    KeysFromRows(st, rows);
    var i :| 0 <= i < |rows| && Reports(st, rows[i]) && t == TransitionOf(st, rows[i]);
    assert rows[i] in other;
    var j :| 0 <= j < |other| && other[j] == rows[i];
    DiscoveredAt(st, rows, i);
    DiscoveredAt(st, other, j);
  }

  lemma {:induction false} FitWithin(st: Store, rows: seq<Observation>, other: seq<Observation>)
    requires Timed(rows) && Timed(other) && Within(rows, other) && AllFit(st, other)
    ensures AllFit(st, rows)
  {
    hide Refusal;
    forall i | 0 <= i < |rows| ensures Refusal(st, rows[i]) == None { assert rows[i] in other; }
  }

  lemma {:induction false} RowsWithin(rows: seq<Observation>, other: seq<Observation>)
    requires multiset(rows) == multiset(other)
    ensures Within(rows, other)
  {
    forall i | 0 <= i < |rows| ensures rows[i] in other { assert rows[i] in multiset(other); }
  }

  lemma {:induction false} SameLatest(rows: seq<Observation>, other: seq<Observation>)
    requires Timed(rows) && Timed(other) && DistinctSources(rows) && DistinctSources(other)
    requires Within(rows, other) && Within(other, rows)
    ensures Latest(rows) == Latest(other)
  {
    hide Iso, Valid, Latest, DistinctSources, Within;
    forall k ensures k in Latest(rows) ==> k in Latest(other) && Latest(other)[k] == Latest(rows)[k] {
      if k in Latest(rows) { LatestWithin(rows, other, k); }
    }
    forall k ensures k in Latest(other) ==> k in Latest(rows) {
      if k in Latest(other) { LatestWithin(other, rows, k); }
    }
  }

  lemma {:induction false} SameDiscovered(st: Store, rows: seq<Observation>, other: seq<Observation>)
    requires Timed(rows) && Timed(other) && DistinctSources(rows) && DistinctSources(other)
    requires Within(rows, other) && Within(other, rows)
    ensures Discovered(st, rows) == Discovered(st, other)
  {
    hide Iso, Valid, Discovered, DistinctSources, Within;
    forall t
      ensures t in Discovered(st, rows) ==>
                t in Discovered(st, other) && Discovered(st, other)[t] == Discovered(st, rows)[t]
    {
      if t in Discovered(st, rows) { DiscoveredWithin(st, rows, other, t); }
    }
    forall t ensures t in Discovered(st, other) ==> t in Discovered(st, rows) {
      if t in Discovered(st, other) { DiscoveredWithin(st, other, rows, t); }
    }
  }

  lemma {:induction false} SameRowsSameMaps(st: Store, rows: seq<Observation>, other: seq<Observation>)
    requires Timed(rows) && Timed(other) && DistinctSources(rows) && DistinctSources(other)
    requires multiset(rows) == multiset(other)
    ensures Merged(st, rows) == Merged(st, other) && AllFit(st, rows) == AllFit(st, other)
  {
    hide Iso, Valid, Latest, Discovered, DistinctSources, Within, AllFit;
    RowsWithin(rows, other);
    RowsWithin(other, rows);
    if AllFit(st, other) { FitWithin(st, rows, other); }
    if AllFit(st, rows) { FitWithin(st, other, rows); }
    SameLatest(rows, other);
    SameDiscovered(st, rows, other);
  }

  /** Events of a batch, as a multiset, with one row taken out. */
  lemma {:induction false} ReportedTakeOut(st: Store, rows: seq<Observation>, k: nat)
    requires Timed(rows) && k < |rows|
    ensures Timed(rows[..k] + rows[k + 1..])
    ensures multiset(Reported(st, rows)) ==
            multiset(Reported(st, rows[..k] + rows[k + 1..])) + multiset(Announced(st, rows[k]))
  {
    hide Announced, Valid;
    var n, less := |rows| - 1, rows[..k] + rows[k + 1..];
    if k == n {
      assert less == rows[..n];
    } else {
      ReportedTakeOut(st, rows[..n], k);
      var shorter := rows[..n][..k] + rows[..n][k + 1..];
      assert less == shorter + [rows[n]];
      assert Valid(rows[n].observedAt);
      ReportedSnoc(st, shorter, rows[n]);
      Sequences.MultisetSwap(multiset(Reported(st, shorter)), multiset(Announced(st, rows[k])),
        multiset(Announced(st, rows[n])));
    }
  }

  lemma {:induction false} ReportedSnoc(st: Store, rows: seq<Observation>, row: Observation)
    requires Timed(rows) && Valid(row.observedAt)
    ensures Timed(rows + [row])
    ensures Reported(st, rows + [row]) == Reported(st, rows) + Announced(st, row)
  {
    hide Announced, Valid;
    assert (rows + [row])[..|rows|] == rows;
  }

  lemma {:induction false} ReportedOrderFree(st: Store, rows: seq<Observation>, other: seq<Observation>)
    requires Timed(rows) && Timed(other) && multiset(rows) == multiset(other)
    ensures multiset(Reported(st, rows)) == multiset(Reported(st, other))
    decreases |rows|
  {
    hide Announced, Valid;
    Sequences.SameLength(rows, other);
    if rows != [] {
      var n := |rows| - 1;
      var k := Sequences.Match(rows, other, n);
      assert rows[..n] + rows[n + 1..] == rows[..n];
      ReportedTakeOut(st, other, k);
      ReportedOrderFree(st, rows[..n], other[..k] + other[k + 1..]);
    }
  }

  lemma {:induction false} OccursOnce(rows: seq<Observation>, k: nat)
    requires DistinctSources(rows) && k < |rows|
    ensures multiset(rows)[rows[k]] == 1
  {
    Sequences.MultisetTakeOut(rows, k);
    assert rows[k] !in rows[..k] + rows[k + 1..];
  }

  lemma {:induction false} DistinctOrderFree(rows: seq<Observation>, other: seq<Observation>)
    requires multiset(rows) == multiset(other) && DistinctSources(rows)
    ensures DistinctSources(other)
  {
    forall i, j | 0 <= i < j < |other| ensures other[i].key != other[j].key {
      assert other[i] in multiset(rows) && other[j] in multiset(rows);
      var a :| 0 <= a < |rows| && rows[a] == other[i];
      var b :| 0 <= b < |rows| && rows[b] == other[j];
      OccursOnce(rows, a);
      if other[i] == other[j] { Sequences.RepeatCounted(other, i, j); }
    }
  }

  /** The order of the rows in a batch is immaterial: acceptance, the resulting store, and the
      events up to order are the same. */
  lemma {:induction false} BatchOrderFree(st: Store, rows: seq<Observation>, other: seq<Observation>)
    requires Timed(rows) && Timed(other) && multiset(rows) == multiset(other)
    ensures Accepts(st, rows) == Accepts(st, other)
    ensures After(st, rows) == After(st, other)
    ensures multiset(EventsOf(st, rows)) == multiset(EventsOf(st, other))
  {
    hide Process, Merged, AllFit, Reported, Valid, DistinctSources;
    assert |rows| == |multiset(rows)| == |other|;
    if DistinctSources(rows) { DistinctOrderFree(rows, other); }
    if DistinctSources(other) { DistinctOrderFree(other, rows); }
    if DistinctSources(rows) {
      SameRowsSameMaps(st, rows, other);
      ReportedOrderFree(st, rows, other);
      ProcessClosed(st, rows);
      ProcessClosed(st, other);
    }
  }

  // --- one batch ---

  lemma {:induction false} AcceptedShape(st: Store, rows: seq<Observation>)
    requires Timed(rows) && Accepts(st, rows)
    ensures DistinctSources(rows) && AllFit(st, rows)
    ensures After(st, rows) == Merged(st, rows) && EventsOf(st, rows) == Reported(st, rows)
  {
    hide Merged, AllFit, Reported, Valid;
    ProcessClosed(st, rows);
  }

  /** Every reported event names a change that really happened across the batch: the source held
      `before` when the batch came and holds `after` when it is done. */
  lemma {:induction false} ReportedIsReal(st: Store, rows: seq<Observation>, e: nat)
    requires Timed(rows) && e < |Reported(st, rows)|
    ensures exists i :: 0 <= i < |rows| && Reports(st, rows[i]) && Reported(st, rows)[e] == EventOf(st, rows[i])
  {
    hide Iso, Valid, LexLess;
    var n := |rows| - 1;
    if e < |Reported(st, rows[..n])| {
      ReportedIsReal(st, rows[..n], e);
      var i :| 0 <= i < n && Reports(st, rows[..n][i]) && Reported(st, rows[..n])[e] == EventOf(st, rows[..n][i]);
      assert rows[..n][i] == rows[i];
    }
  }

  lemma {:induction false} EventsReal(st: Store, rows: seq<Observation>, e: nat)
    requires Timed(rows) && e < |EventsOf(st, rows)|
    ensures var id := EventsOf(st, rows)[e].id;
            && id.before != id.after
            && id.key in st.sources && st.sources[id.key].digest == id.before
            && id.key in After(st, rows).sources && After(st, rows).sources[id.key].digest == id.after
            && id !in st.changes && id in After(st, rows).changes
  {
    AcceptedShape(st, rows);
    ReportedIsReal(st, rows, e);
    hide Process, Latest, Discovered, Valid, Iso, AllFit, Reported, DistinctSources;
    var i :| 0 <= i < |rows| && Reports(st, rows[i]) && Reported(st, rows)[e] == EventOf(st, rows[i]);
    LatestAt(rows, i);
    DiscoveredAt(st, rows, i);
  }

  /** No change goes unrecorded: whenever a batch replaces a digest, the transition is in the
      table afterwards, and nothing recorded before is lost or altered. */
  lemma {:induction false} ChangesRecorded(st: Store, rows: seq<Observation>, k: Key)
    requires Timed(rows) && k in st.sources
    ensures var after := After(st, rows);
            && k in after.sources
            && (after.sources[k].digest != st.sources[k].digest ==>
                  Transition(k, st.sources[k].digest, after.sources[k].digest) in after.changes)
            && (forall t :: t in st.changes ==> t in after.changes && after.changes[t] == st.changes[t])
  {
    if Accepts(st, rows) {
      hide *;
      AcceptedShape(st, rows);
      MergedRecords(st, rows, k);
    }
  }

  lemma {:induction false} MergedRecords(st: Store, rows: seq<Observation>, k: Key)
    requires Timed(rows) && DistinctSources(rows) && k in st.sources
    ensures var after := Merged(st, rows);
            && k in after.sources
            && (after.sources[k].digest != st.sources[k].digest ==>
                  Transition(k, st.sources[k].digest, after.sources[k].digest) in after.changes)
            && (forall t :: t in st.changes ==> t in after.changes && after.changes[t] == st.changes[t])
  {
    hide Process, Latest, Discovered, Valid, Iso, AllFit, Reported, DistinctSources, LexLess;
    KeysFromRows(st, rows);
    if k in Latest(rows) {
      var i :| 0 <= i < |rows| && rows[i].key == k;
      LatestAt(rows, i);
      if Reports(st, rows[i]) { DiscoveredAt(st, rows, i); }
    }
  }

  /** A batch never lowers a stored timestamp, as a string. */
  lemma {:induction false} TimestampsForward(st: Store, rows: seq<Observation>, k: Key)
    requires Timed(rows) && k in st.sources
    ensures k in After(st, rows).sources
    ensures !LexLess(After(st, rows).sources[k].observedAt, st.sources[k].observedAt)
  {
    LexIrreflexive(st.sources[k].observedAt);
    if Accepts(st, rows) {
      AcceptedShape(st, rows);
      KeysFromRows(st, rows);
      hide Process, Latest, Discovered, Valid, Iso, Reported, DistinctSources, LexLess, Reports;
      if k in Latest(rows) {
        var i :| 0 <= i < |rows| && rows[i].key == k;
        LatestAt(rows, i);
        assert Refusal(st, rows[i]) == None;
      }
    }
  }

  /** Sending an accepted batch again changes nothing and reports nothing. */
  lemma {:induction false} ReplayIsNoOp(st: Store, rows: seq<Observation>)
    requires Timed(rows) && Accepts(st, rows)
    ensures var after := After(st, rows);
            Accepts(after, rows) && After(after, rows) == after && EventsOf(after, rows) == []
  {
    AcceptedShape(st, rows);
    var after := Merged(st, rows);
    forall i | 0 <= i < |rows|
      ensures Refusal(after, rows[i]) == None && !Changes(after, rows[i])
    {
      LatestAt(rows, i);
      LexIrreflexive(Stamp(rows[i]));
    }
    hide Process, Iso, Valid, LexLess, Refusal, Merged;
    ProcessClosed(after, rows);
    NothingNew(after, rows);
    LatestAgain(st, rows);
  }

  lemma {:induction false} NothingNew(st: Store, rows: seq<Observation>)
    requires Timed(rows) && forall i :: 0 <= i < |rows| ==> !Changes(st, rows[i])
    ensures Reported(st, rows) == [] && Discovered(st, rows) == map[]
  {
    hide Valid, Iso;
    if rows != [] {
      var n := |rows| - 1;
      assert forall i :: 0 <= i < n ==> rows[..n][i] == rows[i];
      NothingNew(st, rows[..n]);
    }
  }

  lemma {:induction false} LatestAgain(st: Store, rows: seq<Observation>)
    requires Timed(rows)
    ensures Merged(st, rows).sources + Latest(rows) == Merged(st, rows).sources
    ensures Merged(st, rows).changes + map[] == Merged(st, rows).changes
  {
    hide Latest, Discovered;
  }

  // --- any history of batches ---

  predicate AllTimed(batches: seq<seq<Observation>>) { forall i :: 0 <= i < |batches| ==> Timed(batches[i]) }

  function AfterAll(st: Store, batches: seq<seq<Observation>>): Store requires AllTimed(batches) {
    if batches == [] then st
    else After(AfterAll(st, batches[..|batches| - 1]), batches[|batches| - 1])
  }

  function AllEvents(st: Store, batches: seq<seq<Observation>>): seq<Event> requires AllTimed(batches) {
    if batches == [] then [] else
      var n := |batches| - 1;
      AllEvents(st, batches[..n]) + EventsOf(AfterAll(st, batches[..n]), batches[n])
  }

  ghost predicate IsStamp(stamp: string) { exists t: Utc :: Valid(t) && Iso(t) == stamp }

  /** Every stored timestamp is the string of a valid instant. */
  ghost predicate Stamped(st: Store) { forall k :: k in st.sources ==> IsStamp(st.sources[k].observedAt) }

  ghost function TimeOf(stamp: string): (t: Utc)
    requires IsStamp(stamp)
    ensures Valid(t) && Iso(t) == stamp
  {
    var t: Utc :| Valid(t) && Iso(t) == stamp;
    t
  }

  /** True of the empty ledger, and kept by every batch. */
  lemma {:induction false} StampedKept(st: Store, rows: seq<Observation>)
    requires Timed(rows) && Stamped(st)
    ensures Stamped(Store(map[], map[])) && Stamped(After(st, rows))
  {
    if Accepts(st, rows) {
      hide Process, Latest, Discovered, Valid, Iso, AllFit, Reported, DistinctSources;
      AcceptedShape(st, rows);
      KeysFromRows(st, rows);
      forall k | k in Merged(st, rows).sources ensures IsStamp(Merged(st, rows).sources[k].observedAt) {
        if k in Latest(rows) {
          var i :| 0 <= i < |rows| && rows[i].key == k;
          LatestAt(rows, i);
        }
      }
    }
  }

  lemma {:induction false} StampedAlways(st: Store, batches: seq<seq<Observation>>)
    requires AllTimed(batches) && Stamped(st)
    ensures Stamped(AfterAll(st, batches))
  {
    hide Stamped, After;
    if batches != [] {
      var n := |batches| - 1;
      StampedAlways(st, batches[..n]);
      StampedKept(AfterAll(st, batches[..n]), batches[n]);
    }
  }

  /** Time only moves forward. Over any sequence of accepted and rejected batches, from any ledger
      of valid timestamps (the empty one is), a source once stored stays stored, and the instant
      stored for it after all the batches is no earlier than after the first `i` of them. */
  lemma {:induction false} InstantsForward(st: Store, batches: seq<seq<Observation>>, i: nat, k: Key)
    requires AllTimed(batches) && Stamped(st) && i <= |batches|
    requires k in AfterAll(st, batches[..i]).sources
    ensures var early, late := AfterAll(st, batches[..i]), AfterAll(st, batches);
            && Stamped(early) && Stamped(late) && k in late.sources
            && Instant(TimeOf(early.sources[k].observedAt)) <= Instant(TimeOf(late.sources[k].observedAt))
  {
    hide After, AfterAll, Iso, Valid, Instant, LexLess, IsStamp;
    StampedAlways(st, batches[..i]);
    StampedAlways(st, batches);
    if i == |batches| {
      assert batches[..i] == batches;
    } else {
      var n := |batches| - 1;
      assert batches[..n][..i] == batches[..i];
      InstantsForward(st, batches[..n], i, k);
      StampedAlways(st, batches[..n]);
      var mid := AfterAll(st, batches[..n]);
      LastBatch(st, batches);
      TimestampsForward(mid, batches[n], k);
      StringsToInstants(mid.sources[k].observedAt, AfterAll(st, batches).sources[k].observedAt);
    }
  }

  lemma {:induction false} LastBatch(st: Store, batches: seq<seq<Observation>>)
    requires AllTimed(batches) && batches != []
    ensures AfterAll(st, batches) == After(AfterAll(st, batches[..|batches| - 1]), batches[|batches| - 1])
  {
  }

  lemma {:induction false} StringsToInstants(early: string, late: string)
    requires IsStamp(early) && IsStamp(late) && !LexLess(late, early)
    ensures Instant(TimeOf(early)) <= Instant(TimeOf(late))
  {
    hide Iso, Instant, LexLess;
    IsoOrderIsChronological(TimeOf(late), TimeOf(early));
  }

  predicate DistinctIds(events: seq<Event>) {
    forall i, j :: 0 <= i < j < |events| ==> events[i].id != events[j].id
  }

  lemma {:induction false} ReportedDistinct(st: Store, rows: seq<Observation>)
    requires Timed(rows) && DistinctSources(rows)
    ensures DistinctIds(Reported(st, rows))
  {
    hide Valid, Iso, LexLess;
    if rows != [] {
      var n := |rows| - 1;
      ReportedDistinct(st, rows[..n]);
      forall e | 0 <= e < |Reported(st, rows[..n])| ensures Reported(st, rows[..n])[e].id.key != rows[n].key {
        ReportedIsReal(st, rows[..n], e);
      }
    }
  }

  /** Over any sequence of batches, accepted or rejected, each transition is reported at most
      once, and everything reported is on record. */
  lemma {:induction false} ReportedAtMostOnce(st: Store, batches: seq<seq<Observation>>)
    requires AllTimed(batches)
    ensures DistinctIds(AllEvents(st, batches))
    ensures forall e :: 0 <= e < |AllEvents(st, batches)| ==>
              AllEvents(st, batches)[e].id in AfterAll(st, batches).changes &&
              AllEvents(st, batches)[e].id !in st.changes
    ensures forall t :: t in st.changes ==> t in AfterAll(st, batches).changes
  {
    if batches != [] {
      var n := |batches| - 1;
      var mid, rows := AfterAll(st, batches[..n]), batches[n];
      ReportedAtMostOnce(st, batches[..n]);
      ChangesKept(mid, rows);
      hide Process, Valid, Accepts, After, EventsOf;
      if Accepts(mid, rows) { AcceptedShape(mid, rows); ReportedDistinct(mid, rows); }
      BatchEvents(mid, rows);
      hide Reported, AllFit, Merged, DistinctSources;
    }
  }

  lemma {:induction false} ChangesKept(st: Store, rows: seq<Observation>)
    requires Timed(rows)
    ensures forall t :: t in st.changes ==> t in After(st, rows).changes
  {
    if Accepts(st, rows) {
      AcceptedShape(st, rows);
      hide Process, Latest, Discovered, Valid, AllFit, Reported, DistinctSources;
    }
  }

  lemma {:induction false} BatchEvents(st: Store, rows: seq<Observation>)
    requires Timed(rows)
    ensures DistinctIds(EventsOf(st, rows))
    ensures forall e :: 0 <= e < |EventsOf(st, rows)| ==>
              EventsOf(st, rows)[e].id !in st.changes && EventsOf(st, rows)[e].id in After(st, rows).changes
  {
    if Accepts(st, rows) { AcceptedShape(st, rows); ReportedDistinct(st, rows); }
    forall e | 0 <= e < |EventsOf(st, rows)|
      ensures EventsOf(st, rows)[e].id !in st.changes && EventsOf(st, rows)[e].id in After(st, rows).changes
    {
      EventsReal(st, rows, e);
    }
    hide Process, Reported, After, Merged, AllFit;
  }

  /** Sources stay covered: what is missing from the coverage register only shrinks. */
  lemma {:induction false} CoverageGrows(st: Store, rows: seq<Observation>)
    requires Timed(rows)
    ensures Expected() - Covered(After(st, rows)) <= Expected() - Covered(st)
  {
    hide Expected;
    forall key | key in st.sources ensures key in After(st, rows).sources { ChangesRecorded(st, rows, key); }
    hide After;
    assert Covered(st) <= Covered(After(st, rows));
  }
}
