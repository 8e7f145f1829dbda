/** The provider watch ledger as the pair of tables it is, updated in place by one batch at a time,
    and what a batch does to the tables and reports about them, row by row and key by key. */
module WatchLedger {
  import opened IsoTime
  import opened ProviderWatch
  import opened WatchTheorems
  import opened Wrappers

  // --- what the report says about the rows and the tables ---

  /** The row is no older than what the table holds for its source, and agrees with it if it is as old. */
  predicate Fits(sources: map<Key, Source>, row: Observation) requires Valid(row.observedAt) {
    row.key in sources ==>
      && !LexLess(Iso(row.observedAt), sources[row.key].observedAt)
      && (Iso(row.observedAt) == sources[row.key].observedAt ==> row.sha256 == sources[row.key].digest)
  }

  predicate AllRowsFit(sources: map<Key, Source>, rows: seq<Observation>) requires Timed(rows) {
    forall i :: 0 <= i < |rows| ==> Fits(sources, rows[i])
  }

  /** A thousand rows at most and at least one, no source twice, and every row fits. */
  predicate Acceptable(sources: map<Key, Source>, rows: seq<Observation>) requires Timed(rows) {
    && 1 <= |rows| <= 1000
    && (forall i, j :: 0 <= i < j < |rows| ==> rows[i].key != rows[j].key)
    && AllRowsFit(sources, rows)
  }

  /** Each row's source now holds the row's digest and timestamp; all other sources are as before. */
  ghost predicate Updates(before: map<Key, Source>, after: map<Key, Source>, rows: seq<Observation>)
    requires Timed(rows)
  {
    && (forall i :: 0 <= i < |rows| ==>
          && rows[i].key in after
          && after[rows[i].key] == Source(rows[i].sha256, Iso(rows[i].observedAt)))
    && (forall k :: (forall i :: 0 <= i < |rows| ==> rows[i].key != k) ==>
          && (k in after <==> k in before)
          && (k in before ==> after[k] == before[k]))
  }

  /** The row brings another digest for a source the table holds. */
  predicate Replaces(sources: map<Key, Source>, row: Observation, t: Transition) {
    && row.key == t.key && t.key in sources
    && sources[t.key].digest == t.before && row.sha256 == t.after && t.before != t.after
  }

  /** What the row brings is on record; if it is new, with the row's time and the owner of its kind. */
  ghost predicate Recorded(
    sources: map<Key, Source>, before: map<Transition, Change>, after: map<Transition, Change>, row: Observation)
    requires Valid(row.observedAt)
  {
    forall t :: Replaces(sources, row, t) ==>
      && t in after
      && (t !in before ==>
            after[t] == Change(Iso(row.observedAt),
                               if t.key.kind == Models then "model-review-owner" else "provider-integrator"))
  }

  ghost predicate BroughtByRow(sources: map<Key, Source>, rows: seq<Observation>, t: Transition) {
    exists i :: 0 <= i < |rows| && Replaces(sources, rows[i], t)
  }

  /** Exactly the transitions the rows bring are added; what was on record stays as it is. */
  ghost predicate Records(
    sources: map<Key, Source>, before: map<Transition, Change>, after: map<Transition, Change>, rows: seq<Observation>)
    requires Timed(rows)
  {
    && (forall t :: t in before ==> t in after && after[t] == before[t])
    && (forall t :: t in after && t !in before ==> BroughtByRow(sources, rows, t))
    && (forall i :: 0 <= i < |rows| ==> Recorded(sources, before, after, rows[i]))
  }

  /** The events are the transitions new on record, each once, with the time and the owner on record. */
  ghost predicate Announces(events: seq<Event>, before: map<Transition, Change>, after: map<Transition, Change>) {
    && (forall e, f :: 0 <= e < f < |events| ==> events[e].id != events[f].id)
    && (forall t :: t in after && t !in before <==> exists e :: 0 <= e < |events| && events[e].id == t)
    && (forall e :: 0 <= e < |events| ==>
          && events[e].id in after
          && after[events[e].id] == Change(events[e].observedAt, events[e].owner))
  }

  /** Events stand in the order of the rows that caused them. */
  ghost predicate InRowOrder(events: seq<Event>, rows: seq<Observation>) {
    forall e, f, i, j | 0 <= e < f < |events| && 0 <= i < |rows| && 0 <= j < |rows| ::
      rows[i].key == events[e].id.key && rows[j].key == events[f].id.key ==> i < j
  }

  /** Every provider has a contract, all but the exchange have prices and models too; missing is what
      no stored source covers. */
  ghost predicate ListsMissing(missing: set<(string, Kind)>, sources: map<Key, Source>) {
    forall provider: string, kind: Kind ::
      (provider, kind) in missing <==>
      && provider in ["kraken", "ollama", "ollama_cloud", "anthropic", "openai", "google", "atlas"]
      && (provider == "kraken" ==> kind == Contract)
      && (forall key :: key in sources ==> key.provider != provider || key.kind != kind)
  }

  /** What an error says: the size, a source that occurs twice, or, in a batch of the right size and
      of distinct sources, the first row that does not fit and why. */
  ghost predicate Explains(error: Error, sources: map<Key, Source>, rows: seq<Observation>) requires Timed(rows) {
    match error
    case BadSize => |rows| == 0 || |rows| > 1000
    case DuplicateSource =>
      1 <= |rows| <= 1000 && exists i, j :: 0 <= i < j < |rows| && rows[i].key == rows[j].key
    case Older =>
      && 1 <= |rows| <= 1000 && DistinctSources(rows)
      && exists i :: 0 <= i < |rows| && AllRowsFit(sources, rows[..i]) && IsOlder(sources, rows[i])
    case Contradictory =>
      && 1 <= |rows| <= 1000 && DistinctSources(rows)
      && exists i :: 0 <= i < |rows| && AllRowsFit(sources, rows[..i]) && Contradicts(sources, rows[i])
  }

  predicate IsOlder(sources: map<Key, Source>, row: Observation) requires Valid(row.observedAt) {
    row.key in sources && LexLess(Iso(row.observedAt), sources[row.key].observedAt)
  }

  predicate Contradicts(sources: map<Key, Source>, row: Observation) requires Valid(row.observedAt) {
    && row.key in sources
    && Iso(row.observedAt) == sources[row.key].observedAt && row.sha256 != sources[row.key].digest
  }

  // --- it is true of every batch ---

  lemma {:induction false} FitsExactly(st: Store, row: Observation)
    requires Valid(row.observedAt)
    ensures Refusal(st, row) == None <==> Fits(st.sources, row)
    ensures Refusal(st, row) == Some(Older) ==> IsOlder(st.sources, row)
    ensures Refusal(st, row) == Some(Contradictory) ==> Contradicts(st.sources, row)
    ensures Refusal(st, row) in [None, Some(Older), Some(Contradictory)]
  {
    hide LexLess, Iso, Valid;
  }

  lemma {:induction false} AllFitExactly(st: Store, rows: seq<Observation>)
    requires Timed(rows)
    ensures AllFit(st, rows) <==> AllRowsFit(st.sources, rows)
  {
    hide Refusal, Fits, Valid;
    forall i | 0 <= i < |rows| ensures Refusal(st, rows[i]) == None <==> Fits(st.sources, rows[i]) {
      FitsExactly(st, rows[i]);
    }
  }

  /** A failure is that of the first row that does not fit the tables as they were before the batch. */
  lemma {:induction false} FirstMisfit(st: Store, rows: seq<Observation>) returns (i: nat)
    requires Timed(rows) && DistinctSources(rows) && Process(st, rows).Failed?
    ensures i < |rows| && AllFit(st, rows[..i]) && Refusal(st, rows[i]) == Some(Process(st, rows).error)
  {
    var n := |rows| - 1;
    if Process(st, rows[..n]).Failed? {
      i := FirstMisfit(st, rows[..n]);
      assert rows[..n][..i] == rows[..i];
    } else {
      i := n;
      ProcessClosed(st, rows[..n]);
      NextRowUntouched(st, rows);
      SameTreatment(st, Merged(st, rows[..n]), rows[n]);
      hide Merged, Refusal, AllFit, SameView;
    }
  }

  lemma {:induction false} RejectionExplained(st: Store, rows: seq<Observation>)
    requires Timed(rows) && Outcome(st, rows).Rejected?
    ensures Explains(Outcome(st, rows).error, st.sources, rows)
    ensures !Acceptable(st.sources, rows) && !Accepts(st, rows)
  {
    hide Process, Valid, Fits, Refusal, IsOlder, Contradicts, AllFit, AllRowsFit, LexLess, Iso;
    if 1 <= |rows| <= 1000 && DistinctSources(rows) {
      var i := FirstMisfit(st, rows);
      AllFitExactly(st, rows[..i]);
      FitsExactly(st, rows[i]);
      ProcessClosed(st, rows);
      AllFitExactly(st, rows);
    }
  }

  lemma {:induction false} SourcesUpdated(st: Store, rows: seq<Observation>)
    requires Timed(rows) && DistinctSources(rows)
    ensures Updates(st.sources, Merged(st, rows).sources, rows)
  {
    hide Valid, Iso, Latest, Discovered, Reports;
    KeysFromRows(st, rows);
    var after := Merged(st, rows).sources;
    forall i | 0 <= i < |rows|
      ensures rows[i].key in after && after[rows[i].key] == Source(rows[i].sha256, Iso(rows[i].observedAt))
    {
      LatestAt(rows, i);
    }
  }

  lemma {:induction false} ReplacesExactly(st: Store, row: Observation, t: Transition)
    ensures Replaces(st.sources, row, t) <==> Changes(st, row) && t == TransitionOf(st, row)
    ensures Replaces(st.sources, row, t) && t !in st.changes ==> Reports(st, row)
    ensures Reports(st, row) ==> Changes(st, row) && TransitionOf(st, row) !in st.changes
  {
  }

  lemma {:induction false} ChangeAdded(st: Store, rows: seq<Observation>, i: nat)
    requires Timed(rows) && DistinctSources(rows) && i < |rows|
    ensures Recorded(st.sources, st.changes, Merged(st, rows).changes, rows[i])
  {
    hide Valid, Iso, Latest, Discovered, LexLess, DistinctSources, Reports, Replaces;
    var after, row := Merged(st, rows).changes, rows[i];
    forall t | Replaces(st.sources, row, t)
      ensures t in after
      ensures t !in st.changes ==>
                after[t] == Change(Iso(row.observedAt),
                                   if t.key.kind == Models then "model-review-owner" else "provider-integrator")
    {
      ReplacesExactly(st, row, t);
      if t !in st.changes { DiscoveredAt(st, rows, i); }
    }
  }

  lemma {:induction false} ChangesAdded(st: Store, rows: seq<Observation>)
    requires Timed(rows) && DistinctSources(rows)
    ensures Records(st.sources, st.changes, Merged(st, rows).changes, rows)
  {
    hide Valid, Iso, Latest, Discovered, LexLess, DistinctSources, Changes, Replaces, Recorded;
    forall i | 0 <= i < |rows| ensures Recorded(st.sources, st.changes, Merged(st, rows).changes, rows[i]) {
      ChangeAdded(st, rows, i);
    }
    KeysFromRows(st, rows);
    forall t | t in Merged(st, rows).changes && t !in st.changes ensures BroughtByRow(st.sources, rows, t) {
      assert t in Discovered(st, rows);
      var i :| 0 <= i < |rows| && Reports(st, rows[i]) && t == TransitionOf(st, rows[i]);
      ReplacesExactly(st, rows[i], t);
    }
  }

  lemma {:induction false} EventsAnnounced(st: Store, rows: seq<Observation>)
    requires Timed(rows) && DistinctSources(rows)
    ensures Announces(Reported(st, rows), st.changes, Merged(st, rows).changes)
  {
    hide Valid, Iso, Latest, Discovered, LexLess, Reported, DistinctSources;
    KeysFromRows(st, rows);
    ReportedDistinct(st, rows);
    var events, after := Reported(st, rows), Merged(st, rows).changes;
    forall e | 0 <= e < |events|
      ensures events[e].id in after && events[e].id !in st.changes
      ensures after[events[e].id] == Change(events[e].observedAt, events[e].owner)
    {
      ReportedIsReal(st, rows, e);
      var i :| 0 <= i < |rows| && Reports(st, rows[i]) && events[e] == EventOf(st, rows[i]);
      DiscoveredAt(st, rows, i);
    }
    forall t | t in after && t !in st.changes ensures exists e :: 0 <= e < |events| && events[e].id == t {
      var i :| 0 <= i < |rows| && Reports(st, rows[i]) && t == TransitionOf(st, rows[i]);
      var e := ReportedHas(st, rows, i);
    }
  }

  lemma {:induction false} ReportedHas(st: Store, rows: seq<Observation>, i: nat) returns (e: nat)
    requires Timed(rows) && i < |rows| && Reports(st, rows[i])
    ensures e < |Reported(st, rows)| && Reported(st, rows)[e] == EventOf(st, rows[i])
  {
    hide Valid, Iso, LexLess, Reports;
    var n := |rows| - 1;
    if i < n { e := ReportedHas(st, rows[..n], i); } else { e := |Reported(st, rows[..n])|; }
  }

  lemma {:induction false} ReportedInRowOrder(st: Store, rows: seq<Observation>)
    requires Timed(rows) && DistinctSources(rows)
    ensures InRowOrder(Reported(st, rows), rows)
  {
    hide Valid, Iso, LexLess;
    if rows != [] {
      var n := |rows| - 1;
      var before, events := Reported(st, rows[..n]), Reported(st, rows);
      ReportedInRowOrder(st, rows[..n]);
      forall e, i | 0 <= e < |before| && 0 <= i < |rows| && rows[i].key == before[e].id.key ensures i < n {
        ReportedIsReal(st, rows[..n], e);
        var k :| 0 <= k < n && Reports(st, rows[..n][k]) && before[e] == EventOf(st, rows[..n][k]);
        assert rows[k].key == rows[i].key;
      }
      forall e, f, i, j |
        && 0 <= e < f < |events| && 0 <= i < |rows| && 0 <= j < |rows|
        && rows[i].key == events[e].id.key && rows[j].key == events[f].id.key
        ensures i < j
      {
        assert events[e] == before[e] && i < n;
        if f < |before| { assert events[f] == before[f] && rows[..n][i] == rows[i] && rows[..n][j] == rows[j]; }
      }
    }
  }

  lemma {:induction false} MissingListed(st: Store)
    ensures ListsMissing(Expected() - Covered(st), st.sources)
  {
    forall provider: string, kind: Kind
      ensures (provider, kind) in Expected() - Covered(st) <==>
              && provider in ["kraken", "ollama", "ollama_cloud", "anthropic", "openai", "google", "atlas"]
              && (provider == "kraken" ==> kind == Contract)
              && (forall key :: key in st.sources ==> key.provider != provider || key.kind != kind)
    {
      match kind { case Contract => case Pricing => case Models => }
      if (provider, kind) in Covered(st) {
        var key :| key in st.sources && (key.provider, key.kind) == (provider, kind);
        assert key.provider == provider && key.kind == kind;
      }
      forall key | key in st.sources && key.provider == provider && key.kind == kind
        ensures (provider, kind) in Covered(st)
      {
        assert (key.provider, key.kind) == (provider, kind);
      }
    }
  }

  /** Every batch, from every pair of tables: it is accepted exactly when it is acceptable, and then
      the tables, the events and the missing coverage are as the rows say; otherwise the error says
      why and nothing changes. */
  lemma {:induction false} IngestLaw(st: Store, rows: seq<Observation>)
    requires Timed(rows)
    ensures var after, report := After(st, rows), Outcome(st, rows);
            && (report.Accepted? <==> Accepts(st, rows)) && (report.Accepted? <==> Acceptable(st.sources, rows))
            && (report.Accepted? ==>
                  && Updates(st.sources, after.sources, rows)
                  && Records(st.sources, st.changes, after.changes, rows)
                  && Announces(report.events, st.changes, after.changes) && InRowOrder(report.events, rows)
                  && ListsMissing(report.missing, after.sources))
            && (report.Rejected? ==> after == st && Explains(report.error, st.sources, rows))
  {
    hide Process, Merged, AllFit, Reported, Valid, Updates, Records, Announces, ListsMissing, Explains, Expected,
      Covered, AllRowsFit, InRowOrder;
    if Outcome(st, rows).Rejected? {
      RejectionExplained(st, rows);
    } else {
      AcceptedShape(st, rows);
      AllFitExactly(st, rows);
      SourcesUpdated(st, rows);
      ChangesAdded(st, rows);
      EventsAnnounced(st, rows);
      ReportedInRowOrder(st, rows);
      MissingListed(After(st, rows));
    }
  }

  // --- the ledger ---

  class Ledger {
    var sources: map<Key, Source>
    var changes: map<Transition, Change>

    ghost function State(): Store reads this { Store(sources, changes) }

    constructor ()
      ensures State() == Store(map[], map[])
    {
      sources, changes := map[], map[];
    }

    /** One transaction: rows update the tables in place, and any refusal rolls all of it back. */
    method Ingest(rows: seq<Observation>) returns (report: Report)
      requires Timed(rows)
      modifies this
      ensures State() == After(old(State()), rows) && report == Outcome(old(State()), rows)
      ensures report.Accepted? <==> Accepts(old(State()), rows)
      ensures report.Accepted? <==> Acceptable(old(sources), rows)
      ensures report.Accepted? ==> Updates(old(sources), sources, rows)
      ensures report.Accepted? ==> Records(old(sources), old(changes), changes, rows)
      ensures report.Accepted? ==> Announces(report.events, old(changes), changes) && InRowOrder(report.events, rows)
      ensures report.Accepted? ==> ListsMissing(report.missing, sources)
      ensures report.Rejected? ==> sources == old(sources) && changes == old(changes)
      ensures report.Rejected? ==> Explains(report.error, old(sources), rows)
    {
      hide Process, LexLess, Iso, Valid, Expected, Covered, Acceptable, Updates, Records, Announces, ListsMissing,
        Explains, InRowOrder, DistinctSources;
      IngestLaw(State(), rows);
      if |rows| == 0 || |rows| > 1000 { return Rejected(BadSize); }
      var distinct := AllDistinct(rows);
      if !distinct { return Rejected(DuplicateSource); }
      var sources0, changes0 := sources, changes;
      ghost var before := State();
      ProcessNone(before);
      var events: seq<Event> := [];
      for i := 0 to |rows|
        invariant Process(before, rows[..i]) == Running(State(), events)
      {
        var row := rows[i];
        ProcessNext(before, rows, i);
        var timestamp := Stamp(row);
        ghost var st := State();
        if row.key in sources {
          var previous := sources[row.key];
          if LexLess(timestamp, previous.observedAt) {
            FailureSticks(before, rows, i + 1);
            sources, changes := sources0, changes0;
            return Rejected(Older);
          }
          if timestamp == previous.observedAt && previous.digest != row.sha256 {
            FailureSticks(before, rows, i + 1);
            sources, changes := sources0, changes0;
            return Rejected(Contradictory);
          }
          if previous.digest != row.sha256 {
            var id := Transition(row.key, previous.digest, row.sha256);
            if id !in changes {
              changes := changes[id := Change(timestamp, Owner(row.key.kind))];
              events := events + [Event(id, timestamp, Owner(row.key.kind))];
            }
          }
        }
        sources := sources[row.key := Source(row.sha256, timestamp)];
      }
      assert rows[..|rows|] == rows;
      report := Accepted(events, Expected() - Covered(Store(sources, changes)));
    }
  }
}
