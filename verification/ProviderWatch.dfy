/** The provider watch ledger as a value: batches of observed digests, accepted or rejected as a
    whole, with every change of a source's digest recorded and reported once. Digests of distinct
    transitions are taken to be distinct, so a transition is its own identifier. */
module ProviderWatch {
  import opened Wrappers
  import opened IsoTime

  datatype Kind = Contract | Pricing | Models

  datatype Key = Key(provider: string, kind: Kind, url: string)

  datatype Observation = Observation(key: Key, observedAt: Utc, sha256: string)

  datatype Source = Source(digest: string, observedAt: string)

  datatype Transition = Transition(key: Key, before: string, after: string)

  datatype Change = Change(observedAt: string, owner: string)

  datatype Event = Event(id: Transition, observedAt: string, owner: string)

  datatype Store = Store(sources: map<Key, Source>, changes: map<Transition, Change>)

  datatype Error = BadSize | DuplicateSource | Older | Contradictory

  datatype Report = Accepted(events: seq<Event>, missing: set<(string, Kind)>) | Rejected(error: Error)

  const PROVIDERS: set<string> := {"kraken", "ollama", "ollama_cloud", "anthropic", "openai", "google", "atlas"}

  function Owner(kind: Kind): string {
    match kind
    case Contract => "provider-integrator"
    case Pricing => "provider-integrator"
    case Models => "model-review-owner"
  }

  /** Timestamps are validated before a batch is ingested. */
  predicate Timed(rows: seq<Observation>) { forall i :: 0 <= i < |rows| ==> Valid(rows[i].observedAt) }

  function Stamp(row: Observation): string requires Valid(row.observedAt) { Iso(row.observedAt) }

  function SourceOf(row: Observation): Source requires Valid(row.observedAt) { Source(row.sha256, Stamp(row)) }

  /** Why a row stops the batch, if it does. */
  function Refusal(st: Store, row: Observation): Option<Error> requires Valid(row.observedAt) {
    if row.key !in st.sources then None
    else
      var previous := st.sources[row.key];
      if LexLess(Stamp(row), previous.observedAt) then Some(Older)
      else if Stamp(row) == previous.observedAt && previous.digest != row.sha256 then Some(Contradictory)
      else None
  }

  predicate Changes(st: Store, row: Observation) {
    row.key in st.sources && st.sources[row.key].digest != row.sha256
  }

  function TransitionOf(st: Store, row: Observation): Transition
    requires Changes(st, row)
  {
    Transition(row.key, st.sources[row.key].digest, row.sha256)
  }

  predicate Reports(st: Store, row: Observation) { Changes(st, row) && TransitionOf(st, row) !in st.changes }

  function EventOf(st: Store, row: Observation): Event
    requires Valid(row.observedAt) && Changes(st, row)
  {
    Event(TransitionOf(st, row), Stamp(row), Owner(row.key.kind))
  }

  /** An accepted row: its change recorded unless known, its source brought up to date. */
  function Record(st: Store, row: Observation): Store requires Valid(row.observedAt) {
    Store(st.sources[row.key := SourceOf(row)],
          if Reports(st, row) then st.changes[TransitionOf(st, row) := Change(Stamp(row), Owner(row.key.kind))]
          else st.changes)
  }

  datatype Progress = Running(store: Store, events: seq<Event>) | Failed(error: Error)

  /** The loop over the rows of a batch. */
  function Process(st: Store, rows: seq<Observation>): Progress requires Timed(rows) {
    if rows == [] then Running(st, []) else
      var n := |rows| - 1;
      var p := Process(st, rows[..n]);
      if p.Failed? then p
      else if Refusal(p.store, rows[n]).Some? then Failed(Refusal(p.store, rows[n]).value)
      else Running(Record(p.store, rows[n]),
                   p.events + (if Reports(p.store, rows[n]) then [EventOf(p.store, rows[n])] else []))
  }

  predicate DistinctSources(rows: seq<Observation>) {
    forall i, j :: 0 <= i < j < |rows| ==> rows[i].key != rows[j].key
  }

  predicate Admissible(rows: seq<Observation>) { 1 <= |rows| <= 1000 && DistinctSources(rows) }

  function Expected(): set<(string, Kind)> {
    set p, k | p in PROVIDERS && k in {Contract, Pricing, Models} && (p != "kraken" || k == Contract) :: (p, k)
  }

  function Covered(st: Store): set<(string, Kind)> { set key | key in st.sources :: (key.provider, key.kind) }

  predicate Accepts(st: Store, rows: seq<Observation>) requires Timed(rows) {
    Admissible(rows) && Process(st, rows).Running?
  }

  /** The store after a batch: all of it or none of it. */
  function After(st: Store, rows: seq<Observation>): Store requires Timed(rows) {
    if Accepts(st, rows) then Process(st, rows).store else st
  }

  function EventsOf(st: Store, rows: seq<Observation>): seq<Event> requires Timed(rows) {
    if Accepts(st, rows) then Process(st, rows).events else []
  }

  /** What the caller gets back: the refusal of the first offending row, or the report. */
  function Outcome(st: Store, rows: seq<Observation>): Report requires Timed(rows) {
    if |rows| == 0 || |rows| > 1000 then Rejected(BadSize)
    else if !DistinctSources(rows) then Rejected(DuplicateSource)
    else match Process(st, rows)
      case Failed(error) => Rejected(error)
      case Running(store, events) => Accepted(events, Expected() - Covered(store))
  }

  method AllDistinct(rows: seq<Observation>) returns (distinct: bool)
    ensures distinct <==> DistinctSources(rows)
  {
    var seen: set<Key> := {};
    distinct := true;
    for i := 0 to |rows|
      invariant seen == set j | 0 <= j < i :: rows[j].key
      invariant distinct <==> DistinctSources(rows[..i])
    {
      if rows[i].key in seen {
        var j :| 0 <= j < i && rows[j].key == rows[i].key;
        assert rows[..i + 1][j].key == rows[..i + 1][i].key;
        distinct := false;
      }
      assert DistinctSources(rows[..i + 1]) ==> DistinctSources(rows[..i]) by {
        assert forall k :: 0 <= k < i ==> rows[..i][k] == rows[..i + 1][k];
      }
      seen := seen + {rows[i].key};
    }
    assert rows[..|rows|] == rows;
  }

  lemma {:induction false} ProcessNone(st: Store)
    ensures Process(st, []) == Running(st, [])
  {
  }

  lemma {:induction false} ProcessNext(st: Store, rows: seq<Observation>, i: nat)
    requires Timed(rows) && i < |rows| && Process(st, rows[..i]).Running?
    ensures var p := Process(st, rows[..i]);
            Process(st, rows[..i + 1]) ==
            if Refusal(p.store, rows[i]).Some? then Failed(Refusal(p.store, rows[i]).value)
            else Running(Record(p.store, rows[i]),
                         p.events + (if Reports(p.store, rows[i]) then [EventOf(p.store, rows[i])] else []))
  {
    hide LexLess, Iso, Valid, Refusal, Record;
    assert rows[..i + 1][..i] == rows[..i];
  }

  lemma {:induction false} FailureSticks(st: Store, rows: seq<Observation>, k: nat)
    requires Timed(rows) && k <= |rows| && Process(st, rows[..k]).Failed?
    ensures Process(st, rows) == Process(st, rows[..k])
    decreases |rows| - k
  {
    if k < |rows| {
      assert rows[..k + 1][..k] == rows[..k];
      FailureSticks(st, rows, k + 1);
    } else {
      assert rows[..k] == rows;
    }
  }
}
