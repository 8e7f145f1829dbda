/** The paged walks over account history: trades (filter while walking), ledger entries (filter
    after walking), and the chunked lookup of an order's trades. The server's history does not
    change during a walk. */
module Pagination {
  import opened Wrappers
  import Sequences

  /** A history row: what it is filtered by (symbol, asset or order id) and when it happened. */
  datatype Row = Row(id: string, tag: string, at: int)

  const MAX_PAGES: nat := 20
  const MAX_IDS: nat := 20

  /** A server with a fixed history, newest first, that answers an offset with a page of its
      own choosing and may or may not report the total count. */
  datatype Server = Server(history: seq<Row>, pageLen: nat -> nat, reportsCount: bool)

  ghost predicate NewestFirst(rows: seq<Row>) { forall i, j :: 0 <= i < j < |rows| ==> rows[i].at >= rows[j].at }

  /** Pages are never empty while history remains. */
  ghost predicate WellServed(sv: Server) {
    && NewestFirst(sv.history)
    && forall ofs: nat :: ofs < |sv.history| ==> 1 <= sv.pageLen(ofs) <= |sv.history| - ofs
  }

  function Page(sv: Server, ofs: nat): seq<Row> {
    if ofs < |sv.history| && ofs + sv.pageLen(ofs) <= |sv.history| then sv.history[ofs..ofs + sv.pageLen(ofs)] else []
  }

  /** Rows handed out by the first `k` pages. */
  function Offset(sv: Server, k: nat): nat {
    if k == 0 then 0 else Offset(sv, k - 1) + |Page(sv, Offset(sv, k - 1))|
  }

  predicate Matches(row: Row, tag: Option<string>) { tag.None? || row.tag == tag.value }

  function Filter(rows: seq<Row>, tag: Option<string>): seq<Row> {
    if rows == [] then [] else
      Filter(rows[..|rows| - 1], tag) + (if Matches(rows[|rows| - 1], tag) then [rows[|rows| - 1]] else [])
  }

  function Take(rows: seq<Row>, limit: nat): seq<Row> {
    if |rows| <= limit then rows else rows[..limit]
  }

  // --- stable sorting by time ---

  function SortKey(row: Row, newestFirst: bool): int { if newestFirst then -row.at else row.at }

  function Insert(x: Row, ys: seq<Row>, newestFirst: bool): seq<Row> {
    if ys == [] || SortKey(x, newestFirst) <= SortKey(ys[0], newestFirst) then [x] + ys
    else [ys[0]] + Insert(x, ys[1..], newestFirst)
  }

  function Sort(xs: seq<Row>, newestFirst: bool): seq<Row> {
    if xs == [] then [] else Insert(xs[0], Sort(xs[1..], newestFirst), newestFirst)
  }

  ghost predicate Sorted(xs: seq<Row>, newestFirst: bool) {
    forall i, j :: 0 <= i < j < |xs| ==> SortKey(xs[i], newestFirst) <= SortKey(xs[j], newestFirst)
  }

  lemma {:induction false} InsertKeepsAll(x: Row, ys: seq<Row>, newestFirst: bool)
    ensures multiset(Insert(x, ys, newestFirst)) == multiset(ys) + multiset{x}
  {
    if ys != [] {
      InsertKeepsAll(x, ys[1..], newestFirst);
      assert ys == [ys[0]] + ys[1..];
    }
  }

  lemma {:induction false} InsertSorted(x: Row, ys: seq<Row>, newestFirst: bool)
    requires Sorted(ys, newestFirst)
    ensures Sorted(Insert(x, ys, newestFirst), newestFirst)
  {
    if ys != [] && SortKey(x, newestFirst) > SortKey(ys[0], newestFirst) {
      InsertSorted(x, ys[1..], newestFirst);
      InsertKeepsAll(x, ys[1..], newestFirst);
      var rest := Insert(x, ys[1..], newestFirst);
      forall j | 0 <= j < |rest| ensures SortKey(ys[0], newestFirst) <= SortKey(rest[j], newestFirst) {
        assert rest[j] in multiset(rest);
        assert rest[j] == x || rest[j] in ys[1..];
      }
    }
  }

  lemma {:induction false} SortSorts(xs: seq<Row>, newestFirst: bool)
    ensures Sorted(Sort(xs, newestFirst), newestFirst)
    ensures multiset(Sort(xs, newestFirst)) == multiset(xs)
    ensures var ys := Sort(xs, newestFirst);
            forall i, j :: 0 <= i < j < |ys| ==> if newestFirst then ys[i].at >= ys[j].at else ys[i].at <= ys[j].at
  {
    if xs != [] {
      SortSorts(xs[1..], newestFirst);
      InsertSorted(xs[0], Sort(xs[1..], newestFirst), newestFirst);
      InsertKeepsAll(xs[0], Sort(xs[1..], newestFirst), newestFirst);
      assert xs == [xs[0]] + xs[1..];
    }
  }

  /** A stable sort leaves an ordered list alone, ties included. */
  lemma {:induction false} SortOfSorted(xs: seq<Row>, newestFirst: bool)
    requires Sorted(xs, newestFirst)
    ensures Sort(xs, newestFirst) == xs
  {
    if xs != [] {
      SortOfSorted(xs[1..], newestFirst);
      assert xs == [xs[0]] + xs[1..];
    }
  }

  // --- filters over prefixes ---

  lemma {:induction false} FilterAppend(xs: seq<Row>, ys: seq<Row>, tag: Option<string>)
    ensures Filter(xs + ys, tag) == Filter(xs, tag) + Filter(ys, tag)
  {
    if ys == [] {
      assert xs + ys == xs;
    } else {
      FilterAppend(xs, ys[..|ys| - 1], tag);
      Sequences.AppendSplit(xs, ys);
    }
  }

  lemma {:induction false} FilterKeepsOrder(rows: seq<Row>, tag: Option<string>)
    requires NewestFirst(rows)
    ensures Sorted(Filter(rows, tag), true)
    ensures forall row :: row in Filter(rows, tag) ==> row in rows && Matches(row, tag)
  {
    if rows != [] {
      var n := |rows| - 1;
      FilterKeepsOrder(rows[..n], tag);
      forall row | row in Filter(rows[..n], tag) ensures row.at >= rows[n].at {
        assert row in rows[..n];
      }
    }
  }

  /** A filter keeps a row as often as it occurs when it carries the tag asked for, or none was, and
      drops it otherwise. */
  lemma {:induction false} FilterExactly(rows: seq<Row>, tag: Option<string>, row: Row)
    ensures multiset(Filter(rows, tag))[row] ==
            if tag == None || tag == Some(row.tag) then multiset(rows)[row] else 0
  {
    if rows != [] {
      var n := |rows| - 1;
      FilterExactly(rows[..n], tag, row);
      assert rows == rows[..n] + [rows[n]];
      Sequences.SnocCount(rows[..n], rows[n], row);
      Sequences.SnocCount(Filter(rows[..n], tag), rows[n], row);
    }
  }

  lemma {:induction false} FilterNone(rows: seq<Row>)
    ensures Filter(rows, None) == rows
  {
    if rows != [] {
      FilterNone(rows[..|rows| - 1]);
      assert rows == rows[..|rows| - 1] + [rows[|rows| - 1]];
    }
  }

  /** Stopping after `seen` rows gives the right answer exactly when those rows already hold
      enough matches, or the rest holds none. */
  lemma {:induction false} TruncationExact(rows: seq<Row>, seen: nat, tag: Option<string>, limit: nat)
    requires seen <= |rows|
    ensures Take(Filter(rows[..seen], tag), limit) == Take(Filter(rows, tag), limit) <==>
            |Filter(rows[..seen], tag)| >= limit || Filter(rows[seen..], tag) == []
  {
    FilterAppend(rows[..seen], rows[seen..], tag);
    assert rows == rows[..seen] + rows[seen..];
    var first, rest := Filter(rows[..seen], tag), Filter(rows[seen..], tag);
    if |first| < limit && rest != [] {
      assert |Take(first + rest, limit)| > |Take(first, limit)|;
    } else if |first| >= limit {
      assert (first + rest)[..limit] == first[..limit];
    } else {
      assert first + rest == first;
    }
  }

  // --- offsets ---

  lemma {:induction false} OffsetBounds(sv: Server, k: nat)
    requires WellServed(sv)
    ensures Offset(sv, k) <= |sv.history|
    ensures Offset(sv, k) < |sv.history| ==> Offset(sv, k) >= k && Offset(sv, k + 1) > Offset(sv, k)
    ensures Offset(sv, k) == |sv.history| ==> Offset(sv, k + 1) == Offset(sv, k)
  {
    if k > 0 { OffsetBounds(sv, k - 1); }
  }

  /** With full pages of fifty, twenty pages cover a thousand rows. */
  lemma {:induction false} FiftyPerPage(sv: Server, k: nat)
    requires WellServed(sv)
    requires forall ofs: nat :: ofs < |sv.history| ==>
               sv.pageLen(ofs) == (if |sv.history| - ofs < 50 then |sv.history| - ofs else 50)
    ensures Offset(sv, k) == if 50 * k <= |sv.history| then 50 * k else |sv.history|
  {
    if k > 0 { FiftyPerPage(sv, k - 1); }
  }

  lemma {:induction false} NextPage(sv: Server, k: nat, tag: Option<string>)
    requires WellServed(sv)
    ensures Offset(sv, k) <= |sv.history| && Offset(sv, k + 1) <= |sv.history|
    ensures Offset(sv, k + 1) == Offset(sv, k) + |Page(sv, Offset(sv, k))|
    ensures sv.history[..Offset(sv, k + 1)] == sv.history[..Offset(sv, k)] + Page(sv, Offset(sv, k))
    ensures Filter(sv.history[..Offset(sv, k + 1)], tag) ==
            Filter(sv.history[..Offset(sv, k)], tag) + Filter(Page(sv, Offset(sv, k)), tag)
    ensures Page(sv, Offset(sv, k)) == [] ==> Offset(sv, k) == |sv.history|
  {
    OffsetBounds(sv, k);
    OffsetBounds(sv, k + 1);
    assert sv.history[..Offset(sv, k + 1)] == sv.history[..Offset(sv, k)] + Page(sv, Offset(sv, k));
    FilterAppend(sv.history[..Offset(sv, k)], Page(sv, Offset(sv, k)), tag);
  }

  // --- the walks ---

  /** The rows of a page that match, one by one. */
  method CollectMatching(rows: seq<Row>, page: seq<Row>, tag: Option<string>) returns (more: seq<Row>)
    ensures more == rows + Filter(page, tag)
  {
    more := rows;
    for i := 0 to |page|
      invariant more == rows + Filter(page[..i], tag)
    {
      assert page[..i + 1][..i] == page[..i];
      if Matches(page[i], tag) {
        more := more + [page[i]];
      }
    }
    assert page[..|page|] == page;
  }

  /** Request `j` is the last one needed: the matches fill the limit, or nothing is left. Without
      a reported count the end of history only shows as an empty page, one request later. */
  ghost predicate Stops(sv: Server, tag: Option<string>, limit: nat, j: nat)
    requires j >= 1 && Offset(sv, j) <= |sv.history|
  {
    |Filter(sv.history[..Offset(sv, j)], tag)| >= limit ||
    (if sv.reportsCount then Offset(sv, j) == |sv.history| else Offset(sv, j - 1) == |sv.history|)
  }

  /** When the trade walk stops: at the first request that suffices, or at the page cap. */
  ghost predicate TradeStop(sv: Server, tag: Option<string>, limit: nat, k: nat)
    requires forall j: nat :: Offset(sv, j) <= |sv.history|
  {
    && 1 <= k <= 20
    && (forall j: nat :: 1 <= j < k ==> !Stops(sv, tag, limit, j))
    && (k == 20 || Stops(sv, tag, limit, k))
  }

  lemma {:induction false} OffsetsWithin(sv: Server)
    requires WellServed(sv)
    ensures forall j: nat :: Offset(sv, j) <= |sv.history|
  {
    forall j: nat ensures Offset(sv, j) <= |sv.history| { OffsetBounds(sv, j); }
  }

  /** A walk that stopped after `k` pages answers "filter, then take `limit`" of the whole history
      if and only if those pages hold enough matches or the rest holds none. */
  ghost predicate ExactAfter(sv: Server, tag: Option<string>, limit: nat, k: nat, answer: seq<Row>)
    requires Offset(sv, k) <= |sv.history|
  {
    answer == Take(Filter(sv.history, tag), limit) <==>
    |Filter(sv.history[..Offset(sv, k)], tag)| >= limit || Filter(sv.history[Offset(sv, k)..], tag) == []
  }

  /** Trades of a symbol, most recent first: "filter, then take `limit`" of the rows of the pages
      fetched. The walk stops as soon as it may; the answer is complete exactly when the pages
      hold enough or the rest holds nothing, and always when twenty pages suffice. */
  method GetTradeHistory(sv: Server, symbol: Option<string>, limit: nat) returns (trades: seq<Row>, requests: nat)
    requires WellServed(sv)
    ensures forall j: nat :: Offset(sv, j) <= |sv.history|
    ensures TradeStop(sv, symbol, limit, requests)
    ensures trades == Take(Filter(sv.history[..Offset(sv, requests)], symbol), limit) && |trades| <= limit
    ensures forall i, j :: 0 <= i < j < |trades| ==> trades[i].at >= trades[j].at
    ensures ExactAfter(sv, symbol, limit, requests, trades)
    ensures Offset(sv, 20) == |sv.history| || |Filter(sv.history[..Offset(sv, 20)], symbol)| >= limit ==>
              trades == Take(Filter(sv.history, symbol), limit)
  {
    hide Filter, Page, WellServed, Stops, Offset, Take, Sort;
    OffsetsWithin(sv);
    NothingFetchedYet(sv, symbol);
    trades := [];
    var offset: nat := 0;
    requests := 0;
    var totalCount: Option<nat> := None;
    while requests < MAX_PAGES
      invariant requests <= MAX_PAGES
      invariant offset == Offset(sv, requests)
      invariant trades == Filter(sv.history[..offset], symbol)
      invariant totalCount == if requests > 0 && sv.reportsCount then Some(|sv.history|) else None
      invariant forall j: nat :: 1 <= j <= requests ==> !Stops(sv, symbol, limit, j)
      decreases MAX_PAGES - requests
    {
      var page := Page(sv, offset);
      NextPage(sv, requests, symbol);
      requests := requests + 1;
      StopsUnfolded(sv, symbol, limit, requests);
      if page == [] { break; }
      trades := CollectMatching(trades, page, symbol);
      offset := offset + |page|;
      if totalCount.None? && sv.reportsCount { totalCount := Some(|sv.history|); }
      if totalCount.Some? && offset >= totalCount.value { break; }
      if |trades| >= limit { break; }
    }
    WalkSorted(sv, symbol, requests);
    WalkComplete(sv, symbol, limit, requests);
    TruncationExact(sv.history, Offset(sv, requests), symbol, limit);
    AnswerNewestFirst(sv, symbol, limit, requests);
    trades := Take(Sort(trades, true), limit);
  }

  lemma {:induction false} AnswerNewestFirst(sv: Server, tag: Option<string>, limit: nat, k: nat)
    requires WellServed(sv)
    ensures Offset(sv, k) <= |sv.history|
    ensures var answer := Take(Filter(sv.history[..Offset(sv, k)], tag), limit);
            && |answer| <= limit
            && forall i, j :: 0 <= i < j < |answer| ==> answer[i].at >= answer[j].at
  {
    hide Filter, Offset;
    OffsetBounds(sv, k);
    PrefixNewestFirst(sv, Offset(sv, k));
    FilterKeepsOrder(sv.history[..Offset(sv, k)], tag);
    var rows := Filter(sv.history[..Offset(sv, k)], tag);
    assert forall i, j :: 0 <= i < j < |rows| ==> SortKey(rows[i], true) <= SortKey(rows[j], true);
  }

  /** What was collected is already newest first, so sorting it changes nothing. */
  lemma {:induction false} WalkSorted(sv: Server, tag: Option<string>, k: nat)
    requires WellServed(sv)
    ensures Offset(sv, k) <= |sv.history|
    ensures Sort(Filter(sv.history[..Offset(sv, k)], tag), true) == Filter(sv.history[..Offset(sv, k)], tag)
  {
    OffsetBounds(sv, k);
    PrefixNewestFirst(sv, Offset(sv, k));
    FilterKeepsOrder(sv.history[..Offset(sv, k)], tag);
    SortOfSorted(Filter(sv.history[..Offset(sv, k)], tag), true);
  }

  /** A walk that stopped for lack of history, for having enough, or at the page cap, answers
      completely whenever the page cap allows it. */
  lemma {:induction false} WalkComplete(sv: Server, tag: Option<string>, limit: nat, k: nat)
    requires WellServed(sv) && k <= 20 && Offset(sv, k) <= |sv.history|
    requires Offset(sv, k) == |sv.history| || |Filter(sv.history[..Offset(sv, k)], tag)| >= limit || k == 20
    ensures Offset(sv, 20) <= |sv.history|
    ensures Offset(sv, 20) == |sv.history| || |Filter(sv.history[..Offset(sv, 20)], tag)| >= limit ==>
              Take(Filter(sv.history[..Offset(sv, k)], tag), limit) == Take(Filter(sv.history, tag), limit)
  {
    OffsetBounds(sv, MAX_PAGES);
    TruncationExact(sv.history, Offset(sv, k), tag, limit);
    if Offset(sv, k) == |sv.history| { assert sv.history[..|sv.history|] == sv.history; }
  }

  lemma {:induction false} NothingFetchedYet(sv: Server, tag: Option<string>)
    ensures Offset(sv, 0) == 0 && Filter(sv.history[..0], tag) == []
  {
  }

  lemma {:induction false} StopsUnfolded(sv: Server, tag: Option<string>, limit: nat, j: nat)
    requires j >= 1 && Offset(sv, j) <= |sv.history|
    ensures Stops(sv, tag, limit, j) <==>
            |Filter(sv.history[..Offset(sv, j)], tag)| >= limit ||
            (if sv.reportsCount then Offset(sv, j) == |sv.history| else Offset(sv, j - 1) == |sv.history|)
  {
  }

  lemma {:induction false} PrefixNewestFirst(sv: Server, n: nat)
    requires WellServed(sv) && n <= |sv.history|
    ensures NewestFirst(sv.history[..n])
  {
  }

  const PAGE_DELAY_SECONDS: nat := 2

  /** When the ledger walk stops: it counts raw rows against the limit, before any filtering. */
  ghost predicate LedgerStop(sv: Server, limit: nat, k: nat) {
    && k <= 20
    && (forall j: nat :: j < k ==> Offset(sv, j) < limit)
    && (Offset(sv, k) >= limit || Offset(sv, k) == |sv.history| || k == 20)
  }

  /** Ledger entries of an asset. The rows are those of the pages fetched until `limit` raw rows
      were seen; the asset filter comes after that. Pages after the first are paced. */
  method GetLedgerEntries(sv: Server, asset: Option<string>, limit: nat)
    returns (entries: seq<Row>, requests: nat, slept: nat)
    requires WellServed(sv)
    ensures LedgerStop(sv, limit, requests)
    ensures slept == if requests == 0 then 0 else 2 * (requests - 1)
    ensures Offset(sv, requests) <= |sv.history|
    ensures entries == Take(Filter(sv.history[..Offset(sv, requests)], asset), limit) && |entries| <= limit
    ensures forall i, j :: 0 <= i < j < |entries| ==> entries[i].at >= entries[j].at
    ensures ExactAfter(sv, asset, limit, requests, entries)
    ensures asset.None? && (Offset(sv, 20) == |sv.history| || Offset(sv, 20) >= limit) ==>
              entries == Take(sv.history, limit)
  {
    hide Filter, Page, WellServed, Take, Sort;
    entries := [];
    slept := 0;
    requests := 0;
    var offset: nat := 0;
    var totalCount: Option<nat> := None;
    NothingFetchedYet(sv, None);
    hide Offset;
    while requests < MAX_PAGES && |entries| < limit
      invariant requests <= MAX_PAGES
      invariant offset == Offset(sv, requests) <= |sv.history|
      invariant entries == Filter(sv.history[..offset], None) && |entries| == offset
      invariant forall j: nat :: j < requests ==> Offset(sv, j) < limit
      invariant totalCount.Some? ==> totalCount.value == |sv.history|
      invariant slept == if requests == 0 then 0 else PAGE_DELAY_SECONDS * (requests - 1)
      decreases MAX_PAGES - requests
    {
      if requests > 0 { slept := slept + PAGE_DELAY_SECONDS; }
      var page := Page(sv, offset);
      NextPage(sv, requests, None);
      FilterNone(page);
      requests := requests + 1;
      if page == [] { break; }
      entries := entries + page;
      offset := offset + |page|;
      if totalCount.None? && sv.reportsCount { totalCount := Some(|sv.history|); }
      if totalCount.Some? && offset >= totalCount.value { break; }
    }
    AnswerNewestFirst(sv, asset, limit, requests);
    WalkSorted(sv, None, requests);
    entries := Sort(entries, true);
    LedgerAnswer(sv, limit, requests);
    LedgerExact(sv, asset, limit, requests);
    if asset.Some? {
      ghost var all := entries;
      entries := CollectMatching([], entries, asset);
      assert [] + Filter(all, asset) == Filter(all, asset);
    }
    entries := Take(entries, limit);
  }

  lemma {:induction false} LedgerAnswer(sv: Server, limit: nat, k: nat)
    requires WellServed(sv) && LedgerStop(sv, limit, k)
    ensures Offset(sv, k) <= |sv.history|
    ensures var prefix := sv.history[..Offset(sv, k)];
            && Filter(prefix, None) == prefix
            && (Offset(sv, 20) == |sv.history| || Offset(sv, 20) >= limit ==>
                  Take(prefix, limit) == Take(sv.history, limit))
  {
    hide Offset, Filter;
    OffsetBounds(sv, k);
    var prefix := sv.history[..Offset(sv, k)];
    FilterNone(prefix);
    OffsetBounds(sv, MAX_PAGES);
    if Offset(sv, k) == |sv.history| { assert prefix == sv.history; }
    if Offset(sv, k) >= limit { assert prefix[..limit] == sv.history[..limit]; }
  }

  /** Exactly when the ledger walk answers as the trade walk promises to: at the point where it
      stops, counting raw rows, the rows seen hold enough entries of the asset, or the rows not
      seen hold none. */
  lemma {:induction false} LedgerExact(sv: Server, asset: Option<string>, limit: nat, k: nat)
    requires WellServed(sv) && LedgerStop(sv, limit, k)
    ensures Offset(sv, k) <= |sv.history|
    ensures Take(Filter(sv.history[..Offset(sv, k)], asset), limit) == Take(Filter(sv.history, asset), limit) <==>
            |Filter(sv.history[..Offset(sv, k)], asset)| >= limit || Filter(sv.history[Offset(sv, k)..], asset) == []
  {
    OffsetBounds(sv, k);
    TruncationExact(sv.history, Offset(sv, k), asset, limit);
  }

  /** Counting raw rows loses matching ones: two rows, one of them of the asset asked for, and a
      limit of one. Every walk that stops as the code does answers with nothing. */
  lemma {:induction false} LedgerMissesOlderEntries(k: nat)
    ensures var sv := Server([Row("L2", "USD", 20), Row("L1", "ETH", 10)], _ => 1, true);
            && WellServed(sv)
            && (LedgerStop(sv, 1, k) ==>
                  && Offset(sv, k) <= 2
                  && Take(Filter(sv.history[..Offset(sv, k)], Some("ETH")), 1) == []
                  && Take(Filter(sv.history, Some("ETH")), 1) == [Row("L1", "ETH", 10)])
  {
    var sv := Server([Row("L2", "USD", 20), Row("L1", "ETH", 10)], _ => 1, true);
    assert Offset(sv, 1) == 1;
    if LedgerStop(sv, 1, k) {
      assert k <= 1;
      assert sv.history[..1][..0] == [];
      assert sv.history[..1][0] == Row("L2", "USD", 20);
      assert Filter(sv.history[..1], Some("ETH")) == [];
    }
  }

  // --- an order's own trades ---

  type Known = map<string, Row>

  /** What the exchange knows about the requested ids. */
  function Rows(known: Known, ids: seq<string>): seq<Row> {
    if ids == [] then [] else
      Rows(known, ids[..|ids| - 1]) + (if ids[|ids| - 1] in known then [known[ids[|ids| - 1]]] else [])
  }

  function Flatten(chunks: seq<seq<string>>): seq<string> {
    if chunks == [] then [] else Flatten(chunks[..|chunks| - 1]) + chunks[|chunks| - 1]
  }

  lemma {:induction false} RowsAppend(known: Known, xs: seq<string>, ys: seq<string>)
    ensures Rows(known, xs + ys) == Rows(known, xs) + Rows(known, ys)
  {
    if ys == [] {
      assert xs + ys == xs;
    } else {
      RowsAppend(known, xs, ys[..|ys| - 1]);
      Sequences.AppendSplit(xs, ys);
    }
  }

  /** The ids of a request as the keys of a dictionary: each once. */
  function Keys(ids: seq<string>): seq<string> {
    if ids == [] then [] else
      var before := ids[..|ids| - 1];
      if ids[|ids| - 1] in before then Keys(before) else Keys(before) + [ids[|ids| - 1]]
  }

  /** What the requests bring back, page after page; a page holds an id at most once. */
  function Fetched(known: Known, requests: seq<seq<string>>): seq<Row> {
    if requests == [] then [] else
      Fetched(known, requests[..|requests| - 1]) + Rows(known, Keys(requests[|requests| - 1]))
  }

  predicate NoRepeats(ids: seq<string>) { forall i, j :: 0 <= i < j < |ids| ==> ids[i] != ids[j] }

  lemma {:induction false} KeysOf(ids: seq<string>)
    ensures forall id :: id in Keys(ids) <==> id in ids
    ensures NoRepeats(Keys(ids))
    ensures NoRepeats(ids) ==> Keys(ids) == ids
  {
    if ids != [] {
      var n := |ids| - 1;
      KeysOf(ids[..n]);
      assert ids == ids[..n] + [ids[n]];
    }
  }

  lemma {:induction false} RowsMembers(known: Known, ids: seq<string>)
    ensures forall row :: row in Rows(known, ids) <==> exists id :: id in ids && id in known && known[id] == row
  {
    if ids != [] {
      var n := |ids| - 1;
      RowsMembers(known, ids[..n]);
      assert ids == ids[..n] + [ids[n]];
    }
  }

  /** Taking the keys of a request drops repeats and nothing else. */
  lemma {:induction false} KeysRows(known: Known, ids: seq<string>)
    ensures forall row :: row in Rows(known, Keys(ids)) <==> row in Rows(known, ids)
    ensures NoRepeats(ids) ==> Rows(known, Keys(ids)) == Rows(known, ids)
  {
    hide Rows, Keys, NoRepeats;
    KeysOf(ids);
    RowsMembers(known, ids);
    RowsMembers(known, Keys(ids));
  }

  lemma {:induction false} RepeatsInParts(xs: seq<string>, ys: seq<string>)
    requires NoRepeats(xs + ys)
    ensures NoRepeats(xs) && NoRepeats(ys)
  {
    assert forall i :: 0 <= i < |xs| ==> (xs + ys)[i] == xs[i];
    assert forall i :: 0 <= i < |ys| ==> (xs + ys)[|xs| + i] == ys[i];
  }

  /** However the ids are cut into requests: every known trade among them comes back, nothing
      else does, and without repeated ids each comes back as often as it was asked for. */
  lemma {:induction false} FetchedExact(known: Known, requests: seq<seq<string>>)
    ensures forall row :: row in Fetched(known, requests) <==> row in Rows(known, Flatten(requests))
    ensures NoRepeats(Flatten(requests)) ==> Fetched(known, requests) == Rows(known, Flatten(requests))
  {
    hide Rows, Keys, NoRepeats;
    if requests != [] {
      var n := |requests| - 1;
      var before, chunk := Flatten(requests[..n]), requests[n];
      FetchedExact(known, requests[..n]);
      RowsAppend(known, before, chunk);
      KeysRows(known, chunk);
      if NoRepeats(before + chunk) { RepeatsInParts(before, chunk); }
    } else {
      NoRows(known);
    }
  }

  lemma {:induction false} NoRows(known: Known)
    ensures Rows(known, []) == []
  {
  }

  lemma {:induction false} FilterMembers(rows: seq<Row>, tag: Option<string>)
    ensures forall row :: row in Filter(rows, tag) <==> row in rows && Matches(row, tag)
  {
    if rows != [] {
      var n := |rows| - 1;
      FilterMembers(rows[..n], tag);
      assert rows == rows[..n] + [rows[n]];
    }
  }

  /** The trades of one order by its own id list, oldest first: every id is asked for once, in
      requests of at most twenty, and exactly the known trades of this order come back. A
      response is a dictionary, so an id repeated within a request brings its trade once. */
  method GetOrderTrades(known: Known, ids: seq<string>, order: string)
    returns (trades: seq<Row>, requests: seq<seq<string>>)
    ensures Flatten(requests) == ids
    ensures forall i :: 0 <= i < |requests| ==> 1 <= |requests[i]| <= 20
    ensures |requests| == (|ids| + 19) / 20
    ensures forall i, j :: 0 <= i < j < |trades| ==> trades[i].at <= trades[j].at
    ensures multiset(trades) == multiset(Filter(Fetched(known, requests), Some(order)))
    ensures forall row :: row in trades <==> row in Rows(known, ids) && row.tag == order
    ensures NoRepeats(ids) ==> multiset(trades) == multiset(Filter(Rows(known, ids), Some(order)))
  {
    hide Rows, Keys, NoRepeats, Filter;
    trades, requests := [], [];
    var start := 0;
    NothingFetched(known, Some(order));
    while start < |ids|
      invariant start <= |ids| && (start < |ids| ==> start == MAX_IDS * |requests|)
      invariant start == |ids| ==> |requests| == (|ids| + MAX_IDS - 1) / MAX_IDS
      invariant Flatten(requests) == ids[..start]
      invariant forall i :: 0 <= i < |requests| ==> 1 <= |requests[i]| <= MAX_IDS
      invariant trades == Filter(Fetched(known, requests), Some(order))
      decreases |ids| - start
    {
      var next := if start + MAX_IDS <= |ids| then start + MAX_IDS else |ids|;
      var chunk := ids[start..next];
      assert ids[..next] == ids[..start] + chunk;
      var page := Rows(known, Keys(chunk));
      FilterAppend(Fetched(known, requests), page, Some(order));
      trades := CollectMatching(trades, page, Some(order));
      assert (requests + [chunk])[..|requests|] == requests;
      requests := requests + [chunk];
      start := next;
    }
    assert ids[..|ids|] == ids;
    FetchedExact(known, requests);
    ghost var found := trades;
    FilterMembers(Fetched(known, requests), Some(order));
    SortSorts(trades, false);
    trades := Sort(trades, false);
    assert forall row :: row in trades <==> row in multiset(trades);
    assert forall row :: row in found <==> row in multiset(found);
  }

  lemma {:induction false} NothingFetched(known: Known, tag: Option<string>)
    ensures Filter(Fetched(known, []), tag) == []
  {
  }
}
