/** The 24-hour statistics and the log pages, as queries on request_logs. */
module RequestLogs {
  import opened Store
  import opened Sorting

  datatype Outcome = Any | OnlySuccess | OnlyFailure

  /** route "" means any route; an unknown result text means Any. */
  datatype LogFilter = LogFilter(route: string, outcome: Outcome, limit: int, offset: int)

  predicate Matches(row: LogRow, since: Time, filter: LogFilter) {
    && row.entry.ts >= since
    && (filter.route == "" || row.entry.route == filter.route)
    && (filter.outcome == OnlySuccess ==> row.entry.success)
    && (filter.outcome == OnlyFailure ==> !row.entry.success)
  }

  function Matching(logs: seq<LogRow>, since: Time, filter: LogFilter): seq<LogRow> {
    if logs == [] then []
    else
      var rest := Matching(logs[..|logs| - 1], since, filter);
      var last := logs[|logs| - 1];
      if Matches(last, since, filter) then rest + [last] else rest
  }

  /** ORDER BY request_ts DESC, id DESC. */
  const NEWEST: (LogRow, LogRow) -> bool :=
    (a: LogRow, b: LogRow) => a.entry.ts > b.entry.ts || (a.entry.ts == b.entry.ts && a.id > b.id)

  function Limit(filter: LogFilter): int {
    if filter.limit <= 0 || filter.limit > 500 then 100 else filter.limit
  }

  function Offset(filter: LogFilter): int {
    if filter.offset < 0 then 0 else filter.offset
  }

  function Page(rows: seq<LogRow>, limit: nat, offset: nat): seq<LogRow> {
    if offset >= |rows| then []
    else if offset + limit >= |rows| then rows[offset..]
    else rows[offset..offset + limit]
  }

  /** ListRequestLogs. */
  function ListLogs(logs: seq<LogRow>, since: Time, filter: LogFilter): seq<LogRow> {
    Page(StableSort(NEWEST, Matching(logs, since, filter)), Limit(filter), Offset(filter))
  }

  datatype Stats = Stats(total: nat, successes: nat, failures: nat)

  function Count(logs: seq<LogRow>, since: Time, success: bool): nat {
    if logs == [] then 0
    else
      var last := logs[|logs| - 1];
      Count(logs[..|logs| - 1], since, success) + if last.entry.ts >= since && last.entry.success == success then 1 else 0
  }

  /** Get24hStats: COUNT(*) and the two conditional sums. */
  function StatsSince(logs: seq<LogRow>, since: Time): Stats {
    Stats(|Since(logs, since)|, Count(logs, since, true), Count(logs, since, false))
  }

  /** The positions of the rows of the window with the given outcome. */
  function CountedAt(logs: seq<LogRow>, since: Time, success: bool): set<nat> {
    set i: nat | i < |logs| && logs[i].entry.ts >= since && logs[i].entry.success == success
  }

  /** What a row must have to be listed. */
  predicate Asked(row: LogRow, since: Time, filter: LogFilter) {
    && row.entry.ts >= since && (filter.route == "" || row.entry.route == filter.route)
    && match filter.outcome
       case Any => true
       case OnlySuccess => row.entry.success
       case OnlyFailure => !row.entry.success
  }

  /** Descending by time, and by id among rows of one time. */
  ghost predicate NewestFirst(rows: seq<LogRow>) {
    forall i, j :: 0 <= i < j < |rows| ==>
      rows[i].entry.ts > rows[j].entry.ts || (rows[i].entry.ts == rows[j].entry.ts && rows[i].id >= rows[j].id)
  }

  /** The rows are what the query asks for, each as often as it is stored. */
  ghost predicate Found(rows: seq<LogRow>, logs: seq<LogRow>, since: Time, filter: LogFilter) {
    NewestFirst(rows) && forall row :: multiset(rows)[row] == if Asked(row, since, filter) then multiset(logs)[row] else 0
  }

  /** The page holds the rows from the offset on, up to the limit: 100 unless it is within 1..500. */
  predicate IsPage(page: seq<LogRow>, rows: seq<LogRow>, filter: LogFilter) {
    var limit, offset := if 1 <= filter.limit <= 500 then filter.limit else 100, if filter.offset > 0 then filter.offset else 0;
    page == if offset >= |rows| then [] else if offset + limit < |rows| then rows[offset..offset + limit] else rows[offset..]
  }

  /** The page of what the query finds. */
  ghost predicate Answers(page: seq<LogRow>, logs: seq<LogRow>, since: Time, filter: LogFilter) {
    exists rows :: Found(rows, logs, since, filter) && IsPage(page, rows, filter)
  }

  // ---------- The implementations ----------

  method Get24hStats(logs: seq<LogRow>, since: Time) returns (stats: Stats)
    ensures stats == StatsSince(logs, since)
    ensures stats.successes == |CountedAt(logs, since, true)| && stats.failures == |CountedAt(logs, since, false)|
    ensures stats.total == stats.successes + stats.failures
  {
    var total, successes, failures := 0, 0, 0;
    for i := 0 to |logs|
      invariant total == |Since(logs[..i], since)|
      invariant successes == Count(logs[..i], since, true) && failures == Count(logs[..i], since, false)
    {
      assert logs[..i + 1][..i] == logs[..i];
      if logs[i].entry.ts >= since {
        total := total + 1;
        if logs[i].entry.success { successes := successes + 1; } else { failures := failures + 1; }
      }
    }
    assert logs[..|logs|] == logs;
    StatsCount(logs, since);
    return Stats(total, successes, failures);
  }

  method ListRequestLogs(logs: seq<LogRow>, since: Time, filter: LogFilter) returns (page: seq<LogRow>)
    ensures page == ListLogs(logs, since, filter)
    ensures Answers(page, logs, since, filter)
  {
    var rows: seq<LogRow> := [];
    for i := 0 to |logs|
      invariant rows == Matching(logs[..i], since, filter)
    {
      assert logs[..i + 1][..i] == logs[..i];
      if Matches(logs[i], since, filter) { rows := rows + [logs[i]]; }
    }
    assert logs[..|logs|] == logs;
    var table := new LogRow[|rows|](i requires 0 <= i < |rows| => rows[i]);
    assert table[..] == rows;
    SortInPlace(NEWEST, table);
    PageAnswers(logs, since, filter);
    return Page(table[..], Limit(filter), Offset(filter));
  }

  // ---------- What they mean ----------

  lemma {:induction false} CountIsSize(logs: seq<LogRow>, since: Time, success: bool)
    ensures Count(logs, since, success) == |CountedAt(logs, since, success)|
    decreases |logs|
  {
    if logs != [] {
      var last := |logs| - 1;
      CountIsSize(logs[..last], since, success);
      assert CountedAt(logs, since, success) == CountedAt(logs[..last], since, success)
        + if logs[last].entry.ts >= since && logs[last].entry.success == success then {last} else {};
    }
  }

  /** The numbers are those of the successes and failures among the rows of the window, and every counted request is
      one or the other. */
  lemma StatsCount(logs: seq<LogRow>, since: Time)
    ensures var stats := StatsSince(logs, since);
      && stats.successes == |CountedAt(logs, since, true)| && stats.failures == |CountedAt(logs, since, false)|
      && stats.total == stats.successes + stats.failures
  {
    CountIsSize(logs, since, true);
    CountIsSize(logs, since, false);
    TotalIsSum(logs, since);
  }

  lemma {:induction false} MatchingCounts(logs: seq<LogRow>, since: Time, filter: LogFilter, row: LogRow)
    ensures multiset(Matching(logs, since, filter))[row] == if Asked(row, since, filter) then multiset(logs)[row] else 0
    decreases |logs|
  {
    if logs != [] {
      MatchingCounts(logs[..|logs| - 1], since, filter, row);
      assert logs == logs[..|logs| - 1] + [logs[|logs| - 1]];
    }
  }

  lemma SortedIsFound(logs: seq<LogRow>, since: Time, filter: LogFilter)
    ensures Found(StableSort(NEWEST, Matching(logs, since, filter)), logs, since, filter)
  {
    StableSortSorts(NEWEST, Matching(logs, since, filter));
    var rows := StableSort(NEWEST, Matching(logs, since, filter));
    forall row ensures multiset(rows)[row] == if Asked(row, since, filter) then multiset(logs)[row] else 0 {
      MatchingCounts(logs, since, filter, row);
    }
    forall i, j | 0 <= i < j < |rows|
      ensures rows[i].entry.ts > rows[j].entry.ts || (rows[i].entry.ts == rows[j].entry.ts && rows[i].id >= rows[j].id)
    {
      assert !NEWEST(rows[j], rows[i]);
    }
  }

  lemma PageAnswers(logs: seq<LogRow>, since: Time, filter: LogFilter)
    ensures Answers(ListLogs(logs, since, filter), logs, since, filter)
  {
    var rows := StableSort(NEWEST, Matching(logs, since, filter));
    SortedIsFound(logs, since, filter);
    PageOf(rows, filter);
    assert Found(rows, logs, since, filter) && IsPage(ListLogs(logs, since, filter), rows, filter);
  }

  lemma PageOf(rows: seq<LogRow>, filter: LogFilter)
    ensures IsPage(Page(rows, Limit(filter), Offset(filter)), rows, filter)
  {
  }

  /** Every counted request is a success or a failure. */
  lemma {:induction false} TotalIsSum(logs: seq<LogRow>, since: Time)
    ensures var stats := StatsSince(logs, since); stats.total == stats.successes + stats.failures
    decreases |logs|
  {
    if logs != [] { TotalIsSum(logs[..|logs| - 1], since); }
  }

  /** The total counts exactly the unfiltered listing. */
  lemma {:induction false} TotalIsListing(logs: seq<LogRow>, since: Time)
    ensures Since(logs, since) == Matching(logs, since, LogFilter("", Any, 100, 0))
    decreases |logs|
  {
    if logs != [] { TotalIsListing(logs[..|logs| - 1], since); }
  }

  lemma {:induction false} MatchingMembers(logs: seq<LogRow>, since: Time, filter: LogFilter)
    ensures forall row :: row in Matching(logs, since, filter) <==> row in logs && Asked(row, since, filter)
    decreases |logs|
  {
    if logs != [] {
      MatchingMembers(logs[..|logs| - 1], since, filter);
      assert logs == logs[..|logs| - 1] + [logs[|logs| - 1]];
    }
  }

  ghost function AllPages(rows: seq<LogRow>, limit: nat, offset: nat): seq<LogRow>
    requires limit > 0
    decreases |rows| - offset
  {
    if offset >= |rows| then [] else Page(rows, limit, offset) + AllPages(rows, limit, offset + limit)
  }

  /** Turning the pages one after the other shows every row once, in order. */
  lemma {:induction false} PagesTile(rows: seq<LogRow>, limit: nat, offset: nat)
    requires limit > 0 && offset <= |rows|
    ensures AllPages(rows, limit, offset) == rows[offset..]
    decreases |rows| - offset
  {
    if offset + limit < |rows| {
      PagesTile(rows, limit, offset + limit);
      assert rows[offset..] == rows[offset..offset + limit] + rows[offset + limit..];
    }
  }

  /** The pages of a query, put together, are exactly the matching rows, newest first. */
  lemma PagesShowMatches(logs: seq<LogRow>, since: Time, filter: LogFilter)
    ensures var all := AllPages(StableSort(NEWEST, Matching(logs, since, filter)), Limit(filter), 0);
      && InOrder(NEWEST, all)
      && multiset(all) == multiset(Matching(logs, since, filter))
      && (forall row :: row in all <==> row in logs && Asked(row, since, filter))
  {
    var rows := Matching(logs, since, filter);
    StableSortSorts(NEWEST, rows);
    var sorted := StableSort(NEWEST, rows);
    PagesTile(sorted, Limit(filter), 0);
    assert AllPages(sorted, Limit(filter), 0) == sorted;
    MatchingMembers(logs, since, filter);
    assert forall row :: row in sorted <==> row in multiset(sorted);
    assert forall row :: row in rows <==> row in multiset(rows);
  }

  // ---------- Rows older than the window do not matter ----------

  lemma {:induction false} SinceSince(logs: seq<LogRow>, cut: Time, since: Time)
    requires cut <= since
    ensures Since(Since(logs, cut), since) == Since(logs, since)
    decreases |logs|
  {
    if logs != [] { SinceSince(logs[..|logs| - 1], cut, since); }
  }

  lemma {:induction false} QueriesSeeSince(logs: seq<LogRow>, since: Time, filter: LogFilter)
    ensures Matching(Since(logs, since), since, filter) == Matching(logs, since, filter)
    ensures Count(Since(logs, since), since, true) == Count(logs, since, true)
    ensures Count(Since(logs, since), since, false) == Count(logs, since, false)
    ensures Since(Since(logs, since), since) == Since(logs, since)
    decreases |logs|
  {
    if logs != [] { QueriesSeeSince(logs[..|logs| - 1], since, filter); }
  }

  /** Two tables that agree on the window answer every query on it alike. */
  lemma SameWindowSameAnswers(a: seq<LogRow>, b: seq<LogRow>, since: Time, filter: LogFilter)
    requires Since(a, since) == Since(b, since)
    ensures ListLogs(a, since, filter) == ListLogs(b, since, filter) && StatsSince(a, since) == StatsSince(b, since)
  {
    QueriesSeeSince(a, since, filter);
    QueriesSeeSince(b, since, filter);
  }
}
