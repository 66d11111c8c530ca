/** Cleanup as the queries see it: exactly when a run with cleanups and the same run without them give the same
    answers. */
module Retention {
  import opened Wrappers
  import opened Store
  import opened Gateway
  import opened RequestLogs

  /** The same actions without the cleanups. */
  function WithoutCleanup(actions: seq<Action>): seq<Action> {
    if actions == [] then []
    else if actions[0].CleanupAction? then WithoutCleanup(actions[1..])
    else [actions[0]] + WithoutCleanup(actions[1..])
  }

  predicate KeepsWindow(logs: seq<LogRow>, cut: Time, since: Time) {
    forall row :: row in logs && row.entry.ts >= since ==> row.entry.ts >= cut
  }

  /** No cleanup of the run finds a row of the window that is old enough to go. */
  ghost predicate Spared(s: State, actions: seq<Action>, since: Time)
    requires Inv(s)
    decreases |actions|
  {
    actions == [] ||
    ((actions[0].CleanupAction? ==> KeepsWindow(s.db.logs, s.now - actions[0].lag - DAY, since)) &&
     (StepKeeps(s, actions[0]); Spared(Step(s, actions[0]), actions[1..], since)))
  }

  // ---------- Two tables of rows side by side ----------

  /** How many rows of the window the first table is short of. */
  function Missing(logs: seq<LogRow>, full: seq<LogRow>, since: Time): int {
    |Since(full, since)| - |Since(logs, since)|
  }

  lemma {:induction false} CutLoses(logs: seq<LogRow>, cut: Time, since: Time)
    ensures KeepsWindow(logs, cut, since) ==> Since(Since(logs, cut), since) == Since(logs, since)
    ensures |Since(Since(logs, cut), since)| <= |Since(logs, since)|
    ensures !KeepsWindow(logs, cut, since) ==> |Since(Since(logs, cut), since)| < |Since(logs, since)|
    decreases |logs|
  {
    if logs != [] {
      var front, last := logs[..|logs| - 1], logs[|logs| - 1];
      CutLoses(front, cut, since);
      assert logs == front + [last];
      assert KeepsWindow(logs, cut, since) <==> KeepsWindow(front, cut, since) && (last.entry.ts >= since ==> last.entry.ts >= cut);
      assert (Since(front, cut) + [last])[..|Since(front, cut)|] == Since(front, cut);
    }
  }

  lemma {:induction false} SinceForget(logs: seq<LogRow>, since: Time, id: nat)
    ensures Since(ForgetAll(logs, id), since) == ForgetAll(Since(logs, since), id)
    decreases |logs|
  {
    if logs != [] {
      SinceForget(logs[..|logs| - 1], since, id);
      assert ForgetAll(logs, id)[..|logs| - 1] == ForgetAll(logs[..|logs| - 1], id);
    }
  }

  lemma SinceAppend(logs: seq<LogRow>, row: LogRow, since: Time)
    ensures Since(logs + [row], since) == Since(logs, since) + if row.entry.ts >= since then [row] else []
  {
    assert (logs + [row])[..|logs|] == logs;
  }

  /** What a step other than a cleanup may do to the log. */
  ghost predicate SameChange(logs: seq<LogRow>, after: seq<LogRow>, full: seq<LogRow>, fullAfter: seq<LogRow>) {
    || (after == logs && fullAfter == full)
    || (exists id :: after == ForgetAll(logs, id) && fullAfter == ForgetAll(full, id))
    || (exists row :: after == logs + [row] && fullAfter == full + [row])
  }

  lemma ChangeKeepsWindow(logs: seq<LogRow>, after: seq<LogRow>, full: seq<LogRow>, fullAfter: seq<LogRow>, since: Time)
    requires SameChange(logs, after, full, fullAfter)
    ensures Missing(after, fullAfter, since) == Missing(logs, full, since)
    ensures Since(logs, since) == Since(full, since) ==> Since(after, since) == Since(fullAfter, since)
  {
    if id :| after == ForgetAll(logs, id) && fullAfter == ForgetAll(full, id) {
      SinceForget(logs, since, id);
      SinceForget(full, since, id);
    } else if row :| after == logs + [row] && fullAfter == full + [row] {
      SinceAppend(logs, row, since);
      SinceAppend(full, row, since);
    }
  }

  // ---------- Two runs side by side ----------

  /** The states agree in everything but their log rows. */
  ghost predicate SameButLogs(s: State, t: State) {
    s == t.(db := t.db.(logs := s.db.logs))
  }

  lemma DeleteTogether(s: State, t: State, a: Action)
    requires Inv(s) && Inv(t) && SameButLogs(s, t) && a.DeleteAction?
    ensures SameButLogs(Step(s, a), Step(t, a)) && SameChange(s.db.logs, Step(s, a).db.logs, t.db.logs, Step(t, a).db.logs)
  {
  }

  lemma LogTogether(s: State, t: State, a: Action)
    requires Inv(s) && Inv(t) && SameButLogs(s, t) && a.Log?
    ensures SameButLogs(Step(s, a), Step(t, a)) && SameChange(s.db.logs, Step(s, a).db.logs, t.db.logs, Step(t, a).db.logs)
  {
    if a.req in s.reqs && s.reqs[a.req].Logging? {
      var row := LogRow(s.db.nextLog, s.reqs[a.req].entry);
      if a.written && InsertLog(s.db, row.entry).Ok? && row.entry.status != UNAUTHORIZED {
        assert Step(s, a).db.logs == s.db.logs + [row] && Step(t, a).db.logs == t.db.logs + [row];
      }
    }
  }

  lemma RecordTogether(s: State, t: State, a: Action)
    requires Inv(s) && Inv(t) && SameButLogs(s, t) && a.Record?
    ensures SameButLogs(Step(s, a), Step(t, a)) && Step(s, a).db.logs == s.db.logs && Step(t, a).db.logs == t.db.logs
  {
  }

  lemma TableTogether(s: State, t: State, a: Action)
    requires Inv(s) && Inv(t) && SameButLogs(s, t) && (a.CreateAction? || a.ReorderAction?)
    ensures SameButLogs(Step(s, a), Step(t, a)) && Step(s, a).db.logs == s.db.logs && Step(t, a).db.logs == t.db.logs
  {
  }

  lemma RowTogether(s: State, t: State, a: Action)
    requires Inv(s) && Inv(t) && SameButLogs(s, t) && (a.Tick? || a.ReplaceAction? || a.EnableAction? || a.ConfigAction?)
    ensures SameButLogs(Step(s, a), Step(t, a)) && Step(s, a).db.logs == s.db.logs && Step(t, a).db.logs == t.db.logs
  {
  }

  lemma RequestTogether(s: State, t: State, a: Action)
    requires Inv(s) && Inv(t) && SameButLogs(s, t) && (a.Arrive? || a.List? || a.Choose? || a.Abort? || a.Finish?)
    ensures SameButLogs(Step(s, a), Step(t, a)) && Step(s, a).db.logs == s.db.logs && Step(t, a).db.logs == t.db.logs
  {
    RequestStepKeeps(s, a);
    RequestStepKeeps(t, a);
  }

  lemma StepTogether(s: State, t: State, a: Action)
    requires Inv(s) && Inv(t) && SameButLogs(s, t) && !a.CleanupAction?
    ensures SameButLogs(Step(s, a), Step(t, a)) && SameChange(s.db.logs, Step(s, a).db.logs, t.db.logs, Step(t, a).db.logs)
  {
    if a.DeleteAction? { DeleteTogether(s, t, a); }
    else if a.Log? { LogTogether(s, t, a); }
    else if a.Record? { RecordTogether(s, t, a); }
    else if a.Arrive? || a.List? || a.Choose? || a.Abort? || a.Finish? { RequestTogether(s, t, a); }
    else if a.CreateAction? || a.ReorderAction? { TableTogether(s, t, a); }
    else { RowTogether(s, t, a); }
  }

  /** From s and t to s' and t': what s lacks of the window never comes back, and more is missing unless the
      window was spared. */
  ghost predicate Together(s: State, t: State, s': State, t': State, since: Time, spared: bool) {
    && SameButLogs(s', t')
    && Missing(s'.db.logs, t'.db.logs, since) >= Missing(s.db.logs, t.db.logs, since) + (if spared then 0 else 1)
    && (spared && Since(s.db.logs, since) == Since(t.db.logs, since) ==> Since(s'.db.logs, since) == Since(t'.db.logs, since))
  }

  lemma TogetherTwice(s: State, t: State, s1: State, t1: State, s2: State, t2: State, since: Time, p: bool, q: bool)
    requires Together(s, t, s1, t1, since, p) && Together(s1, t1, s2, t2, since, q)
    ensures Together(s, t, s2, t2, since, p && q)
  {
  }

  lemma CleanupTogether(s: State, t: State, a: Action, since: Time)
    requires Inv(s) && SameButLogs(s, t) && a.CleanupAction?
    ensures Together(s, t, Step(s, a), t, since, KeepsWindow(s.db.logs, s.now - a.lag - DAY, since))
  {
    CutLoses(s.db.logs, s.now - a.lag - DAY, since);
  }

  lemma OtherTogether(s: State, t: State, a: Action, since: Time)
    requires Inv(s) && Inv(t) && SameButLogs(s, t) && !a.CleanupAction?
    ensures Together(s, t, Step(s, a), Step(t, a), since, true)
  {
    StepTogether(s, t, a);
    ChangeKeepsWindow(s.db.logs, Step(s, a).db.logs, t.db.logs, Step(t, a).db.logs, since);
  }

  /** t runs without the cleanups of s. */
  lemma {:induction false} RunTogether(s: State, t: State, actions: seq<Action>, since: Time)
    requires Inv(s) && Inv(t) && SameButLogs(s, t)
    ensures Together(s, t, Run(s, actions), Run(t, WithoutCleanup(actions)), since, Spared(s, actions, since))
    decreases |actions|
  {
    if actions != [] {
      StepKeeps(s, actions[0]);
      if actions[0].CleanupAction? {
        CleanupTogether(s, t, actions[0], since);
        RunTogether(Step(s, actions[0]), t, actions[1..], since);
        TogetherTwice(s, t, Step(s, actions[0]), t, Run(s, actions), Run(t, WithoutCleanup(actions)), since,
                      KeepsWindow(s.db.logs, s.now - actions[0].lag - DAY, since), Spared(Step(s, actions[0]), actions[1..], since));
      } else {
        StepKeeps(t, actions[0]);
        OtherTogether(s, t, actions[0], since);
        assert WithoutCleanup(actions)[1..] == WithoutCleanup(actions[1..]);
        RunTogether(Step(s, actions[0]), Step(t, actions[0]), actions[1..], since);
        TogetherTwice(s, t, Step(s, actions[0]), Step(t, actions[0]), Run(s, actions), Run(t, WithoutCleanup(actions)), since,
                      true, Spared(Step(s, actions[0]), actions[1..], since));
      }
    }
  }

  /** Side by side from equal windows, the answers agree exactly if the window was spared. */
  lemma AnswersAgreeIff(s: State, t: State, with: State, without: State, since: Time, spared: bool, filter: LogFilter)
    requires Together(s, t, with, without, since, spared) && Since(s.db.logs, since) == Since(t.db.logs, since)
    ensures spared <==> StatsSince(with.db.logs, since) == StatsSince(without.db.logs, since)
    ensures spared ==> ListLogs(with.db.logs, since, filter) == ListLogs(without.db.logs, since, filter)
    ensures !spared ==> StatsSince(with.db.logs, since).total < StatsSince(without.db.logs, since).total
  {
    if spared { SameWindowSameAnswers(with.db.logs, without.db.logs, since, filter); }
  }

  /** A run with cleanups and the same run without them differ in nothing but log rows, and answer the queries
      about a window alike exactly when no cleanup found a row of that window old enough to delete; otherwise
      the total falls short. */
  lemma CleanupInvisibleIff(s: State, actions: seq<Action>, since: Time, filter: LogFilter)
    requires Inv(s)
    ensures var with, without := Run(s, actions), Run(s, WithoutCleanup(actions));
      && SameButLogs(with, without)
      && (Spared(s, actions, since) <==> StatsSince(with.db.logs, since) == StatsSince(without.db.logs, since))
      && (Spared(s, actions, since) ==> ListLogs(with.db.logs, since, filter) == ListLogs(without.db.logs, since, filter))
      && (!Spared(s, actions, since) ==> StatsSince(with.db.logs, since).total < StatsSince(without.db.logs, since).total)
  {
    RunTogether(s, s, actions, since);
    AnswersAgreeIff(s, s, Run(s, actions), Run(s, WithoutCleanup(actions)), since, Spared(s, actions, since), filter);
  }

  // ---------- By the clock ----------

  /** Every cleanup of the run reads its clock by the given time. */
  ghost predicate CleanupsBy(s: State, actions: seq<Action>, latest: Time)
    requires Inv(s)
    decreases |actions|
  {
    actions == [] ||
    ((actions[0].CleanupAction? ==> s.now - actions[0].lag <= latest) &&
     (StepKeeps(s, actions[0]); CleanupsBy(Step(s, actions[0]), actions[1..], latest)))
  }

  /** Whatever the log holds, cleanups within 24 hours of its start spare the window. */
  lemma {:induction false} EarlyCleanupsSpare(s: State, actions: seq<Action>, since: Time, latest: Time)
    requires Inv(s) && CleanupsBy(s, actions, latest) && latest <= since + DAY
    ensures Spared(s, actions, since)
    decreases |actions|
  {
    if actions != [] {
      StepKeeps(s, actions[0]);
      EarlyCleanupsSpare(Step(s, actions[0]), actions[1..], since, latest);
    }
  }

  lemma {:induction false} ClockBounds(s: State, actions: seq<Action>, latest: Time)
    requires Inv(s) && Run(s, actions).now <= latest
    ensures CleanupsBy(s, actions, latest)
    decreases |actions|
  {
    if actions != [] {
      StepKeeps(s, actions[0]);
      ClockBounds(Step(s, actions[0]), actions[1..], latest);
    }
  }

  /** In particular a run whose cleanups read their clocks within 24 hours of the start of a window answers every
      query about it like the run without them. */
  lemma CleanupIsInvisible(s: State, actions: seq<Action>, since: Time, filter: LogFilter)
    requires Inv(s) && CleanupsBy(s, actions, since + DAY)
    ensures var with, without := Run(s, actions), Run(s, WithoutCleanup(actions));
      && ListLogs(with.db.logs, since, filter) == ListLogs(without.db.logs, since, filter)
      && StatsSince(with.db.logs, since) == StatsSince(without.db.logs, since)
      && SameButLogs(with, without)
  {
    EarlyCleanupsSpare(s, actions, since, since + DAY);
    CleanupInvisibleIff(s, actions, since, filter);
  }

  function WindowStart(read: State): Time {
    read.now - DAY
  }

  /** What a query answers that reads its clock in one state and gets its rows after further steps. */
  ghost function StatsLater(read: State, since: Time, during: seq<Action>): Stats
    requires Inv(read)
  {
    StatsSince(Run(read, during).db.logs, since)
  }

  ghost function PageLater(read: State, since: Time, during: seq<Action>, filter: LogFilter): seq<LogRow>
    requires Inv(read)
  {
    ListLogs(Run(read, during).db.logs, since, filter)
  }

  lemma AnswerIff(read: State, other: State, during: seq<Action>, since: Time, filter: LogFilter)
    requires Inv(read) && Inv(other) && SameButLogs(read, other) && Since(read.db.logs, since) == Since(other.db.logs, since)
    ensures Spared(read, during, since) <==> StatsLater(read, since, during) == StatsLater(other, since, WithoutCleanup(during))
    ensures Spared(read, during, since) ==>
              PageLater(read, since, during, filter) == PageLater(other, since, WithoutCleanup(during), filter)
  {
    RunTogether(read, other, during, since);
    AnswersAgreeIff(read, other, Run(read, during), Run(other, WithoutCleanup(during)), since, Spared(read, during, since), filter);
  }

  /** The cleanups before the clock is read do not matter. */
  lemma ReadingAgrees(s: State, before: seq<Action>, read: State, other: State)
    requires Inv(s) && read == Run(s, before) && other == Run(s, WithoutCleanup(before))
    ensures SameButLogs(read, other) && Since(read.db.logs, WindowStart(read)) == Since(other.db.logs, WindowStart(read))
  {
    ClockBounds(s, before, read.now);
    EarlyCleanupsSpare(s, before, WindowStart(read), read.now);
    RunTogether(s, s, before, WindowStart(read));
  }

  /** A query as the program makes it: the clock is read after some run, further steps follow, then the rows
      since 24 hours before that reading are counted or listed.  Its answer is that of a store that was never
      cleaned exactly when no cleanup between the reading and the answer found a row of the window old enough
      to delete; the cleanups before the reading never matter. */
  lemma QueryAgreesIff(s: State, before: seq<Action>, during: seq<Action>, filter: LogFilter)
    requires Inv(s)
    ensures var read, other := Run(s, before), Run(s, WithoutCleanup(before)); var since := WindowStart(read);
      && (Spared(read, during, since) <==> StatsLater(read, since, during) == StatsLater(other, since, WithoutCleanup(during)))
      && (Spared(read, during, since) ==>
            PageLater(read, since, during, filter) == PageLater(other, since, WithoutCleanup(during), filter))
  {
    var read, other := Run(s, before), Run(s, WithoutCleanup(before));
    ReadingAgrees(s, before, read, other);
    AnswerIff(read, other, during, WindowStart(read), filter);
  }

  // ---------- A row that a query misses ----------

  /** One refused request, and a day later the clock is read for a query. */
  function UntilReading(): seq<Action> {
    [Arrive("/v1/models"), List(0, false), Log(0, true), Tick(DAY)]
  }

  function Refused(s: State): Entry {
    Entry(s.now, "/v1/models", None, "", 500, false, NoKey)
  }

  lemma RefusedSteps(s: State, s1: State, s2: State, s3: State)
    requires Initial(s) && s1 == Step(s, Arrive("/v1/models")) && Wf(s1.db.keys)
    requires s2 == Step(s1, List(0, false)) && Wf(s2.db.keys) && s3 == Step(s2, Log(0, true))
    ensures s3.now == s.now && s3.db.logs == [LogRow(1, Refused(s))]
  {
    assert s1.reqs == map[0 := Arrived(s.now, "/v1/models")];
    assert s2 == s1.(reqs := map[0 := Logging(Refused(s))]);
  }

  lemma UntilReadingResult(s: State)
    requires Initial(s) && Inv(s)
    ensures var read := Run(s, UntilReading()); read.now == s.now + DAY && read.db.logs == [LogRow(1, Refused(s))]
  {
    var s1, s2, s3, s4 := RunFour(s, Arrive("/v1/models"), List(0, false), Log(0, true), Tick(DAY));
    RefusedSteps(s, s1, s2, s3);
  }

  lemma RunTwo(s: State, a: Action, b: Action)
    requires Inv(s)
    ensures Inv(Step(s, a)) && Run(s, [a, b]) == Step(Step(s, a), b) && Run(s, [a]) == Step(s, a)
  {
    StepKeeps(s, a);
    StepKeeps(Step(s, a), b);
    assert [a, b][1..] == [b] && [b][1..] == [] && [a][1..] == [];
    assert Run(Step(s, a), [b]) == Step(Step(s, a), b);
  }

  /** From the empty store: a cleanup one nanosecond after the reading takes a row of the window, and the
      statistics answer 0 where an uncleaned store answers 1. */
  lemma QueryCanMissRow(s: State)
    requires Initial(s)
    ensures Inv(s)
    ensures var read := Run(s, UntilReading()); var since := WindowStart(read); var during := [Tick(1), CleanupAction(0)];
      StatsLater(read, since, during).total == 0 && StatsLater(read, since, WithoutCleanup(during)).total == 1
  {
    InitialInv(s);
    UntilReadingResult(s);
    MissesRow(Run(s, UntilReading()), LogRow(1, Refused(s)));
  }

  lemma OnlyTick()
    ensures WithoutCleanup([Tick(1), CleanupAction(0)]) == [Tick(1)]
  {
    assert [Tick(1), CleanupAction(0)][1..] == [CleanupAction(0)];
    assert [CleanupAction(0)][1..] == [];
  }

  lemma OneRow(row: LogRow, since: Time)
    ensures Since([row], since) == (if row.entry.ts >= since then [row] else []) && Since([], since) == []
  {
    assert [row][..0] == [];
  }

  lemma TickThenCleanup(read: State, row: LogRow)
    requires Wf(read.db.keys) && read.db.logs == [row] && row.entry.ts == WindowStart(read)
    ensures var ticked := Step(read, Tick(1)); ticked.db.logs == [row] && Step(ticked, CleanupAction(0)).db.logs == []
  {
    OneRow(row, read.now + 1 - 0 - DAY);
  }

  lemma MissesRow(read: State, row: LogRow)
    requires Inv(read) && read.db.logs == [row] && row.entry.ts == WindowStart(read)
    ensures StatsLater(read, WindowStart(read), [Tick(1), CleanupAction(0)]).total == 0
    ensures StatsLater(read, WindowStart(read), WithoutCleanup([Tick(1), CleanupAction(0)])).total == 1
  {
    RunTwo(read, Tick(1), CleanupAction(0));
    OnlyTick();
    OneRow(row, WindowStart(read));
    TickThenCleanup(read, row);
  }
}
