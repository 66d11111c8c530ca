/** A key's counter and cooldown are a summary of the results recorded for it, in every reachable state. */
module History {
  import opened Wrappers
  import opened Store
  import opened KeyTable
  import opened Gateway

  datatype Mark = Mark(success: bool, at: Time, threshold: int, cooldown: int)

  /** The results recorded for one key, oldest first. */
  function Marks(trace: seq<Event>, key: nat): seq<Mark> {
    if trace == [] then []
    else
      var rest := Marks(trace[..|trace| - 1], key);
      match trace[|trace| - 1]
      case Recorded(_, k, success, at, threshold, cooldown) =>
        if k == key then rest + [Mark(success, at, threshold, cooldown)] else rest
      case _ => rest
  }

  /** The length of the run of failures at the end. */
  function TrailingFailures(marks: seq<Mark>): nat {
    if marks == [] || marks[|marks| - 1].success then 0 else TrailingFailures(marks[..|marks| - 1]) + 1
  }

  /** marks[i] is a failure whose running count met the threshold in force for it. */
  predicate Armed(marks: seq<Mark>, i: nat)
    requires i < |marks|
  {
    TrailingFailures(marks[..i + 1]) >= marks[i].threshold >= 1
  }

  function LastArmed(marks: seq<Mark>): Option<Time> {
    if marks == [] || marks[|marks| - 1].success then None
    else if Armed(marks, |marks| - 1) then Some(marks[|marks| - 1].at + marks[|marks| - 1].cooldown)
    else LastArmed(marks[..|marks| - 1])
  }

  // ---------- What the two summaries mean ----------

  /** The last n marks are failures, and the one before them, if any, is a success. */
  ghost predicate IsTrailingRun(marks: seq<Mark>, n: nat) {
    && n <= |marks|
    && (forall i :: |marks| - n <= i < |marks| ==> !marks[i].success)
    && (n < |marks| ==> marks[|marks| - n - 1].success)
  }

  lemma {:induction false} TrailingIsRun(marks: seq<Mark>, n: nat)
    ensures n == TrailingFailures(marks) <==> IsTrailingRun(marks, n)
    decreases |marks|
  {
    if marks != [] && !marks[|marks| - 1].success {
      var front := marks[..|marks| - 1];
      TrailingIsRun(front, TrailingFailures(front));
      if n > 0 {
        TrailingIsRun(front, n - 1);
        assert IsTrailingRun(marks, n) <==> IsTrailingRun(front, n - 1);
      }
    }
  }

  /** until is armed by the last failure of the trailing run that met its threshold, if there is one. */
  ghost predicate IsLastArmed(marks: seq<Mark>, until: Option<Time>) {
    var start := |marks| - TrailingFailures(marks);
    match until
    case None => forall i :: start <= i < |marks| && i >= 0 ==> i - start + 1 < marks[i].threshold
    case Some(t) =>
      exists i :: 0 <= i < |marks| && start <= i && i - start + 1 >= marks[i].threshold && t == marks[i].at + marks[i].cooldown
                  && forall j :: i < j < |marks| ==> j - start + 1 < marks[j].threshold
  }

  lemma {:induction false} LastArmedMeaning(marks: seq<Mark>)
    requires forall i :: 0 <= i < |marks| ==> marks[i].threshold >= 1
    ensures IsLastArmed(marks, LastArmed(marks))
    decreases |marks|
  {
    TrailingIsRun(marks, TrailingFailures(marks));
    if marks != [] && !marks[|marks| - 1].success {
      var front, last := marks[..|marks| - 1], |marks| - 1;
      assert marks[..last + 1] == marks;
      var start := |marks| - TrailingFailures(marks);
      if !Armed(marks, last) {
        LastArmedMeaning(front);
        if LastArmed(front).Some? {
          var i :| 0 <= i < |front| && start <= i && i - start + 1 >= front[i].threshold
                   && LastArmed(front).value == front[i].at + front[i].cooldown
                   && forall j :: i < j < |front| ==> j - start + 1 < front[j].threshold;
          assert marks[i] == front[i];
          assert forall j :: i < j < |marks| ==> j - start + 1 < marks[j].threshold;
        }
      }
    }
  }

  // ---------- The refinement ----------

  ghost predicate HistoryOk(s: State) {
    && (forall id :: id in s.db.keys ==> s.db.keys[id].failures == TrailingFailures(Marks(s.trace, id)))
    && (forall id :: id in s.db.keys ==> s.db.keys[id].cooldownUntil == LastArmed(Marks(s.trace, id)))
    && (forall id: nat :: id >= s.db.nextKey ==> Marks(s.trace, id) == [])
  }

  /** An event other than a result leaves every history alone. */
  lemma OtherEvent(trace: seq<Event>, event: Event, key: nat)
    requires event.Recorded? ==> event.key != key
    ensures Marks(trace + [event], key) == Marks(trace, key)
  {
    assert (trace + [event])[..|trace|] == trace;
  }

  lemma ResultEvent(trace: seq<Event>, event: Event)
    requires event.Recorded?
    ensures Marks(trace + [event], event.key) == Marks(trace, event.key) + [Mark(event.success, event.at, event.threshold, event.cooldown)]
  {
    assert (trace + [event])[..|trace|] == trace;
  }

  lemma AppendMark(marks: seq<Mark>, m: Mark)
    ensures TrailingFailures(marks + [m]) == if m.success then 0 else TrailingFailures(marks) + 1
    ensures m.threshold >= 1 ==>
              LastArmed(marks + [m]) ==
              if m.success then None
              else if TrailingFailures(marks) + 1 >= m.threshold then Some(m.at + m.cooldown) else LastArmed(marks)
  {
    assert (marks + [m])[..|marks|] == marks;
    assert (marks + [m])[..|marks| + 1] == marks + [m];
  }

  lemma EmittedKeeps(s: State, after: State, event: Event)
    requires HistoryOk(s) && !event.Recorded? && after.trace == s.trace + [event]
    requires s.db.nextKey <= after.db.nextKey
    requires forall id :: id in after.db.keys ==>
               if id in s.db.keys then SameCounters(after.db.keys[id], s.db.keys[id]) else id >= s.db.nextKey && Fresh(after.db.keys[id])
    ensures HistoryOk(after)
  {
    forall id: nat ensures Marks(after.trace, id) == Marks(s.trace, id) { OtherEvent(s.trace, event, id); }
  }

  predicate SameCounters(a: Key, b: Key) {
    a.failures == b.failures && a.cooldownUntil == b.cooldownUntil
  }

  lemma SilentKeeps(s: State, after: State)
    requires HistoryOk(s) && after.trace == s.trace && s.db.nextKey <= after.db.nextKey
    requires forall id :: id in after.db.keys ==> id in s.db.keys && SameCounters(after.db.keys[id], s.db.keys[id])
    ensures HistoryOk(after)
  {
  }

  /** The marked key moves with its history. */
  lemma MarkedKeyKeeps(trace: seq<Event>, event: Event, key: Key, summary: string)
    requires event.Recorded? && event.threshold >= 1
    requires key.failures == TrailingFailures(Marks(trace, event.key)) && key.cooldownUntil == LastArmed(Marks(trace, event.key))
    ensures var marks := Marks(trace + [event], event.key);
      var after := if event.success then Succeeded(key) else Failed(key, event.threshold, event.cooldown, event.at, summary);
      after.failures == TrailingFailures(marks) && after.cooldownUntil == LastArmed(marks)
  {
    ResultEvent(trace, event);
    AppendMark(Marks(trace, event.key), Mark(event.success, event.at, event.threshold, event.cooldown));
  }

  lemma RecordedKeeps(s: State, after: State, event: Event, summary: string)
    requires HistoryOk(s) && event.Recorded? && event.threshold >= 1 && after.trace == s.trace + [event]
    requires after.db.nextKey == s.db.nextKey && event.key < s.db.nextKey
    requires Ok(after.db) == RecordResult(s.db, event.key, event.success, event.threshold, event.cooldown, event.at, summary)
    ensures HistoryOk(after)
  {
    MarkedKeyKeeps(s.trace, event, s.db.keys[event.key], summary);
    forall id: nat | id != event.key ensures Marks(after.trace, id) == Marks(s.trace, id) { OtherEvent(s.trace, event, id); }
  }

  lemma RecordKeepsHistory(s: State, req: nat, written: bool, summary: string)
    requires Inv(s) && HistoryOk(s) && req in s.reqs && s.reqs[req].Marking?
    ensures HistoryOk(RecordMark(s, req, s.reqs[req], written, summary))
  {
    var p := s.reqs[req];
    var after := RecordMark(s, req, p, written, summary);
    assert Carries(p, p.key);
    if written && p.key in s.db.keys {
      var cooldown := CooldownNanos(p.config.cooldownSeconds);
      RecordedKeeps(s, after, Recorded(req, p.key, Success(p.outcome), s.now, p.config.threshold, cooldown), summary);
    } else {
      EmittedKeeps(s, after, Dropped(req, p.key));
    }
  }

  lemma DeleteKeepsHistory(s: State, a: Action)
    requires Inv(s) && HistoryOk(s) && a.DeleteAction?
    ensures HistoryOk(Step(s, a))
  {
    if a.id in s.db.keys && IsOrder(s.db.keys - {a.id}, a.order) && Delete(s.db, a.id, a.order).Ok? { DeleteKeeps(s.db, a.id, a.order); }
    SilentKeeps(s, Step(s, a));
  }

  lemma ReorderKeepsHistory(s: State, a: Action)
    requires Inv(s) && HistoryOk(s) && a.ReorderAction?
    ensures HistoryOk(Step(s, a))
  {
    if IsOrder(s.db.keys, a.order) && Reorder(s.db, a.ids, a.order).Ok? { ReorderResult(s.db, a.ids, a.order); }
    SilentKeeps(s, Step(s, a));
  }

  lemma TableEditKeepsHistory(s: State, a: Action)
    requires Inv(s) && HistoryOk(s) && (a.CreateAction? || a.ReplaceAction? || a.EnableAction? || a.DeleteAction? || a.ReorderAction?)
    ensures HistoryOk(Step(s, a))
  {
    match a
    case CreateAction(alias, hint, secret, enabled) =>
      if CreateKey(s.db, alias, hint, secret, enabled).Ok? { EmittedKeeps(s, Step(s, a), Created(s.db.nextKey)); }
    case ReplaceAction(_, _, _, _, _) => SilentKeeps(s, Step(s, a));
    case EnableAction(_, _) => SilentKeeps(s, Step(s, a));
    case DeleteAction(_, _) => DeleteKeepsHistory(s, a);
    case ReorderAction(_, _) => ReorderKeepsHistory(s, a);
  }

  lemma RequestKeepsHistory(s: State, a: Action)
    requires Inv(s) && HistoryOk(s) && (a.Arrive? || a.List? || a.Choose? || a.Abort? || a.Finish?)
    ensures HistoryOk(Step(s, a))
  {
    RequestStepKeeps(s, a);
    var after := Step(s, a);
    if after.trace != s.trace {
      EmittedKeeps(s, after, after.trace[|s.trace|]);
    }
  }

  lemma StepKeepsHistory(s: State, a: Action)
    requires Inv(s) && HistoryOk(s)
    ensures HistoryOk(Step(s, a))
  {
    if a.CreateAction? || a.ReplaceAction? || a.EnableAction? || a.DeleteAction? || a.ReorderAction? {
      TableEditKeepsHistory(s, a);
    } else if a.Arrive? || a.List? || a.Choose? || a.Abort? || a.Finish? {
      RequestKeepsHistory(s, a);
    } else if a.Record? {
      if a.req in s.reqs && s.reqs[a.req].Marking? { RecordKeepsHistory(s, a.req, a.written, a.summary); }
    }
  }

  lemma {:induction false} RunKeepsHistory(s: State, actions: seq<Action>)
    requires Inv(s) && HistoryOk(s)
    ensures HistoryOk(Run(s, actions))
    decreases |actions|
  {
    if actions != [] {
      StepKeepsHistory(s, actions[0]);
      StepKeeps(s, actions[0]);
      RunKeepsHistory(Step(s, actions[0]), actions[1..]);
    }
  }

  lemma {:induction false} ThresholdsPositive(trace: seq<Event>, key: nat)
    requires forall i :: 0 <= i < |trace| && trace[i].Recorded? ==> trace[i].threshold >= 1
    ensures forall i :: 0 <= i < |Marks(trace, key)| ==> Marks(trace, key)[i].threshold >= 1
    decreases |trace|
  {
    if trace != [] { ThresholdsPositive(trace[..|trace| - 1], key); }
  }

  ghost predicate EventsOk(s: State) {
    forall i :: 0 <= i < |s.trace| && s.trace[i].Recorded? ==> s.trace[i].threshold >= 1 && s.trace[i].at <= s.now
  }

  lemma StepKeepsEvents(s: State, a: Action)
    requires Inv(s) && EventsOk(s)
    ensures EventsOk(Step(s, a))
    ensures Step(s, a).trace == s.trace || exists event :: Step(s, a).trace == s.trace + [event]
  {
    var after := Step(s, a);
    if after.trace != s.trace {
      assert after.trace == s.trace + [after.trace[|s.trace|]];
      if a.Record? {
        assert forall i :: 0 <= i < |s.trace| ==> after.trace[i] == s.trace[i];
      }
    }
  }

  lemma {:induction false} RunKeepsEvents(s: State, actions: seq<Action>)
    requires Inv(s) && EventsOk(s)
    ensures EventsOk(Run(s, actions))
    decreases |actions|
  {
    if actions != [] {
      StepKeeps(s, actions[0]);
      StepKeepsEvents(s, actions[0]);
      RunKeepsEvents(Step(s, actions[0]), actions[1..]);
    }
  }

  /** Under any interleaving of requests, results, configuration changes and edits, consecutive_failures is
      the length of the key's trailing run of recorded failures, and cooldown_until was set by the last
      failure of that run to meet the threshold read for it, or is null if none did. */
  lemma CountersRefineHistory(s: State, actions: seq<Action>, id: nat)
    requires Initial(s) && id in Reached(s, actions).db.keys
    ensures var after := Reached(s, actions); var marks := Marks(after.trace, id); var key := after.db.keys[id];
      IsTrailingRun(marks, key.failures) && IsLastArmed(marks, key.cooldownUntil)
  {
    InitialInv(s);
    RunKeepsHistory(s, actions);
    RunKeepsEvents(s, actions);
    var after := Reached(s, actions);
    TrailingIsRun(Marks(after.trace, id), after.db.keys[id].failures);
    ThresholdsPositive(after.trace, id);
    LastArmedMeaning(Marks(after.trace, id));
  }
}
