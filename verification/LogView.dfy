/** request_logs as a second view of the events: it agrees with the counters. */
module LogView {
  import opened Wrappers
  import opened Store
  import opened KeyTable
  import opened Listings
  import opened Selection
  import opened Gateway
  import opened History

  // ---------- The log of a key ----------

  predicate IsResultOf(entry: Entry, key: nat) {
    entry.keyId == Some(key) && entry.origin == Upstream && entry.status != UNAUTHORIZED
  }

  /** The successes and failures logged for a key, oldest first, without the local aborts. */
  function Flags(logs: seq<LogRow>, key: nat): seq<bool> {
    if logs == [] then []
    else
      var rest := Flags(logs[..|logs| - 1], key);
      var entry := logs[|logs| - 1].entry;
      if IsResultOf(entry, key) then rest + [entry.success] else rest
  }

  function Successes(marks: seq<Mark>): seq<bool> {
    seq(|marks|, i requires 0 <= i < |marks| => marks[i].success)
  }

  function TrailingFalse(flags: seq<bool>): nat {
    if flags == [] || flags[|flags| - 1] then 0 else TrailingFalse(flags[..|flags| - 1]) + 1
  }

  lemma {:induction false} SameTrailing(marks: seq<Mark>)
    ensures TrailingFalse(Successes(marks)) == TrailingFailures(marks)
    decreases |marks|
  {
    if marks != [] {
      assert Successes(marks)[..|marks| - 1] == Successes(marks[..|marks| - 1]);
      SameTrailing(marks[..|marks| - 1]);
    }
  }

  lemma FlagsAppend(logs: seq<LogRow>, row: LogRow, key: nat)
    ensures Flags(logs + [row], key) == if IsResultOf(row.entry, key) then Flags(logs, key) + [row.entry.success] else Flags(logs, key)
  {
    assert (logs + [row])[..|logs|] == logs;
  }

  lemma {:induction false} FlagsForget(logs: seq<LogRow>, gone: nat, key: nat)
    requires gone != key
    ensures Flags(ForgetAll(logs, gone), key) == Flags(logs, key)
    decreases |logs|
  {
    if logs != [] {
      FlagsForget(logs[..|logs| - 1], gone, key);
      assert ForgetAll(logs, gone)[..|logs| - 1] == ForgetAll(logs[..|logs| - 1], gone);
    }
  }

  lemma {:induction false} NoFlags(logs: seq<LogRow>, key: nat)
    requires forall i :: 0 <= i < |logs| ==> logs[i].entry.keyId != Some(key)
    ensures Flags(logs, key) == []
    decreases |logs|
  {
    if logs != [] { NoFlags(logs[..|logs| - 1], key); }
  }

  // ---------- Orderly runs ----------

  /** One request at a time, no cleanup, and every read and write of a result or log row is made; keys may be
      created, edited, reordered and deleted at any moment. */
  predicate OrderlyAction(s: State, a: Action) {
    match a
    case Arrive(_) => s.reqs == map[]
    case CleanupAction(_) => false
    case Finish(_, _, read) => read
    case Record(_, written, _) => written
    case Log(_, written) => written
    case _ => true
  }

  ghost predicate Orderly(s: State, actions: seq<Action>)
    requires Inv(s)
    decreases |actions|
  {
    actions == [] ||
    (OrderlyAction(s, actions[0]) && (StepKeeps(s, actions[0]); Orderly(Step(s, actions[0]), actions[1..])))
  }

  /** What the request in flight is still going to log about the key. */
  function Owed(p: Phase, key: nat): seq<bool> {
    if p.Logging? && IsResultOf(p.entry, key) then [p.entry.success] else []
  }

  predicate PhaseFits(p: Phase) {
    && RouteOk(if p.Logging? then p.entry.route else p.route)
    && (p.Marking? ==> StatusCode(p.outcome) != UNAUTHORIZED)
  }

  /** The log of the key, with what is still owed to it, is the list of its recorded results. */
  ghost predicate LogMatches(s: State, key: nat) {
    && (s.reqs == map[] ==> Flags(s.db.logs, key) == Successes(Marks(s.trace, key)))
    && (forall r :: r in s.reqs ==> Flags(s.db.logs, key) + Owed(s.reqs[r], key) == Successes(Marks(s.trace, key)))
  }

  ghost predicate LogOk(s: State) {
    && (forall q, r :: q in s.reqs && r in s.reqs ==> q == r)
    && (forall r :: r in s.reqs ==> PhaseFits(s.reqs[r]))
    && (forall key :: key in s.db.keys ==> LogMatches(s, key))
  }

  lemma SuccessesAppend(marks: seq<Mark>, m: Mark)
    ensures Successes(marks + [m]) == Successes(marks) + [m.success]
  {
  }

  /** A step that neither records nor logs. */
  lemma QuietKeepsLog(s: State, after: State)
    requires LogOk(s) && after.db.keys.Keys == s.db.keys.Keys && after.db.logs == s.db.logs
    requires after.trace == s.trace || exists e: Event :: !e.Recorded? && after.trace == s.trace + [e]
    requires after.reqs.Keys == s.reqs.Keys || (s.reqs == map[] && forall r :: r in after.reqs ==> !after.reqs[r].Logging?)
    requires forall q, r :: q in after.reqs && r in after.reqs ==> q == r
    requires forall r :: r in after.reqs ==> PhaseFits(after.reqs[r])
    requires forall r, key :: r in s.reqs && r in after.reqs ==> Owed(after.reqs[r], key) == Owed(s.reqs[r], key)
    ensures LogOk(after)
  {
    forall key ensures Marks(after.trace, key) == Marks(s.trace, key) {
      if after.trace != s.trace { OtherEvent(s.trace, after.trace[|s.trace|], key); }
    }
    forall key | key in after.db.keys ensures LogMatches(after, key) { assert LogMatches(s, key); }
  }

  lemma RecordedMatches(s: State, after: State, p: Phase, e: Event, key: nat)
    requires LogMatches(s, key) && after.trace == s.trace + [e] && after.db.logs == s.db.logs
    requires e.Recorded? && p.Marking? && p.key == e.key && e.success == Success(p.outcome) && StatusCode(p.outcome) != UNAUTHORIZED
    requires s.reqs == map[e.req := p]
    requires after.reqs == map[e.req := Logging(UpstreamEntry(p.ts, p.route, p.key, p.alias, p.outcome))]
    ensures LogMatches(after, key)
  {
    assert Owed(s.reqs[e.req], key) == [];
    if key == p.key {
      ResultEvent(s.trace, e);
      SuccessesAppend(Marks(s.trace, key), Mark(e.success, e.at, e.threshold, e.cooldown));
    } else {
      OtherEvent(s.trace, e, key);
    }
  }

  /** The key of the result is gone; what is owed to a key of the table is owed to another one. */
  lemma DroppedMatches(s: State, after: State, p: Phase, e: Event, key: nat)
    requires LogMatches(s, key) && after.trace == s.trace + [e] && after.db.logs == s.db.logs
    requires e.Dropped? && p.Marking? && p.key != key && s.reqs == map[e.req := p]
    requires after.reqs == map[e.req := Logging(UpstreamEntry(p.ts, p.route, p.key, p.alias, p.outcome))]
    ensures LogMatches(after, key)
  {
    assert Owed(s.reqs[e.req], key) == [];
    OtherEvent(s.trace, e, key);
  }

  lemma RecordKeepsLog(s: State, a: Action)
    requires Inv(s) && LogOk(s) && a.Record? && a.written && a.req in s.reqs && s.reqs[a.req].Marking?
    ensures LogOk(Step(s, a))
  {
    var p, after := s.reqs[a.req], Step(s, a);
    assert PhaseFits(p) && s.reqs == map[a.req := p];
    forall key | key in after.db.keys ensures LogMatches(after, key) {
      assert LogMatches(s, key);
      var e := after.trace[|s.trace|];
      assert after.trace == s.trace + [e];
      if e.Recorded? { RecordedMatches(s, after, p, e, key); } else { DroppedMatches(s, after, p, e, key); }
    }
  }

  lemma LogKeepsLog(s: State, a: Action)
    requires Inv(s) && LogOk(s) && a.Log? && a.written && a.req in s.reqs && s.reqs[a.req].Logging?
    ensures LogOk(Step(s, a))
  {
    var entry, after := s.reqs[a.req].entry, Step(s, a);
    assert PhaseFits(s.reqs[a.req]);
    assert after.reqs == map[];
    forall key | key in after.db.keys ensures LogMatches(after, key) {
      assert LogMatches(s, key);
      FlagsAppend(s.db.logs, LogRow(s.db.nextLog, entry), key);
    }
  }

  lemma DeleteKeepsLog(s: State, a: Action)
    requires Inv(s) && LogOk(s) && a.DeleteAction?
    ensures LogOk(Step(s, a))
  {
    if a.id in s.db.keys && IsOrder(s.db.keys - {a.id}, a.order) && Delete(s.db, a.id, a.order).Ok? {
      DeleteKeeps(s.db, a.id, a.order);
      var after := Step(s, a);
      forall key | key in after.db.keys ensures LogMatches(after, key) {
        assert LogMatches(s, key);
        FlagsForget(s.db.logs, a.id, key);
      }
    }
  }

  lemma NothingOwed(s: State, r: nat, key: nat)
    requires Inv(s) && r in s.reqs && key >= s.db.nextKey
    ensures Owed(s.reqs[r], key) == []
  {
    assert Carries(s.reqs[r], key) ==> key < s.db.nextKey;
  }

  lemma CreateKeepsLog(s: State, a: Action)
    requires Inv(s) && HistoryOk(s) && LogOk(s) && a.CreateAction?
    ensures LogOk(Step(s, a))
  {
    if CreateKey(s.db, a.alias, a.hint, a.secret, a.enabled).Ok? {
      var after := Step(s, a);
      NoFlags(s.db.logs, s.db.nextKey);
      forall key | key in after.db.keys ensures LogMatches(after, key) {
        OtherEvent(s.trace, Created(s.db.nextKey), key);
        if key in s.db.keys { assert LogMatches(s, key); }
        else { forall r | r in s.reqs ensures Owed(s.reqs[r], key) == [] { NothingOwed(s, r, key); } }
      }
      forall r | r in after.reqs ensures PhaseFits(after.reqs[r]) { assert PhaseFits(s.reqs[r]); }
    }
  }

  lemma ArriveKeepsLog(s: State, a: Action)
    requires Inv(s) && LogOk(s) && a.Arrive? && s.reqs == map[]
    ensures LogOk(Step(s, a))
  {
    QuietKeepsLog(s, Step(s, a));
  }

  lemma ListKeepsLog(s: State, a: Action)
    requires Inv(s) && LogOk(s) && a.List?
    ensures LogOk(Step(s, a))
  {
    forall k | k in Listing(s.db.keys) ensures k.id in s.db.keys { }
    if a.req in s.reqs { assert PhaseFits(s.reqs[a.req]); }
    QuietKeepsLog(s, Step(s, a));
  }

  lemma ChooseKeepsLog(s: State, a: Action)
    requires Inv(s) && LogOk(s) && a.Choose?
    ensures LogOk(Step(s, a))
  {
    var after := Step(s, a);
    if a.req in s.reqs && s.reqs[a.req].Listed? {
      PickComesFrom(s.reqs[a.req].ks, s.now);
      assert PhaseFits(s.reqs[a.req]);
    }
    if after.trace != s.trace { assert after.trace == s.trace + [after.trace[|s.trace|]]; }
    QuietKeepsLog(s, after);
  }

  lemma AbortKeepsLog(s: State, a: Action)
    requires Inv(s) && LogOk(s) && a.Abort?
    ensures LogOk(Step(s, a))
  {
    if a.req in s.reqs && s.reqs[a.req].Calling? {
      assert PhaseFits(s.reqs[a.req]);
      QuietKeepsLog(s, Step(s, a));
    }
  }

  lemma FinishKeepsLog(s: State, a: Action)
    requires Inv(s) && LogOk(s) && a.Finish? && a.read
    ensures LogOk(Step(s, a))
  {
    var after := Step(s, a);
    if a.req in s.reqs && s.reqs[a.req].Calling? {
      assert PhaseFits(s.reqs[a.req]);
      if after.trace != s.trace { assert after.trace == s.trace + [after.trace[|s.trace|]]; }
      QuietKeepsLog(s, after);
    }
  }

  lemma UnloggedKeepsLog(s: State, after: State)
    requires LogOk(s) && after.db.keys.Keys == s.db.keys.Keys && after.db.logs == s.db.logs
    requires after.trace == s.trace && after.reqs == s.reqs
    ensures LogOk(after)
  {
    forall r | r in after.reqs ensures PhaseFits(after.reqs[r]) { assert PhaseFits(s.reqs[r]); }
    forall key | key in after.db.keys ensures LogMatches(after, key) { assert LogMatches(s, key); }
  }

  lemma ReorderKeepsLog(s: State, a: Action)
    requires Inv(s) && LogOk(s) && a.ReorderAction?
    ensures LogOk(Step(s, a))
  {
    if IsOrder(s.db.keys, a.order) && Reorder(s.db, a.ids, a.order).Ok? { ReorderResult(s.db, a.ids, a.order); }
    UnloggedKeepsLog(s, Step(s, a));
  }

  lemma EditKeepsLog(s: State, a: Action)
    requires Inv(s) && LogOk(s) && (a.Tick? || a.ReplaceAction? || a.EnableAction? || a.ConfigAction?)
    ensures LogOk(Step(s, a))
  {
    UnloggedKeepsLog(s, Step(s, a));
  }

  lemma StepKeepsLog(s: State, a: Action)
    requires Inv(s) && HistoryOk(s) && LogOk(s) && OrderlyAction(s, a)
    ensures LogOk(Step(s, a))
  {
    if a.CreateAction? { CreateKeepsLog(s, a); }
    else if a.DeleteAction? { DeleteKeepsLog(s, a); }
    else if a.ReorderAction? { ReorderKeepsLog(s, a); }
    else if a.Arrive? { ArriveKeepsLog(s, a); }
    else if a.List? { ListKeepsLog(s, a); }
    else if a.Choose? { ChooseKeepsLog(s, a); }
    else if a.Abort? { AbortKeepsLog(s, a); }
    else if a.Finish? { FinishKeepsLog(s, a); }
    else if a.Record? {
      if a.req in s.reqs && s.reqs[a.req].Marking? { RecordKeepsLog(s, a); }
    } else if a.Log? {
      if a.req in s.reqs && s.reqs[a.req].Logging? { LogKeepsLog(s, a); }
    } else {
      EditKeepsLog(s, a);
    }
  }

  lemma {:induction false} RunKeepsLog(s: State, actions: seq<Action>)
    requires Inv(s) && HistoryOk(s) && LogOk(s) && Orderly(s, actions)
    ensures LogOk(Run(s, actions))
    decreases |actions|
  {
    if actions != [] {
      StepKeeps(s, actions[0]);
      StepKeepsHistory(s, actions[0]);
      StepKeepsLog(s, actions[0]);
      RunKeepsLog(Step(s, actions[0]), actions[1..]);
    }
  }

  /** The log of a key agrees with its results and its counter, given what is still to be logged. */
  ghost predicate Agrees(s: State, key: nat, owed: seq<bool>)
    requires key in s.db.keys
  {
    && Flags(s.db.logs, key) + owed == Successes(Marks(s.trace, key))
    && s.db.keys[key].failures == TrailingFalse(Flags(s.db.logs, key) + owed)
  }

  /** At every moment of an orderly run: the rows logged for a key, with the row that the request under way has
      recorded but not yet logged, are the key's recorded results one for one, and consecutive_failures is
      their trailing run of failures.  With no request under way these are the logged rows alone. */
  lemma CounterAgreesWithLog(s: State, actions: seq<Action>, key: nat)
    requires Initial(s) && (InitialInv(s); Orderly(s, actions))
    requires key in Reached(s, actions).db.keys
    ensures var after := Reached(s, actions);
      && (after.reqs == map[] ==> Agrees(after, key, []))
      && (forall r :: r in after.reqs ==> Agrees(after, key, Owed(after.reqs[r], key)))
  {
    InitialInv(s);
    RunKeepsHistory(s, actions);
    RunKeepsLog(s, actions);
    var after := Reached(s, actions);
    assert LogMatches(after, key);
    SameTrailing(Marks(after.trace, key));
    assert Flags(after.db.logs, key) + [] == Flags(after.db.logs, key);
  }
}
