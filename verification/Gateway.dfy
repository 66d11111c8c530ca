/** The running gateway: proxied requests, administration and cleanup as atomic steps that interleave freely.
    A request is broken where the program lets go of the database: on arrival, after the keys are listed,
    after one is chosen, after the call has ended and the configuration has been read, and after the result
    is recorded. */
module Gateway {
  import opened Wrappers
  import opened Store
  import opened KeyTable
  import opened Listings
  import opened Selection

  /** How a call to the upstream ends. */
  datatype Outcome =
    | TransportError(timeout: bool)
    | StreamError(status: int)
    | ReadError(status: int)
    | Answer(status: int)

  function StatusCode(outcome: Outcome): int {
    match outcome
    case TransportError(timeout) => if timeout then 504 else 502
    case StreamError(status) => status
    case ReadError(status) => status
    case Answer(status) => status
  }

  predicate Success(outcome: Outcome) {
    outcome.Answer? && 200 <= outcome.status < 300
  }

  /** Where a request is in Proxy. */
  datatype Phase =
    | Arrived(ts: Time, route: string)
    | Listed(ts: Time, route: string, ks: seq<Key>)
    | Calling(ts: Time, route: string, key: nat, alias: string)
    | Marking(ts: Time, route: string, key: nat, alias: string, outcome: Outcome, config: Config)
    | Logging(entry: Entry)

  /** What an observer of the keys sees. */
  datatype Event =
    | Created(key: nat)
    | Selected(req: nat, key: nat)
    | Recorded(req: nat, key: nat, success: bool, at: Time, threshold: int, cooldown: int)
    | Ignored(req: nat, key: nat)
    | Aborted(req: nat, key: nat)
    | Dropped(req: nat, key: nat)

  datatype State = State(db: Db, now: Time, reqs: map<nat, Phase>, nextReq: nat, trace: seq<Event>)

  datatype Action =
    | Tick(elapsed: nat)
    | CreateAction(alias: string, hint: string, secret: string, enabled: bool)
    | ReplaceAction(id: nat, alias: string, hint: string, secret: string, enabled: bool)
    | EnableAction(id: nat, enabled: bool)
    | DeleteAction(id: nat, order: seq<nat>)
    | ReorderAction(ids: seq<int>, order: seq<nat>)
    | ConfigAction(config: Config)
    | CleanupAction(lag: nat)
    | Arrive(route: string)
    | List(req: nat, read: bool)
    | Choose(req: nat, usable: bool)
    | Abort(req: nat)
    | Finish(req: nat, outcome: Outcome, read: bool)
    | Record(req: nat, written: bool, summary: string)
    | Log(req: nat, written: bool)

  predicate Initial(s: State) {
    && s.db.keys == map[] && s.db.nextKey == 1 && ConfigOk(s.db.config)
    && s.db.logs == [] && s.db.nextLog == 1
    && s.reqs == map[] && s.nextReq == 0 && s.trace == []
  }

  function Commit(s: State, r: Result<Db, Error>): State {
    match r
    case Ok(db) => s.(db := db)
    case Err(_) => s
  }

  function Goto(s: State, req: nat, phase: Phase): State {
    s.(reqs := s.reqs[req := phase])
  }

  function Emit(s: State, event: Event): State {
    s.(trace := s.trace + [event])
  }

  ghost function Create(s: State, alias: string, hint: string, secret: string, enabled: bool): State {
    match CreateKey(s.db, alias, hint, secret, enabled)
    case Ok(db) => Emit(s.(db := db), Created(s.db.nextKey))
    case Err(_) => s
  }

  /** The end of Select: the clock is read after the keys were, and decrypting the key or parsing the base
      URL may fail. */
  function ChooseKey(s: State, req: nat, usable: bool, ts: Time, route: string, ks: seq<Key>): State {
    match Pick(ks, s.now)
    case None => Goto(s, req, Logging(Entry(ts, route, None, "", 503, false, NoKey)))
    case Some(key) =>
      if usable then Emit(Goto(s, req, Calling(ts, route, key.id, key.alias)), Selected(req, key.id))
      else Goto(s, req, Logging(Entry(ts, route, None, "", 500, false, NoKey)))
  }

  function UpstreamEntry(ts: Time, route: string, key: nat, alias: string, outcome: Outcome): Entry {
    Entry(ts, route, Some(key), alias, StatusCode(outcome), Success(outcome), Upstream)
  }

  /** The call has ended: a 401 is not marked; otherwise MarkResult reads the configuration. */
  function EndCall(s: State, req: nat, phase: Phase, outcome: Outcome, read: bool): State
    requires phase.Calling?
  {
    var entry := UpstreamEntry(phase.ts, phase.route, phase.key, phase.alias, outcome);
    if StatusCode(outcome) == UNAUTHORIZED then Emit(Goto(s, req, Logging(entry)), Ignored(req, phase.key))
    else if !read then Emit(Goto(s, req, Logging(entry)), Dropped(req, phase.key))
    else Goto(s, req, Marking(phase.ts, phase.route, phase.key, phase.alias, outcome, s.db.config))
  }

  /** The transaction of RecordUpstreamResult; its errors are ignored by the caller. */
  function RecordMark(s: State, req: nat, phase: Phase, written: bool, summary: string): State
    requires phase.Marking?
  {
    var ok, threshold, cooldown := Success(phase.outcome), phase.config.threshold, CooldownNanos(phase.config.cooldownSeconds);
    var s' := Goto(s, req, Logging(UpstreamEntry(phase.ts, phase.route, phase.key, phase.alias, phase.outcome)));
    match RecordResult(s.db, phase.key, ok, threshold, cooldown, s.now, summary)
    case Ok(db) =>
      if written then Emit(s'.(db := db), Recorded(req, phase.key, ok, s.now, threshold, cooldown))
      else Emit(s', Dropped(req, phase.key))
    case Err(_) => Emit(s', Dropped(req, phase.key))
  }

  function WriteLog(s: State, req: nat, entry: Entry, written: bool): State {
    var s' := s.(reqs := s.reqs - {req});
    if written then Commit(s', InsertLog(s.db, entry)) else s'
  }

  /** An action that is not possible in a state leaves it alone.  A cleanup may have read its clock some time
      before it deletes. */
  ghost function Step(s: State, a: Action): State
    requires Wf(s.db.keys)
  {
    match a
    case Tick(elapsed) => s.(now := s.now + elapsed)
    case CreateAction(alias, hint, secret, enabled) => Create(s, alias, hint, secret, enabled)
    case ReplaceAction(id, alias, hint, secret, enabled) => Commit(s, ReplaceKey(s.db, id, alias, hint, secret, enabled))
    case EnableAction(id, enabled) => Commit(s, SetEnabled(s.db, id, enabled))
    case DeleteAction(id, order) =>
      if id in s.db.keys && IsOrder(s.db.keys - {id}, order) then Commit(s, Delete(s.db, id, order)) else s
    case ReorderAction(ids, order) =>
      if IsOrder(s.db.keys, order) then Commit(s, Reorder(s.db, ids, order)) else s
    case ConfigAction(config) => Commit(s, UpdateConfig(s.db, config))
    case CleanupAction(lag) => s.(db := CleanupLogs(s.db, s.now - lag - DAY))
    case Arrive(route) =>
      if RouteOk(route) then Goto(s, s.nextReq, Arrived(s.now, route)).(nextReq := s.nextReq + 1) else s
    case List(req, read) =>
      if req in s.reqs && s.reqs[req].Arrived? then
        var p := s.reqs[req];
        if read then Goto(s, req, Listed(p.ts, p.route, Listing(s.db.keys)))
        else Goto(s, req, Logging(Entry(p.ts, p.route, None, "", 500, false, NoKey)))
      else s
    case Choose(req, usable) =>
      if req in s.reqs && s.reqs[req].Listed? then
        ChooseKey(s, req, usable, s.reqs[req].ts, s.reqs[req].route, s.reqs[req].ks)
      else s
    case Abort(req) =>
      if req in s.reqs && s.reqs[req].Calling? then
        var p := s.reqs[req];
        Emit(Goto(s, req, Logging(Entry(p.ts, p.route, Some(p.key), p.alias, 500, false, LocalAbort))), Aborted(req, p.key))
      else s
    case Finish(req, outcome, read) =>
      if req in s.reqs && s.reqs[req].Calling? then EndCall(s, req, s.reqs[req], outcome, read) else s
    case Record(req, written, summary) =>
      if req in s.reqs && s.reqs[req].Marking? then RecordMark(s, req, s.reqs[req], written, summary) else s
    case Log(req, written) =>
      if req in s.reqs && s.reqs[req].Logging? then WriteLog(s, req, s.reqs[req].entry, written) else s
  }

  // ---------- What every step keeps ----------

  /** A key id a request still carries. */
  ghost predicate Carries(p: Phase, id: nat) {
    match p
    case Arrived(_, _) => false
    case Listed(_, _, ks) => exists k :: k in ks && k.id == id
    case Calling(_, _, key, _) => key == id
    case Marking(_, _, key, _, _, _) => key == id
    case Logging(entry) => entry.keyId == Some(id)
  }

  predicate IdsGrow(logs: seq<LogRow>) {
    forall i, j :: 0 <= i < j < |logs| ==> logs[i].id < logs[j].id
  }

  /** Every non-null upstream_key_id names an existing key, and ids grow with the insertion order. */
  ghost predicate LogsOk(db: Db) {
    && (forall i :: 0 <= i < |db.logs| ==> db.logs[i].id < db.nextLog)
    && IdsGrow(db.logs)
    && (forall i :: 0 <= i < |db.logs| && db.logs[i].entry.keyId.Some? ==> db.logs[i].entry.keyId.value in db.keys)
  }

  ghost predicate Inv(s: State) {
    && TableOk(s.db) && ConfigOk(s.db.config) && LogsOk(s.db)
    && (forall r :: r in s.reqs ==> r < s.nextReq)
    && (forall r, id: nat :: r in s.reqs && Carries(s.reqs[r], id) ==> id < s.db.nextKey)
    && (forall r :: r in s.reqs && s.reqs[r].Marking? ==> ConfigOk(s.reqs[r].config))
  }

  lemma InitialInv(s: State)
    requires Initial(s)
    ensures Inv(s)
  {
    assert IsListing([], s.db.keys) && DenseListing([]);
  }

  lemma ForgetKeeps(db: Db, after: Db, id: nat)
    requires LogsOk(db) && after == db.(keys := after.keys, logs := ForgetAll(db.logs, id)) && after.keys.Keys == db.keys.Keys - {id}
    ensures LogsOk(after)
  {
  }

  lemma {:induction false} SinceMembers(logs: seq<LogRow>, since: Time)
    ensures forall row :: row in Since(logs, since) <==> row in logs && row.entry.ts >= since
    decreases |logs|
  {
    if logs != [] {
      SinceMembers(logs[..|logs| - 1], since);
      assert logs == logs[..|logs| - 1] + [logs[|logs| - 1]];
    }
  }

  lemma GrowsAtEnd(logs: seq<LogRow>, last: LogRow)
    requires IdsGrow(logs) && forall row :: row in logs ==> row.id < last.id
    ensures IdsGrow(logs + [last])
  {
  }

  lemma {:induction false} SinceGrows(logs: seq<LogRow>, since: Time)
    requires IdsGrow(logs)
    ensures IdsGrow(Since(logs, since))
    decreases |logs|
  {
    if logs != [] {
      var front, last := logs[..|logs| - 1], logs[|logs| - 1];
      SinceGrows(front, since);
      SinceMembers(front, since);
      forall row | row in Since(front, since) ensures row.id < last.id {
        var i :| 0 <= i < |front| && front[i] == row;
        assert logs[i] == row;
      }
      GrowsAtEnd(Since(front, since), last);
    }
  }

  lemma CleanupKeeps(db: Db, olderThan: Time)
    requires LogsOk(db)
    ensures LogsOk(CleanupLogs(db, olderThan))
  {
    SinceMembers(db.logs, olderThan);
    SinceGrows(db.logs, olderThan);
    var kept := Since(db.logs, olderThan);
    forall i | 0 <= i < |kept| ensures kept[i].id < db.nextLog && (kept[i].entry.keyId.Some? ==> kept[i].entry.keyId.value in db.keys) {
      assert kept[i] in kept;
      var j :| 0 <= j < |db.logs| && db.logs[j] == kept[i];
    }
  }

  /** The administrative transactions. */
  lemma TableStepKeeps(s: State, a: Action)
    requires Inv(s) && (a.CreateAction? || a.ReplaceAction? || a.EnableAction? || a.DeleteAction? || a.ReorderAction?)
    ensures Inv(Step(s, a)) && Step(s, a).reqs == s.reqs && Step(s, a).now == s.now && Step(s, a).db.config == s.db.config
    ensures s.db.nextKey <= Step(s, a).db.nextKey
  {
    match a
    case CreateAction(alias, hint, secret, enabled) =>
      if CreateKey(s.db, alias, hint, secret, enabled).Ok? { CreateKeeps(s.db, alias, hint, secret, enabled); }
    case ReplaceAction(id, alias, hint, secret, enabled) =>
      if ReplaceKey(s.db, id, alias, hint, secret, enabled).Ok? { ReplaceKeeps(s.db, id, alias, hint, secret, enabled); }
    case EnableAction(id, enabled) =>
      if SetEnabled(s.db, id, enabled).Ok? { SetEnabledKeeps(s.db, id, enabled); }
    case DeleteAction(id, order) =>
      if id in s.db.keys && IsOrder(s.db.keys - {id}, order) && Delete(s.db, id, order).Ok? {
        DeleteKeeps(s.db, id, order);
        ForgetKeeps(s.db, Delete(s.db, id, order).value, id);
      }
    case ReorderAction(ids, order) =>
      if IsOrder(s.db.keys, order) && Reorder(s.db, ids, order).Ok? { ReorderResult(s.db, ids, order); }
  }

  lemma DeleteKeeps(db: Db, id: nat, order: seq<nat>)
    requires TableOk(db) && id in db.keys && IsOrder(db.keys - {id}, order) && Delete(db, id, order).Ok?
    ensures var after := Delete(db, id, order).value;
      && TableOk(after) && after.keys.Keys == db.keys.Keys - {id}
      && after == db.(keys := after.keys, logs := ForgetAll(db.logs, id))
      && (forall j :: j in after.keys ==> after.keys[j] == db.keys[j].(priority := after.keys[j].priority))
  {
    DeleteKeepsTable(db, id, order);
    DeleteKeepsColumns(db, id, order);
  }

  lemma ListStepKeeps(s: State, req: nat, read: bool)
    requires Inv(s)
    ensures Inv(Step(s, List(req, read))) && Step(s, List(req, read)).db == s.db && Step(s, List(req, read)).now == s.now
  {
    forall k | k in Listing(s.db.keys) ensures k.id < s.db.nextKey { assert k.id in s.db.keys; }
  }

  lemma ChooseStepKeeps(s: State, req: nat, usable: bool)
    requires Inv(s)
    ensures Inv(Step(s, Choose(req, usable))) && Step(s, Choose(req, usable)).db == s.db && Step(s, Choose(req, usable)).now == s.now
  {
    if req in s.reqs && s.reqs[req].Listed? && Pick(s.reqs[req].ks, s.now).Some? {
      PickComesFrom(s.reqs[req].ks, s.now);
      assert Carries(s.reqs[req], Pick(s.reqs[req].ks, s.now).value.id);
    }
  }

  lemma CallStepKeeps(s: State, a: Action)
    requires Inv(s) && (a.Abort? || a.Finish?)
    ensures Inv(Step(s, a)) && Step(s, a).db == s.db && Step(s, a).now == s.now
  {
    if a.req in s.reqs && s.reqs[a.req].Calling? { assert Carries(s.reqs[a.req], s.reqs[a.req].key); }
  }

  /** The steps of a request. */
  lemma RequestStepKeeps(s: State, a: Action)
    requires Inv(s) && (a.Arrive? || a.List? || a.Choose? || a.Abort? || a.Finish?)
    ensures Inv(Step(s, a)) && Step(s, a).db == s.db && Step(s, a).now == s.now
  {
    match a
    case Arrive(route) =>
    case List(req, read) => ListStepKeeps(s, req, read);
    case Choose(req, usable) => ChooseStepKeeps(s, req, usable);
    case Abort(_) => CallStepKeeps(s, a);
    case Finish(_, _, _) => CallStepKeeps(s, a);
  }

  lemma RecordStepKeeps(s: State, req: nat, written: bool, summary: string)
    requires Inv(s)
    ensures Inv(Step(s, Record(req, written, summary)))
  {
    if req in s.reqs && s.reqs[req].Marking? {
      var p := s.reqs[req];
      assert Carries(p, p.key);
      if p.key in s.db.keys {
        RecordKeeps(s.db, p.key, Success(p.outcome), p.config.threshold, CooldownNanos(p.config.cooldownSeconds), s.now, summary);
      }
    }
  }

  lemma LogStepKeeps(s: State, req: nat, written: bool)
    requires Inv(s)
    ensures Inv(Step(s, Log(req, written)))
  {
  }

  lemma TickStepKeeps(s: State, a: Action)
    requires Inv(s) && (a.Tick? || a.ConfigAction?)
    ensures Inv(Step(s, a))
  {
  }

  /** In every reachable state, under any interleaving: ids below the counters, aliases unique, priorities
      exactly 1..n, the configuration within its CHECKs, and every logged key id an existing key. */
  lemma StepKeeps(s: State, a: Action)
    requires Inv(s)
    ensures Inv(Step(s, a))
    ensures s.now <= Step(s, a).now && s.db.nextKey <= Step(s, a).db.nextKey && s.nextReq <= Step(s, a).nextReq
  {
    match a
    case Tick(_) => TickStepKeeps(s, a);
    case ConfigAction(_) => TickStepKeeps(s, a);
    case CleanupAction(lag) => CleanupKeeps(s.db, s.now - lag - DAY);
    case Record(req, written, summary) => RecordStepKeeps(s, req, written, summary);
    case Log(req, written) => LogStepKeeps(s, req, written);
    case CreateAction(_, _, _, _) => TableStepKeeps(s, a);
    case ReplaceAction(_, _, _, _, _) => TableStepKeeps(s, a);
    case EnableAction(_, _) => TableStepKeeps(s, a);
    case DeleteAction(_, _) => TableStepKeeps(s, a);
    case ReorderAction(_, _) => TableStepKeeps(s, a);
    case Arrive(_) => RequestStepKeeps(s, a);
    case List(_, _) => RequestStepKeeps(s, a);
    case Choose(_, _) => RequestStepKeeps(s, a);
    case Abort(_) => RequestStepKeeps(s, a);
    case Finish(_, _, _) => RequestStepKeeps(s, a);
  }

  // ---------- Runs ----------

  /** The state after a sequence of actions. */
  ghost function Run(s: State, actions: seq<Action>): (after: State)
    requires Inv(s)
    ensures Inv(after) && s.now <= after.now && s.db.nextKey <= after.db.nextKey && s.nextReq <= after.nextReq
    decreases |actions|
  {
    if actions == [] then s
    else
      StepKeeps(s, actions[0]);
      Run(Step(s, actions[0]), actions[1..])
  }

  lemma {:induction false} RunAppend(s: State, actions: seq<Action>, a: Action)
    requires Inv(s)
    ensures Run(s, actions + [a]) == Step(Run(s, actions), a)
    decreases |actions|
  {
    if actions == [] {
      assert (actions + [a])[1..] == [];
    } else {
      StepKeeps(s, actions[0]);
      assert (actions + [a])[1..] == actions[1..] + [a];
      RunAppend(Step(s, actions[0]), actions[1..], a);
    }
  }

  lemma RunFour(s: State, a: Action, b: Action, c: Action, d: Action) returns (s1: State, s2: State, s3: State, s4: State)
    requires Inv(s)
    ensures s1 == Step(s, a) && Wf(s1.db.keys) && s2 == Step(s1, b) && Wf(s2.db.keys) && s3 == Step(s2, c) && Wf(s3.db.keys)
    ensures s4 == Step(s3, d) && Run(s, [a, b, c, d]) == s4
  {
    StepKeeps(s, a);
    s1 := Step(s, a);
    assert [a, b, c, d][1..] == [b, c, d];
    StepKeeps(s1, b);
    s2 := Step(s1, b);
    assert [b, c, d][1..] == [c, d];
    StepKeeps(s2, c);
    s3 := Step(s2, c);
    assert [c, d][1..] == [d];
    StepKeeps(s3, d);
    s4 := Step(s3, d);
    assert [d][1..] == [];
    assert Run(s3, [d]) == s4;
    assert Run(s2, [c, d]) == s4;
    assert Run(s1, [b, c, d]) == s4;
  }

  /** The state after a run from the empty store. */
  ghost function Reached(s: State, actions: seq<Action>): State
    requires Initial(s)
  {
    InitialInv(s);
    Run(s, actions)
  }

  /** In every reachable state the priorities are distinct and exactly 1..n, and every logged key exists. */
  lemma PrioritiesStayDense(s: State, actions: seq<Action>)
    requires Initial(s)
    ensures var db := Reached(s, actions).db;
      && DistinctPriorities(db.keys)
      && (forall p :: p in Priorities(db.keys) <==> 1 <= p <= |db.keys|)
      && (forall row, id :: row in db.logs && row.entry.keyId == Some(id) ==> id in db.keys)
  {
    DensePriorities(Reached(s, actions).db.keys);
  }
}
