/** Proxy as one method over the store, and its agreement with the steps of the gateway. */
module Forwarders {
  import opened Wrappers
  import opened Store
  import opened KeyTable
  import opened Listings
  import opened Selection
  import opened Columns
  import opened Gateway
  import opened Repositories

  /** What surrounds one call of Proxy: whether the keys could be read, how long after that the clock is read,
      whether the chosen key is usable and the request can be built, how the upstream call ends, whether the
      configuration can be read after it, how long until the result is recorded, and whether the two writes
      go through. */
  datatype Call = Call(
    route: string,
    listed: bool, pause: nat, usable: bool, aborted: bool,
    outcome: Outcome, read: bool,
    latency: nat, written: bool, summary: string, logged: bool)

  // ---------- The method ----------

  class Forwarder {
    const repo: Repository

    constructor (repo: Repository)
      ensures this.repo == repo
    {
      this.repo := repo;
    }

    /** recordUpstreamResult and MarkResult; what goes wrong is ignored. */
    method RecordUpstreamResult(id: nat, success: bool, statusCode: int, call: Call, now: Time)
      requires repo.Valid()
      modifies repo`keys
      ensures repo.Valid()
      ensures repo.Tables() == MarkedDb(old(repo.Tables()), id, success, statusCode, call, now)
      ensures statusCode == 401 || !call.read || !call.written || id !in old(repo.keys) ==> repo.keys == old(repo.keys)
      ensures statusCode != 401 && call.read && call.written && id in old(repo.keys) ==>
                && OnlyRow(old(repo.Tables()), repo.Tables(), id)
                && ResultWritten(old(repo.keys)[id], repo.keys[id], success, repo.config.threshold,
                     CooldownNanos(repo.config.cooldownSeconds), now, call.summary)
    {
      if statusCode == UNAUTHORIZED { return; }
      if !call.read || !call.written { return; }
      var cooldown := CooldownNanos(repo.config.cooldownSeconds);
      var ignored := repo.RecordUpstreamResult(id, success, repo.config.threshold, cooldown, now, call.summary);
    }

    /** Select: a key, or the status to refuse the request with. */
    method SelectKey(call: Call, start: Time) returns (r: Result<Key, int>)
      requires repo.Valid()
      ensures AfterChoice(repo.Tables(), start, call) == Chosen(r, start, call)
      ensures r.Err? ==> r.error == if call.listed && NoneUsable(repo.keys, start + call.pause) then 503 else 500
      ensures r.Ok? <==> call.listed && call.usable && !NoneUsable(repo.keys, start + call.pause)
      ensures r.Ok? ==> IsBest(r.value, repo.keys, start + call.pause)
    {
      PickIsBest(Listing(repo.keys), repo.keys, start + call.pause);
      if !call.listed { return Err(500); }
      var ks := repo.ListUpstreamKeys();
      var chosen := Select(ks, start + call.pause);
      return if chosen.None? then Err(503) else if !call.usable then Err(500) else Ok(chosen.value);
    }

    /** The call itself, from the answer or error to the mark. */
    method Conclude(start: Time, key: Key, call: Call, now: Time) returns (entry: Entry, status: int)
      requires repo.Valid()
      modifies repo`keys
      ensures repo.Valid()
      ensures entry == UpstreamEntry(start, call.route, key.id, key.alias, call.outcome)
      ensures entry.success <==> call.outcome.Answer? && 200 <= call.outcome.status < 300
      ensures entry.status == if call.outcome.TransportError? then (if call.outcome.timeout then 504 else 502) else call.outcome.status
      ensures repo.Tables() == MarkedDb(old(repo.Tables()), key.id, entry.success, entry.status, call, now)
      ensures status == if call.outcome.ReadError? then 502 else entry.status
    {
      entry := Entry(start, call.route, Some(key.id), key.alias, 0, false, Upstream);
      match call.outcome {
        case TransportError(timeout) =>
          status := if timeout then 504 else 502;
          entry := entry.(status := status);
        case StreamError(statusCode) =>
          status := statusCode;
          entry := entry.(status := statusCode);
        case ReadError(statusCode) =>
          status := 502;
          entry := entry.(status := statusCode);
        case Answer(statusCode) =>
          status := statusCode;
          entry := entry.(status := statusCode, success := 200 <= statusCode < 300);
      }
      RecordUpstreamResult(key.id, entry.success, entry.status, call, now);
    }

    /** Proxy between Select and its deferred log write: the row to log and the status the client gets. */
    method Forward(candidate: Result<Key, int>, call: Call, start: Time, now: Time) returns (entry: Entry, status: int)
      requires repo.Valid()
      modifies repo`keys
      ensures repo.Valid()
      ensures entry == RowOf(Chosen(candidate, start, call), call)
      ensures repo.Tables() == MarkedBy(Chosen(candidate, start, call), old(repo.Tables()), call, now)
      ensures status == if entry.origin.Upstream? && call.outcome.ReadError? then 502 else entry.status
      ensures candidate.Err? ==> entry == Entry(start, call.route, None, "", candidate.error, false, NoKey)
      ensures candidate.Err? || call.aborted ==> repo.keys == old(repo.keys)
      ensures candidate.Ok? && call.aborted ==>
                entry == Entry(start, call.route, Some(candidate.value.id), candidate.value.alias, 500, false, LocalAbort)
      ensures candidate.Ok? && !call.aborted ==>
                && entry == Entry(start, call.route, Some(candidate.value.id), candidate.value.alias, entry.status, entry.success, Upstream)
                && (entry.success <==> call.outcome.Answer? && 200 <= call.outcome.status < 300)
                && entry.status == if call.outcome.TransportError? then (if call.outcome.timeout then 504 else 502) else call.outcome.status
    {
      match candidate {
        case Err(code) =>
          return Entry(start, call.route, None, "", code, false, NoKey), code;
        case Ok(key) =>
          if call.aborted { return Entry(start, call.route, Some(key.id), key.alias, 500, false, LocalAbort), 500; }
          entry, status := Conclude(start, key, call, now);
      }
    }

    /** The deferred write of the log row; an error is ignored. */
    method WriteLog(call: Call, row: Entry)
      modifies repo
      ensures repo.Tables() == LoggedDb(old(repo.Tables()), call, row)
    {
      if call.logged { var ignored := repo.InsertRequestLog(row); }
    }

    /** One undisturbed call of Proxy does to the tables what the gateway's steps for one request do.  It logs
        one row unless the status is 401 or the write fails, and the client gets the status of that row - but
        502 where the answer's body could not be read. */
    method Proxy(call: Call, start: Time) returns (row: Entry, status: int)
      requires repo.Valid() && LogsOk(repo.Tables()) && RouteOk(call.route)
      modifies repo
      ensures repo.Valid() && LogsOk(repo.Tables())
      ensures repo.Tables() == Proxied(old(repo.Tables()), start, call).db && Proxied(old(repo.Tables()), start, call).reqs == map[]
      ensures repo.Tables().logs ==
              old(repo.Tables()).logs + if call.logged && row.status != 401 then [LogRow(old(repo.Tables()).nextLog, row)] else []
      ensures row.success <==> row.origin.Upstream? && call.outcome.Answer? && 200 <= call.outcome.status < 300
      ensures row.origin.Upstream? ==>
                row.status == if call.outcome.TransportError? then (if call.outcome.timeout then 504 else 502) else call.outcome.status
      ensures status == if row.origin.Upstream? && call.outcome.ReadError? then 502 else row.status
    {
      ghost var db := repo.Tables();
      var candidate := SelectKey(call, start);
      var now := start + call.pause + call.latency;
      row, status := Forward(candidate, call, start, now);
      WriteLog(call, row);
      ProxyEnds(db, start, call, Chosen(candidate, start, call), now, row, repo.Tables());
    }
  }

  // ---------- The same in the gateway ----------

  /** The gateway with nothing in flight. */
  function Alone(db: Db, now: Time): State {
    State(db, now, map[], 0, [])
  }

  /** The steps of one request, with nothing between them. */
  ghost function Proxied(db: Db, start: Time, call: Call): (after: State)
    requires TableOk(db) && ConfigOk(db.config) && LogsOk(db)
    ensures Inv(after)
  {
    AloneInv(db, start);
    Run(Run(Alone(db, start), UpToChoice(call)), Rest(call))
  }

  function UpToChoice(call: Call): seq<Action> {
    [Arrive(call.route), List(0, call.listed), Tick(call.pause), Choose(0, call.usable)]
  }

  function Rest(call: Call): seq<Action> {
    [CallStep(call), Tick(call.latency), Record(0, call.written, call.summary), Log(0, call.logged)]
  }

  function AbortEntry(mid: Phase): Entry
    requires mid.Calling?
  {
    Entry(mid.ts, mid.route, Some(mid.key), mid.alias, 500, false, LocalAbort)
  }

  function Chosen(candidate: Result<Key, int>, start: Time, call: Call): Phase {
    match candidate
    case Err(code) => Logging(Entry(start, call.route, None, "", code, false, NoKey))
    case Ok(key) => Calling(start, call.route, key.id, key.alias)
  }

  /** Where the request is after Select: about to log a refusal, or about to call the key. */
  ghost function AfterChoice(db: Db, start: Time, call: Call): (p: Phase)
    requires Wf(db.keys)
    ensures p.Logging? || p.Calling?
  {
    if !call.listed then Logging(Entry(start, call.route, None, "", 500, false, NoKey))
    else match Pick(Listing(db.keys), start + call.pause)
      case None => Logging(Entry(start, call.route, None, "", 503, false, NoKey))
      case Some(key) =>
        if call.usable then Calling(start, call.route, key.id, key.alias)
        else Logging(Entry(start, call.route, None, "", 500, false, NoKey))
  }

  function MarkedDb(db: Db, id: nat, success: bool, statusCode: int, call: Call, now: Time): Db {
    if statusCode == UNAUTHORIZED || !call.read || !call.written then db
    else match RecordResult(db, id, success, db.config.threshold, CooldownNanos(db.config.cooldownSeconds), now, call.summary)
      case Ok(after) => after
      case Err(_) => db
  }

  /** From the phase after Select on: the row that is logged, and the tables before it is. */
  function RowOf(p: Phase, call: Call): Entry
    requires p.Logging? || p.Calling?
  {
    if p.Logging? then p.entry
    else if call.aborted then AbortEntry(p)
    else UpstreamEntry(p.ts, p.route, p.key, p.alias, call.outcome)
  }

  function MarkedBy(p: Phase, db: Db, call: Call, now: Time): Db {
    if p.Calling? && !call.aborted then MarkedDb(db, p.key, Success(call.outcome), StatusCode(call.outcome), call, now) else db
  }

  /** With nothing else in flight the row of a request passes the CHECK on route and the foreign key. */
  lemma RowIsAccepted(db: Db, start: Time, call: Call, now: Time)
    requires Wf(db.keys) && RouteOk(call.route)
    ensures var p := AfterChoice(db, start, call); var row := RowOf(p, call); var marked := MarkedBy(p, db, call, now);
      && RouteOk(row.route) && (row.keyId.Some? ==> row.keyId.value in marked.keys)
      && marked.logs == db.logs && marked.nextLog == db.nextLog
  {
    PickComesFrom(Listing(db.keys), start + call.pause);
  }

  lemma ProxiedResult(db: Db, start: Time, call: Call, p: Phase, now: Time)
    requires Inv(Alone(db, start)) && RouteOk(call.route) && p == AfterChoice(db, start, call) && now == start + call.pause + call.latency
    ensures var after := Run(Run(Alone(db, start), UpToChoice(call)), Rest(call));
      Inv(after) && after.reqs == map[] && after.db == LoggedDb(MarkedBy(p, db, call, now), call, RowOf(p, call))
  {
    var mid := RunsToChoice(db, start, call, p);
    RunsToEnd(mid, db, call, p, now);
  }

  lemma ProxyEnds(db: Db, start: Time, call: Call, p: Phase, now: Time, row: Entry, after: Db)
    requires now == start + call.pause + call.latency && TableOk(db) && ConfigOk(db.config) && LogsOk(db)
    requires RouteOk(call.route) && p == AfterChoice(db, start, call)
    requires row == RowOf(p, call) && after == LoggedDb(MarkedBy(p, db, call, now), call, row)
    ensures after == Proxied(db, start, call).db && Proxied(db, start, call).reqs == map[]
    ensures TableOk(after) && ConfigOk(after.config) && LogsOk(after)
    ensures after.logs == db.logs + if call.logged && row.status != UNAUTHORIZED then [LogRow(db.nextLog, row)] else []
  {
    AloneInv(db, start);
    ProxiedResult(db, start, call, p, now);
    RowIsAccepted(db, start, call, now);
  }

  function LoggedDb(marked: Db, call: Call, entry: Entry): Db {
    if call.logged && InsertLog(marked, entry).Ok? then InsertLog(marked, entry).value else marked
  }

  lemma AloneInv(db: Db, now: Time)
    requires TableOk(db) && ConfigOk(db.config) && LogsOk(db)
    ensures Inv(Alone(db, now))
  {
  }

  /** After Tick the request is still where List left it. */
  lemma ChooseAfter(s: State, call: Call, start: Time, db: Db)
    requires Wf(db.keys) && s.db == db && s.now == start + call.pause
    requires s.reqs == map[0 := if call.listed then Listed(start, call.route, Listing(db.keys))
                                else Logging(Entry(start, call.route, None, "", 500, false, NoKey))]
    ensures var mid := Step(s, Choose(0, call.usable));
      mid.db == db && mid.now == s.now && mid.reqs == map[0 := AfterChoice(db, start, call)]
  {
  }

  lemma ListAfter(s: State, call: Call)
    requires Wf(s.db.keys) && s.reqs == map[] && s.nextReq == 0 && RouteOk(call.route)
    ensures var arrived := Step(s, Arrive(call.route));
      && Wf(arrived.db.keys)
      && Step(arrived, List(0, call.listed)) == s.(nextReq := 1, reqs :=
           map[0 := if call.listed then Listed(s.now, call.route, Listing(s.db.keys))
                    else Logging(Entry(s.now, call.route, None, "", 500, false, NoKey))])
  {
  }

  lemma RunsToChoice(db: Db, start: Time, call: Call, p: Phase) returns (mid: State)
    requires Inv(Alone(db, start)) && RouteOk(call.route) && p == AfterChoice(db, start, call)
    ensures mid == Run(Alone(db, start), UpToChoice(call))
    ensures Inv(mid) && mid.db == db && mid.now == start + call.pause && mid.reqs == map[0 := p]
  {
    var s1, s2, s3, s4 := RunFour(Alone(db, start), Arrive(call.route), List(0, call.listed), Tick(call.pause), Choose(0, call.usable));
    ListAfter(Alone(db, start), call);
    ChooseAfter(s3, call, start, db);
    mid := s4;
  }

  lemma RunsToEnd(mid: State, db: Db, call: Call, p: Phase, now: Time)
    requires Inv(mid) && mid.db == db && mid.reqs == map[0 := p] && (p.Logging? || p.Calling?) && now == mid.now + call.latency
    ensures var after := Run(mid, Rest(call)); after.reqs == map[] && after.db == LoggedDb(MarkedBy(p, db, call, now), call, RowOf(p, call))
  {
    var s1, s2, s3, s4 := RunFour(mid, CallStep(call), Tick(call.latency), Record(0, call.written, call.summary), Log(0, call.logged));
    if p.Logging? {
      RefusedEnds(mid, call, p.entry);
    } else if call.aborted {
      AbortedEnds(mid, call, p);
    } else {
      CallEnds(mid, call, p, now, RowOf(p, call));
    }
    LastStep(s3, call, RowOf(p, call));
  }

  function CallStep(call: Call): Action {
    if call.aborted then Abort(0) else Finish(0, call.outcome, call.read)
  }

  /** The three steps up to the log write. */
  ghost function Marked(mid: State, call: Call): State
    requires Wf(mid.db.keys) && Wf(Step(mid, CallStep(call)).db.keys) && Wf(Step(Step(mid, CallStep(call)), Tick(call.latency)).db.keys)
  {
    Step(Step(Step(mid, CallStep(call)), Tick(call.latency)), Record(0, call.written, call.summary))
  }

  lemma RefusedEnds(mid: State, call: Call, entry: Entry)
    requires Wf(mid.db.keys) && mid.reqs == map[0 := Logging(entry)]
    ensures Wf(Step(mid, CallStep(call)).db.keys) && Wf(Step(Step(mid, CallStep(call)), Tick(call.latency)).db.keys)
    ensures Marked(mid, call).db == mid.db && Marked(mid, call).reqs == map[0 := Logging(entry)]
  {
  }

  lemma AbortedEnds(mid: State, call: Call, p: Phase)
    requires Wf(mid.db.keys) && mid.reqs == map[0 := p] && p.Calling? && call.aborted
    ensures Wf(Step(mid, CallStep(call)).db.keys) && Wf(Step(Step(mid, CallStep(call)), Tick(call.latency)).db.keys)
    ensures Marked(mid, call).db == mid.db && Marked(mid, call).reqs == map[0 := Logging(AbortEntry(p))]
  {
  }

  lemma CallEnds(mid: State, call: Call, p: Phase, now: Time, entry: Entry)
    requires now == mid.now + call.latency && Wf(mid.db.keys) && mid.reqs == map[0 := p] && p.Calling? && !call.aborted
    requires entry == UpstreamEntry(p.ts, p.route, p.key, p.alias, call.outcome)
    ensures Wf(Step(mid, CallStep(call)).db.keys) && Wf(Step(Step(mid, CallStep(call)), Tick(call.latency)).db.keys)
    ensures Marked(mid, call).db == MarkedDb(mid.db, p.key, entry.success, entry.status, call, now)
    ensures Marked(mid, call).reqs == map[0 := Logging(entry)]
  {
  }

  lemma LastStep(s: State, call: Call, entry: Entry)
    requires Wf(s.db.keys) && s.reqs == map[0 := Logging(entry)]
    ensures Step(s, Log(0, call.logged)).reqs == map[] && Step(s, Log(0, call.logged)).db == LoggedDb(s.db, call, entry)
  {
  }
}
