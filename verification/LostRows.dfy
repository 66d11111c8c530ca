/** Log rows that the foreign key refuses: exactly when the row of a request is lost. */
module LostRows {
  import opened Store
  import opened Listings
  import opened KeyTable
  import opened Selection
  import opened Gateway
  import Attribution
  import Staleness

  // ---------- Committed deletes ----------

  ghost predicate Deletes(s: State, a: Action, key: nat)
    requires Wf(s.db.keys)
  {
    a.DeleteAction? && a.id == key && key in s.db.keys && IsOrder(s.db.keys - {key}, a.order) && Delete(s.db, key, a.order).Ok?
  }

  /** Some action of the run is a delete of the key that commits. */
  ghost predicate DeletedDuring(s: State, actions: seq<Action>, key: nat)
    requires Inv(s)
    decreases |actions|
  {
    actions != [] && (Deletes(s, actions[0], key) || (StepKeeps(s, actions[0]); DeletedDuring(Step(s, actions[0]), actions[1..], key)))
  }

  /** A key leaves the table only by its own delete. */
  lemma StepKeepsKey(s: State, a: Action, key: nat)
    requires Inv(s) && key in s.db.keys
    ensures key in Step(s, a).db.keys <==> !Deletes(s, a, key)
  {
    if a.DeleteAction? {
      if a.id in s.db.keys && IsOrder(s.db.keys - {a.id}, a.order) && Delete(s.db, a.id, a.order).Ok? { DeleteKeeps(s.db, a.id, a.order); }
    } else if a.ReorderAction? {
      if IsOrder(s.db.keys, a.order) && Reorder(s.db, a.ids, a.order).Ok? { ReorderResult(s.db, a.ids, a.order); }
    }
  }

  /** A deleted key stays away. */
  lemma {:induction false} DeletedIsGone(s: State, actions: seq<Action>, key: nat)
    requires Inv(s) && DeletedDuring(s, actions, key)
    ensures key !in Run(s, actions).db.keys
    decreases |actions|
  {
    var next := Step(s, actions[0]);
    StepKeeps(s, actions[0]);
    if Deletes(s, actions[0], key) {
      StepKeepsKey(s, actions[0], key);
      Attribution.DeletedStaysDeleted(next, actions[1..], key);
    } else {
      DeletedIsGone(next, actions[1..], key);
    }
  }

  // ---------- What a request carries ----------

  predicate NoLog(actions: seq<Action>, req: nat) {
    forall i :: 0 <= i < |actions| && actions[i].Log? ==> actions[i].req != req
  }

  function RouteOf(p: Phase): string {
    if p.Logging? then p.entry.route else p.route
  }

  function ArrivalOf(p: Phase): Time {
    if p.Logging? then p.entry.ts else p.ts
  }

  /** Every key the request carries is in the table or has gone since. */
  ghost predicate Backed(s: State, req: nat, gone: set<nat>) {
    && req in s.reqs && (RouteOf(s.reqs[req]) == "/v1/messages" || RouteOf(s.reqs[req]) == "/v1/models")
    && forall id: nat :: Carries(s.reqs[req], id) ==> id in s.db.keys || id in gone
  }

  ghost function Gone(s: State, a: Action, gone: set<nat>): set<nat>
    requires Wf(s.db.keys)
  {
    if a.DeleteAction? && Deletes(s, a, a.id) then gone + {a.id} else gone
  }

  /** The new phase has the route and the time of arrival of the old one, and its keys or keys from the table. */
  ghost predicate Follows(s: State, p: Phase, q: Phase) {
    RouteOf(q) == RouteOf(p) && ArrivalOf(q) == ArrivalOf(p) && forall id: nat :: Carries(q, id) ==> Carries(p, id) || id in s.db.keys
  }

  lemma OwnStepCarries(s: State, a: Action, req: nat)
    requires Inv(s) && req in s.reqs && (a.List? || a.Choose? || a.Abort? || a.Finish? || a.Record?) && a.req == req
    ensures req in Step(s, a).reqs && Follows(s, s.reqs[req], Step(s, a).reqs[req])
  {
    if a.List? {
      forall k | k in Listing(s.db.keys) ensures k.id in s.db.keys { }
    } else if a.Choose? && s.reqs[req].Listed? {
      PickComesFrom(s.reqs[req].ks, s.now);
    }
  }

  /** A step gives a request no key but from the table. */
  lemma StepCarries(s: State, a: Action, req: nat)
    requires Inv(s) && req in s.reqs && (a.Log? ==> a.req != req)
    ensures req in Step(s, a).reqs && Follows(s, s.reqs[req], Step(s, a).reqs[req])
    ensures a.DeleteAction? ==> Step(s, a).reqs[req] == s.reqs[req]
  {
    if (a.List? || a.Choose? || a.Abort? || a.Finish? || a.Record?) && a.req == req {
      OwnStepCarries(s, a, req);
    } else {
      assert req in Step(s, a).reqs && Step(s, a).reqs[req] == s.reqs[req];
    }
  }

  lemma StepBacks(s: State, a: Action, req: nat, gone: set<nat>)
    requires Inv(s) && Backed(s, req, gone) && (a.Log? ==> a.req != req)
    ensures Backed(Step(s, a), req, Gone(s, a, gone))
    ensures RouteOf(Step(s, a).reqs[req]) == RouteOf(s.reqs[req]) && ArrivalOf(Step(s, a).reqs[req]) == ArrivalOf(s.reqs[req])
  {
    StepCarries(s, a, req);
    forall id: nat | Carries(Step(s, a).reqs[req], id) ensures id in Step(s, a).db.keys || id in Gone(s, a, gone) {
      if id in s.db.keys { StepKeepsKey(s, a, id); }
    }
  }

  lemma {:induction false} RunBacks(s: State, actions: seq<Action>, req: nat, gone: set<nat>)
    requires Inv(s) && Backed(s, req, gone) && NoLog(actions, req)
    ensures req in Run(s, actions).reqs
    ensures var p := Run(s, actions).reqs[req]; RouteOf(p) == RouteOf(s.reqs[req]) && ArrivalOf(p) == ArrivalOf(s.reqs[req])
    ensures forall id: nat :: Carries(Run(s, actions).reqs[req], id) ==>
              id in Run(s, actions).db.keys || id in gone || DeletedDuring(s, actions, id)
    decreases |actions|
  {
    if actions != [] {
      StepKeeps(s, actions[0]);
      StepBacks(s, actions[0], req, gone);
      RunBacks(Step(s, actions[0]), actions[1..], req, Gone(s, actions[0], gone));
    }
  }

  // ---------- The theorem ----------

  /** The request is about to write a row that is not skipped. */
  predicate ReadyToLog(end: State, req: nat) {
    req in end.reqs && end.reqs[req].Logging? && end.reqs[req].entry.status != 401
  }

  /** From the arrival of a request on, whatever happens before it writes its log row: if the status is not 401, the
      row has the time and route of the arrival, and is refused exactly if it names a key whose delete has committed
      since then; otherwise exactly this row is appended. */
  lemma RowLostIff(s: State, before: seq<Action>, route: string, actions: seq<Action>)
    requires Initial(s) && (route == "/v1/messages" || route == "/v1/models") && NoLog(actions, Reached(s, before).nextReq)
    requires var arrived := Arrival(Reached(s, before), route);
      ReadyToLog(Run(arrived, actions), Reached(s, before).nextReq)
    ensures var arrived := Arrival(Reached(s, before), route);
      var req, end := Reached(s, before).nextReq, Run(arrived, actions);
      var entry := end.reqs[req].entry;
      && entry.ts == Reached(s, before).now && entry.route == route
      && Step(end, Log(req, true)).db.logs ==
           if entry.keyId.Some? && DeletedDuring(arrived, actions, entry.keyId.value) then end.db.logs
           else end.db.logs + [LogRow(end.db.nextLog, entry)]
  {
    RowIff(Arrival(Reached(s, before), route), Reached(s, before).nextReq, actions);
  }

  ghost function Arrival(s: State, route: string): (arrived: State)
    requires Inv(s)
    ensures Inv(arrived)
    ensures route == "/v1/messages" || route == "/v1/models" ==>
              Backed(arrived, s.nextReq, {}) && arrived.reqs[s.nextReq] == Arrived(s.now, route)
  {
    StepKeeps(s, Arrive(route));
    Step(s, Arrive(route))
  }

  lemma RowIff(arrived: State, req: nat, actions: seq<Action>)
    requires Inv(arrived) && Backed(arrived, req, {}) && NoLog(actions, req)
    requires ReadyToLog(Run(arrived, actions), req)
    ensures var end := Run(arrived, actions); var entry := end.reqs[req].entry;
      && entry.ts == ArrivalOf(arrived.reqs[req]) && entry.route == RouteOf(arrived.reqs[req])
      && Step(end, Log(req, true)).db.logs ==
           if entry.keyId.Some? && DeletedDuring(arrived, actions, entry.keyId.value) then end.db.logs
           else end.db.logs + [LogRow(end.db.nextLog, entry)]
  {
    var end := Run(arrived, actions);
    var entry := end.reqs[req].entry;
    RunBacks(arrived, actions, req, {});
    if entry.keyId.Some? {
      assert Carries(end.reqs[req], entry.keyId.value);
      if DeletedDuring(arrived, actions, entry.keyId.value) { DeletedIsGone(arrived, actions, entry.keyId.value); }
    }
    LogOutcome(end, req);
  }

  lemma LogOutcome(end: State, req: nat)
    requires Inv(end) && req in end.reqs && end.reqs[req].Logging?
    requires var entry := end.reqs[req].entry; entry.status != 401 && (entry.route == "/v1/messages" || entry.route == "/v1/models")
    ensures var entry := end.reqs[req].entry;
      Step(end, Log(req, true)).db.logs ==
        if entry.keyId.Some? && entry.keyId.value !in end.db.keys then end.db.logs else end.db.logs + [LogRow(end.db.nextLog, entry)]
  {
  }

  // ---------- It happens ----------

  /** The request that calls the only key succeeds, the key is deleted, and then the result and the row are
      written. */
  function DeleteBeforeLog(): seq<Action> {
    [Finish(0, Answer(200), true), DeleteAction(1, []), Record(0, true, ""), Log(0, true)]
  }

  lemma DeleteOnly(s: State)
    requires s.db.keys == map[1 := Staleness.FreshKey()] && s.db.logs == []
    ensures var after := Step(s, DeleteAction(1, []));
      after.db.keys == map[] && after.db.logs == [] && after.reqs == s.reqs && after.now == s.now && after.db.config == s.db.config
  {
    var rest := s.db.keys - {1};
    assert rest == map[];
    assert IsOrder(rest, []);
    assert IsListing([], rest);
    ListingUnique([], Listing(rest), rest);
    assert Ids([]) == [];
    assert Delete(s.db, 1, []).Ok?;
    assert ForgetAll(s.db.logs, 1) == [];
  }

  lemma FinishAt(s: State)
    requires Wf(s.db.keys) && s.reqs == map[0 := Calling(s.now, Staleness.ROUTE, 1, "a")]
    ensures Step(s, Finish(0, Answer(200), true)) ==
            s.(reqs := map[0 := Marking(s.now, Staleness.ROUTE, 1, "a", Answer(200), s.db.config)])
  {
  }

  lemma DeleteBeforeLogResult(s: State)
    requires Inv(s) && s.db.keys == map[1 := Staleness.FreshKey()] && s.db.logs == []
    requires s.reqs == map[0 := Calling(s.now, Staleness.ROUTE, 1, "a")]
    ensures Run(s, DeleteBeforeLog()).reqs == map[] && Run(s, DeleteBeforeLog()).db.logs == []
  {
    var s1, s2, s3, s4 := RunFour(s, Finish(0, Answer(200), true), DeleteAction(1, []), Record(0, true, ""), Log(0, true));
    FinishAt(s);
    DeleteOnly(s1);
    LastSteps(s2, s3, s.now, s.db.config);
  }

  lemma LastSteps(s2: State, s3: State, ts: Time, config: Config)
    requires s2.db.keys == map[] && s2.db.logs == [] && s2.reqs == map[0 := Marking(ts, Staleness.ROUTE, 1, "a", Answer(200), config)]
    requires s3 == Step(s2, Record(0, true, "")) && Wf(s3.db.keys)
    ensures Step(s3, Log(0, true)).reqs == map[] && Step(s3, Log(0, true)).db.logs == []
  {
    assert s3.reqs == map[0 := Logging(UpstreamEntry(ts, Staleness.ROUTE, 1, "a", Answer(200)))];
  }

  /** From the empty store: a request is answered with 200, and in the end no request is in flight and the log
      is empty. */
  lemma RowCanBeLost(s: State)
    requires Initial(s)
    ensures Inv(s)
    ensures var after := Run(Run(s, Staleness.OneCalling()), DeleteBeforeLog()); after.reqs == map[] && after.db.logs == []
  {
    InitialInv(s);
    Staleness.OneCallingResult(s);
    DeleteBeforeLogResult(Run(s, Staleness.OneCalling()));
  }
}
