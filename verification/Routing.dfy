/** Where a request goes and what the end of its call does, in terms of columns and status codes. */
module Routing {
  import opened Wrappers
  import opened Store
  import opened Listings
  import opened KeyTable
  import opened Selection
  import opened Gateway
  import opened Columns
  import opened Staleness

  // ---------- The choice ----------

  ghost predicate AllOut(s: State) {
    forall id :: id in s.db.keys ==> !s.db.keys[id].enabled || Cooling(s, id)
  }

  /** The key is enabled and not cooling, and every other such key has a higher priority number. */
  ghost predicate IsNext(s: State, id: nat) {
    && id in s.db.keys && s.db.keys[id].enabled && !Cooling(s, id)
    && forall j :: j in s.db.keys && j != id && s.db.keys[j].enabled && !Cooling(s, j) ==> s.db.keys[id].priority < s.db.keys[j].priority
  }

  lemma NextIsBest(s: State, id: nat)
    requires Inv(s)
    ensures IsNext(s, id) <==> id in s.db.keys && IsBest(s.db.keys[id], s.db.keys, s.now)
    ensures AllOut(s) <==> NoneUsable(s.db.keys, s.now)
  {
    DensePriorities(s.db.keys);
    forall j | j in s.db.keys ensures Cooling(s, j) <==> !Rested(s.db.keys[j], s.now) { }
  }

  lemma ChoiceIsNext(s: State, req: nat)
    requires Inv(s) && req in s.reqs && s.reqs[req].Listed? && s.reqs[req].ks == Listing(s.db.keys)
    ensures var p := s.reqs[req]; var after := Step(s, Choose(req, true));
      && (AllOut(s) ==> after == Goto(s, req, Logging(Entry(p.ts, p.route, None, "", 503, false, NoKey))))
      && (!AllOut(s) ==> exists id :: IsNext(s, id))
      && (forall id :: IsNext(s, id) ==>
            after == Emit(Goto(s, req, Calling(p.ts, p.route, id, s.db.keys[id].alias)), Selected(req, id)))
  {
    PickIsBest(s.reqs[req].ks, s.db.keys, s.now);
    NextIsBest(s, 0);
    if !AllOut(s) {
      var key := Pick(s.reqs[req].ks, s.now).value;
      NextIsBest(s, key.id);
    }
    forall id | IsNext(s, id) ensures Pick(s.reqs[req].ks, s.now) == Some(s.db.keys[id]) && s.db.keys[id].id == id { NextIsBest(s, id); }
  }

  /** In every run, whatever happens between the listing of a request and its choice, as long as the keys at the
      choice are those that were listed: it is refused with 503 exactly if every key is disabled or cooling, and
      otherwise sent to the enabled key of the smallest priority that is not cooling. */
  lemma ChoiceIff(s: State, before: seq<Action>, req: nat, between: seq<Action>)
    requires Initial(s) && req in Reached(s, before).reqs && Reached(s, before).reqs[req].Arrived? && NoChoice(between, req)
    requires AtChoice(Reached(s, before), req, between).db.keys == Reached(s, before).db.keys
    ensures var choice := AtChoice(Reached(s, before), req, between);
      && Inv(choice)
      && var after := Step(choice, Choose(req, true));
         && req in after.reqs
         && (AllOut(choice) <==> after.trace == choice.trace)
         && (AllOut(choice) ==> after.reqs[req].Logging? && after.reqs[req].entry.status == 503 && after.reqs[req].entry.keyId == None)
         && (forall id :: after.trace == choice.trace + [Selected(req, id)] <==> IsNext(choice, id))
  {
    var listing := Reached(s, before);
    var choice := AtChoice(listing, req, between);
    StepKeeps(listing, List(req, true));
    RunKeepsListing(Step(listing, List(req, true)), between, req);
    ChoiceIsNext(choice, req);
    if !AllOut(choice) {
      var next :| IsNext(choice, next);
      forall id | choice.trace + [Selected(req, next)] == choice.trace + [Selected(req, id)] ensures id == next {
        assert (choice.trace + [Selected(req, id)])[|choice.trace|] == Selected(req, id);
      }
    }
  }

  /** A request up to the choice of its key, with nothing between its steps. */
  function Ask(req: nat, route: string, wait: nat): seq<Action> {
    [Arrive(route), List(req, true), Tick(wait), Choose(req, true)]
  }

  lemma ListedStep(s: State, s1: State, route: string)
    requires Wf(s.db.keys) && (route == "/v1/messages" || route == "/v1/models") && s1 == Step(s, Arrive(route)) && Wf(s1.db.keys)
    ensures Step(s1, List(s.nextReq, true)) ==
            s.(nextReq := s.nextReq + 1, reqs := s.reqs[s.nextReq := Listed(s.now, route, Listing(s.db.keys))])
  {
  }

  lemma AskToChoice(s: State, route: string, wait: nat) returns (s3: State)
    requires Inv(s) && (route == "/v1/messages" || route == "/v1/models")
    ensures s3 == s.(now := s.now + wait, nextReq := s.nextReq + 1,
                     reqs := s.reqs[s.nextReq := Listed(s.now, route, Listing(s.db.keys))])
    ensures Inv(s3) && Run(s, Ask(s.nextReq, route, wait)) == Step(s3, Choose(s.nextReq, true))
  {
    var req := s.nextReq;
    var s1, s2, ticked, s4 := RunFour(s, Arrive(route), List(req, true), Tick(wait), Choose(req, true));
    StepKeeps(s, Arrive(route));
    StepKeeps(s1, List(req, true));
    StepKeeps(s2, Tick(wait));
    ListedStep(s, s1, route);
    s3 := ticked;
  }

  /** With any other requests in flight, a request that comes now goes to the next key of the moment it chooses,
      and is refused with 503 if there is none. */
  lemma AskGoesToNext(s: State, route: string, wait: nat, id: nat)
    requires Inv(s) && (route == "/v1/messages" || route == "/v1/models")
    ensures var choice := s.(now := s.now + wait); var after := Run(s, Ask(s.nextReq, route, wait)); var req := s.nextReq;
      && after.db == s.db && req in after.reqs
      && (AllOut(choice) ==> after.trace == s.trace && after.reqs[req] == Logging(Entry(s.now, route, None, "", 503, false, NoKey)))
      && (IsNext(choice, id) ==>
            after.trace == s.trace + [Selected(req, id)] && after.reqs[req] == Calling(s.now, route, id, s.db.keys[id].alias))
  {
    var s3 := AskToChoice(s, route, wait);
    SameNext(s.(now := s.now + wait), s3, id);
    ChoiceIsNext(s3, s.nextReq);
  }

  lemma SameNext(s: State, t: State, id: nat)
    requires s.db.keys == t.db.keys && s.now == t.now
    ensures (IsNext(s, id) <==> IsNext(t, id)) && (AllOut(s) <==> AllOut(t))
  {
    forall j ensures Cooling(s, j) <==> Cooling(t, j) { }
  }

  // ---------- After a success ----------

  lemma RestedIsNext(s: State, after: State, choice: State, id: nat)
    requires id in s.db.keys && s.db.keys[id].enabled && OnlyRow(s.db, after.db, id) && choice.db == after.db
    requires forall j :: j in s.db.keys && j != id && s.db.keys[j].enabled && Rested(s.db.keys[j], choice.now) ==>
               s.db.keys[id].priority < s.db.keys[j].priority
    requires var key := after.db.keys[id]; key.enabled && key.cooldownUntil == None && key.priority == s.db.keys[id].priority
    ensures IsNext(choice, id)
  {
    forall j | j in s.db.keys ensures Cooling(choice, j) <==> !Rested(after.db.keys[j], choice.now) { }
  }

  /** An enabled key on which a success has just been recorded is the target of the next request, unless a key
      before it can be used. */
  lemma SuccessIsNext(s: State, req: nat, summary: string, route: string, wait: nat)
    requires Inv(s) && (route == "/v1/messages" || route == "/v1/models") && req in s.reqs && s.reqs[req].Marking?
    requires var p := s.reqs[req]; p.outcome.Answer? && 200 <= p.outcome.status < 300 && p.key in s.db.keys && s.db.keys[p.key].enabled
    requires forall j :: j in s.db.keys && j != s.reqs[req].key && s.db.keys[j].enabled && Rested(s.db.keys[j], s.now + wait) ==>
               s.db.keys[s.reqs[req].key].priority < s.db.keys[j].priority
    ensures var after := Step(s, Record(req, true, summary)); var key := s.reqs[req].key;
      Inv(after) && Run(after, Ask(after.nextReq, route, wait)).trace == after.trace + [Selected(after.nextReq, key)]
  {
    var after := Step(s, Record(req, true, summary));
    StepKeeps(s, Record(req, true, summary));
    RecordStepColumns(s, req, summary);
    RestedIsNext(s, after, after.(now := after.now + wait), s.reqs[req].key);
    AskGoesToNext(after, route, wait, s.reqs[req].key);
  }

  // ---------- After a replace ----------

  /** A replace that switches a key off works like a disabling edit: as long as nothing enables the key, it is
      selected only by requests that had already listed the keys. */
  lemma ReplacedOffIsNotSelected(s: State, key: nat, alias: string, hint: string, secret: string, actions: seq<Action>, req: nat)
    requires Inv(s) && key in s.db.keys && NoOtherAlias(s.db.keys, key, alias)
    requires forall i :: 0 <= i < |actions| ==> LeavesOff(actions[i], key)
    ensures Inv(Step(s, ReplaceAction(key, alias, hint, secret, false)))
    ensures Selected(req, key) in Run(Step(s, ReplaceAction(key, alias, hint, secret, false)), actions).trace ==>
              Selected(req, key) in s.trace || (req in s.reqs && s.reqs[req].Listed?)
  {
    var off := Step(s, ReplaceAction(key, alias, hint, secret, false));
    StepKeeps(s, ReplaceAction(key, alias, hint, secret, false));
    ReplaceStepColumns(s, key, alias, hint, secret, false);
    if Selected(req, key) in Run(off, actions).trace { DisabledIsNotSelected(off, actions, key, req); }
  }

  // ---------- The end of a call ----------

  /** A call that ends, is marked and logged, with nothing between its steps. */
  function EndOfCall(req: nat, outcome: Outcome, latency: nat, summary: string): seq<Action> {
    [Finish(req, outcome, true), Tick(latency), Record(req, true, summary), Log(req, true)]
  }

  /** The row that a call leaves in the log, with the status codes of the proxy written out. */
  function RowOf(p: Phase, outcome: Outcome): Entry
    requires p.Calling?
  {
    var status := if outcome.TransportError? then (if outcome.timeout then 504 else 502) else outcome.status;
    Entry(p.ts, p.route, Some(p.key), p.alias, status, outcome.Answer? && 200 <= status < 300, Upstream)
  }

  lemma CallFinished(s: State, s1: State, req: nat, outcome: Outcome)
    requires Wf(s.db.keys) && req in s.reqs && s.reqs[req].Calling? && s1 == Step(s, Finish(req, outcome, true))
    ensures var p := s.reqs[req]; var row := RowOf(p, outcome);
      && s1.db == s.db && s1.now == s.now && req in s1.reqs
      && s1.reqs[req] == if row.status == 401 then Logging(row) else Marking(p.ts, p.route, p.key, p.alias, outcome, s.db.config)
  {
  }

  lemma MarkRecorded(s2: State, req: nat, row: Entry, summary: string)
    requires Wf(s2.db.keys) && req in s2.reqs && s2.reqs[req].Marking? && s2.reqs[req].key in s2.db.keys
    requires var p := s2.reqs[req]; row == RowOf(Calling(p.ts, p.route, p.key, p.alias), p.outcome)
    ensures var after := Step(s2, Record(req, true, summary)); req in after.reqs && after.reqs[req] == Logging(row)
  {
  }

  /** Up to the log row. */
  lemma CallMarked(s: State, s1: State, s2: State, s3: State, req: nat, outcome: Outcome, latency: nat, summary: string)
    requires Inv(s) && req in s.reqs && s.reqs[req].Calling? && s.reqs[req].key in s.db.keys
    requires s1 == Step(s, Finish(req, outcome, true)) && Wf(s1.db.keys) && s2 == Step(s1, Tick(latency)) && Inv(s2)
    requires s3 == Step(s2, Record(req, true, summary))
    ensures var p := s.reqs[req]; var row := RowOf(p, outcome);
      && req in s3.reqs && s3.reqs[req] == Logging(row)
      && (row.status == 401 ==> s3.db == s.db)
      && (row.status != 401 ==>
            && OnlyRow(s.db, s3.db, p.key)
            && ResultWritten(s.db.keys[p.key], s3.db.keys[p.key], row.success, s.db.config.threshold,
                 CooldownNanos(s.db.config.cooldownSeconds), s.now + latency, summary))
  {
    CallFinished(s, s1, req, outcome);
    if RowOf(s.reqs[req], outcome).status != 401 {
      RecordStepColumns(s2, req, summary);
      MarkRecorded(s2, req, RowOf(s.reqs[req], outcome), summary);
    }
  }

  lemma RowWritten(s3: State, req: nat, row: Entry)
    requires Wf(s3.db.keys) && req in s3.reqs && s3.reqs[req] == Logging(row)
    ensures var after := Step(s3, Log(req, true));
      && after.db.keys == s3.db.keys && after.db.config == s3.db.config && req !in after.reqs
      && after.db.logs == s3.db.logs +
           if row.status != 401 && (row.route == "/v1/messages" || row.route == "/v1/models")
              && (row.keyId.Some? ==> row.keyId.value in s3.db.keys) then [LogRow(s3.db.nextLog, row)] else []
  {
    InsertColumns(s3.db, row);
  }

  /** With any other requests in flight: an answer within 200..299 clears counter, cooldown and error text of its
      key, a 401 leaves every key alone, and any other end of the call raises the counter by one; the row that is
      logged says the same, and a 401 is not logged. */
  lemma CallOutcome(s: State, req: nat, outcome: Outcome, latency: nat, summary: string)
    requires Inv(s) && req in s.reqs && s.reqs[req].Calling? && s.reqs[req].key in s.db.keys
    ensures var p := s.reqs[req]; var row := RowOf(p, outcome); var after := Run(s, EndOfCall(req, outcome, latency, summary));
      && req !in after.reqs && after.db.config == s.db.config
      && (row.status == 401 ==> after.db.keys == s.db.keys && after.db.logs == s.db.logs)
      && (row.status != 401 ==>
            && after.db.keys.Keys == s.db.keys.Keys
            && (forall j :: j in s.db.keys && j != p.key ==> after.db.keys[j] == s.db.keys[j])
            && ResultWritten(s.db.keys[p.key], after.db.keys[p.key], outcome.Answer? && 200 <= outcome.status < 300,
                 s.db.config.threshold, CooldownNanos(s.db.config.cooldownSeconds), s.now + latency, summary)
            && (p.route == "/v1/messages" || p.route == "/v1/models" ==> after.db.logs == s.db.logs + [LogRow(s.db.nextLog, row)]))
  {
    var s1, s2, s3, s4 := RunFour(s, Finish(req, outcome, true), Tick(latency), Record(req, true, summary), Log(req, true));
    StepKeeps(s, Finish(req, outcome, true));
    StepKeeps(s1, Tick(latency));
    CallMarked(s, s1, s2, s3, req, outcome, latency, summary);
    RowWritten(s3, req, RowOf(s.reqs[req], outcome));
  }
}
