/** The configuration a result is recorded under: it is the one in force when the call ended, and exactly when it
    makes the difference that it need not be the one in force when the result is written. */
module Readings {
  import opened Wrappers
  import opened Store
  import opened Gateway
  import opened History
  import opened Staleness

  // ---------- Every result carries the configuration of its call's end ----------

  /** Action f ends the call of the request on the key, and reads the configuration. */
  ghost predicate FinishedAt(s: State, actions: seq<Action>, f: nat, req: nat, key: nat, outcome: Outcome, config: Config)
    requires Initial(s)
  {
    f < |actions| && actions[f] == Finish(req, outcome, true) &&
    var at := Reached(s, actions[..f]);
    req in at.reqs && at.reqs[req].Calling? && at.reqs[req].key == key && at.db.config == config
  }

  /** Action g records the result of a call that action f has ended. */
  ghost predicate RecordedAt(s: State, actions: seq<Action>, f: nat, g: nat, outcome: Outcome, config: Config, e: Event)
    requires Initial(s)
  {
    && e.Recorded? && f < g < |actions|
    && actions[g].Record? && actions[g].req == e.req && actions[g].written
    && FinishedAt(s, actions, f, e.req, e.key, outcome, config)
    && e.success == Success(outcome) && e.at == Reached(s, actions[..g]).now
    && e.threshold == config.threshold && e.cooldown == CooldownNanos(config.cooldownSeconds)
  }

  ghost predicate Explained(s: State, actions: seq<Action>, e: Event)
    requires Initial(s)
  {
    exists f: nat, g: nat, outcome, config :: RecordedAt(s, actions, f, g, outcome, config, e)
  }

  /** The configuration a request is about to be marked with. */
  ghost predicate PhaseRead(s: State, actions: seq<Action>, req: nat, p: Phase)
    requires Initial(s)
  {
    p.Marking? ==> exists f :: FinishedAt(s, actions, f, req, p.key, p.outcome, p.config)
  }

  ghost predicate ReadingsOk(s: State, actions: seq<Action>)
    requires Initial(s)
  {
    var now := Reached(s, actions);
    && (forall r :: r in now.reqs ==> PhaseRead(s, actions, r, now.reqs[r]))
    && (forall i :: 0 <= i < |now.trace| && now.trace[i].Recorded? ==> Explained(s, actions, now.trace[i]))
  }

  lemma FinishedLater(s: State, actions: seq<Action>, a: Action, f: nat, req: nat, key: nat, outcome: Outcome, config: Config)
    requires Initial(s) && FinishedAt(s, actions, f, req, key, outcome, config)
    ensures FinishedAt(s, actions + [a], f, req, key, outcome, config)
  {
    assert (actions + [a])[..f] == actions[..f];
  }

  lemma PhaseReadLater(s: State, actions: seq<Action>, a: Action, req: nat, p: Phase)
    requires Initial(s) && PhaseRead(s, actions, req, p)
    ensures PhaseRead(s, actions + [a], req, p)
  {
    if p.Marking? {
      var f :| FinishedAt(s, actions, f, req, p.key, p.outcome, p.config);
      FinishedLater(s, actions, a, f, req, p.key, p.outcome, p.config);
    }
  }

  lemma RecordedLater(s: State, actions: seq<Action>, a: Action, f: nat, g: nat, outcome: Outcome, config: Config, e: Event)
    requires Initial(s) && RecordedAt(s, actions, f, g, outcome, config, e)
    ensures RecordedAt(s, actions + [a], f, g, outcome, config, e)
  {
    FinishedLater(s, actions, a, f, e.req, e.key, outcome, config);
    assert (actions + [a])[..g] == actions[..g];
  }

  lemma ExplainedLater(s: State, actions: seq<Action>, a: Action, e: Event)
    requires Initial(s) && Explained(s, actions, e)
    ensures Explained(s, actions + [a], e)
  {
    var f: nat, g: nat, outcome, config :| RecordedAt(s, actions, f, g, outcome, config, e);
    RecordedLater(s, actions, a, f, g, outcome, config, e);
  }

  /** What one step does to the phase of one request and to the trace, as far as readings go. */
  lemma StepReads(now: State, a: Action, r: nat)
    requires Inv(now) && r in Step(now, a).reqs && Step(now, a).reqs[r].Marking?
    ensures var p := Step(now, a).reqs[r];
      || (r in now.reqs && now.reqs[r] == p)
      || (a == Finish(r, p.outcome, true) && p.config == now.db.config
          && r in now.reqs && now.reqs[r].Calling? && now.reqs[r].key == p.key)
  {
  }

  /** The event of the mark that the request is about to write. */
  function MarkEvent(now: State, req: nat): Event
    requires req in now.reqs && now.reqs[req].Marking?
  {
    var p := now.reqs[req];
    Recorded(req, p.key, Success(p.outcome), now.now, p.config.threshold, CooldownNanos(p.config.cooldownSeconds))
  }

  lemma StepRecords(now: State, a: Action)
    requires Inv(now)
    ensures var after := Step(now, a);
      || after.trace == now.trace
      || (exists e: Event :: !e.Recorded? && after.trace == now.trace + [e])
      || (a.Record? && a.written && a.req in now.reqs && now.reqs[a.req].Marking? && after.trace == now.trace + [MarkEvent(now, a.req)])
  {
    var after := Step(now, a);
    if after.trace != now.trace { assert after.trace == now.trace + [after.trace[|now.trace|]]; }
  }

  lemma ReachedMore(s: State, actions: seq<Action>, a: Action)
    requires Initial(s)
    ensures Inv(Reached(s, actions)) && Reached(s, actions + [a]) == Step(Reached(s, actions), a)
    ensures (actions + [a])[..|actions|] == actions
  {
    InitialInv(s);
    RunAppend(s, actions, a);
  }

  lemma PhasesStayRead(s: State, actions: seq<Action>, a: Action, r: nat)
    requires Initial(s) && ReadingsOk(s, actions) && r in Reached(s, actions + [a]).reqs
    ensures PhaseRead(s, actions + [a], r, Reached(s, actions + [a]).reqs[r])
  {
    var now := Reached(s, actions);
    ReachedMore(s, actions, a);
    var p := Reached(s, actions + [a]).reqs[r];
    if p.Marking? {
      StepReads(now, a, r);
      if r in now.reqs && now.reqs[r] == p {
        PhaseReadLater(s, actions, a, r, p);
      } else {
        assert FinishedAt(s, actions + [a], |actions|, r, p.key, p.outcome, p.config);
      }
    }
  }

  lemma EventExplained(s: State, actions: seq<Action>, a: Action)
    requires Initial(s) && ReadingsOk(s, actions) && a.Record? && a.written
    requires a.req in Reached(s, actions).reqs && Reached(s, actions).reqs[a.req].Marking?
    ensures Explained(s, actions + [a], MarkEvent(Reached(s, actions), a.req))
  {
    var p := Reached(s, actions).reqs[a.req];
    assert PhaseRead(s, actions, a.req, p);
    var f :| FinishedAt(s, actions, f, a.req, p.key, p.outcome, p.config);
    FinishedLater(s, actions, a, f, a.req, p.key, p.outcome, p.config);
    ReachedMore(s, actions, a);
    assert RecordedAt(s, actions + [a], f, |actions|, p.outcome, p.config, MarkEvent(Reached(s, actions), a.req));
  }

  lemma EventsStayExplained(s: State, actions: seq<Action>, a: Action, i: nat)
    requires Initial(s) && ReadingsOk(s, actions)
    requires i < |Reached(s, actions + [a]).trace| && Reached(s, actions + [a]).trace[i].Recorded?
    ensures Explained(s, actions + [a], Reached(s, actions + [a]).trace[i])
  {
    var now := Reached(s, actions);
    ReachedMore(s, actions, a);
    StepRecords(now, a);
    if i < |now.trace| {
      ExplainedLater(s, actions, a, now.trace[i]);
    } else {
      EventExplained(s, actions, a);
    }
  }

  /** In every run each recorded result carries the threshold and the cooldown of the configuration in force when
      its call ended, and the time at which it was written. */
  lemma {:induction false} ReadingsHold(s: State, actions: seq<Action>)
    requires Initial(s)
    ensures ReadingsOk(s, actions)
    decreases |actions|
  {
    if actions != [] {
      var front, last := actions[..|actions| - 1], actions[|actions| - 1];
      assert actions == front + [last];
      ReadingsHold(s, front);
      forall r | r in Reached(s, actions).reqs ensures PhaseRead(s, actions, r, Reached(s, actions).reqs[r]) {
        PhasesStayRead(s, front, last, r);
      }
      forall i | 0 <= i < |Reached(s, actions).trace| && Reached(s, actions).trace[i].Recorded?
        ensures Explained(s, actions, Reached(s, actions).trace[i])
      {
        EventsStayExplained(s, front, last, i);
      }
    }
  }

  // ---------- The history in terms of configurations ----------

  lemma {:induction false} MarkHasEvent(trace: seq<Event>, key: nat, i: nat) returns (j: nat)
    requires i < |Marks(trace, key)|
    ensures j < |trace| && trace[j].Recorded? && trace[j].key == key
    ensures Marks(trace, key)[i] == Mark(trace[j].success, trace[j].at, trace[j].threshold, trace[j].cooldown)
    decreases |trace|
  {
    var front := trace[..|trace| - 1];
    if i < |Marks(front, key)| {
      j := MarkHasEvent(front, key, i);
    } else {
      j := |trace| - 1;
    }
  }

  /** The mark is the result of a call on the key, under the configuration in force when that call ended. */
  ghost predicate MarkExplained(s: State, actions: seq<Action>, key: nat, m: Mark)
    requires Initial(s)
  {
    exists e :: e in Reached(s, actions).trace && e.Recorded? && e.key == key
      && m == Mark(e.success, e.at, e.threshold, e.cooldown) && Explained(s, actions, e)
  }

  /** In every reachable state, under any interleaving: consecutive_failures is the key's trailing run of recorded
      failures, cooldown_until was set by the last failure of that run to meet its threshold, and the threshold
      and cooldown of each result are those of the configuration in force when its call ended. */
  lemma CountersRefineConfigurations(s: State, actions: seq<Action>, id: nat)
    requires Initial(s) && id in Reached(s, actions).db.keys
    ensures var after := Reached(s, actions); var marks := Marks(after.trace, id); var key := after.db.keys[id];
      && IsTrailingRun(marks, key.failures) && IsLastArmed(marks, key.cooldownUntil)
      && forall i :: 0 <= i < |marks| ==> MarkExplained(s, actions, id, marks[i])
  {
    CountersRefineHistory(s, actions, id);
    ReadingsHold(s, actions);
    var trace := Reached(s, actions).trace;
    forall i | 0 <= i < |Marks(trace, id)| ensures MarkExplained(s, actions, id, Marks(trace, id)[i]) {
      var j := MarkHasEvent(trace, id, i);
      assert Explained(s, actions, trace[j]);
      assert trace[j] in trace;
    }
  }

  // ---------- Against the configuration in force at the write ----------

  predicate Meets(key: Key, config: Config) {
    key.failures + 1 >= config.threshold
  }

  function EndUnder(config: Config, now: Time): Option<Time> {
    Some(now + CooldownNanos(config.cooldownSeconds))
  }

  /** The write under the configuration read leaves the key as one under the current configuration would have. */
  predicate Interchangeable(key: Key, read: Config, current: Config, now: Time) {
    if Meets(key, read) && Meets(key, current) then CooldownNanos(read.cooldownSeconds) == CooldownNanos(current.cooldownSeconds)
    else if Meets(key, read) then key.cooldownUntil == EndUnder(read, now)
    else if Meets(key, current) then key.cooldownUntil == EndUnder(current, now)
    else true
  }

  /** A counted failure is recorded as the configuration in force at the write would have it exactly if it meets
      both thresholds under equal cooldowns, or neither, or only one and the key already has that one's end. */
  lemma RecordedAsCurrentIff(s: State, req: nat, summary: string)
    requires Inv(s) && req in s.reqs && s.reqs[req].Marking? && !Success(s.reqs[req].outcome) && s.reqs[req].key in s.db.keys
    ensures var p := s.reqs[req]; var key := s.db.keys[p.key]; var current := s.db.config;
      Step(s, Record(req, true, summary)).db.keys ==
        s.db.keys[p.key := Failed(key, current.threshold, CooldownNanos(current.cooldownSeconds), s.now, summary)]
      <==> Interchangeable(key, p.config, current, s.now)
  {
    var p := s.reqs[req];
    var key, current := s.db.keys[p.key], s.db.config;
    var byRead := Failed(key, p.config.threshold, CooldownNanos(p.config.cooldownSeconds), s.now, summary);
    var byCurrent := Failed(key, current.threshold, CooldownNanos(current.cooldownSeconds), s.now, summary);
    assert Step(s, Record(req, true, summary)).db.keys == s.db.keys[p.key := byRead];
    assert s.db.keys[p.key := byRead][p.key] == byRead && s.db.keys[p.key := byCurrent][p.key] == byCurrent;
  }

  // ---------- When nothing changes in between ----------

  predicate NoConfig(actions: seq<Action>) {
    forall i :: 0 <= i < |actions| ==> !actions[i].ConfigAction?
  }

  lemma StepKeepsReading(s: State, a: Action, req: nat)
    requires Inv(s) && req in s.reqs && s.reqs[req].Marking? && !a.ConfigAction? && (a.Record? ==> a.req != req)
    ensures Step(s, a).db.config == s.db.config && req in Step(s, a).reqs && Step(s, a).reqs[req] == s.reqs[req]
  {
    if a.CreateAction? || a.ReplaceAction? || a.EnableAction? || a.DeleteAction? || a.ReorderAction? { TableStepKeeps(s, a); }
  }

  predicate NoRecord(actions: seq<Action>, req: nat) {
    forall i :: 0 <= i < |actions| && actions[i].Record? ==> actions[i].req != req
  }

  lemma {:induction false} ReadingStays(s: State, actions: seq<Action>, req: nat)
    requires Inv(s) && req in s.reqs && s.reqs[req].Marking? && NoConfig(actions) && NoRecord(actions, req)
    ensures var end := Run(s, actions); req in end.reqs && end.reqs[req] == s.reqs[req] && end.db.config == s.db.config
    decreases |actions|
  {
    if actions != [] {
      StepKeeps(s, actions[0]);
      StepKeepsReading(s, actions[0], req);
      ReadingStays(Step(s, actions[0]), actions[1..], req);
    }
  }

  /** If the configuration is not written between the end of a call and the write of its result, the result is
      recorded under the configuration in force at that write. */
  lemma ReadIsCurrent(s: State, req: nat, outcome: Outcome, between: seq<Action>)
    requires Inv(s) && req in s.reqs && s.reqs[req].Calling?
    requires NoConfig(between) && NoRecord(between, req)
    ensures Inv(Step(s, Finish(req, outcome, true)))
    ensures var end := Run(Step(s, Finish(req, outcome, true)), between);
      req in Step(s, Finish(req, outcome, true)).reqs && Step(s, Finish(req, outcome, true)).reqs[req].Marking? ==>
        req in end.reqs && end.reqs[req].Marking? && end.reqs[req].key == s.reqs[req].key && end.reqs[req].config == end.db.config
  {
    var finished := Step(s, Finish(req, outcome, true));
    StepKeeps(s, Finish(req, outcome, true));
    if req in finished.reqs && finished.reqs[req].Marking? { ReadingStays(finished, between, req); }
  }

  // ---------- It makes a difference ----------

  /** The call on the only key fails, the threshold is raised, and then the result is written. */
  function RaiseBeforeRecord(config: Config): seq<Action> {
    [Finish(0, Answer(500), true), ConfigAction(config), Record(0, true, ""), Tick(0)]
  }

  lemma RaiseBeforeRecordResult(s: State, config: Config)
    requires Inv(s) && ConfigOk(config) && s.db.keys == map[1 := FreshKey()] && s.db.config.threshold == 1
    requires s.reqs == map[0 := Calling(s.now, ROUTE, 1, "a")]
    ensures var after := Run(s, RaiseBeforeRecord(config)); var c := CooldownNanos(s.db.config.cooldownSeconds);
      after.now == s.now && after.db.config == config && after.db.keys == map[1 := Failed(FreshKey(), 1, c, s.now, "")]
  {
    var s1, s2, s3, s4 := RunFour(s, Finish(0, Answer(500), true), ConfigAction(config), Record(0, true, ""), Tick(0));
    FailAt(s, 0, s.now);
    RecordAt(s2, 0, s.now, FreshKey(), s.db.config);
  }

  /** After the run the key has one failure and is cooling for the old time, under the new configuration. */
  ghost predicate OldDecides(s: State, config: Config, cooldown: int)
    requires Inv(s)
  {
    var after := Run(s, RaiseBeforeRecord(config));
    && after.db.config == config && 1 in after.db.keys && after.db.keys[1].failures == 1
    && Cooling(after, 1) && after.db.keys[1].cooldownUntil == Some(after.now + cooldown)
  }

  /** One request is calling the only key, which has no failures, under the configuration. */
  predicate OnlyCall(s: State, config: Config) {
    s.db.keys == map[1 := FreshKey()] && s.db.config == config && s.reqs == map[0 := Calling(s.now, ROUTE, 1, "a")]
  }

  lemma OneCallingIsOnly(s: State)
    requires Initial(s)
    ensures Inv(s) && OnlyCall(Run(s, OneCalling()), s.db.config)
  {
    InitialInv(s);
    OneCallingResult(s);
  }

  lemma RaisedWhileCalling(s: State, first: Config, config: Config)
    requires Inv(s) && ConfigOk(config) && OnlyCall(s, first)
    requires first.threshold == 1 && first.cooldownSeconds == 120
    ensures OldDecides(s, config, 120 * SECOND)
  {
    RaiseBeforeRecordResult(s, config);
  }

  /** From the empty store with threshold 1: after the threshold is raised to 20, a key with a single failure is
      cooling for 120 seconds. */
  lemma OldThresholdCanDecide(s: State, config: Config)
    requires Initial(s) && s.db.config.threshold == 1 && s.db.config.cooldownSeconds == 120
    requires ConfigOk(config) && config.threshold == 20
    ensures Inv(s) && OldDecides(Run(s, OneCalling()), config, 120 * SECOND)
  {
    OneCallingIsOnly(s);
    RaisedWhileCalling(Run(s, OneCalling()), s.db.config, config);
  }
}
