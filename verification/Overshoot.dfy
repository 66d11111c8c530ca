/** Requests in parallel: how far a key's counter can run past the threshold once it has tripped. */
module Overshoot {
  import opened Store
  import opened KeyTable
  import opened Listings
  import opened Selection
  import opened Gateway
  import RateBound

  function Failures(s: State, key: nat): nat {
    if key in s.db.keys then s.db.keys[key].failures else 0
  }

  /** A request that may still record a failure for the key. */
  predicate MayHit(p: Phase, key: nat) {
    p.Arrived? || p.Listed? || ((p.Calling? || p.Marking?) && p.key == key)
  }

  /** The requests below base, that is those that arrived early enough, that may still hit the key. */
  ghost function Threats(s: State, key: nat, base: nat): set<nat> {
    set r | r in s.reqs && r < base && MayHit(s.reqs[r], key)
  }

  /** No later request has the key. */
  ghost predicate NewcomersAvoid(s: State, key: nat, base: nat) {
    base <= s.nextReq && key < s.db.nextKey &&
    forall r :: r in s.reqs && r >= base && (s.reqs[r].Calling? || s.reqs[r].Marking?) ==> s.reqs[r].key != key
  }

  ghost predicate Avoided(s: State, actions: seq<Action>, key: nat, base: nat)
    requires Inv(s)
    decreases |actions|
  {
    NewcomersAvoid(s, key, base) &&
    (actions == [] || (StepKeeps(s, actions[0]); Avoided(Step(s, actions[0]), actions[1..], key, base)))
  }

  ghost function Potential(s: State, key: nat, base: nat): nat {
    Failures(s, key) + |Threats(s, key, base)|
  }

  lemma Shrinks(a: set<nat>, b: set<nat>)
    requires a <= b
    ensures |a| <= |b|
  {
    SubsetSize(a, b);
  }

  lemma ShrinksBy(a: set<nat>, b: set<nat>, x: nat)
    requires a <= b - {x} && x in b
    ensures |a| + 1 <= |b|
  {
    SubsetSize(a, b - {x});
  }

  /** Failures plus threats never grow while later requests stay away. */
  lemma StepLowers(s: State, a: Action, key: nat, base: nat)
    requires Inv(s) && NewcomersAvoid(s, key, base)
    ensures Potential(Step(s, a), key, base) <= Potential(s, key, base)
  {
    var after := Step(s, a);
    if a.CreateAction? || a.ReplaceAction? || a.EnableAction? || a.DeleteAction? || a.ReorderAction? {
      TableStepKeeps(s, a);
      RateBound.EditKeepsCounters(s, a);
      assert Threats(after, key, base) == Threats(s, key, base);
    } else if a.Record? {
      RecordLowers(s, a, key, base);
    } else {
      assert Threats(after, key, base) <= Threats(s, key, base);
      Shrinks(Threats(after, key, base), Threats(s, key, base));
    }
  }

  lemma RecordLowers(s: State, a: Action, key: nat, base: nat)
    requires Inv(s) && NewcomersAvoid(s, key, base) && a.Record?
    ensures Potential(Step(s, a), key, base) <= Potential(s, key, base)
  {
    var after := Step(s, a);
    Shrinks(Threats(after, key, base), Threats(s, key, base));
    if a.req in s.reqs && s.reqs[a.req].Marking? && s.reqs[a.req].key == key {
      assert a.req in Threats(s, key, base) && a.req !in Threats(after, key, base);
      ShrinksBy(Threats(after, key, base), Threats(s, key, base), a.req);
    }
  }

  lemma {:induction false} RunLowers(s: State, actions: seq<Action>, key: nat, base: nat)
    requires Inv(s) && Avoided(s, actions, key, base)
    ensures Potential(Run(s, actions), key, base) <= Potential(s, key, base)
    decreases |actions|
  {
    if actions != [] {
      StepKeeps(s, actions[0]);
      StepLowers(s, actions[0], key, base);
      RunLowers(Step(s, actions[0]), actions[1..], key, base);
    }
  }

  /** The step that makes the key's counter reach t. */
  ghost predicate Trips(s: State, a: Action, key: nat, t: nat) {
    && Inv(s) && a.Record? && a.req in s.reqs && s.reqs[a.req].Marking? && s.reqs[a.req].key == key
    && key in s.db.keys && Failures(Step(s, a), key) == t
  }

  lemma TripPotential(s: State, a: Action, key: nat, t: nat, m: nat)
    requires Trips(s, a, key, t) && |s.reqs| <= m
    ensures Potential(Step(s, a), key, s.nextReq) + 1 <= t + m
  {
    var threats := Threats(Step(s, a), key, s.nextReq);
    assert threats <= s.reqs.Keys - {a.req};
    ShrinksBy(threats, s.reqs.Keys, a.req);
    assert |s.reqs.Keys| == |s.reqs|;
  }

  /** With at most m requests in flight when the key trips at t, its counter is at most t + m - 1 until a
      request that arrived after the trip takes the key. */
  lemma OvershootUntilSelected(s: State, a: Action, actions: seq<Action>, key: nat, t: nat, m: nat)
    requires Trips(s, a, key, t) && |s.reqs| <= m
    requires (StepKeeps(s, a); Avoided(Step(s, a), actions, key, s.nextReq))
    ensures (StepKeeps(s, a); Failures(Run(Step(s, a), actions), key) <= t + m - 1)
  {
    StepKeeps(s, a);
    TripPotential(s, a, key, t, m);
    RunLowers(Step(s, a), actions, key, s.nextReq);
  }

  // ---------- Before the cooldown ends no later request takes the key ----------

  /** The key is cooling until at least the given time, and so it is in every listing a later request holds. */
  ghost predicate Cooling(s: State, key: nat, base: nat, until: Time, seconds: int) {
    && NewcomersAvoid(s, key, base)
    && until <= s.now + CooldownNanos(seconds)
    && AtLeast(s.db.config, seconds)
    && (forall r :: r in s.reqs && s.reqs[r].Marking? ==> AtLeast(s.reqs[r].config, seconds))
    && (key in s.db.keys ==> CoolingKey(s.db.keys[key], until))
    && (forall r :: r in s.reqs && r >= base && s.reqs[r].Listed? ==>
          forall k :: k in s.reqs[r].ks && k.id == key ==> CoolingKey(k, until))
  }

  predicate CoolingKey(key: Key, until: Time) {
    key.cooldownUntil.Some? && key.cooldownUntil.value >= until
  }

  /** A cooldown under the configuration is no shorter than one of the given seconds. */
  predicate AtLeast(config: Config, seconds: int) {
    CooldownNanos(config.cooldownSeconds) >= CooldownNanos(seconds)
  }

  /** No success is recorded for the key, and the cooldown is never made shorter; all else may change. */
  ghost predicate QuietAction(s: State, a: Action, key: nat, seconds: int) {
    && (a.ConfigAction? ==> AtLeast(a.config, seconds))
    && (a.Record? && a.req in s.reqs && s.reqs[a.req].Marking? && s.reqs[a.req].key == key ==> !Success(s.reqs[a.req].outcome))
  }

  /** A run of quiet actions that ends before the given time. */
  ghost predicate QuietUntil(s: State, actions: seq<Action>, key: nat, seconds: int, until: Time)
    requires Inv(s)
    decreases |actions|
  {
    s.now < until &&
    (actions == [] || (QuietAction(s, actions[0], key, seconds) &&
      (StepKeeps(s, actions[0]); QuietUntil(Step(s, actions[0]), actions[1..], key, seconds, until))))
  }

  lemma EditStaysCooling(s: State, a: Action, key: nat, base: nat, until: Time, seconds: int)
    requires Inv(s) && Cooling(s, key, base, until, seconds)
    requires a.CreateAction? || a.ReplaceAction? || a.EnableAction? || a.DeleteAction? || a.ReorderAction?
    ensures Cooling(Step(s, a), key, base, until, seconds)
  {
    StepKeeps(s, a);
    TableStepKeeps(s, a);
    RateBound.EditKeepsCounters(s, a);
  }

  lemma RequestStaysCooling(s: State, a: Action, key: nat, base: nat, until: Time, seconds: int)
    requires Inv(s) && Cooling(s, key, base, until, seconds) && s.now < until
    requires a.Arrive? || a.List? || a.Choose? || a.Abort? || a.Finish?
    ensures Cooling(Step(s, a), key, base, until, seconds)
  {
    RequestStepKeeps(s, a);
    if a.List? {
      forall k | k in Listing(s.db.keys) && k.id == key ensures CoolingKey(k, until) { assert k.id in s.db.keys; }
    } else if a.Choose? {
      if a.req in s.reqs && s.reqs[a.req].Listed? { PickComesFrom(s.reqs[a.req].ks, s.now); }
    }
  }

  lemma StepStaysCooling(s: State, a: Action, key: nat, base: nat, until: Time, seconds: int)
    requires Inv(s) && Cooling(s, key, base, until, seconds) && QuietAction(s, a, key, seconds) && s.now < until
    ensures Cooling(Step(s, a), key, base, until, seconds)
  {
    if a.CreateAction? || a.ReplaceAction? || a.EnableAction? || a.DeleteAction? || a.ReorderAction? {
      EditStaysCooling(s, a, key, base, until, seconds);
    } else if a.Arrive? || a.List? || a.Choose? || a.Abort? || a.Finish? {
      RequestStaysCooling(s, a, key, base, until, seconds);
    }
  }

  lemma {:induction false} RunStaysCooling(s: State, actions: seq<Action>, key: nat, base: nat, until: Time, seconds: int)
    requires Inv(s) && Cooling(s, key, base, until, seconds) && QuietUntil(s, actions, key, seconds, until)
    ensures Avoided(s, actions, key, base) && Cooling(Run(s, actions), key, base, until, seconds)
    decreases |actions|
  {
    if actions != [] {
      StepKeeps(s, actions[0]);
      StepStaysCooling(s, actions[0], key, base, until, seconds);
      RunStaysCooling(Step(s, actions[0]), actions[1..], key, base, until, seconds);
    }
  }

  /** A failure brings the key to t, meeting the threshold read for it, with at most m requests in flight.
      Until that cooldown ends, whatever else happens - parallel results, edits, changes of the threshold,
      longer cooldowns - short of a success on the key or a shorter cooldown: the counter stays at most
      t + m - 1, and no request that arrived after the trip is sent to the key. */
  lemma OvershootWhileCooling(s: State, a: Action, actions: seq<Action>, key: nat, t: nat, m: nat, seconds: int)
    requires Trips(s, a, key, t) && |s.reqs| <= m && a.written && !Success(s.reqs[a.req].outcome)
    requires t >= s.reqs[a.req].config.threshold
    requires s.reqs[a.req].config.cooldownSeconds == seconds && AtLeast(s.db.config, seconds)
    requires forall r :: r in s.reqs && s.reqs[r].Marking? ==> AtLeast(s.reqs[r].config, seconds)
    requires (StepKeeps(s, a); QuietUntil(Step(s, a), actions, key, seconds, s.now + CooldownNanos(seconds)))
    ensures (StepKeeps(s, a); var after := Run(Step(s, a), actions);
      Failures(after, key) <= t + m - 1 && NewcomersAvoid(after, key, s.nextReq))
  {
    StepKeeps(s, a);
    assert Carries(s.reqs[a.req], key);
    RunStaysCooling(Step(s, a), actions, key, s.nextReq, s.now + CooldownNanos(seconds), seconds);
    OvershootUntilSelected(s, a, actions, key, t, m);
  }
}
