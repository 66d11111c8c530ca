/** Requests that choose from a listing made earlier: exactly when one is sent to a cooling key, and what a
    disabled key can still get. */
module Staleness {
  import opened Wrappers
  import opened Store
  import opened Listings
  import opened KeyTable
  import opened Selection
  import opened Gateway
  import opened History

  // ---------- From the listing to the choice ----------

  predicate NoChoice(actions: seq<Action>, req: nat) {
    forall i :: 0 <= i < |actions| && actions[i].Choose? ==> actions[i].req != req
  }

  lemma StepKeepsListing(s: State, a: Action, req: nat)
    requires Inv(s) && req in s.reqs && s.reqs[req].Listed? && (a.Choose? ==> a.req != req)
    ensures req in Step(s, a).reqs && Step(s, a).reqs[req] == s.reqs[req]
  {
  }

  /** Until its own choice a request keeps the listing it has read. */
  lemma {:induction false} RunKeepsListing(s: State, actions: seq<Action>, req: nat)
    requires Inv(s) && req in s.reqs && s.reqs[req].Listed? && NoChoice(actions, req)
    ensures req in Run(s, actions).reqs && Run(s, actions).reqs[req] == s.reqs[req]
    decreases |actions|
  {
    if actions != [] {
      StepKeeps(s, actions[0]);
      StepKeepsListing(s, actions[0], req);
      RunKeepsListing(Step(s, actions[0]), actions[1..], req);
    }
  }

  lemma {:induction false} RunExtendsTrace(s: State, actions: seq<Action>)
    requires Inv(s) && EventsOk(s)
    ensures s.trace <= Run(s, actions).trace
    decreases |actions|
  {
    if actions != [] {
      StepKeeps(s, actions[0]);
      StepKeepsEvents(s, actions[0]);
      RunExtendsTrace(Step(s, actions[0]), actions[1..]);
    }
  }

  lemma {:induction false} MarksExtend(trace: seq<Event>, longer: seq<Event>, key: nat)
    requires trace <= longer
    ensures Marks(trace, key) <= Marks(longer, key)
    decreases |longer|
  {
    if |trace| < |longer| {
      MarksExtend(trace, longer[..|longer| - 1], key);
    } else {
      assert trace == longer;
    }
  }

  // ---------- The failure that set the cooldown ----------

  /** marks[i] is a failure that met its threshold, and after it there is neither a success nor another such. */
  ghost predicate ArmsLast(marks: seq<Mark>, i: nat) {
    && i < |marks| && !marks[i].success && Armed(marks, i)
    && forall j :: i < j < |marks| ==> !marks[j].success && !Armed(marks, j)
  }

  lemma {:induction false} LastArmedAt(marks: seq<Mark>, i: nat)
    requires ArmsLast(marks, i)
    ensures LastArmed(marks) == Some(marks[i].at + marks[i].cooldown)
    decreases |marks|
  {
    if i < |marks| - 1 {
      ArmsBefore(marks, marks[..|marks| - 1], i);
      LastArmedAt(marks[..|marks| - 1], i);
    }
  }

  lemma ArmsBefore(marks: seq<Mark>, shorter: seq<Mark>, i: nat)
    requires shorter <= marks && i < |shorter| && ArmsLast(marks, i)
    ensures ArmsLast(shorter, i)
  {
    forall j | i <= j < |shorter| ensures shorter[j] == marks[j] && (Armed(shorter, j) <==> Armed(marks, j)) {
      assert shorter[..j + 1] == marks[..j + 1];
    }
  }

  lemma {:induction false} SomeArms(marks: seq<Mark>) returns (i: nat)
    requires LastArmed(marks).Some?
    ensures ArmsLast(marks, i)
    decreases |marks|
  {
    i := |marks| - 1;
    if !Armed(marks, i) {
      var front := marks[..|marks| - 1];
      i := SomeArms(front);
      forall j | i <= j < |front| ensures front[j] == marks[j] && (Armed(front, j) <==> Armed(marks, j)) {
        assert front[..j + 1] == marks[..j + 1];
      }
    }
  }

  /** An unexpired cooldown that was not yet set, or had another end, when only the first marks were recorded
      comes from one of the later marks. */
  lemma CooldownSince(marks: seq<Mark>, earlier: seq<Mark>, now: Time)
    requires earlier <= marks
    requires LastArmed(earlier).Some? ==> LastArmed(earlier).value <= now
    ensures LastArmed(marks).Some? && LastArmed(marks).value > now <==>
            exists i :: |earlier| <= i && ArmsLast(marks, i) && marks[i].at + marks[i].cooldown > now
  {
    if i :| |earlier| <= i && ArmsLast(marks, i) && marks[i].at + marks[i].cooldown > now { LastArmedAt(marks, i); }
    if LastArmed(marks).Some? && LastArmed(marks).value > now {
      var i := SomeArms(marks);
      LastArmedAt(marks, i);
      if i < |earlier| {
        ArmsBefore(marks, earlier, i);
        LastArmedAt(earlier, i);
      }
    }
  }

  // ---------- When a cooling key is chosen ----------

  predicate Cooling(s: State, key: nat) {
    key in s.db.keys && s.db.keys[key].cooldownUntil.Some? && s.db.keys[key].cooldownUntil.value > s.now
  }

  /** The state in which a request chooses: it listed the keys in the first state, and the actions followed. */
  ghost function AtChoice(s: State, req: nat, between: seq<Action>): State
    requires Inv(s)
  {
    StepKeeps(s, List(req, true));
    Run(Step(s, List(req, true)), between)
  }

  /** Between its listing and its choice, a failure that met its threshold was recorded on the key, no success
      and no other such failure followed, and the cooldown it set has not ended. */
  ghost predicate ArmedMeanwhile(listing: State, choice: State, key: nat) {
    var marks := Marks(choice.trace, key);
    exists i :: |Marks(listing.trace, key)| <= i && ArmsLast(marks, i) && marks[i].at + marks[i].cooldown > choice.now
  }

  lemma ChoiceOf(s: State, req: nat, between: seq<Action>)
    requires Inv(s) && EventsOk(s) && HistoryOk(s) && req in s.reqs && s.reqs[req].Arrived? && NoChoice(between, req)
    ensures var choice := AtChoice(s, req, between);
      && Inv(choice) && HistoryOk(choice) && s.trace <= choice.trace
      && req in choice.reqs && choice.reqs[req].Listed? && choice.reqs[req].ks == Listing(s.db.keys)
  {
    StepKeeps(s, List(req, true));
    StepKeepsHistory(s, List(req, true));
    StepKeepsEvents(s, List(req, true));
    RunKeepsHistory(Step(s, List(req, true)), between);
    RunExtendsTrace(Step(s, List(req, true)), between);
    RunKeepsListing(Step(s, List(req, true)), between, req);
  }

  /** A key that a listing offers at the moment of the choice is cooling then exactly if it was armed meanwhile. */
  lemma CoolingIff(listing: State, choice: State, key: Key)
    requires HistoryOk(listing) && HistoryOk(choice) && listing.trace <= choice.trace
    requires key.id in listing.db.keys && listing.db.keys[key.id] == key && Rested(key, choice.now) && key.id in choice.db.keys
    ensures Cooling(choice, key.id) <==> ArmedMeanwhile(listing, choice, key.id)
  {
    MarksExtend(listing.trace, choice.trace, key.id);
    CooldownSince(Marks(choice.trace, key.id), Marks(listing.trace, key.id), choice.now);
  }

  lemma ChosenIff(listing: State, req: nat, between: seq<Action>, key: Key)
    requires Inv(listing) && EventsOk(listing) && HistoryOk(listing)
    requires req in listing.reqs && listing.reqs[req].Arrived? && NoChoice(between, req)
    requires var choice := AtChoice(listing, req, between);
      Pick(Listing(listing.db.keys), choice.now) == Some(key) && key.id in choice.db.keys
    ensures var choice := AtChoice(listing, req, between);
      && Step(choice, Choose(req, true)).trace == choice.trace + [Selected(req, key.id)]
      && (Cooling(choice, key.id) <==> ArmedMeanwhile(listing, choice, key.id))
  {
    var choice := AtChoice(listing, req, between);
    ChoiceOf(listing, req, between);
    PickComesFrom(Listing(listing.db.keys), choice.now);
    CoolingIff(listing, choice, key);
  }

  /** In every run: the key that a request chooses, if it still exists, is cooling at that moment exactly if it
      was armed between the request's listing and its choice. */
  lemma ChosenWhileCoolingIff(s: State, before: seq<Action>, req: nat, between: seq<Action>, key: Key)
    requires Initial(s) && req in Reached(s, before).reqs && Reached(s, before).reqs[req].Arrived? && NoChoice(between, req)
    requires (InitialInv(s); var listing := Reached(s, before); var choice := AtChoice(listing, req, between);
      Pick(Listing(listing.db.keys), choice.now) == Some(key) && key.id in choice.db.keys)
    ensures (InitialInv(s); var listing := Reached(s, before); var choice := AtChoice(listing, req, between);
      && Step(choice, Choose(req, true)).trace == choice.trace + [Selected(req, key.id)]
      && (Cooling(choice, key.id) <==> ArmedMeanwhile(listing, choice, key.id)))
  {
    InitialInv(s);
    RunKeepsHistory(s, before);
    RunKeepsEvents(s, before);
    ChosenIff(Reached(s, before), req, between, key);
  }

  // ---------- It happens ----------

  const ROUTE := "/v1/models"

  function FreshKey(): Key {
    Key(1, "a", "", "", true, 1, 0, None, "")
  }

  lemma OnlyKeyPicked(key: Key, now: Time)
    requires key.id == 1 && key.enabled && Rested(key, now)
    ensures Listing(map[1 := key]) == [key] && Pick([key], now) == Some(key)
  {
    var keys := map[1 := key];
    assert IsListing([key], keys);
    ListingUnique([key], Listing(keys), keys);
    PickIsBest([key], keys, now);
    assert IsBest(key, keys, now);
  }

  lemma ArriveAt(s: State)
    requires Wf(s.db.keys)
    ensures Step(s, Arrive(ROUTE)) == s.(nextReq := s.nextReq + 1, reqs := s.reqs[s.nextReq := Arrived(s.now, ROUTE)])
  {
  }

  lemma ListAt(s: State, req: nat, ts: Time)
    requires s.db.keys == map[1 := FreshKey()] && req in s.reqs && s.reqs[req] == Arrived(ts, ROUTE)
    ensures Step(s, List(req, true)) == s.(reqs := s.reqs[req := Listed(ts, ROUTE, [FreshKey()])])
  {
    OnlyKeyPicked(FreshKey(), s.now);
  }

  lemma ChooseAt(s: State, req: nat, ts: Time)
    requires Wf(s.db.keys) && req in s.reqs && s.reqs[req] == Listed(ts, ROUTE, [FreshKey()])
    ensures Step(s, Choose(req, true)) == s.(reqs := s.reqs[req := Calling(ts, ROUTE, 1, "a")], trace := s.trace + [Selected(req, 1)])
  {
    OnlyKeyPicked(FreshKey(), s.now);
  }

  lemma FailAt(s: State, req: nat, ts: Time)
    requires Wf(s.db.keys) && req in s.reqs && s.reqs[req] == Calling(ts, ROUTE, 1, "a")
    ensures Step(s, Finish(req, Answer(500), true)) ==
            s.(reqs := s.reqs[req := Marking(ts, ROUTE, 1, "a", Answer(500), s.db.config)])
  {
  }

  lemma RecordAt(s: State, req: nat, ts: Time, key: Key, config: Config)
    requires key.id == 1 && s.db.keys == map[1 := key] && config.threshold == 1
    requires req in s.reqs && s.reqs[req] == Marking(ts, ROUTE, 1, "a", Answer(500), config)
    ensures var after := Step(s, Record(req, true, ""));
      && after.db.keys == map[1 := Failed(key, 1, CooldownNanos(config.cooldownSeconds), s.now, "")]
      && after.db.config == s.db.config && after.now == s.now
      && after.reqs == s.reqs[req := Logging(UpstreamEntry(ts, ROUTE, 1, "a", Answer(500)))]
  {
  }

  /** One key, and a request that calls it. */
  function OneCalling(): seq<Action> {
    [CreateAction("a", "", "", true), Arrive(ROUTE), List(0, true), Choose(0, true)]
  }

  lemma CreateFirst(s: State)
    requires Initial(s)
    ensures Step(s, CreateAction("a", "", "", true)) ==
            s.(db := s.db.(keys := map[1 := FreshKey()], nextKey := 2), trace := [Created(1)])
  {
    assert NextPriority(map[]) == 1;
    assert s.db.keys[1 := FreshKey()] == map[1 := FreshKey()];
  }

  lemma OneCallingResult(s: State)
    requires Initial(s) && Inv(s)
    ensures Run(s, OneCalling()) == s.(db := s.db.(keys := map[1 := FreshKey()], nextKey := 2), nextReq := 1,
              reqs := map[0 := Calling(s.now, ROUTE, 1, "a")], trace := [Created(1), Selected(0, 1)])
  {
    var s1, s2, s3, s4 := RunFour(s, CreateAction("a", "", "", true), Arrive(ROUTE), List(0, true), Choose(0, true));
    CreateFirst(s);
    ArriveAt(s1);
    ListAt(s2, 0, s.now);
    ChooseAt(s3, 0, s.now);
  }

  /** A second request lists the key, and then the first one fails. */
  function ListThenFail(): seq<Action> {
    [Arrive(ROUTE), List(1, true), Finish(0, Answer(500), true), Record(0, true, "")]
  }

  lemma ListThenFailResult(s: State)
    requires Inv(s) && s.db.keys == map[1 := FreshKey()] && s.reqs == map[0 := Calling(s.now, ROUTE, 1, "a")] && s.nextReq == 1
    requires s.db.config.threshold == 1
    ensures var after := Run(s, ListThenFail()); var c := CooldownNanos(s.db.config.cooldownSeconds);
      && after.db.keys == map[1 := Failed(FreshKey(), 1, c, s.now, "")] && after.now == s.now
      && 1 in after.reqs && after.reqs[1] == Listed(s.now, ROUTE, [FreshKey()])
  {
    var s1, s2, s3, s4 := RunFour(s, Arrive(ROUTE), List(1, true), Finish(0, Answer(500), true), Record(0, true, ""));
    ArriveAt(s);
    ListAt(s1, 1, s.now);
    FailAt(s2, 0, s.now);
    RecordAt(s3, 0, s.now, FreshKey(), s.db.config);
  }

  /** The second request chooses, the configuration changes, and the second request fails, too. */
  function ChooseThenFail(config: Config): seq<Action> {
    [Choose(1, true), ConfigAction(config), Finish(1, Answer(500), true), Record(1, true, "")]
  }

  lemma ChooseThenFailResult(s: State, config: Config, key: Key, ts: Time)
    requires Inv(s) && ConfigOk(config) && config.threshold == 1 && key.id == 1 && s.db.keys == map[1 := key]
    requires 1 in s.reqs && s.reqs[1] == Listed(ts, ROUTE, [FreshKey()])
    ensures Step(s, Choose(1, true)).trace == s.trace + [Selected(1, 1)]
    ensures Run(s, ChooseThenFail(config)).db.keys == map[1 := Failed(key, 1, CooldownNanos(config.cooldownSeconds), s.now, "")]
  {
    var s1, s2, s3, s4 := RunFour(s, Choose(1, true), ConfigAction(config), Finish(1, Answer(500), true), Record(1, true, ""));
    ChooseAt(s, 1, ts);
    FailAt(s2, 1, ts);
    RecordAt(s3, 1, ts, key, config);
  }

  /** A request chooses the cooling key, and its failure ends the cooldown earlier than it was to end. */
  ghost predicate ChosenAndShortened(choice: State, config: Config, first: int, second: int)
    requires Inv(choice)
  {
    && Cooling(choice, 1) && choice.db.keys[1].cooldownUntil == Some(choice.now + first)
    && Step(choice, Choose(1, true)).trace == choice.trace + [Selected(1, 1)]
    && Run(choice, ChooseThenFail(config)).db.keys ==
       map[1 := choice.db.keys[1].(failures := 2, cooldownUntil := Some(choice.now + second))]
  }

  lemma ChoiceIsShortened(choice: State, config: Config, first: int)
    requires Inv(choice) && ConfigOk(config) && config.threshold == 1 && first > 0
    requires choice.db.keys == map[1 := Failed(FreshKey(), 1, first, choice.now, "")]
    requires 1 in choice.reqs && choice.reqs[1] == Listed(choice.now, ROUTE, [FreshKey()])
    ensures ChosenAndShortened(choice, config, first, CooldownNanos(config.cooldownSeconds))
  {
    ChooseThenFailResult(choice, config, choice.db.keys[1], choice.now);
  }

  lemma CallingIsShortened(s: State, config: Config, first: int)
    requires Inv(s) && s.db.keys == map[1 := FreshKey()] && s.reqs == map[0 := Calling(s.now, ROUTE, 1, "a")] && s.nextReq == 1
    requires s.db.config.threshold == 1 && first == CooldownNanos(s.db.config.cooldownSeconds) > 0
    requires ConfigOk(config) && config.threshold == 1
    ensures ChosenAndShortened(Run(s, ListThenFail()), config, first, CooldownNanos(config.cooldownSeconds))
  {
    ListThenFailResult(s);
    ChoiceIsShortened(Run(s, ListThenFail()), config, first);
  }

  /** From the empty store, with threshold 1 and a cooldown of 120 seconds: a request is sent to a key that has
      been cooling since another request failed after its listing; and after the cooldown is set to 60 seconds,
      the failure of that request ends the cooldown a minute earlier than it was to end. */
  lemma CoolingKeyCanBeChosen(s: State, config: Config)
    requires Initial(s) && s.db.config.threshold == 1 && s.db.config.cooldownSeconds == 120
    requires ConfigOk(config) && config.threshold == 1 && config.cooldownSeconds == 60
    ensures Inv(s) && ChosenAndShortened(Run(Run(s, OneCalling()), ListThenFail()), config, 120 * SECOND, 60 * SECOND)
  {
    InitialInv(s);
    OneCallingResult(s);
    CallingIsShortened(Run(s, OneCalling()), config, 120 * SECOND);
  }

  // ---------- Disabled keys ----------

  /** Only the given requests still hold a listing that shows the key enabled. */
  ghost predicate OfferedTo(s: State, key: nat, holders: set<nat>) {
    && key < s.db.nextKey
    && (key in s.db.keys ==> !s.db.keys[key].enabled)
    && (forall r, k :: r in s.reqs && r !in holders && s.reqs[r].Listed? && k in s.reqs[r].ks && k.id == key ==> !k.enabled)
  }

  /** The action does not enable the key. */
  predicate LeavesOff(a: Action, key: nat) {
    && (a.EnableAction? && a.id == key ==> !a.enabled)
    && (a.ReplaceAction? && a.id == key ==> !a.enabled)
  }

  lemma EditLeavesOff(s: State, a: Action, key: nat, holders: set<nat>)
    requires Inv(s) && OfferedTo(s, key, holders) && LeavesOff(a, key)
    requires a.CreateAction? || a.ReplaceAction? || a.EnableAction? || a.DeleteAction? || a.ReorderAction?
    ensures OfferedTo(Step(s, a), key, holders) && forall req :: Selected(req, key) in Step(s, a).trace ==> Selected(req, key) in s.trace
  {
    TableStepKeeps(s, a);
    if a.DeleteAction? {
      if a.id in s.db.keys && IsOrder(s.db.keys - {a.id}, a.order) && Delete(s.db, a.id, a.order).Ok? { DeleteKeeps(s.db, a.id, a.order); }
    } else if a.ReorderAction? {
      if IsOrder(s.db.keys, a.order) && Reorder(s.db, a.ids, a.order).Ok? { ReorderResult(s.db, a.ids, a.order); }
    }
  }

  lemma ChooseLeavesOff(s: State, req: nat, usable: bool, key: nat, holders: set<nat>)
    requires Inv(s) && OfferedTo(s, key, holders)
    ensures OfferedTo(Step(s, Choose(req, usable)), key, holders)
    ensures forall r :: Selected(r, key) in Step(s, Choose(req, usable)).trace ==> Selected(r, key) in s.trace || r in holders
  {
    if req in s.reqs && s.reqs[req].Listed? { PickComesFrom(s.reqs[req].ks, s.now); }
  }

  lemma RequestLeavesOff(s: State, a: Action, key: nat, holders: set<nat>)
    requires Inv(s) && OfferedTo(s, key, holders) && (a.Arrive? || a.List? || a.Choose? || a.Abort? || a.Finish?)
    ensures OfferedTo(Step(s, a), key, holders)
    ensures forall req :: Selected(req, key) in Step(s, a).trace ==> Selected(req, key) in s.trace || req in holders
  {
    if a.Choose? {
      ChooseLeavesOff(s, a.req, a.usable, key, holders);
    } else if a.List? {
      forall k | k in Listing(s.db.keys) && k.id == key ensures !k.enabled { assert k.id in s.db.keys; }
    }
  }

  lemma StepLeavesOff(s: State, a: Action, key: nat, holders: set<nat>)
    requires Inv(s) && OfferedTo(s, key, holders) && LeavesOff(a, key)
    ensures OfferedTo(Step(s, a), key, holders)
    ensures forall req :: Selected(req, key) in Step(s, a).trace ==> Selected(req, key) in s.trace || req in holders
  {
    if a.CreateAction? || a.ReplaceAction? || a.EnableAction? || a.DeleteAction? || a.ReorderAction? { EditLeavesOff(s, a, key, holders); }
    else if a.Arrive? || a.List? || a.Choose? || a.Abort? || a.Finish? { RequestLeavesOff(s, a, key, holders); }
  }

  lemma {:induction false} RunLeavesOff(s: State, actions: seq<Action>, key: nat, holders: set<nat>)
    requires Inv(s) && OfferedTo(s, key, holders) && forall i :: 0 <= i < |actions| ==> LeavesOff(actions[i], key)
    ensures forall req :: Selected(req, key) in Run(s, actions).trace ==> Selected(req, key) in s.trace || req in holders
    decreases |actions|
  {
    if actions != [] {
      StepKeeps(s, actions[0]);
      StepLeavesOff(s, actions[0], key, holders);
      RunLeavesOff(Step(s, actions[0]), actions[1..], key, holders);
    }
  }

  ghost function Holders(s: State): set<nat> {
    set r | r in s.reqs && s.reqs[r].Listed?
  }

  /** From any state in which a key is disabled, and as long as nothing enables it: it is selected only by
      requests that had already listed the keys, whatever else happens. */
  lemma DisabledIsNotSelected(s: State, actions: seq<Action>, key: nat, req: nat)
    requires Inv(s) && key in s.db.keys && !s.db.keys[key].enabled
    requires forall i :: 0 <= i < |actions| ==> LeavesOff(actions[i], key)
    requires Selected(req, key) in Run(s, actions).trace
    ensures Selected(req, key) in s.trace || (req in s.reqs && s.reqs[req].Listed?)
  {
    RunLeavesOff(s, actions, key, Holders(s));
  }

  /** Those requests can: the choice after a disabling edit is the choice before it. */
  lemma HolderSelectsDisabled(s: State, req: nat, key: nat)
    requires Inv(s) && key in s.db.keys && req in s.reqs && s.reqs[req].Listed?
    requires Pick(s.reqs[req].ks, s.now).Some? && Pick(s.reqs[req].ks, s.now).value.id == key
    ensures var off := Step(s, EnableAction(key, false));
      Wf(off.db.keys) && !off.db.keys[key].enabled && Step(off, Choose(req, true)).trace == s.trace + [Selected(req, key)]
  {
    StepKeeps(s, EnableAction(key, false));
  }
}
