/** Every selection is accounted for exactly once, and a result only ever lands on the key selected for it. */
module Attribution {
  import opened Store
  import opened KeyTable
  import opened Listings
  import opened Selection
  import opened Gateway

  // ---------- Attribution ----------

  predicate Resolves(e: Event) {
    e.Recorded? || e.Ignored? || e.Aborted? || e.Dropped?
  }

  ghost predicate SelectedBy(trace: seq<Event>, req: nat) {
    exists e :: e in trace && e.Selected? && e.req == req
  }

  ghost predicate ResolvedBy(trace: seq<Event>, req: nat) {
    exists e :: e in trace && Resolves(e) && e.req == req
  }

  /** A key is created once; a request selects once, a key created before; it is resolved once, on the key it
      selected before. */
  ghost predicate EventOk(past: seq<Event>, e: Event) {
    match e
    case Created(key) => e !in past
    case Selected(req, key) => Created(key) in past && !SelectedBy(past, req)
    case _ => Selected(e.req, e.key) in past && !ResolvedBy(past, e.req)
  }

  ghost predicate TraceOk(trace: seq<Event>) {
    forall i :: 0 <= i < |trace| ==> EventOk(trace[..i], trace[i])
  }

  ghost predicate PhaseOk(trace: seq<Event>, req: nat, p: Phase) {
    match p
    case Arrived(_, _) => !SelectedBy(trace, req) && !ResolvedBy(trace, req)
    case Listed(_, _, ks) => !SelectedBy(trace, req) && !ResolvedBy(trace, req) && forall k :: k in ks ==> Created(k.id) in trace
    case Calling(_, _, key, _) => Selected(req, key) in trace && !ResolvedBy(trace, req)
    case Marking(_, _, key, _, _, _) => Selected(req, key) in trace && !ResolvedBy(trace, req)
    case Logging(_) => true
  }

  ghost predicate AttributionOk(s: State) {
    && TraceOk(s.trace)
    && (forall id :: id in s.db.keys ==> Created(id) in s.trace)
    && (forall e :: e in s.trace && e.Created? ==> e.key < s.db.nextKey)
    && (forall r :: r in s.reqs ==> PhaseOk(s.trace, r, s.reqs[r]))
    && (forall r :: r >= s.nextReq ==> !SelectedBy(s.trace, r) && !ResolvedBy(s.trace, r))
  }

  lemma AppendOk(trace: seq<Event>, e: Event)
    requires TraceOk(trace) && EventOk(trace, e)
    ensures TraceOk(trace + [e])
  {
    var after := trace + [e];
    forall i | 0 <= i < |after| ensures EventOk(after[..i], after[i]) {
      assert after[..i] == trace[..i];
      if i == |trace| { assert trace[..i] == trace; }
    }
  }

  /** An event of one request says nothing about another. */
  lemma OtherRequest(trace: seq<Event>, e: Event, req: nat)
    requires e.Created? || e.req != req
    ensures SelectedBy(trace + [e], req) <==> SelectedBy(trace, req)
    ensures ResolvedBy(trace + [e], req) <==> ResolvedBy(trace, req)
  {
    if SelectedBy(trace, req) {
      var w :| w in trace && w.Selected? && w.req == req;
      assert w in trace + [e];
    }
    if ResolvedBy(trace, req) {
      var w :| w in trace && Resolves(w) && w.req == req;
      assert w in trace + [e];
    }
  }

  lemma SelectionResolvesNothing(trace: seq<Event>, e: Event, req: nat)
    requires !Resolves(e)
    ensures ResolvedBy(trace + [e], req) <==> ResolvedBy(trace, req)
  {
    if ResolvedBy(trace, req) {
      var w :| w in trace && Resolves(w) && w.req == req;
      assert w in trace + [e];
    }
  }

  lemma PhaseSurvives(trace: seq<Event>, e: Event, req: nat, p: Phase)
    requires PhaseOk(trace, req, p) && (e.Created? || e.req != req)
    ensures PhaseOk(trace + [e], req, p)
  {
    OtherRequest(trace, e, req);
  }

  /** A step of request req that emits e and moves on to phase p. */
  lemma EmitKeeps(s: State, after: State, req: nat, e: Event)
    requires AttributionOk(s) && req in s.reqs && req < s.nextReq
    requires e.Selected? || Resolves(e)
    requires e.req == req && EventOk(s.trace, e) && after.trace == s.trace + [e]
    requires req in after.reqs && after.reqs == s.reqs[req := after.reqs[req]] && PhaseOk(after.trace, req, after.reqs[req])
    requires after.db.keys.Keys == s.db.keys.Keys && after.db.nextKey == s.db.nextKey && after.nextReq == s.nextReq
    ensures AttributionOk(after)
  {
    AppendOk(s.trace, e);
    forall r | r in after.reqs ensures PhaseOk(after.trace, r, after.reqs[r]) {
      if r != req { PhaseSurvives(s.trace, e, r, s.reqs[r]); }
    }
    forall r | r >= after.nextReq ensures !SelectedBy(after.trace, r) && !ResolvedBy(after.trace, r) {
      OtherRequest(s.trace, e, r);
    }
    assert forall x :: x in s.trace ==> x in after.trace;
  }

  /** A step without an event. */
  lemma QuietKeeps(s: State, after: State)
    requires AttributionOk(s) && after.trace == s.trace && s.nextReq <= after.nextReq && s.db.nextKey <= after.db.nextKey
    requires after.db.keys.Keys <= s.db.keys.Keys
    requires forall r :: r in after.reqs ==> PhaseOk(s.trace, r, after.reqs[r])
    ensures AttributionOk(after)
  {
  }

  lemma ChooseKeeps(s: State, req: nat, usable: bool)
    requires Inv(s) && AttributionOk(s) && req in s.reqs && s.reqs[req].Listed?
    ensures AttributionOk(Step(s, Choose(req, usable)))
  {
    var after := Step(s, Choose(req, usable));
    var p := s.reqs[req];
    if Pick(p.ks, s.now).Some? && usable {
      var e := Selected(req, Pick(p.ks, s.now).value.id);
      PickComesFrom(p.ks, s.now);
      assert PhaseOk(s.trace, req, p);
      SelectionResolvesNothing(s.trace, e, req);
      assert e in after.trace;
      EmitKeeps(s, after, req, e);
    } else {
      QuietKeeps(s, after);
    }
  }

  lemma CallKeeps(s: State, a: Action)
    requires Inv(s) && AttributionOk(s) && (a.Abort? || a.Finish?) && a.req in s.reqs && s.reqs[a.req].Calling?
    ensures AttributionOk(Step(s, a))
  {
    var after := Step(s, a);
    assert PhaseOk(s.trace, a.req, s.reqs[a.req]);
    if after.trace == s.trace {
      QuietKeeps(s, after);
    } else {
      EmitKeeps(s, after, a.req, after.trace[|s.trace|]);
    }
  }

  lemma RecordKeepsAttribution(s: State, a: Action)
    requires Inv(s) && AttributionOk(s) && a.Record? && a.req in s.reqs && s.reqs[a.req].Marking?
    ensures AttributionOk(Step(s, a))
  {
    assert PhaseOk(s.trace, a.req, s.reqs[a.req]);
    EmitKeeps(s, Step(s, a), a.req, Step(s, a).trace[|s.trace|]);
  }

  lemma CreatedKeeps(s: State, after: State, e: Event)
    requires AttributionOk(s) && e == Created(s.db.nextKey) && after.trace == s.trace + [e]
    requires after.reqs == s.reqs && after.nextReq == s.nextReq && after.db.nextKey == s.db.nextKey + 1
    requires forall id :: id in after.db.keys ==> id in s.db.keys || id == s.db.nextKey
    ensures AttributionOk(after)
  {
    AppendOk(s.trace, e);
    forall r | r in after.reqs ensures PhaseOk(after.trace, r, after.reqs[r]) { PhaseSurvives(s.trace, e, r, s.reqs[r]); }
    forall r | r >= after.nextReq ensures !SelectedBy(after.trace, r) && !ResolvedBy(after.trace, r) { OtherRequest(s.trace, e, r); }
    assert e in after.trace && forall x :: x in s.trace ==> x in after.trace;
  }

  lemma CreateKeepsAttribution(s: State, a: Action)
    requires Inv(s) && AttributionOk(s) && a.CreateAction?
    ensures AttributionOk(Step(s, a))
  {
    if CreateKey(s.db, a.alias, a.hint, a.secret, a.enabled).Ok? {
      CreatedKeeps(s, Step(s, a), Created(s.db.nextKey));
    }
  }

  lemma EditKeepsAttribution(s: State, a: Action)
    requires Inv(s) && AttributionOk(s) && (a.ReplaceAction? || a.EnableAction? || a.DeleteAction? || a.ReorderAction?)
    ensures AttributionOk(Step(s, a))
  {
    TableStepKeeps(s, a);
    if a.DeleteAction? {
      if a.id in s.db.keys && IsOrder(s.db.keys - {a.id}, a.order) && Delete(s.db, a.id, a.order).Ok? { DeleteKeeps(s.db, a.id, a.order); }
    } else if a.ReorderAction? {
      if IsOrder(s.db.keys, a.order) && Reorder(s.db, a.ids, a.order).Ok? { ReorderResult(s.db, a.ids, a.order); }
    }
    QuietKeeps(s, Step(s, a));
  }

  lemma ListKeepsAttribution(s: State, a: Action)
    requires Inv(s) && AttributionOk(s) && a.List?
    ensures AttributionOk(Step(s, a))
  {
    forall k | k in Listing(s.db.keys) ensures Created(k.id) in s.trace { assert k.id in s.db.keys; }
    if a.req in s.reqs { assert PhaseOk(s.trace, a.req, s.reqs[a.req]); }
    QuietKeeps(s, Step(s, a));
  }

  lemma StepKeepsAttribution(s: State, a: Action)
    requires Inv(s) && AttributionOk(s)
    ensures AttributionOk(Step(s, a))
  {
    if a.CreateAction? { CreateKeepsAttribution(s, a); }
    else if a.ReplaceAction? || a.EnableAction? || a.DeleteAction? || a.ReorderAction? { EditKeepsAttribution(s, a); }
    else if a.List? { ListKeepsAttribution(s, a); }
    else if a.Choose? {
      if a.req in s.reqs && s.reqs[a.req].Listed? { ChooseKeeps(s, a.req, a.usable); }
    } else if a.Abort? || a.Finish? {
      if a.req in s.reqs && s.reqs[a.req].Calling? { CallKeeps(s, a); }
    } else if a.Record? {
      if a.req in s.reqs && s.reqs[a.req].Marking? { RecordKeepsAttribution(s, a); }
    } else {
      QuietKeeps(s, Step(s, a));
    }
  }

  lemma {:induction false} RunKeepsAttribution(s: State, actions: seq<Action>)
    requires Inv(s) && AttributionOk(s)
    ensures AttributionOk(Run(s, actions))
    decreases |actions|
  {
    if actions != [] {
      StepKeepsAttribution(s, actions[0]);
      StepKeeps(s, actions[0]);
      RunKeepsAttribution(Step(s, actions[0]), actions[1..]);
    }
  }

  /** In every run a recorded result is for a key that its request selected before, that was created before
      that selection, and that is created only once: it never lands on a later key. */
  lemma ResultsLandWhereSelected(s: State, actions: seq<Action>, i: nat)
    requires Initial(s)
    requires i < |Reached(s, actions).trace| && Resolves(Reached(s, actions).trace[i])
    ensures var trace := Reached(s, actions).trace;
      exists c, b ::
        && 0 <= c < b < i && trace[c] == Created(trace[i].key) && trace[b] == Selected(trace[i].req, trace[i].key)
        && (forall j :: 0 <= j < |trace| && trace[j].Selected? && trace[j].req == trace[i].req ==> j == b)
        && (forall j :: 0 <= j < |trace| && Resolves(trace[j]) && trace[j].req == trace[i].req ==> j == i)
        && (forall j :: 0 <= j < |trace| && trace[j] == Created(trace[i].key) ==> j == c)
  {
    InitialInv(s);
    RunKeepsAttribution(s, actions);
    var trace := Reached(s, actions).trace;
    var c, b := Origin(trace, i);
    OnlyOnce(trace, i);
    OnlyOnce(trace, b);
    OnlyOnce(trace, c);
  }

  lemma Origin(trace: seq<Event>, i: nat) returns (c: nat, b: nat)
    requires TraceOk(trace) && i < |trace| && Resolves(trace[i])
    ensures c < b < i && trace[c] == Created(trace[i].key) && trace[b] == Selected(trace[i].req, trace[i].key)
  {
    assert EventOk(trace[..i], trace[i]);
    b :| 0 <= b < i && trace[..i][b] == Selected(trace[i].req, trace[i].key);
    assert EventOk(trace[..b], trace[b]);
    c :| 0 <= c < b && trace[..b][c] == Created(trace[i].key);
  }

  lemma NotAgain(trace: seq<Event>, i: nat, j: nat)
    requires TraceOk(trace) && i < j < |trace|
    ensures !Same(trace[i], trace[j]) && !Same(trace[j], trace[i])
  {
    assert EventOk(trace[..j], trace[j]);
    assert trace[..j][i] in trace[..j];
  }

  lemma OnlyOnce(trace: seq<Event>, i: nat)
    requires TraceOk(trace) && i < |trace|
    ensures forall j :: 0 <= j < |trace| && Same(trace[j], trace[i]) ==> j == i
  {
    forall j | 0 <= j < |trace| && Same(trace[j], trace[i]) ensures j == i {
      if j < i { NotAgain(trace, j, i); }
      if i < j { NotAgain(trace, i, j); }
    }
  }

  predicate Same(a: Event, b: Event) {
    || (a.Created? && a == b)
    || (a.Selected? && b.Selected? && a.req == b.req)
    || (Resolves(a) && Resolves(b) && a.req == b.req)
  }

  // ---------- Deleted ids stay deleted ----------

  lemma StepAddsOnlyNewIds(s: State, a: Action, id: nat)
    requires Inv(s) && id < s.db.nextKey && id !in s.db.keys
    ensures id !in Step(s, a).db.keys
  {
    if a.DeleteAction? {
      if a.id in s.db.keys && IsOrder(s.db.keys - {a.id}, a.order) && Delete(s.db, a.id, a.order).Ok? { DeleteKeeps(s.db, a.id, a.order); }
    } else if a.ReorderAction? {
      if IsOrder(s.db.keys, a.order) && Reorder(s.db, a.ids, a.order).Ok? { ReorderResult(s.db, a.ids, a.order); }
    }
  }

  /** AUTOINCREMENT never reissues an id: once gone, a key never comes back. */
  lemma {:induction false} DeletedStaysDeleted(s: State, actions: seq<Action>, id: nat)
    requires Inv(s) && id < s.db.nextKey && id !in s.db.keys
    ensures id !in Run(s, actions).db.keys
    decreases |actions|
  {
    if actions != [] {
      StepKeeps(s, actions[0]);
      StepAddsOnlyNewIds(s, actions[0], id);
      DeletedStaysDeleted(Step(s, actions[0]), actions[1..], id);
    }
  }

  // ---------- Conservation ----------

  datatype Tally = Tally(selected: nat, succeeded: nat, failed: nat, ignored: nat, aborted: nat, dropped: nat)

  function Tick1(t: Tally, e: Event, key: nat): Tally {
    if e.Created? || e.key != key then t
    else match e
      case Selected(_, _) => t.(selected := t.selected + 1)
      case Recorded(_, _, success, _, _, _) => if success then t.(succeeded := t.succeeded + 1) else t.(failed := t.failed + 1)
      case Ignored(_, _) => t.(ignored := t.ignored + 1)
      case Aborted(_, _) => t.(aborted := t.aborted + 1)
      case Dropped(_, _) => t.(dropped := t.dropped + 1)
      case Created(_) => t
  }

  function TallyOf(trace: seq<Event>, key: nat): Tally {
    if trace == [] then Tally(0, 0, 0, 0, 0, 0)
    else Tick1(TallyOf(trace[..|trace| - 1], key), trace[|trace| - 1], key)
  }

  predicate Holds(p: Phase, key: nat) {
    (p.Calling? || p.Marking?) && p.key == key
  }

  ghost function InFlight(s: State, key: nat): set<nat> {
    set r | r in s.reqs && Holds(s.reqs[r], key)
  }

  ghost predicate Balanced(s: State, key: nat) {
    var t := TallyOf(s.trace, key);
    t.selected == t.succeeded + t.failed + t.ignored + t.aborted + t.dropped + |InFlight(s, key)|
  }

  lemma TallyAppend(trace: seq<Event>, e: Event, key: nat)
    ensures TallyOf(trace + [e], key) == Tick1(TallyOf(trace, key), e, key)
  {
    assert (trace + [e])[..|trace|] == trace;
  }

  /** Moving one request between phases adds or removes it from those in flight. */
  lemma InFlightMoves(s: State, after: State, req: nat, key: nat)
    requires req in s.reqs && after.reqs - {req} == s.reqs - {req}
    ensures InFlight(after, key) ==
            if req in after.reqs && Holds(after.reqs[req], key) then InFlight(s, key) + {req} else InFlight(s, key) - {req}
  {
    forall r | r != req ensures r in after.reqs <==> r in s.reqs {
      assert r in s.reqs <==> r in s.reqs - {req};
      assert r in after.reqs <==> r in after.reqs - {req};
    }
    forall r | r != req && r in s.reqs ensures after.reqs[r] == s.reqs[r] {
      assert (after.reqs - {req})[r] == (s.reqs - {req})[r];
    }
  }

  lemma SilentMove(s: State, after: State, req: nat, key: nat)
    requires Balanced(s, key) && req in s.reqs && after.reqs - {req} == s.reqs - {req} && after.trace == s.trace
    requires Holds(s.reqs[req], key) == (req in after.reqs && Holds(after.reqs[req], key))
    ensures Balanced(after, key)
  {
    InFlightMoves(s, after, req, key);
    assert InFlight(after, key) == InFlight(s, key);
  }

  /** A selection takes the key, an end gives it back. */
  lemma EventMove(s: State, after: State, req: nat, e: Event, key: nat)
    requires Balanced(s, key) && req in s.reqs && req in after.reqs && after.reqs - {req} == s.reqs - {req}
    requires after.trace == s.trace + [e] && (e.Selected? || Resolves(e)) && e.req == req
    requires Holds(s.reqs[req], key) == (Resolves(e) && e.key == key)
    requires Holds(after.reqs[req], key) == (e.Selected? && e.key == key)
    ensures Balanced(after, key)
  {
    InFlightMoves(s, after, req, key);
    TallyAppend(s.trace, e, key);
  }

  lemma ChooseBalances(s: State, a: Action, key: nat)
    requires Inv(s) && Balanced(s, key) && a.Choose? && a.req in s.reqs && s.reqs[a.req].Listed?
    ensures Balanced(Step(s, a), key)
  {
    var after := Step(s, a);
    if after.trace == s.trace {
      SilentMove(s, after, a.req, key);
    } else {
      EventMove(s, after, a.req, after.trace[|s.trace|], key);
    }
  }

  lemma CallBalances(s: State, a: Action, key: nat)
    requires Inv(s) && Balanced(s, key) && (a.Abort? || a.Finish?) && a.req in s.reqs && s.reqs[a.req].Calling?
    ensures Balanced(Step(s, a), key)
  {
    var after := Step(s, a);
    if after.trace == s.trace {
      SilentMove(s, after, a.req, key);
    } else {
      EventMove(s, after, a.req, after.trace[|s.trace|], key);
    }
  }

  lemma RecordBalances(s: State, a: Action, key: nat)
    requires Inv(s) && Balanced(s, key) && a.Record? && a.req in s.reqs && s.reqs[a.req].Marking?
    ensures Balanced(Step(s, a), key)
  {
    EventMove(s, Step(s, a), a.req, Step(s, a).trace[|s.trace|], key);
  }

  lemma QuietBalances(s: State, a: Action, key: nat)
    requires Inv(s) && Balanced(s, key) && (a.List? || a.Log?)
    ensures Balanced(Step(s, a), key)
  {
    if a.req in s.reqs { SilentMove(s, Step(s, a), a.req, key); }
  }

  lemma RequestStepBalances(s: State, a: Action, key: nat)
    requires Inv(s) && Balanced(s, key) && (a.List? || a.Choose? || a.Abort? || a.Finish? || a.Record? || a.Log?)
    ensures Balanced(Step(s, a), key)
  {
    if a.List? || a.Log? { QuietBalances(s, a, key); }
    else if a.Choose? {
      if a.req in s.reqs && s.reqs[a.req].Listed? { ChooseBalances(s, a, key); }
    } else if a.Record? {
      if a.req in s.reqs && s.reqs[a.req].Marking? { RecordBalances(s, a, key); }
    } else if a.req in s.reqs && s.reqs[a.req].Calling? {
      CallBalances(s, a, key);
    }
  }

  lemma StepBalances(s: State, a: Action, key: nat)
    requires Inv(s) && Balanced(s, key)
    ensures Balanced(Step(s, a), key)
  {
    if a.List? || a.Choose? || a.Abort? || a.Finish? || a.Record? || a.Log? {
      RequestStepBalances(s, a, key);
    } else if a.Arrive? {
      assert InFlight(Step(s, a), key) == InFlight(s, key);
    } else {
      SameRequests(s, a);
      if a.CreateAction? { TallyAppend(s.trace, Created(s.db.nextKey), key); }
    }
  }

  lemma SameRequests(s: State, a: Action)
    requires Inv(s) && !(a.Arrive? || a.List? || a.Choose? || a.Abort? || a.Finish? || a.Record? || a.Log?)
    ensures Step(s, a).reqs == s.reqs && forall key :: InFlight(Step(s, a), key) == InFlight(s, key)
  {
  }

  lemma {:induction false} RunBalances(s: State, actions: seq<Action>, key: nat)
    requires Inv(s) && Balanced(s, key)
    ensures Balanced(Run(s, actions), key)
    decreases |actions|
  {
    if actions != [] {
      StepBalances(s, actions[0], key);
      StepKeeps(s, actions[0]);
      RunBalances(Step(s, actions[0]), actions[1..], key);
    }
  }

  /** For every key, in every run: selections = successes + failures + ignored 401s + local aborts + dropped
      results + requests still in flight on it. */
  lemma SelectionsAreConserved(s: State, actions: seq<Action>, key: nat)
    requires Initial(s)
    ensures var after := Reached(s, actions); var t := TallyOf(after.trace, key);
      t.selected == t.succeeded + t.failed + t.ignored + t.aborted + t.dropped + |InFlight(after, key)|
  {
    InitialInv(s);
    assert InFlight(s, key) == {};
    RunBalances(s, actions, key);
  }
}
