/** Exact failover routing: which key each of a sequence of failing requests is sent to. */
module Failover {
  import opened Wrappers
  import opened Store
  import opened Listings
  import opened Selection
  import opened Gateway

  /** One request that fails in a counted way: the time before it arrives, the time until the clock is read for
      it, how the call ends, and how long the call takes. */
  datatype Attempt = Attempt(route: string, idle: nat, wait: nat, outcome: Outcome, latency: nat, summary: string)

  function Delay(a: Attempt): nat {
    a.idle + a.wait
  }

  predicate Counted(a: Attempt) {
    RouteOk(a.route) && !Success(a.outcome) && StatusCode(a.outcome) != UNAUTHORIZED
  }

  /** The request on its way through Proxy, undisturbed: up to the choice of a key, and from there on. */
  function Approach(req: nat, a: Attempt): seq<Action> {
    [Arrive(a.route), List(req, true), Tick(a.wait), Choose(req, true)]
  }

  function Conclude(req: nat, a: Attempt): seq<Action> {
    [Finish(req, a.outcome, true), Tick(a.latency), Record(req, true, a.summary), Log(req, true)]
  }

  ghost function Handle(s: State, a: Attempt): (after: State)
    requires Inv(s)
    ensures Inv(after)
  {
    Run(Run(s, Approach(s.nextReq, a)), Conclude(s.nextReq, a))
  }

  ghost function Idle(s: State, a: Attempt): (after: State)
    requires Inv(s)
    ensures Inv(after) && after == s.(now := s.now + a.idle)
  {
    StepKeeps(s, Tick(a.idle));
    Step(s, Tick(a.idle))
  }

  ghost function Serve(s: State, a: Attempt): (after: State)
    requires Inv(s)
    ensures Inv(after)
  {
    Handle(Idle(s, a), a)
  }

  ghost function ServeAll(s: State, attempts: seq<Attempt>): (after: State)
    requires Inv(s)
    ensures Inv(after)
    decreases |attempts|
  {
    if attempts == [] then s else Serve(ServeAll(s, attempts[..|attempts| - 1]), attempts[|attempts| - 1])
  }

  /** The key a request would be given. */
  ghost function Target(s: State, wait: nat): Option<Key>
    requires Inv(s)
  {
    Pick(Listing(s.db.keys), s.now + wait)
  }

  // ---------- What one undisturbed request does ----------

  lemma ArriveStep(s: State, route: string)
    requires Wf(s.db.keys) && s.reqs == map[] && RouteOk(route)
    ensures Step(s, Arrive(route)) == s.(nextReq := s.nextReq + 1, reqs := map[s.nextReq := Arrived(s.now, route)])
  {
  }

  lemma ListStep(s: State, req: nat, ts: Time, route: string)
    requires Wf(s.db.keys) && s.reqs == map[req := Arrived(ts, route)]
    ensures Step(s, List(req, true)) == s.(reqs := map[req := Listed(ts, route, Listing(s.db.keys))])
  {
  }

  lemma ChooseStep(s: State, req: nat, ts: Time, route: string, ks: seq<Key>)
    requires Wf(s.db.keys) && s.reqs == map[req := Listed(ts, route, ks)]
    ensures Step(s, Choose(req, true)) == ChooseKey(s, req, true, ts, route, ks)
  {
  }

  lemma FinishStep(s: State, req: nat, ts: Time, a: Attempt, key: nat, alias: string)
    requires Wf(s.db.keys) && Counted(a) && s.reqs == map[req := Calling(ts, a.route, key, alias)]
    ensures Step(s, Finish(req, a.outcome, true)) == s.(reqs := map[req := Marking(ts, a.route, key, alias, a.outcome, s.db.config)])
  {
  }

  /** Up to the choice of a key. */
  lemma ServeToChoice(s: State, a: Attempt) returns (mid: State)
    requires Inv(s) && s.reqs == map[] && Counted(a)
    ensures Inv(mid) && mid == Run(s, Approach(s.nextReq, a))
    ensures var listed := s.(now := s.now + a.wait, nextReq := s.nextReq + 1,
                             reqs := map[s.nextReq := Listed(s.now, a.route, Listing(s.db.keys))]);
      mid == ChooseKey(listed, s.nextReq, true, s.now, a.route, Listing(s.db.keys))
  {
    var req := s.nextReq;
    var s1, s2, s3, s4 := RunFour(s, Arrive(a.route), List(req, true), Tick(a.wait), Choose(req, true));
    ArriveStep(s, a.route);
    ListStep(s1, req, s.now, a.route);
    ChooseStep(s3, req, s.now, a.route, Listing(s.db.keys));
    mid := s4;
  }

  lemma LogStep(s: State, req: nat, entry: Entry)
    requires Wf(s.db.keys) && s.reqs == map[req := Logging(entry)]
    ensures var after := Step(s, Log(req, true));
      && after.reqs == map[] && after.now == s.now && after.trace == s.trace
      && after.db.keys == s.db.keys && after.db.config == s.db.config
  {
    assert s.reqs - {req} == map[];
  }

  /** From the choice to the end, when there was no candidate. */
  lemma ServeRejected(mid: State, req: nat, a: Attempt, entry: Entry)
    requires Inv(mid) && mid.reqs == map[req := Logging(entry)]
    ensures var after := Run(mid, Conclude(req, a));
      && after.reqs == map[] && after.now == mid.now + a.latency && after.trace == mid.trace
      && after.db.keys == mid.db.keys && after.db.config == mid.db.config
  {
    var s1, s2, s3, s4 := RunFour(mid, Finish(req, a.outcome, true), Tick(a.latency), Record(req, true, a.summary), Log(req, true));
    assert s3 == mid.(now := mid.now + a.latency);
    LogStep(s3, req, entry);
  }

  lemma MarkStep(marked: State, req: nat, a: Attempt, p: Phase)
    requires Wf(marked.db.keys) && p.Marking? && p.outcome == a.outcome && Counted(a)
    requires marked.reqs == map[req := p] && p.key in marked.db.keys
    ensures var after := Step(marked, Record(req, true, a.summary)); var c := CooldownNanos(p.config.cooldownSeconds);
      && after.reqs == map[req := Logging(UpstreamEntry(p.ts, p.route, p.key, p.alias, p.outcome))]
      && after.now == marked.now && after.db.config == marked.db.config
      && after.db.keys == marked.db.keys[p.key := Failed(marked.db.keys[p.key], p.config.threshold, c, marked.now, a.summary)]
      && after.trace == marked.trace + [Recorded(req, p.key, false, marked.now, p.config.threshold, c)]
  {
  }

  /** after is s with a failure recorded on the key, by its configuration and at its time. */
  predicate FailedOn(s: State, after: State, trace: seq<Event>, req: nat, key: nat, summary: string) {
    var config := s.db.config; var c := CooldownNanos(config.cooldownSeconds);
    && key in s.db.keys
    && after.db.keys == s.db.keys[key := Failed(s.db.keys[key], config.threshold, c, after.now, summary)]
    && after.trace == trace + [Recorded(req, key, false, after.now, config.threshold, c)]
  }

  /** From the choice to the end, when a key was chosen. */
  lemma ServeFailed(mid: State, req: nat, a: Attempt, ts: Time, key: nat, alias: string)
    requires Inv(mid) && Counted(a) && mid.reqs == map[req := Calling(ts, a.route, key, alias)] && key in mid.db.keys
    ensures var after := Run(mid, Conclude(req, a));
      && after.reqs == map[] && after.now == mid.now + a.latency && after.db.config == mid.db.config
      && FailedOn(mid, after, mid.trace, req, key, a.summary)
  {
    var p := Marking(ts, a.route, key, alias, a.outcome, mid.db.config);
    var s1, s2, s3, s4 := RunFour(mid, Finish(req, a.outcome, true), Tick(a.latency), Record(req, true, a.summary), Log(req, true));
    FinishStep(mid, req, ts, a, key, alias);
    MarkStep(s2, req, a, p);
    LogStep(s3, req, UpstreamEntry(ts, a.route, key, alias, a.outcome));
  }

  lemma ServeRefused(s: State, a: Attempt) returns (mid: State)
    requires Inv(s) && s.reqs == map[] && Counted(a) && Target(s, a.wait) == None
    ensures Inv(mid) && mid == Run(s, Approach(s.nextReq, a))
    ensures mid.db == s.db && mid.now == s.now + a.wait && mid.trace == s.trace
    ensures mid.reqs == map[s.nextReq := Logging(Entry(s.now, a.route, None, "", 503, false, NoKey))]
  {
    mid := ServeToChoice(s, a);
  }

  lemma ServeNone(s: State, a: Attempt)
    requires Inv(s) && s.reqs == map[] && Counted(a) && Target(s, a.wait) == None
    ensures var after := Handle(s, a);
      && after.reqs == map[] && after.now == s.now + a.wait + a.latency && after.db.config == s.db.config
      && after.db.keys == s.db.keys && after.trace == s.trace
  {
    var mid := ServeRefused(s, a);
    ServeRejected(mid, s.nextReq, a, Entry(s.now, a.route, None, "", 503, false, NoKey));
  }

  lemma ServeChosen(s: State, a: Attempt, key: Key) returns (mid: State)
    requires Inv(s) && s.reqs == map[] && Counted(a) && Target(s, a.wait) == Some(key)
    ensures Inv(mid) && mid == Run(s, Approach(s.nextReq, a))
    ensures mid.db == s.db && mid.now == s.now + a.wait && mid.trace == s.trace + [Selected(s.nextReq, key.id)]
    ensures mid.reqs == map[s.nextReq := Calling(s.now, a.route, key.id, key.alias)]
  {
    mid := ServeToChoice(s, a);
  }

  lemma ServeSome(s: State, a: Attempt, key: Key)
    requires Inv(s) && s.reqs == map[] && Counted(a) && Target(s, a.wait) == Some(key)
    ensures var after := Handle(s, a);
      && after.reqs == map[] && after.now == s.now + a.wait + a.latency && after.db.config == s.db.config
      && FailedOn(s, after, s.trace + [Selected(s.nextReq, key.id)], s.nextReq, key.id, a.summary)
  {
    var mid := ServeChosen(s, a, key);
    PickComesFrom(Listing(s.db.keys), s.now + a.wait);
    ServeFailed(mid, s.nextReq, a, s.now, key.id, key.alias);
  }

  /** The failure is recorded on the target, or on nothing, and nothing is in flight after it. */
  ghost predicate Effect(s: State, after: State, a: Attempt)
    requires Inv(s)
  {
    && after.reqs == map[] && after.now == s.now + Delay(a) + a.latency && after.db.config == s.db.config
    && match Target(s, Delay(a))
       case None => after.db.keys == s.db.keys && after.trace == s.trace
       case Some(key) => FailedOn(s, after, s.trace + [Selected(s.nextReq, key.id)], s.nextReq, key.id, a.summary)
  }

  /** With nothing else in flight, a counted failure is recorded on the target, or on nothing. */
  lemma ServeEffect(s: State, a: Attempt)
    requires Inv(s) && s.reqs == map[] && Counted(a)
    ensures Effect(s, Serve(s, a), a)
  {
    var s0 := Idle(s, a);
    SameTarget(s, a);
    match Target(s0, a.wait)
    case None => ServeNone(s0, a);
    case Some(key) => ServeSome(s0, a, key);
  }

  lemma SameTarget(s: State, a: Attempt)
    requires Inv(s)
    ensures Target(Idle(s, a), a.wait) == Target(s, Delay(a))
  {
    assert s.now + a.idle + a.wait == s.now + Delay(a);
  }

  // ---------- Progress through the ranks ----------

  /** ranks lists the enabled keys in priority order. */
  ghost predicate IsRanking(ranks: seq<nat>, keys: Keys) {
    && (forall id :: id in ranks <==> id in keys && keys[id].enabled)
    && (forall i, j :: 0 <= i < j < |ranks| ==> ranks[i] in keys && ranks[j] in keys && Before(keys[ranks[i]], keys[ranks[j]]))
  }

  /** The first q ranks cool until at least expiry, rank q has failed rem times, and the rest are fresh. */
  ghost predicate Progress(s: State, ranks: seq<nat>, q: nat, rem: nat, expiry: Time) {
    && q <= |ranks| && IsRanking(ranks, s.db.keys)
    && (forall j :: 0 <= j < q ==> s.db.keys[ranks[j]].cooldownUntil.Some? && s.db.keys[ranks[j]].cooldownUntil.value >= expiry)
    && (q < |ranks| ==> s.db.keys[ranks[q]].failures == rem && s.db.keys[ranks[q]].cooldownUntil == None)
    && (forall j :: q < j < |ranks| ==> Fresh(s.db.keys[ranks[j]]))
  }

  lemma TargetIsRank(s: State, ranks: seq<nat>, q: nat, rem: nat, expiry: Time, wait: nat)
    requires Inv(s) && Progress(s, ranks, q, rem, expiry) && (q > 0 ==> s.now + wait < expiry)
    ensures Target(s, wait) == if q < |ranks| then Some(s.db.keys[ranks[q]]) else None
  {
    var now := s.now + wait;
    PickIsBest(Listing(s.db.keys), s.db.keys, now);
    forall id | id in s.db.keys && s.db.keys[id].enabled && Rested(s.db.keys[id], now)
      ensures exists j :: q <= j < |ranks| && ranks[j] == id
    {
      assert id in ranks;
      var j :| 0 <= j < |ranks| && ranks[j] == id;
    }
    if q < |ranks| {
      assert ranks[q] in ranks;
      assert IsBest(s.db.keys[ranks[q]], s.db.keys, now);
    }
  }

  lemma FailureAdvances(s: State, after: State, ranks: seq<nat>, q: nat, rem: nat, expiry: Time, t: int, c: int, summary: string)
    requires Progress(s, ranks, q, rem, expiry) && q < |ranks| && rem < t
    requires ranks[q] in s.db.keys
    requires after.db.keys == s.db.keys[ranks[q] := Failed(s.db.keys[ranks[q]], t, c, after.now, summary)]
    requires rem + 1 == t ==> after.now + c >= expiry
    ensures rem + 1 < t ==> Progress(after, ranks, q, rem + 1, expiry)
    ensures rem + 1 == t ==> Progress(after, ranks, q + 1, 0, expiry)
  {
    forall j | 0 <= j < |ranks| && j != q
      ensures ranks[j] != ranks[q] && ranks[j] in s.db.keys && after.db.keys[ranks[j]] == s.db.keys[ranks[j]]
    {
      assert ranks[j] in ranks;
      if j < q { assert Before(s.db.keys[ranks[j]], s.db.keys[ranks[q]]); }
      else { assert Before(s.db.keys[ranks[q]], s.db.keys[ranks[j]]); }
    }
  }

  // ---------- The theorem ----------

  lemma {:induction false} DivUnique(k: nat, t: nat, q: nat, rem: nat)
    requires t >= 1 && k == q * t + rem && rem < t
    ensures k / t == q && k % t == rem
  {
    Multiple(q, k / t, t);
    Multiple(k / t, q, t);
  }

  lemma Multiple(a: int, b: int, t: int)
    requires t >= 1
    ensures a < b ==> a * t + t <= b * t
  {
    if a < b { assert (a + 1) * t <= b * t; }
  }

  /** The rank whose turn it is after k counted failures, and how often it has failed. */
  function Turn(k: nat, t: nat, n: nat): (r: (nat, nat))
    requires t >= 1
    ensures r.0 <= n && r.1 < t && (r.0 > 0 ==> k >= t) && (r.0 == 0 < n ==> k == r.1)
  {
    if k == 0 then (0, 0)
    else
      var (q, rem) := Turn(k - 1, t, n);
      NextTurn(q, rem, t, n)
  }

  function NextTurn(q: nat, rem: nat, t: nat, n: nat): (nat, nat) {
    if q == n then (n, 0) else if rem + 1 < t then (q, rem + 1) else (q + 1, 0)
  }

  lemma {:induction false} TurnProduct(k: nat, t: nat, n: nat)
    requires t >= 1
    ensures var (q, rem) := Turn(k, t, n); if q < n then k == q * t + rem else k >= n * t
    decreases k
  {
    if k > 0 {
      TurnProduct(k - 1, t, n);
      var (q, rem) := Turn(k - 1, t, n);
      assert (q + 1) * t == q * t + t;
    }
  }

  /** In closed form: rank k div t, until every rank has had its t failures. */
  lemma TurnIsDiv(k: nat, t: nat, n: nat)
    requires t >= 1
    ensures Turn(k, t, n).0 < n <==> k < n * t
    ensures k < n * t ==> Turn(k, t, n) == (k / t, k % t)
  {
    TurnProduct(k, t, n);
    var (q, rem) := Turn(k, t, n);
    if q < n {
      Multiple(q, n, t);
      DivUnique(k, t, q, rem);
    }
  }

  // ---------- The first rank ----------

  /** The key has failed so often, and its cooldown ends then. */
  predicate Tripped(s: State, id: nat, failures: nat, end: Time) {
    id in s.db.keys && s.db.keys[id].failures == failures && s.db.keys[id].cooldownUntil == Some(end)
  }

  lemma FirstTurn(t: nat, n: nat)
    requires t >= 1 && n > 0
    ensures Turn(t - 1, t, n) == (0, t - 1)
  {
    Multiple(0, n, t);
    TurnIsDiv(t - 1, t, n);
  }

  lemma FirstHasGone(k: nat, t: nat, n: nat)
    requires t >= 1 && n > 0 && k >= t
    ensures Turn(k, t, n).0 > 0
  {
    TurnProduct(k, t, n);
  }

  /** The attempt fails on the key, which trips and cools for c from then on. */
  predicate Trips(before: State, after: State, id: nat, failures: nat, t: int, c: int) {
    && Tripped(after, id, failures, after.now + c) && after.reqs == map[] && after.db.config == before.db.config
    && after.trace == before.trace + [Selected(before.nextReq, id)] + [Recorded(before.nextReq, id, false, after.now, t, c)]
  }

  /** Nothing is in flight, under threshold t and cooldown c, and ranks is the ranking. */
  ghost predicate Quiet(s: State, ranks: seq<nat>, t: nat, c: int) {
    && Inv(s) && s.reqs == map[] && t == s.db.config.threshold && c == CooldownNanos(s.db.config.cooldownSeconds)
    && IsRanking(ranks, s.db.keys) && ranks != [] && ranks[0] in s.db.keys
  }

  /** The turn of the k-th attempt. */
  ghost predicate AtTurn(s: State, a: Attempt, ranks: seq<nat>, t: nat, k: nat)
    requires Inv(s) && t >= 1
  {
    var (q, rem) := Turn(k, t, |ranks|);
    && Counted(a)
    && (q < |ranks| ==> ranks[q] in s.db.keys && s.db.keys[ranks[q]].failures == rem)
    && Target(s, Delay(a)) == if q < |ranks| then Some(s.db.keys[ranks[q]]) else None
  }

  lemma FailureTrips(before: State, after: State, trace: seq<Event>, req: nat, id: nat, failures: nat, t: int, c: int, summary: string)
    requires FailedOn(before, after, trace, req, id, summary)
    requires t == before.db.config.threshold && c == CooldownNanos(before.db.config.cooldownSeconds)
    requires before.db.keys[id].failures == failures && failures + 1 >= t
    ensures Tripped(after, id, failures + 1, after.now + c) && after.trace == trace + [Recorded(req, id, false, after.now, t, c)]
  {
  }

  /** A failing request on a target that has already failed at least t - 1 times trips it. */
  lemma TargetTrips(before: State, after: State, a: Attempt, id: nat, failures: nat, t: int, c: int)
    requires Inv(before) && Effect(before, after, a)
    requires t == before.db.config.threshold && c == CooldownNanos(before.db.config.cooldownSeconds)
    requires id in before.db.keys && before.db.keys[id].failures == failures && failures + 1 >= t
    requires Target(before, Delay(a)) == Some(before.db.keys[id])
    ensures Trips(before, after, id, failures + 1, t, c)
  {
    assert before.db.keys[id].id == id;
    FailureTrips(before, after, before.trace + [Selected(before.nextReq, id)], before.nextReq, id, failures, t, c, a.summary);
  }

  lemma OthersUntouched(before: State, after: State, a: Attempt, id: nat)
    requires Inv(before) && before.reqs == map[] && Counted(a) && id in before.db.keys && Effect(before, after, a)
    requires Target(before, Delay(a)).Some? ==> Target(before, Delay(a)).value.id != id
    ensures id in after.db.keys && after.db.keys[id] == before.db.keys[id]
  {
    ServeEffect(before, a);
  }

  lemma RanksDiffer(ranks: seq<nat>, keys: Keys, q: nat)
    requires Wf(keys) && IsRanking(ranks, keys) && 0 < q < |ranks|
    ensures ranks[q] in keys && ranks[0] in keys && keys[ranks[q]].id != ranks[0]
  {
    assert Before(keys[ranks[0]], keys[ranks[q]]);
  }

  lemma FirstTrips(before: State, after: State, a: Attempt, ranks: seq<nat>, t: nat, c: int)
    requires Quiet(before, ranks, t, c) && t >= 1 && AtTurn(before, a, ranks, t, t - 1) && Effect(before, after, a)
    ensures Tripped(after, ranks[0], t, after.now + c)
  {
    FirstTurn(t, |ranks|);
    TargetTrips(before, after, a, ranks[0], t - 1, t, c);
  }

  lemma FirstIsPassed(before: State, after: State, a: Attempt, ranks: seq<nat>, t: nat, c: int, k: nat, end: Time)
    requires Quiet(before, ranks, t, c) && k >= t >= 1 && AtTurn(before, a, ranks, t, k) && Effect(before, after, a)
    requires Tripped(before, ranks[0], t, end)
    ensures Tripped(after, ranks[0], t, end)
  {
    FirstHasGone(k, t, |ranks|);
    var q := Turn(k, t, |ranks|).0;
    if q < |ranks| { RanksDiffer(ranks, before.db.keys, q); }
    OthersUntouched(before, after, a, ranks[0]);
  }

  /** The k-th attempt does not reach the first rank once that has tripped, and trips it if it is the t-th. */
  lemma FirstAfter(before: State, after: State, a: Attempt, ranks: seq<nat>, t: nat, c: int, k: nat, end: Time)
    requires Quiet(before, ranks, t, c) && t >= 1 && k >= t - 1 && AtTurn(before, a, ranks, t, k) && Effect(before, after, a)
    requires if k >= t then Tripped(before, ranks[0], t, end) else end == after.now + c
    ensures Tripped(after, ranks[0], t, end)
  {
    if k >= t { FirstIsPassed(before, after, a, ranks, t, c, k, end); } else { FirstTrips(before, after, a, ranks, t, c); }
  }

  // ---------- The run ----------

  /** The attempts are counted failures, and from the t-th on each begins before the first cooldown ends. */
  ghost predicate BeforeExpiry(s: State, attempts: seq<Attempt>, t: nat, c: int)
    requires Inv(s)
  {
    && (forall k :: 0 <= k < |attempts| ==> Counted(attempts[k]))
    && (forall k :: t <= k < |attempts| ==> ServeAll(s, attempts[..k]).now + Delay(attempts[k]) < ServeAll(s, attempts[..t]).now + c)
  }

  /** The end of the first cooldown, once it has begun. */
  ghost function Expiry(s: State, attempts: seq<Attempt>, k: nat, t: nat, c: int): Time
    requires Inv(s) && k <= |attempts|
  {
    if t <= k then ServeAll(s, attempts[..t]).now + c else 0
  }

  /** All enabled keys are fresh, nothing is in flight, and the attempts stay before the first expiry. */
  ghost predicate FreshStart(s: State, attempts: seq<Attempt>, ranks: seq<nat>, t: nat, c: int) {
    && Inv(s) && s.reqs == map[] && t >= 1
    && t == s.db.config.threshold && c == CooldownNanos(s.db.config.cooldownSeconds)
    && BeforeExpiry(s, attempts, t, c)
    && IsRanking(ranks, s.db.keys) && forall id :: id in ranks ==> id in s.db.keys && Fresh(s.db.keys[id])
  }

  /** Where the run stands after k attempts. */
  ghost predicate Served(s: State, now: State, ranks: seq<nat>, t: nat, c: int, k: nat, expiry: Time)
    requires t >= 1
  {
    var (q, rem) := Turn(k, t, |ranks|);
    && Inv(now) && now.reqs == map[] && now.db.config == s.db.config
    && Progress(now, ranks, q, rem, expiry) && (q > 0 ==> expiry <= now.now + c)
    && (k >= t && ranks != [] ==> Tripped(now, ranks[0], t, expiry))
  }

  lemma {:induction false} ServedProgress(s: State, attempts: seq<Attempt>, ranks: seq<nat>, t: nat, c: int, k: nat)
    requires FreshStart(s, attempts, ranks, t, c) && k <= |attempts|
    ensures Served(s, ServeAll(s, attempts[..k]), ranks, t, c, k, Expiry(s, attempts, k, t, c))
    decreases k
  {
    if k == 0 {
      assert attempts[..0] == [];
      assert forall j :: 0 <= j < |ranks| ==> ranks[j] in ranks;
    } else {
      ServedProgress(s, attempts, ranks, t, c, k - 1);
      assert attempts[..k][..k - 1] == attempts[..k - 1] && attempts[..k][k - 1] == attempts[k - 1];
      ServedNext(s, attempts, ranks, t, c, k);
    }
  }

  lemma ServedNext(s: State, attempts: seq<Attempt>, ranks: seq<nat>, t: nat, c: int, k: nat)
    requires FreshStart(s, attempts, ranks, t, c) && 0 < k <= |attempts|
    requires Served(s, ServeAll(s, attempts[..k - 1]), ranks, t, c, k - 1, Expiry(s, attempts, k - 1, t, c))
    requires ServeAll(s, attempts[..k]) == Serve(ServeAll(s, attempts[..k - 1]), attempts[k - 1])
    ensures Served(s, ServeAll(s, attempts[..k]), ranks, t, c, k, Expiry(s, attempts, k, t, c))
  {
    var before, after := ServeAll(s, attempts[..k - 1]), ServeAll(s, attempts[..k]);
    ServedTurn(s, before, after, attempts[k - 1], ranks, t, c, k, Expiry(s, attempts, k - 1, t, c), Expiry(s, attempts, k, t, c));
  }

  lemma ServedTurn(s: State, before: State, after: State, a: Attempt, ranks: seq<nat>, t: nat, c: int, k: nat, e: Time, e': Time)
    requires k > 0 && t >= 1 && t == s.db.config.threshold && c == CooldownNanos(s.db.config.cooldownSeconds)
    requires Served(s, before, ranks, t, c, k - 1, e) && Counted(a) && after == Serve(before, a)
    requires k > t ==> e' == e && before.now + Delay(a) < e
    requires k == t ==> e' == after.now + c
    ensures Served(s, after, ranks, t, c, k, e')
  {
    var (q, rem) := Turn(k - 1, t, |ranks|);
    ServedOnce(before, after, a, ranks, q, rem, e, e', t, c);
    ServeEffect(before, a);
    if k >= t && ranks != [] { FirstServed(before, after, a, ranks, q, rem, e, e', t, c, k); }
  }

  lemma FirstServed(before: State, after: State, a: Attempt, ranks: seq<nat>, q: nat, rem: nat, e: Time, e': Time, t: nat, c: int, k: nat)
    requires Inv(before) && before.reqs == map[] && Counted(a) && Effect(before, after, a) && ranks != []
    requires t == before.db.config.threshold && c == CooldownNanos(before.db.config.cooldownSeconds)
    requires k >= t >= 1 && Turn(k - 1, t, |ranks|) == (q, rem) && Progress(before, ranks, q, rem, e)
    requires if k > t then e' == e && before.now + Delay(a) < e && Tripped(before, ranks[0], t, e) else e' == after.now + c
    ensures Tripped(after, ranks[0], t, e')
  {
    if k == t { FirstTurn(t, |ranks|); }
    ProgressAtTurn(before, a, ranks, q, rem, e, t, c, k - 1);
    FirstAfter(before, after, a, ranks, t, c, k - 1, e');
  }

  lemma ProgressAtTurn(s: State, a: Attempt, ranks: seq<nat>, q: nat, rem: nat, e: Time, t: nat, c: int, k: nat)
    requires Inv(s) && s.reqs == map[] && Counted(a) && ranks != [] && t == s.db.config.threshold >= 1
    requires c == CooldownNanos(s.db.config.cooldownSeconds)
    requires Turn(k, t, |ranks|) == (q, rem) && Progress(s, ranks, q, rem, e) && (q > 0 ==> s.now + Delay(a) < e)
    ensures Quiet(s, ranks, t, c) && AtTurn(s, a, ranks, t, k)
  {
    TargetIsRank(s, ranks, q, rem, e, Delay(a));
    assert ranks[0] in ranks && (q < |ranks| ==> ranks[q] in ranks);
  }

  /** One more failing request, with its turn q, rem; the expiry is set when the first rank trips. */
  lemma ServedOnce(before: State, after: State, a: Attempt, ranks: seq<nat>, q: nat, rem: nat, expiry: Time, expiry': Time, t: nat, c: int)
    requires Inv(before) && before.reqs == map[] && Counted(a) && after == Serve(before, a)
    requires t == before.db.config.threshold && c == CooldownNanos(before.db.config.cooldownSeconds) && rem < t
    requires Progress(before, ranks, q, rem, expiry)
    requires if q > 0 then expiry' == expiry && expiry <= before.now + c && before.now + Delay(a) < expiry
             else q < |ranks| && rem + 1 == t ==> expiry' == after.now + c
    ensures after.reqs == map[] && after.db.config == before.db.config && before.now <= after.now
    ensures var next := NextTurn(q, rem, t, |ranks|);
      Progress(after, ranks, next.0, next.1, expiry') && (next.0 > 0 ==> expiry' <= after.now + c)
    ensures Target(before, Delay(a)) == if q < |ranks| then Some(before.db.keys[ranks[q]]) else None
  {
    ServeEffect(before, a);
    TargetIsRank(before, ranks, q, rem, expiry, Delay(a));
    if q < |ranks| {
      assert ranks[q] in ranks && before.db.keys[ranks[q]].id == ranks[q];
      FailureAdvances(before, after, ranks, q, rem, expiry', t, c, a.summary);
    }
  }

  /** Request k is sent to the key, and its failure is recorded there and nowhere else. */
  ghost predicate RoutedTo(s: State, attempts: seq<Attempt>, k: nat, key: nat, t: int, c: int)
    requires Inv(s) && k < |attempts|
  {
    var before := ServeAll(s, attempts[..k]); var after := ServeAll(s, attempts[..k + 1]);
    after.trace == before.trace + [Selected(before.nextReq, key)] + [Recorded(before.nextReq, key, false, after.now, t, c)]
  }

  /** Request k is refused and leaves no mark. */
  ghost predicate NoCandidate(s: State, attempts: seq<Attempt>, k: nat)
    requires Inv(s) && k < |attempts|
  {
    var before := ServeAll(s, attempts[..k]);
    Target(before, Delay(attempts[k])) == None && ServeAll(s, attempts[..k + 1]).trace == before.trace
  }

  lemma RoutedByTurn(s: State, attempts: seq<Attempt>, ranks: seq<nat>, t: nat, c: int, k: nat)
    requires FreshStart(s, attempts, ranks, t, c) && k < |attempts|
    ensures var q := Turn(k, t, |ranks|).0;
      if q < |ranks| then RoutedTo(s, attempts, k, ranks[q], t, c) else NoCandidate(s, attempts, k)
  {
    ServedProgress(s, attempts, ranks, t, c, k);
    var before := ServeAll(s, attempts[..k]);
    assert attempts[..k + 1][..k] == attempts[..k];
    var (q, rem) := Turn(k, t, |ranks|);
    assert q < |ranks| ==> ranks[q] in ranks;
    TargetIsRank(before, ranks, q, rem, Expiry(s, attempts, k, t, c), Delay(attempts[k]));
    Routed(before, attempts[k], ranks, q);
  }

  /** From any number of enabled keys that are all fresh, with threshold t, in a sequential run of counted
      failures that stays before the first cooldown ends: request k goes to the key of rank k div t, and from
      request n * t on there is no candidate. */
  lemma ExactRouting(s: State, attempts: seq<Attempt>, ranks: seq<nat>, t: nat, c: int, k: nat)
    requires FreshStart(s, attempts, ranks, t, c) && k < |attempts|
    ensures k < |ranks| * t ==> k / t < |ranks| && RoutedTo(s, attempts, k, ranks[k / t], t, c)
    ensures k >= |ranks| * t ==> NoCandidate(s, attempts, k)
  {
    RoutedByTurn(s, attempts, ranks, t, c, k);
    TurnIsDiv(k, t, |ranks|);
  }

  lemma Routed(before: State, a: Attempt, ranks: seq<nat>, q: nat)
    requires Inv(before) && before.reqs == map[] && Counted(a) && IsRanking(ranks, before.db.keys)
    requires q < |ranks| ==> ranks[q] in before.db.keys
    requires Target(before, Delay(a)) == if q < |ranks| then Some(before.db.keys[ranks[q]]) else None
    ensures var after := Serve(before, a); var config := before.db.config;
      after.trace == if q < |ranks| then before.trace + [Selected(before.nextReq, ranks[q])]
          + [Recorded(before.nextReq, ranks[q], false, after.now, config.threshold, CooldownNanos(config.cooldownSeconds))]
        else before.trace
  {
    ServeEffect(before, a);
  }

  // ---------- After the first cooldown ----------

  lemma RestedRankIsTarget(s: State, ranks: seq<nat>, wait: nat)
    requires Inv(s) && IsRanking(ranks, s.db.keys) && ranks != []
    requires ranks[0] in s.db.keys && Rested(s.db.keys[ranks[0]], s.now + wait)
    ensures Target(s, wait) == Some(s.db.keys[ranks[0]])
  {
    var now := s.now + wait;
    PickIsBest(Listing(s.db.keys), s.db.keys, now);
    assert ranks[0] in ranks;
    forall id | id in s.db.keys && id != ranks[0] && s.db.keys[id].enabled ensures Before(s.db.keys[ranks[0]], s.db.keys[id]) {
      assert id in ranks;
      var j :| 0 <= j < |ranks| && ranks[j] == id;
    }
    assert IsBest(s.db.keys[ranks[0]], s.db.keys, now);
  }

  /** For so long no request that comes can be sent to the key. */
  ghost predicate SparedFor(s: State, id: nat, c: int)
    requires Inv(s)
  {
    forall wait: nat :: wait < c ==> Target(s, wait).None? || Target(s, wait).value.id != id
  }

  lemma TrippedIsSpared(s: State, id: nat, failures: nat, end: Time, c: int)
    requires Inv(s) && Tripped(s, id, failures, end) && end == s.now + c
    ensures SparedFor(s, id, c)
  {
    forall wait: nat | wait < c ensures Target(s, wait).None? || Target(s, wait).value.id != id {
      PickComesFrom(Listing(s.db.keys), s.now + wait);
    }
  }

  lemma FirstAgain(before: State, after: State, ranks: seq<nat>, t: nat, c: int, end: Time, a: Attempt)
    requires Quiet(before, ranks, t, c) && Counted(a) && Tripped(before, ranks[0], t, end) && before.now + Delay(a) >= end
    requires Effect(before, after, a) && Inv(after)
    ensures Trips(before, after, ranks[0], t + 1, t, c) && SparedFor(after, ranks[0], c)
  {
    RestedRankIsTarget(before, ranks, Delay(a));
    TargetTrips(before, after, a, ranks[0], t, t, c);
    TrippedIsSpared(after, ranks[0], t + 1, after.now + c, c);
  }

  /** When the cooldown of the first rank has ended, the next failing request goes to that key again, however many
      keys are still fresh; it trips the key at once, and for another cooldown no request is sent to it. */
  lemma ReturnsToFirst(s: State, attempts: seq<Attempt>, ranks: seq<nat>, t: nat, c: int, k: nat, a: Attempt, before: State, after: State)
    requires FreshStart(s, attempts, ranks, t, c) && ranks != [] && t <= k <= |attempts|
    requires before == ServeAll(s, attempts[..k]) && Counted(a) && before.now + Delay(a) >= Expiry(s, attempts, k, t, c)
    requires after == Serve(before, a)
    ensures Trips(before, after, ranks[0], t + 1, t, c) && SparedFor(after, ranks[0], c)
  {
    ServedProgress(s, attempts, ranks, t, c, k);
    assert ranks[0] in ranks;
    ServeEffect(before, a);
    FirstAgain(before, after, ranks, t, c, Expiry(s, attempts, k, t, c), a);
  }
}
