/** How often one key can fail when requests are served one at a time: at most T + W div C failures in a window
    of length W. */
module RateBound {
  import opened Store
  import opened KeyTable
  import opened Selection
  import opened Gateway
  import opened History

  // ---------- The configured cooldown ----------

  const MAX_COOLDOWN_SECONDS := 9_223_372_036

  /** The product of seconds and time.Second is the intended duration exactly up to 9,223,372,036 seconds. */
  lemma CooldownExactIff(seconds: int)
    requires seconds >= 60
    ensures CooldownNanos(seconds) == seconds * SECOND <==> seconds <= MAX_COOLDOWN_SECONDS
  {
  }

  /** The cooldown that is passed on is the int64 with the configured number of nanoseconds modulo 2^64. */
  lemma CooldownWraps(seconds: int)
    ensures -0x8000_0000_0000_0000 <= CooldownNanos(seconds) < 0x8000_0000_0000_0000
    ensures (CooldownNanos(seconds) - seconds * 1_000_000_000) % 0x1_0000_0000_0000_0000 == 0
  {
    var x := seconds * 1_000_000_000 + 0x8000_0000_0000_0000;
    assert CooldownNanos(seconds) - seconds * 1_000_000_000 == x % 0x1_0000_0000_0000_0000 - x;
    assert x == x / 0x1_0000_0000_0000_0000 * 0x1_0000_0000_0000_0000 + x % 0x1_0000_0000_0000_0000;
    assert CooldownNanos(seconds) - seconds * 1_000_000_000 == -(x / 0x1_0000_0000_0000_0000) * 0x1_0000_0000_0000_0000;
  }

  /** Beyond that it wraps: ten billion seconds, which every check accepts, is a cooldown in the past. */
  lemma CooldownCanBeNegative()
    ensures ConfigOk(Config("", "https://anyrouter.top", "x_api_key", 20, 10_000_000_000)) && CooldownNanos(10_000_000_000) < 0
  {
  }

  // ---------- One request at a time ----------

  /** No request arrives while another is still in Proxy. */
  ghost predicate Sequential(s: State, actions: seq<Action>)
    requires Inv(s)
    decreases |actions|
  {
    actions == [] ||
    ((actions[0].Arrive? ==> s.reqs == map[]) && (StepKeeps(s, actions[0]); Sequential(Step(s, actions[0]), actions[1..])))
  }

  /** What the only request in flight knows about the keys is still true. */
  ghost predicate Current(s: State, p: Phase) {
    match p
    case Listed(_, _, ks) => forall k :: k in ks && k.id in s.db.keys ==> SameCounters(s.db.keys[k.id], k)
    case Calling(_, _, key, _) => key in s.db.keys ==> Rested(s.db.keys[key], s.now)
    case Marking(_, _, key, _, _, _) => key in s.db.keys ==> Rested(s.db.keys[key], s.now)
    case _ => true
  }

  /** After an armed failure the next result comes no earlier than the end of the cooldown. */
  ghost predicate Spaced(marks: seq<Mark>) {
    forall i :: 0 <= i < |marks| - 1 && Armed(marks, i) ==> marks[i].at + marks[i].cooldown <= marks[i + 1].at
  }

  ghost predicate Timely(marks: seq<Mark>, now: Time) {
    && (forall i, j :: 0 <= i <= j < |marks| ==> marks[i].at <= marks[j].at)
    && (forall i :: 0 <= i < |marks| ==> marks[i].at <= now)
  }

  ghost predicate OneAtATime(s: State) {
    && (forall q, r :: q in s.reqs && r in s.reqs ==> q == r)
    && (forall r :: r in s.reqs ==> Current(s, s.reqs[r]))
    && (forall id :: Spaced(Marks(s.trace, id)) && Timely(Marks(s.trace, id), s.now))
  }

  lemma AppendSpaced(marks: seq<Mark>, m: Mark, now: Time)
    requires Spaced(marks) && Timely(marks, now) && m.at == now
    requires LastArmed(marks).Some? ==> LastArmed(marks).value <= now
    ensures Spaced(marks + [m]) && Timely(marks + [m], now)
  {
    var after := marks + [m];
    forall i | 0 <= i < |after| - 1 && Armed(after, i) ensures after[i].at + after[i].cooldown <= after[i + 1].at {
      assert after[..i + 1] == marks[..i + 1];
      assert Armed(marks, i);
      if i == |marks| - 1 { assert marks[..i + 1] == marks; }
    }
  }

  lemma RecordStaysSpaced(s: State, req: nat, written: bool, summary: string)
    requires Inv(s) && HistoryOk(s) && OneAtATime(s) && req in s.reqs && s.reqs[req].Marking?
    ensures OneAtATime(Step(s, Record(req, written, summary)))
  {
    var p, after := s.reqs[req], Step(s, Record(req, written, summary));
    var e := after.trace[|s.trace|];
    assert after.trace == s.trace + [e];
    assert Current(s, p);
    forall id ensures Spaced(Marks(after.trace, id)) && Timely(Marks(after.trace, id), after.now) {
      if e.Recorded? && e.key == id {
        ResultEvent(s.trace, e);
        AppendSpaced(Marks(s.trace, id), Mark(e.success, e.at, e.threshold, e.cooldown), s.now);
      } else {
        OtherEvent(s.trace, e, id);
      }
    }
  }

  lemma QuietStaysSpaced(s: State, after: State)
    requires OneAtATime(s) && s.now <= after.now
    requires after.trace == s.trace || exists e: Event :: !e.Recorded? && after.trace == s.trace + [e]
    requires forall q, r :: q in after.reqs && r in after.reqs ==> q == r
    requires forall r :: r in after.reqs ==> Current(after, after.reqs[r])
    ensures OneAtATime(after)
  {
    forall id ensures Marks(after.trace, id) == Marks(s.trace, id) {
      if after.trace != s.trace { OtherEvent(s.trace, after.trace[|s.trace|], id); }
    }
  }

  lemma ChooseStaysSpaced(s: State, a: Action)
    requires Inv(s) && OneAtATime(s) && a.Choose?
    ensures OneAtATime(Step(s, a))
  {
    var after := Step(s, a);
    if a.req in s.reqs && s.reqs[a.req].Listed? {
      PickComesFrom(s.reqs[a.req].ks, s.now);
      assert Current(s, s.reqs[a.req]);
      if after.trace != s.trace { assert after.trace == s.trace + [after.trace[|s.trace|]]; }
      QuietStaysSpaced(s, after);
    }
  }

  lemma CallStaysSpaced(s: State, a: Action)
    requires Inv(s) && OneAtATime(s) && (a.List? || a.Abort? || a.Finish?)
    ensures OneAtATime(Step(s, a))
  {
    var after := Step(s, a);
    if a.req in s.reqs { assert Current(s, s.reqs[a.req]); }
    if after.trace != s.trace { assert after.trace == s.trace + [after.trace[|s.trace|]]; }
    QuietStaysSpaced(s, after);
  }

  /** after has no key that s did not have, but for new ids, and the same counters. */
  ghost predicate CountersKept(s: State, after: State) {
    forall id :: id in after.db.keys && id < s.db.nextKey ==> id in s.db.keys && SameCounters(after.db.keys[id], s.db.keys[id])
  }

  lemma CurrentSurvives(s: State, after: State, p: Phase)
    requires Current(s, p) && CountersKept(s, after) && after.now == s.now
    requires forall id: nat :: Carries(p, id) ==> id < s.db.nextKey
    ensures Current(after, p)
  {
    if p.Listed? {
      forall k | k in p.ks && k.id in after.db.keys ensures SameCounters(after.db.keys[k.id], k) { assert Carries(p, k.id); }
    } else if p.Calling? || p.Marking? {
      assert Carries(p, p.key);
    }
  }

  lemma EditStaysSpaced(s: State, a: Action)
    requires Inv(s) && OneAtATime(s) && (a.CreateAction? || a.ReplaceAction? || a.EnableAction? || a.DeleteAction? || a.ReorderAction?)
    ensures OneAtATime(Step(s, a))
  {
    var after := Step(s, a);
    TableStepKeeps(s, a);
    EditKeepsCounters(s, a);
    if after.trace != s.trace { assert after.trace == s.trace + [Created(s.db.nextKey)]; }
    forall r | r in after.reqs ensures Current(after, after.reqs[r]) { CurrentSurvives(s, after, s.reqs[r]); }
    QuietStaysSpaced(s, after);
  }

  /** No administrative edit touches the counters of a key that was there before. */
  lemma EditKeepsCounters(s: State, a: Action)
    requires Inv(s) && (a.CreateAction? || a.ReplaceAction? || a.EnableAction? || a.DeleteAction? || a.ReorderAction?)
    ensures CountersKept(s, Step(s, a))
  {
    if a.DeleteAction? {
      if a.id in s.db.keys && IsOrder(s.db.keys - {a.id}, a.order) && Delete(s.db, a.id, a.order).Ok? { DeleteKeeps(s.db, a.id, a.order); }
    } else if a.ReorderAction? {
      if IsOrder(s.db.keys, a.order) && Reorder(s.db, a.ids, a.order).Ok? { ReorderResult(s.db, a.ids, a.order); }
    }
  }

  lemma StepStaysSpaced(s: State, a: Action)
    requires Inv(s) && HistoryOk(s) && OneAtATime(s) && (a.Arrive? ==> s.reqs == map[])
    ensures OneAtATime(Step(s, a))
  {
    if a.CreateAction? || a.ReplaceAction? || a.EnableAction? || a.DeleteAction? || a.ReorderAction? {
      EditStaysSpaced(s, a);
    } else if a.Choose? {
      ChooseStaysSpaced(s, a);
    } else if a.List? || a.Abort? || a.Finish? {
      CallStaysSpaced(s, a);
    } else if a.Record? {
      if a.req in s.reqs && s.reqs[a.req].Marking? { RecordStaysSpaced(s, a.req, a.written, a.summary); }
    } else {
      forall r | r in s.reqs ensures Current(s, s.reqs[r]) { }
      QuietStaysSpaced(s, Step(s, a));
    }
  }

  lemma {:induction false} RunStaysSpaced(s: State, actions: seq<Action>)
    requires Inv(s) && HistoryOk(s) && OneAtATime(s) && Sequential(s, actions)
    ensures OneAtATime(Run(s, actions))
    decreases |actions|
  {
    if actions != [] {
      StepKeeps(s, actions[0]);
      StepKeepsHistory(s, actions[0]);
      StepStaysSpaced(s, actions[0]);
      RunStaysSpaced(Step(s, actions[0]), actions[1..]);
    }
  }

  // ---------- The bound ----------

  lemma {:induction false} RunGrows(marks: seq<Mark>, i: nat, x: nat)
    requires i <= x < |marks| && forall y :: i <= y <= x ==> !marks[y].success
    ensures TrailingFailures(marks[..x + 1]) >= x - i + 1
    decreases x
  {
    assert marks[..x + 1][..x] == marks[..x] && marks[..x + 1][x] == marks[x];
    if i < x { RunGrows(marks, i, x - 1); }
  }

  lemma {:induction false} ArmedStretch(marks: seq<Mark>, lo: nat, hi: nat, c: int)
    requires Spaced(marks) && lo <= hi < |marks|
    requires forall x :: lo <= x < hi ==> Armed(marks, x) && marks[x].cooldown >= c
    ensures marks[hi].at >= marks[lo].at + (hi - lo) * c
    decreases hi
  {
    if lo < hi {
      ArmedStretch(marks, lo, hi - 1, c);
      assert (hi - lo) * c == (hi - 1 - lo) * c + c;
    }
  }

  lemma {:induction false} CountByTime(extra: nat, c: int, w: int)
    requires c > 0 && extra * c <= w
    ensures extra <= w / c
  {
    Times(w / c + 1, extra, c);
  }

  lemma Times(a: int, b: int, c: int)
    requires c > 0
    ensures a <= b ==> a * c <= b * c
  {
  }

  /** The i-th to j-th results of a key, all failures under thresholds of at most t and cooldowns of at least c,
      within w of each other. */
  lemma WindowBound(marks: seq<Mark>, now: Time, i: nat, j: nat, t: int, c: int, w: int)
    requires Spaced(marks) && Timely(marks, now) && i <= j < |marks| && t >= 1 && c > 0
    requires forall x :: i <= x <= j ==> !marks[x].success && 1 <= marks[x].threshold <= t && marks[x].cooldown >= c
    requires marks[j].at - marks[i].at <= w
    ensures j - i + 1 <= t + w / c
  {
    assert w >= 0;
    if j - i + 1 > t {
      var first := i + t - 1;
      forall x | first <= x < j ensures Armed(marks, x) && marks[x].cooldown >= c {
        RunGrows(marks, i, x);
      }
      ArmedStretch(marks, first, j, c);
      CountByTime(j - first, c, w);
    } else {
      CountByTime(0, c, w);
    }
  }

  /** In a run with one request at a time, with any edits and configuration changes around it, a key's counted
      failures with no success between them, under thresholds of at most t and cooldowns of at least c, number
      at most t + w div c in any window of length w. */
  lemma FailureRateBound(s: State, actions: seq<Action>, key: nat, i: nat, j: nat, t: int, c: int, w: int)
    requires Initial(s) && (InitialInv(s); Sequential(s, actions))
    requires i <= j < |Marks(Reached(s, actions).trace, key)| && t >= 1 && c > 0
    requires var marks := Marks(Reached(s, actions).trace, key);
      && (forall x :: i <= x <= j ==> !marks[x].success && marks[x].threshold <= t && marks[x].cooldown >= c)
      && marks[j].at - marks[i].at <= w
    ensures j - i + 1 <= t + w / c
  {
    InitialInv(s);
    RunStaysSpaced(s, actions);
    RunKeepsEvents(s, actions);
    var after := Reached(s, actions);
    ThresholdsPositive(after.trace, key);
    WindowBound(Marks(after.trace, key), after.now, i, j, t, c, w);
  }

  /** One request at a time, the breaker is exact: a key that is called or about to be marked is not cooling. */
  lemma SequentialNeverCooling(s: State, actions: seq<Action>, req: nat)
    requires Initial(s) && (InitialInv(s); Sequential(s, actions))
    ensures var after := Reached(s, actions);
      req in after.reqs && (after.reqs[req].Calling? || after.reqs[req].Marking?) && after.reqs[req].key in after.db.keys ==>
        Rested(after.db.keys[after.reqs[req].key], after.now)
  {
    InitialInv(s);
    RunStaysSpaced(s, actions);
    var after := Reached(s, actions);
    if req in after.reqs { assert Current(after, after.reqs[req]); }
  }
}
