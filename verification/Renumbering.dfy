/** The shift-by-1,000,000 renumbering, row by row under a unique index that is checked at every row. */
module Renumbering {
  import opened Wrappers
  import opened Store

  ghost function Shifted(keys: Keys, order: seq<nat>): Keys {
    map id | id in keys :: if id in order then keys[id].(priority := keys[id].priority + SHIFT) else keys[id]
  }

  /** No row still to be visited holds the priority an earlier row is shifted to. */
  ghost predicate NoClash(keys: Keys, order: seq<nat>) {
    forall i, id :: 0 <= i < |order| && order[i] in keys && id in keys && id !in order[..i] && id != order[i]
      ==> keys[id].priority != keys[order[i]].priority + SHIFT
  }

  lemma TailOrder(order: seq<nat>)
    requires NoDuplicates(order) && order != []
    ensures NoDuplicates(order[1..]) && order[0] !in order[1..]
    ensures forall id :: id in order <==> id == order[0] || id in order[1..]
  {
  }

  /** For a given visiting order, the shift succeeds exactly when no row is moved onto one still waiting. */
  lemma {:induction false} ShiftSucceedsIff(keys: Keys, order: seq<nat>)
    requires DistinctPriorities(keys) && NoDuplicates(order) && forall id :: id in order ==> id in keys
    ensures ShiftEach(keys, order).Some? <==> NoClash(keys, order)
    ensures ShiftEach(keys, order).Some? ==> ShiftEach(keys, order).value == Shifted(keys, order)
    decreases |order|
  {
    if order == [] {
      ShiftedNone(keys);
    } else {
      HeadClash(keys, order);
      if ShiftHead(keys, order).Some? {
        var next := ShiftHead(keys, order).value;
        TailClash(keys, order, next);
        ShiftedTail(keys, order, next);
        ShiftSucceedsIff(next, order[1..]);
      }
    }
  }

  function ShiftHead(keys: Keys, order: seq<nat>): Option<Keys>
    requires order != [] && order[0] in keys
  {
    SetPriority(keys, order[0], keys[order[0]].priority + SHIFT)
  }

  lemma ShiftedNone(keys: Keys)
    ensures Shifted(keys, []) == keys
  {
  }

  lemma ShiftedTail(keys: Keys, order: seq<nat>, next: Keys)
    requires NoDuplicates(order) && order != [] && order[0] in keys
    requires ShiftHead(keys, order) == Some(next)
    ensures Shifted(next, order[1..]) == Shifted(keys, order)
    ensures NoDuplicates(order[1..]) && forall id :: id in order[1..] ==> id in order
  {
    TailOrder(order);
  }

  lemma HeadClash(keys: Keys, order: seq<nat>)
    requires order != [] && order[0] in keys
    ensures NoClash(keys, order) ==> ShiftHead(keys, order).Some?
  {
    assert order[..0] == [];
  }

  lemma PrefixOf(order: seq<nat>, i: nat)
    requires 0 < i <= |order|
    ensures order[..i] == [order[0]] + order[1..][..i - 1]
  {
  }

  lemma TailHasNoClash(keys: Keys, order: seq<nat>, next: Keys)
    requires DistinctPriorities(keys) && NoDuplicates(order) && order != [] && forall id :: id in order ==> id in keys
    requires ShiftHead(keys, order) == Some(next) && NoClash(keys, order)
    ensures NoClash(next, order[1..])
  {
    var head, tail := order[0], order[1..];
    TailOrder(order);
    forall i, id | 0 <= i < |tail| && tail[i] in next && id in next && id !in tail[..i] && id != tail[i]
      ensures next[id].priority != next[tail[i]].priority + SHIFT
    {
      PrefixOf(order, i + 1);
      assert tail[i] == order[i + 1] && order[i + 1] in keys;
      assert keys[tail[i]] == next[tail[i]];
      if id != head { assert id !in order[..i + 1]; }
    }
  }

  lemma WholeHasNoClash(keys: Keys, order: seq<nat>, next: Keys)
    requires NoDuplicates(order) && order != [] && forall id :: id in order ==> id in keys
    requires ShiftHead(keys, order) == Some(next) && NoClash(next, order[1..])
    ensures NoClash(keys, order)
  {
    var head, tail := order[0], order[1..];
    TailOrder(order);
    forall i, id | 0 <= i < |order| && order[i] in keys && id in keys && id !in order[..i] && id != order[i]
      ensures keys[id].priority != keys[order[i]].priority + SHIFT
    {
      if i > 0 {
        PrefixOf(order, i);
        assert tail[i - 1] == order[i] && id !in tail[..i - 1] && id != head;
        assert next[id] == keys[id] && next[order[i]] == keys[order[i]];
      }
    }
  }

  lemma TailClash(keys: Keys, order: seq<nat>, next: Keys)
    requires DistinctPriorities(keys) && NoDuplicates(order) && order != [] && forall id :: id in order ==> id in keys
    requires ShiftHead(keys, order) == Some(next)
    ensures DistinctPriorities(next)
    ensures NoClash(next, order[1..]) <==> NoClash(keys, order)
  {
    if NoClash(keys, order) { TailHasNoClash(keys, order, next); }
    if NoClash(next, order[1..]) { WholeHasNoClash(keys, order, next); }
  }

  /** ids[t] has received priority first + t; every other column and row is as before. */
  ghost predicate Assigned(after: Keys, keys: Keys, ids: seq<nat>, first: int) {
    && after.Keys == keys.Keys
    && (forall t :: 0 <= t < |ids| && ids[t] in keys ==> after[ids[t]] == keys[ids[t]].(priority := first + t))
    && (forall id :: id in keys && id !in ids ==> after[id] == keys[id])
  }

  lemma {:induction false} AssignResult(keys: Keys, ids: seq<nat>, first: int)
    requires NoDuplicates(ids) && DistinctPriorities(keys)
    ensures AssignEach(keys, ids, first).Some? ==>
              Assigned(AssignEach(keys, ids, first).value, keys, ids, first) && DistinctPriorities(AssignEach(keys, ids, first).value)
    decreases |ids|
  {
    if ids != [] && SetPriority(keys, ids[0], first).Some? {
      var next := SetPriority(keys, ids[0], first).value;
      TailOrder(ids);
      AssignResult(next, ids[1..], first + 1);
      if AssignEach(keys, ids, first).Some? {
        var after := AssignEach(keys, ids, first).value;
        forall t | 0 <= t < |ids| && ids[t] in keys ensures after[ids[t]] == keys[ids[t]].(priority := first + t) {
          if t > 0 { assert ids[t] == ids[1..][t - 1]; }
        }
      }
    }
  }

  /** Targets below every priority of the rows still waiting and above those already placed are always free. */
  lemma {:induction false} AssignSucceeds(keys: Keys, ids: seq<nat>, first: int)
    requires NoDuplicates(ids)
    requires forall id :: id in ids && id in keys ==> keys[id].priority >= first + |ids|
    requires forall id :: id !in ids && id in keys ==> keys[id].priority < first
    ensures AssignEach(keys, ids, first).Some?
    decreases |ids|
  {
    if ids != [] {
      TailOrder(ids);
      assert !PriorityTaken(keys, ids[0], first) by {
        forall j | j in keys && j != ids[0] ensures keys[j].priority != first { assert j in ids || j !in ids; }
      }
      AssignSucceeds(SetPriority(keys, ids[0], first).value, ids[1..], first + 1);
    }
  }

  lemma ShiftedDistinct(keys: Keys, order: seq<nat>)
    requires DistinctPriorities(keys) && IsOrder(keys, order)
    ensures DistinctPriorities(Shifted(keys, order))
  {
  }

  /** Whenever the renumbering goes through, ids[t] has priority t + 1 and nothing else has changed. */
  lemma RenumberResult(keys: Keys, order: seq<nat>, ids: seq<nat>)
    requires DistinctPriorities(keys) && IsOrder(keys, order) && IsOrder(keys, ids)
    requires Renumber(keys, order, ids).Some?
    ensures Assigned(Renumber(keys, order, ids).value, keys, ids, 1)
  {
    ShiftSucceedsIff(keys, order);
    ShiftedDistinct(keys, order);
    AssignResult(Shifted(keys, order), ids, 1);
    var after := Renumber(keys, order, ids).value;
    forall t | 0 <= t < |ids| ensures after[ids[t]] == keys[ids[t]].(priority := 1 + t) {
      assert ids[t] in ids;
    }
  }

  /** No two priorities are exactly the shift apart. */
  ghost predicate Apart(keys: Keys) {
    forall i, j :: i in keys && j in keys ==> keys[j].priority != keys[i].priority + SHIFT
  }

  /** With at most 1,000,000 rows, none of them 1,000,000 above another, the renumbering goes through in any
      visiting order. */
  lemma RenumberSucceeds(keys: Keys, order: seq<nat>, ids: seq<nat>)
    requires DistinctPriorities(keys) && IsOrder(keys, order) && IsOrder(keys, ids)
    requires |ids| <= SHIFT && Apart(keys) && forall id :: id in keys ==> 1 <= keys[id].priority
    ensures Renumber(keys, order, ids).Some?
  {
    ShiftSucceedsIff(keys, order);
    AssignSucceeds(Shifted(keys, order), ids, 1);
  }

  /** Every intermediate table of a renumbering that goes through: after each shifted row, and after each
      reassigned row, the statement so far has succeeded and all priorities are distinct. */
  lemma RenumberIntermediates(keys: Keys, order: seq<nat>, ids: seq<nat>, i: nat)
    requires DistinctPriorities(keys) && IsOrder(keys, order) && IsOrder(keys, ids)
    requires Renumber(keys, order, ids).Some?
    ensures i <= |order| ==> ShiftEach(keys, order[..i]).Some? && DistinctPriorities(ShiftEach(keys, order[..i]).value)
    ensures i <= |ids| ==>
              var mid := AssignEach(ShiftEach(keys, order).value, ids[..i], 1);
              mid.Some? && DistinctPriorities(mid.value)
  {
    if i <= |order| {
      ShiftPrefix(keys, order, i);
    }
    ShiftSucceedsIff(keys, order);
    ShiftedDistinct(keys, order);
    if i <= |ids| {
      AssignPrefix(Shifted(keys, order), ids, 1, i);
      AssignResult(Shifted(keys, order), ids[..i], 1);
    }
  }

  lemma {:induction false} ShiftPrefix(keys: Keys, order: seq<nat>, i: nat)
    requires DistinctPriorities(keys) && i <= |order| && ShiftEach(keys, order).Some?
    ensures ShiftEach(keys, order[..i]).Some? && DistinctPriorities(ShiftEach(keys, order[..i]).value)
    decreases i
  {
    if i > 0 {
      var next := if order[0] in keys then SetPriority(keys, order[0], keys[order[0]].priority + SHIFT).value else keys;
      ShiftPrefix(next, order[1..], i - 1);
      assert order[..i][1..] == order[1..][..i - 1];
    }
  }

  lemma {:induction false} AssignPrefix(keys: Keys, ids: seq<nat>, first: int, i: nat)
    requires i <= |ids| && AssignEach(keys, ids, first).Some?
    ensures AssignEach(keys, ids[..i], first).Some?
    decreases i
  {
    if i > 0 {
      AssignPrefix(SetPriority(keys, ids[0], first).value, ids[1..], first + 1, i - 1);
      assert ids[..i][1..] == ids[1..][..i - 1];
    }
  }
}
