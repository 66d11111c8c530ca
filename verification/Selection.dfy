/** Choosing a key: filterAvailable, Select and Status. */
module Selection {
  import opened Wrappers
  import opened Store
  import opened Listings
  import opened Sorting

  predicate Available(key: Key, now: Time) {
    key.enabled && !(key.cooldownUntil.Some? && key.cooldownUntil.value > now)
  }

  /** No cooldown, or one that has ended; one that ends now has ended. */
  predicate Rested(key: Key, now: Time) {
    key.cooldownUntil.Some? ==> key.cooldownUntil.value <= now
  }

  /** An enabled key that does not cool, with the least priority, and of those the least id, of such keys. */
  predicate Leads(key: Key, ks: seq<Key>, now: Time) {
    && key in ks && key.enabled && Rested(key, now)
    && forall k :: k in ks && k.enabled && Rested(k, now) ==> Ascends(key, k)
  }

  predicate Ascends(a: Key, b: Key) {
    a.priority <= b.priority && (a.priority == b.priority ==> a.id <= b.id)
  }

  /** The positions of the enabled keys, and of those among them that do not cool. */
  function EnabledAt(ks: seq<Key>): set<nat> {
    set i: nat | i < |ks| && ks[i].enabled
  }

  function UsableAt(ks: seq<Key>, now: Time): set<nat> {
    set i: nat | i < |ks| && ks[i].enabled && Rested(ks[i], now)
  }

  function Filter(ks: seq<Key>, now: Time): seq<Key> {
    if ks == [] then []
    else
      var rest := Filter(ks[..|ks| - 1], now);
      var last := ks[|ks| - 1];
      if Available(last, now) then rest + [last] else rest
  }

  const BY_PRIORITY: (Key, Key) -> bool := (a: Key, b: Key) => Before(a, b)

  function FilterAndSort(ks: seq<Key>, now: Time): seq<Key> {
    StableSort(BY_PRIORITY, Filter(ks, now))
  }

  /** Select: the first of the filtered and sorted keys. */
  function Pick(ks: seq<Key>, now: Time): Option<Key> {
    var available := FilterAndSort(ks, now);
    if available == [] then None else Some(available[0])
  }

  datatype Status = Status(availability: bool, activeAlias: string, enabledCount: nat, availableCount: nat)

  function CountEnabled(ks: seq<Key>): nat {
    if ks == [] then 0 else CountEnabled(ks[..|ks| - 1]) + if ks[|ks| - 1].enabled then 1 else 0
  }

  function StatusOf(ks: seq<Key>, now: Time): Status {
    var available := FilterAndSort(ks, now);
    Status(available != [], if available == [] then "" else available[0].alias, CountEnabled(ks), |available|)
  }

  // ---------- The implementations ----------

  method FilterAvailable(ks: seq<Key>, now: Time) returns (available: seq<Key>)
    ensures available == FilterAndSort(ks, now)
    ensures forall k :: k in available <==> k in ks && k.enabled && Rested(k, now)
    ensures |available| == |UsableAt(ks, now)|
    ensures forall i, j :: 0 <= i < j < |available| ==> Ascends(available[i], available[j])
  {
    var filtered: seq<Key> := [];
    for i := 0 to |ks|
      invariant filtered == Filter(ks[..i], now)
    {
      assert ks[..i + 1][..i] == ks[..i];
      if Available(ks[i], now) { filtered := filtered + [ks[i]]; }
    }
    assert ks[..|ks|] == ks;
    var slice := new Key[|filtered|](i requires 0 <= i < |filtered| => filtered[i]);
    assert slice[..] == filtered;
    SortInPlace(BY_PRIORITY, slice);
    SortedMembers(ks, now);
    FilterCounts(ks, now);
    return slice[..];
  }

  method Select(ks: seq<Key>, now: Time) returns (chosen: Option<Key>)
    ensures chosen == Pick(ks, now)
    ensures chosen.None? <==> forall k :: k in ks ==> !(k.enabled && Rested(k, now))
    ensures chosen.Some? ==> Leads(chosen.value, ks, now)
  {
    var available := FilterAvailable(ks, now);
    if available == [] { return None; }
    assert available[0] in available;
    return Some(available[0]);
  }

  method GetStatus(ks: seq<Key>, now: Time) returns (status: Status)
    ensures status == StatusOf(ks, now)
    ensures status.enabledCount == |EnabledAt(ks)| && status.availableCount == |UsableAt(ks, now)|
    ensures status.availability <==> exists k :: k in ks && k.enabled && Rested(k, now)
    ensures !status.availability ==> status.activeAlias == ""
    ensures status.availability ==> exists k :: Leads(k, ks, now) && status.activeAlias == k.alias
  {
    var available := FilterAvailable(ks, now);
    var enabled := 0;
    for i := 0 to |ks|
      invariant enabled == CountEnabled(ks[..i])
    {
      assert ks[..i + 1][..i] == ks[..i];
      if ks[i].enabled { enabled := enabled + 1; }
    }
    assert ks[..|ks|] == ks;
    EnabledCounts(ks);
    assert available != [] ==> available[0] in available && Leads(available[0], ks, now);
    return Status(available != [], if available == [] then "" else available[0].alias, enabled, |available|);
  }

  // ---------- What they mean ----------

  lemma {:induction false} FilterKeeps(ks: seq<Key>, now: Time)
    requires Sorted(ks)
    ensures Sorted(Filter(ks, now))
    ensures forall k :: k in Filter(ks, now) <==> k in ks && k.enabled && Rested(k, now)
    ensures |Filter(ks, now)| <= CountEnabled(ks)
    decreases |ks|
  {
    if ks != [] {
      var front, last := ks[..|ks| - 1], ks[|ks| - 1];
      FilterKeeps(front, now);
      assert ks == front + [last];
      assert forall k :: k in Filter(front, now) ==> Before(k, last);
    }
  }

  /** On what ListUpstreamKeys returns, filtering and sorting is filtering alone. */
  lemma SortingIsRedundant(ks: seq<Key>, now: Time)
    requires Sorted(ks)
    ensures FilterAndSort(ks, now) == Filter(ks, now)
  {
    FilterKeeps(ks, now);
    var filtered := Filter(ks, now);
    forall i, j | 0 <= i < j < |filtered| ensures !BY_PRIORITY(filtered[j], filtered[i]) {
      assert Before(filtered[i], filtered[j]);
    }
    StableSortFixed(BY_PRIORITY, filtered);
  }

  /** Every key of the table is disabled or cooling. */
  ghost predicate NoneUsable(keys: Keys, now: Time) {
    forall id :: id in keys ==> !(keys[id].enabled && Rested(keys[id], now))
  }

  /** key is the (priority, id)-least enabled key of the table that is not cooling. */
  ghost predicate IsBest(key: Key, keys: Keys, now: Time) {
    && key.id in keys && keys[key.id] == key && key.enabled && Rested(key, now)
    && forall id :: id in keys && id != key.id && keys[id].enabled && Rested(keys[id], now) ==> Before(key, keys[id])
  }

  /** Select refines a plain minimum over the table. */
  lemma PickIsBest(ks: seq<Key>, keys: Keys, now: Time)
    requires IsListing(ks, keys)
    ensures Pick(ks, now).None? <==> NoneUsable(keys, now)
    ensures forall key :: Pick(ks, now) == Some(key) <==> IsBest(key, keys, now)
  {
    SortingIsRedundant(ks, now);
    FilterKeeps(ks, now);
    var available := Filter(ks, now);
    forall id | id in keys && keys[id].enabled && Rested(keys[id], now) ensures keys[id] in available {
      assert keys[id] in ks;
    }
    if available != [] {
      assert available[0] in available;
      forall id | id in keys && id != available[0].id && keys[id].enabled && Rested(keys[id], now) ensures Before(available[0], keys[id]) {
        var i :| 0 <= i < |available| && available[i] == keys[id];
      }
    }
  }

  lemma PickComesFrom(ks: seq<Key>, now: Time)
    ensures Pick(ks, now).Some? ==> Pick(ks, now).value in ks && Pick(ks, now).value.enabled && Rested(Pick(ks, now).value, now)
  {
    SortedMembers(ks, now);
    var sorted := FilterAndSort(ks, now);
    if sorted != [] { assert sorted[0] in sorted; }
  }

  lemma SortedMembers(ks: seq<Key>, now: Time)
    ensures var sorted := FilterAndSort(ks, now);
      && (forall k :: k in sorted <==> k in ks && k.enabled && Rested(k, now))
      && |sorted| == |Filter(ks, now)| && InOrder(BY_PRIORITY, sorted)
      && (forall i, j :: 0 <= i < j < |sorted| ==> Ascends(sorted[i], sorted[j]))
  {
    StableSortSorts(BY_PRIORITY, Filter(ks, now));
    FilterMembers(ks, now);
    var sorted := FilterAndSort(ks, now);
    assert forall k :: k in sorted <==> k in multiset(sorted);
    assert forall k :: k in Filter(ks, now) <==> k in multiset(Filter(ks, now));
    assert |multiset(sorted)| == |sorted| && |multiset(Filter(ks, now))| == |Filter(ks, now)|;
    forall i, j | 0 <= i < j < |sorted| ensures Ascends(sorted[i], sorted[j]) { assert !BY_PRIORITY(sorted[j], sorted[i]); }
  }

  lemma {:induction false} EnabledCounts(ks: seq<Key>)
    ensures CountEnabled(ks) == |EnabledAt(ks)|
    decreases |ks|
  {
    if ks != [] {
      var last := |ks| - 1;
      EnabledCounts(ks[..last]);
      assert EnabledAt(ks) == EnabledAt(ks[..last]) + if ks[last].enabled then {last} else {};
    }
  }

  lemma {:induction false} FilterCounts(ks: seq<Key>, now: Time)
    ensures |Filter(ks, now)| == |UsableAt(ks, now)|
    decreases |ks|
  {
    if ks != [] {
      var last := |ks| - 1;
      FilterCounts(ks[..last], now);
      assert UsableAt(ks, now) == UsableAt(ks[..last], now) + if ks[last].enabled && Rested(ks[last], now) then {last} else {};
    }
  }

  lemma {:induction false} FilterMembers(ks: seq<Key>, now: Time)
    ensures forall k :: k in Filter(ks, now) <==> k in ks && k.enabled && Rested(k, now)
    decreases |ks|
  {
    if ks != [] {
      FilterMembers(ks[..|ks| - 1], now);
      assert ks == ks[..|ks| - 1] + [ks[|ks| - 1]];
    }
  }

  /** At one instant Status and Select agree. */
  lemma StatusAgrees(ks: seq<Key>, keys: Keys, now: Time)
    requires IsListing(ks, keys)
    ensures var status := StatusOf(ks, now);
      && status.availableCount <= status.enabledCount
      && (status.availability <==> Pick(ks, now).Some?)
      && (status.availability <==> status.availableCount > 0)
      && (Pick(ks, now).Some? ==> status.activeAlias == Pick(ks, now).value.alias)
  {
    SortingIsRedundant(ks, now);
    FilterKeeps(ks, now);
  }

  /** Disabling a key takes it out of a listing made right after; enabling it again restores the table as it was. */
  lemma DisabledIsNeverPicked(db: Db, id: nat, now: Time)
    requires Wf(db.keys) && id in db.keys
    ensures var off := SetEnabled(db, id, false).value;
      && Wf(off.keys)
      && (Pick(Listing(off.keys), now).Some? ==> Pick(Listing(off.keys), now).value.id != id)
      && SetEnabled(off, id, db.keys[id].enabled) == Ok(db)
  {
    var off := SetEnabled(db, id, false).value;
    PickComesFrom(Listing(off.keys), now);
    assert off.keys[id := db.keys[id]] == db.keys;
  }

  /** For keys in any order: the choice is still a least available key, so the sort is what makes it so. */
  lemma PickFromAnyOrder(ks: seq<Key>, now: Time)
    ensures InOrder(BY_PRIORITY, FilterAndSort(ks, now)) && multiset(FilterAndSort(ks, now)) == multiset(Filter(ks, now))
    ensures forall k :: k in ks && k.enabled && Rested(k, now) ==> Pick(ks, now).Some? && Ascends(Pick(ks, now).value, k)
  {
    FilterMembers(ks, now);
    StableSortSorts(BY_PRIORITY, Filter(ks, now));
    var sorted := FilterAndSort(ks, now);
    forall k | k in Filter(ks, now) ensures sorted != [] && !Before(k, sorted[0]) {
      assert k in multiset(Filter(ks, now)) && k in multiset(sorted);
      var i :| 0 <= i < |sorted| && sorted[i] == k;
      if i > 0 { assert !BY_PRIORITY(sorted[i], sorted[0]); }
    }
  }
}
