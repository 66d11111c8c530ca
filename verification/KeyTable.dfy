/** Create, delete and reorder as whole transactions: they keep the priorities dense, and the listing says
    exactly what each of them did. */
module KeyTable {
  import opened Wrappers
  import opened Store
  import opened Listings
  import opened Renumbering

  /** What the schema and the code keep true of upstream_keys. */
  ghost predicate TableOk(db: Db) {
    && Wf(db.keys)
    && (forall id :: id in db.keys ==> id < db.nextKey)
    && DistinctAliases(db.keys)
    && Dense(db.keys)
  }

  /** DeleteUpstreamKey, with the survivors' ids read back in listing order. */
  ghost function Delete(db: Db, id: nat, order: seq<nat>): Result<Db, Error>
    requires Wf(db.keys)
  {
    DeleteKey(db, id, order, Ids(Listing(db.keys - {id})))
  }

  /** ReorderUpstreamKeys, with the existing ids read in listing order. */
  ghost function Reorder(db: Db, ids: seq<int>, order: seq<nat>): Result<Db, Error>
    requires Wf(db.keys)
  {
    ReorderKeys(db, Ids(Listing(db.keys)), ids, order)
  }

  // ---------- Density ----------

  lemma DenseListingOf(keys: Keys, ks: seq<Key>)
    requires IsListing(ks, keys)
    ensures Dense(keys) <==> DenseListing(ks)
  {
    if Dense(keys) {
      var other :| IsListing(other, keys) && DenseListing(other);
      ListingUnique(ks, other, keys);
    }
  }

  ghost function Priorities(keys: Keys): set<int> {
    set id | id in keys :: keys[id].priority
  }

  /** A dense table has distinct priorities, and they are exactly 1..n. */
  lemma DensePriorities(keys: Keys)
    requires Dense(keys)
    ensures DistinctPriorities(keys)
    ensures forall p :: p in Priorities(keys) <==> 1 <= p <= |keys|
    ensures forall id :: id in keys ==> 1 <= keys[id].priority <= |keys|
  {
    var ks: seq<Key> :| IsListing(ks, keys) && DenseListing(ks);
    ListingLength(ks, keys);
    forall id | id in keys ensures 1 <= keys[id].priority <= |keys| && ks[keys[id].priority - 1] == keys[id] {
      assert keys[id] in ks;
    }
    forall p: int | 1 <= p <= |keys| ensures p in Priorities(keys) {
      assert ks[p - 1] in ks;
      assert keys[ks[p - 1].id].priority == p;
    }
  }

  // ---------- Renumbered tables ----------

  function Rows(keys: Keys, ids: seq<nat>): seq<Key>
    requires forall id :: id in ids ==> id in keys
  {
    seq(|ids|, i requires 0 <= i < |ids| => keys[ids[i]])
  }

  /** After the priorities 1, 2, ... went to ids in turn, ids is the listing order. */
  lemma AssignedListing(after: Keys, keys: Keys, ids: seq<nat>)
    requires Wf(keys) && IsOrder(keys, ids) && Assigned(after, keys, ids, 1)
    ensures IsListing(Rows(after, ids), after) && DenseListing(Rows(after, ids)) && Ids(Rows(after, ids)) == ids
  {
    var ks := Rows(after, ids);
    forall i | 0 <= i < |ids| ensures ks[i].priority == i + 1 && ks[i].id == ids[i] && ids[i] in keys {
      assert ids[i] in ids;
    }
    forall id | id in after ensures after[id].id == id && after[id] in ks {
      var t :| 0 <= t < |ids| && ids[t] == id;
      assert ks[t] == after[id];
    }
  }

  /** A renumbering that goes through: the ids are listed in the given order, densely, and every column but
      the priority is as before. */
  lemma RenumberedTable(keys: Keys, order: seq<nat>, ids: seq<nat>)
    requires Wf(keys) && DistinctPriorities(keys) && IsOrder(keys, order) && IsOrder(keys, ids)
    requires Renumber(keys, order, ids).Some?
    ensures var after := Renumber(keys, order, ids).value;
      && after.Keys == keys.Keys
      && IsListing(Rows(after, ids), after) && Dense(after) && Ids(Rows(after, ids)) == ids
      && (forall t :: 0 <= t < |ids| ==> after[ids[t]] == keys[ids[t]].(priority := t + 1))
      && (forall id :: id in keys ==> after[id] == keys[id].(priority := after[id].priority))
  {
    RenumberResult(keys, order, ids);
    var after := Renumber(keys, order, ids).value;
    AssignedListing(after, keys, ids);
    forall t | 0 <= t < |ids| ensures after[ids[t]] == keys[ids[t]].(priority := t + 1) {
      assert ids[t] in ids;
    }
    forall id | id in keys ensures after[id] == keys[id].(priority := after[id].priority) {
      var t :| 0 <= t < |ids| && ids[t] == id;
    }
  }

  // ---------- Create ----------

  lemma CreateKeeps(db: Db, alias: string, hint: string, secret: string, enabled: bool)
    requires TableOk(db) && CreateKey(db, alias, hint, secret, enabled).Ok?
    ensures var after := CreateKey(db, alias, hint, secret, enabled).value;
      && TableOk(after)
      && Listing(after.keys) == Listing(db.keys) + [Key(db.nextKey, alias, hint, secret, enabled, |db.keys| + 1, 0, None, "")]
  {
    var after := CreateKey(db, alias, hint, secret, enabled).value;
    var ks := Listing(db.keys);
    DenseListingOf(db.keys, ks);
    ListingLength(ks, db.keys);
    NextAfterDense(db.keys, ks);
    var key := after.keys[db.nextKey];
    forall k | k in ks ensures Before(k, key) {
      assert k.id in db.keys;
    }
    ListingAppend(ks, db.keys, key);
    assert DenseListing(ks + [key]);
    ListingUnique(Listing(after.keys), ks + [key], after.keys);
  }

  lemma NextAfterDense(keys: Keys, ks: seq<Key>)
    requires IsListing(ks, keys) && DenseListing(ks)
    ensures NextPriority(keys) == |ks| + 1
    ensures forall k :: k in ks ==> k.priority <= |ks|
  {
    if ks != [] {
      assert ks[0] in ks && ks[|ks| - 1] in ks;
      var id :| id in keys && keys[id].priority == NextPriority(keys) - 1;
      assert keys[id] in ks;
    } else {
      ListingLength(ks, keys);
    }
  }

  // ---------- Edits of one row ----------

  /** Replace, enable, disable and the recording of results keep the table in shape and the key in its place. */
  lemma EditKeeps(db: Db, key: Key)
    requires TableOk(db) && key.id in db.keys && key.priority == db.keys[key.id].priority
    requires !AliasTaken(db.keys, key.id, key.alias)
    ensures var after := db.(keys := db.keys[key.id := key]);
      && TableOk(after)
      && |Listing(after.keys)| == |Listing(db.keys)|
      && (forall i :: 0 <= i < |Listing(db.keys)| ==>
            Listing(after.keys)[i] == if Listing(db.keys)[i].id == key.id then key else Listing(db.keys)[i])
  {
    var ks, keys := Listing(db.keys), db.keys[key.id := key];
    assert db.keys[key.id] in ks;
    var at :| 0 <= at < |ks| && ks[at] == db.keys[key.id];
    ListingUpdate(ks, db.keys, at, key);
    ListingUnique(ks[at := key], Listing(keys), keys);
    DenseListingOf(db.keys, ks);
    DenseListingOf(keys, Listing(keys));
    forall i | 0 <= i < |ks| && ks[i].id == key.id ensures i == at {
      IdsDiffer(ks, db.keys, i, at);
    }
  }

  lemma OwnAliasFree(keys: Keys, id: nat)
    requires DistinctAliases(keys) && id in keys
    ensures !AliasTaken(keys, id, keys[id].alias)
  {
  }

  lemma ReplaceKeeps(db: Db, id: nat, alias: string, hint: string, secret: string, enabled: bool)
    requires TableOk(db) && ReplaceKey(db, id, alias, hint, secret, enabled).Ok?
    ensures TableOk(ReplaceKey(db, id, alias, hint, secret, enabled).value)
  {
    EditKeeps(db, db.keys[id].(alias := alias, hint := hint, secret := secret, enabled := enabled));
  }

  lemma SetEnabledKeeps(db: Db, id: nat, enabled: bool)
    requires TableOk(db) && SetEnabled(db, id, enabled).Ok?
    ensures TableOk(SetEnabled(db, id, enabled).value)
  {
    OwnAliasFree(db.keys, id);
    EditKeeps(db, db.keys[id].(enabled := enabled));
  }

  lemma RecordKeeps(db: Db, id: nat, success: bool, threshold: int, cooldown: int, now: Time, summary: string)
    requires TableOk(db) && RecordResult(db, id, success, threshold, cooldown, now, summary).Ok?
    ensures TableOk(RecordResult(db, id, success, threshold, cooldown, now, summary).value)
  {
    var key := db.keys[id];
    OwnAliasFree(db.keys, id);
    EditKeeps(db, if success then Succeeded(key) else Failed(key, threshold, cooldown, now, summary));
  }

  // ---------- Delete ----------

  lemma SurvivorsDistinct(keys: Keys, id: nat)
    requires Dense(keys)
    ensures DistinctPriorities(keys - {id})
    ensures forall j :: j in keys - {id} ==> 1 <= (keys - {id})[j].priority <= |keys|
  {
    DensePriorities(keys);
  }

  /** The keys of a listing with their ranks as priorities. */
  function Ranked(ks: seq<Key>): (r: seq<Key>)
    ensures |r| == |ks| && forall i :: 0 <= i < |ks| ==> r[i] == ks[i].(priority := i + 1)
  {
    seq(|ks|, i requires 0 <= i < |ks| => ks[i].(priority := i + 1))
  }

  /** A delete that goes through keeps the survivors in order, gives each its new rank, and touches no other
      column; the log rows of the key lose their reference. */
  lemma DeleteResult(db: Db, id: nat, order: seq<nat>, at: nat)
    requires TableOk(db) && id in db.keys && IsOrder(db.keys - {id}, order) && Delete(db, id, order).Ok?
    requires at < |Listing(db.keys)| && Listing(db.keys)[at].id == id
    ensures var after := Delete(db, id, order).value; var kept := Without(Listing(db.keys), at);
      && TableOk(after) && after.keys.Keys == db.keys.Keys - {id}
      && Listing(after.keys) == Ranked(kept)
      && after == db.(keys := after.keys, logs := ForgetAll(db.logs, id))
  {
    SurvivorsListing(db.keys, id, at);
    SurvivorsDistinct(db.keys, id);
    CompactedListing(db.keys - {id}, order, Without(Listing(db.keys), at));
    SurvivorsOk(db, id, Delete(db, id, order).value.keys);
  }

  /** Renumbering by a listing keeps that order. */
  lemma CompactedListing(keys: Keys, order: seq<nat>, ks: seq<Key>)
    requires IsListing(ks, keys) && DistinctPriorities(keys) && IsOrder(keys, order)
    requires Renumber(keys, order, Ids(ks)).Some?
    ensures var after := Renumber(keys, order, Ids(ks)).value;
      && after.Keys == keys.Keys && Wf(after) && Dense(after) && Listing(after) == Ranked(ks)
      && (forall id :: id in keys ==> after[id] == keys[id].(priority := after[id].priority))
  {
    ListingIds(ks, keys);
    RenumberedTable(keys, order, Ids(ks));
    var after := Renumber(keys, order, Ids(ks)).value;
    ListingUnique(Listing(after), Rows(after, Ids(ks)), after);
    RankedRows(after, keys, ks);
  }

  lemma SurvivorsOk(db: Db, id: nat, after: Keys)
    requires TableOk(db) && after.Keys == db.keys.Keys - {id} && Wf(after) && Dense(after)
    requires forall j :: j in after ==> after[j] == db.keys[j].(priority := after[j].priority)
    ensures TableOk(db.(keys := after, logs := ForgetAll(db.logs, id)))
  {
  }

  lemma DeleteKeepsTable(db: Db, id: nat, order: seq<nat>)
    requires TableOk(db) && id in db.keys && IsOrder(db.keys - {id}, order) && Delete(db, id, order).Ok?
    ensures TableOk(Delete(db, id, order).value)
  {
    var ks := Listing(db.keys);
    assert db.keys[id] in ks;
    var at :| 0 <= at < |ks| && ks[at] == db.keys[id];
    DeleteResult(db, id, order, at);
  }

  lemma DeleteKeepsColumns(db: Db, id: nat, order: seq<nat>)
    requires TableOk(db) && id in db.keys && IsOrder(db.keys - {id}, order) && Delete(db, id, order).Ok?
    ensures var after := Delete(db, id, order).value;
      && after == db.(keys := after.keys, logs := ForgetAll(db.logs, id)) && after.keys.Keys == db.keys.Keys - {id}
      && (forall j :: j in after.keys ==> after.keys[j] == db.keys[j].(priority := after.keys[j].priority))
  {
    var rest := db.keys - {id};
    ListingIds(Listing(rest), rest);
    SurvivorsDistinct(db.keys, id);
    RenumberedTable(rest, order, Ids(Listing(rest)));
  }

  lemma SurvivorsListing(keys: Keys, id: nat, at: nat)
    requires Wf(keys) && at < |Listing(keys)| && Listing(keys)[at].id == id
    ensures IsListing(Without(Listing(keys), at), keys - {id})
    ensures Listing(keys - {id}) == Without(Listing(keys), at) && IsOrder(keys - {id}, Ids(Without(Listing(keys), at)))
  {
    var kept := Without(Listing(keys), at);
    ListingRemove(Listing(keys), keys, at);
    ListingUnique(kept, Listing(keys - {id}), keys - {id});
    ListingIds(kept, keys - {id});
  }

  lemma RankedRows(after: Keys, keys: Keys, ks: seq<Key>)
    requires IsListing(ks, keys) && IsOrder(keys, Ids(ks)) && after.Keys == keys.Keys
    requires forall t :: 0 <= t < |Ids(ks)| ==> after[Ids(ks)[t]] == keys[Ids(ks)[t]].(priority := t + 1)
    ensures Rows(after, Ids(ks)) == Ranked(ks)
  {
    forall i | 0 <= i < |ks| ensures Rows(after, Ids(ks))[i] == Ranked(ks)[i] { RankedRow(after, keys, ks, i); }
  }

  lemma RankedRow(after: Keys, keys: Keys, ks: seq<Key>, i: nat)
    requires IsListing(ks, keys) && i < |ks| && after.Keys == keys.Keys
    requires forall t :: 0 <= t < |Ids(ks)| ==> Ids(ks)[t] in keys && after[Ids(ks)[t]] == keys[Ids(ks)[t]].(priority := t + 1)
    ensures after[Ids(ks)[i]] == Ranked(ks)[i]
  {
    assert ks[i] in ks && Ids(ks)[i] == ks[i].id;
  }

  /** The survivors have no two priorities 1,000,000 apart: up to 1,000,000 rows always, and with one row more
      if the first or the last key goes. */
  predicate DeleteFits(db: Db, id: nat)
    requires id in db.keys
  {
    || |db.keys| <= SHIFT
    || (|db.keys| == SHIFT + 1 && (db.keys[id].priority == 1 || db.keys[id].priority == SHIFT + 1))
  }

  lemma DeleteSucceeds(db: Db, id: nat, order: seq<nat>)
    requires TableOk(db) && id in db.keys && IsOrder(db.keys - {id}, order) && DeleteFits(db, id)
    ensures Delete(db, id, order).Ok?
  {
    var rest := db.keys - {id};
    ListingIds(Listing(rest), rest);
    ListingLength(Listing(rest), rest);
    SurvivorsDistinct(db.keys, id);
    assert rest.Keys == db.keys.Keys - {id};
    assert |rest| == |rest.Keys| && |db.keys| == |db.keys.Keys|;
    SurvivorsApart(db, id);
    RenumberSucceeds(rest, order, Ids(Listing(rest)));
  }

  lemma SurvivorsApart(db: Db, id: nat)
    requires TableOk(db) && id in db.keys && DeleteFits(db, id)
    ensures Apart(db.keys - {id})
  {
    DensePriorities(db.keys);
  }

  /** Otherwise two survivors are 1,000,000 apart, and visiting the rows by ascending priority moves the one
      onto the other. */
  lemma DeleteTrips(db: Db, id: nat)
    requires TableOk(db) && id in db.keys && !DeleteFits(db, id)
    ensures Delete(db, id, Ids(Listing(db.keys - {id}))) == Err(Constraint)
  {
    var low, high := FarSurvivors(db, id);
    SurvivorsDistinct(db.keys, id);
    AscendingTrips(db.keys - {id}, low, high);
  }

  lemma FarSurvivors(db: Db, id: nat) returns (low: nat, high: nat)
    requires TableOk(db) && id in db.keys && !DeleteFits(db, id)
    ensures low in db.keys && high in db.keys && low != id && high != id && db.keys[high].priority == db.keys[low].priority + SHIFT
  {
    var ks := Listing(db.keys);
    var d := db.keys[id].priority;
    DensePriorities(db.keys);
    DenseListingOf(db.keys, ks);
    ListingLength(ks, db.keys);
    var p := if d == 1 || d == SHIFT + 1 then 2 else 1;
    assert ks[p - 1] in ks && ks[p - 1 + SHIFT] in ks;
    low, high := ks[p - 1].id, ks[p - 1 + SHIFT].id;
  }

  /** Two rows 1,000,000 apart trip the shift in ascending order. */
  lemma AscendingTrips(keys: Keys, low: nat, high: nat)
    requires Wf(keys) && DistinctPriorities(keys) && low in keys && high in keys
    requires keys[high].priority == keys[low].priority + SHIFT
    ensures ShiftEach(keys, Ids(Listing(keys))).None?
  {
    var ks, order := Listing(keys), Ids(Listing(keys));
    ListingIds(ks, keys);
    assert keys[low] in ks && keys[high] in ks;
    var i :| 0 <= i < |ks| && ks[i] == keys[low];
    forall m | 0 <= m < i ensures order[m] != high { Precedes(ks, m, i); }
    assert order[i] == low && high !in order[..i];
    assert !NoClash(keys, order);
    ShiftSucceedsIff(keys, order);
  }

  /** The delete of an existing key goes through in every visiting order exactly when it fits. */
  lemma DeleteSafeIff(db: Db, id: nat)
    requires TableOk(db) && id in db.keys
    ensures DeleteFits(db, id) <==> forall order: seq<nat> :: IsOrder(db.keys - {id}, order) ==> Delete(db, id, order).Ok?
  {
    ListingIds(Listing(db.keys - {id}), db.keys - {id});
    if DeleteFits(db, id) {
      forall order: seq<nat> | IsOrder(db.keys - {id}, order) ensures Delete(db, id, order).Ok? { DeleteSucceeds(db, id, order); }
    } else {
      DeleteTrips(db, id);
    }
  }

  lemma {:induction false} SubsetSize<T>(a: set<T>, b: set<T>)
    requires a <= b
    ensures |a| <= |b| && (|a| == |b| ==> a == b)
  {
    assert b == a + (b - a) && a !! (b - a);
  }

  // ---------- Reorder ----------

  function Elements(s: seq<int>): set<int> {
    set x | x in s
  }

  lemma {:induction false} ElementsSize(s: seq<int>)
    ensures |Elements(s)| <= |s|
    ensures |Elements(s)| == |s| <==> NoDuplicates(s)
    decreases |s|
  {
    if s != [] {
      var front, last := s[..|s| - 1], s[|s| - 1];
      ElementsSize(front);
      assert Elements(s) == Elements(front) + {last};
      if last in front {
        assert Elements(s) == Elements(front);
        var i :| 0 <= i < |front| && front[i] == last;
        assert s[i] == s[|s| - 1];
      } else {
        assert NoDuplicates(s) <==> NoDuplicates(front) by {
          assert forall i :: 0 <= i < |front| ==> s[i] == front[i] && front[i] != last;
        }
      }
    }
  }

  /** Equal length plus "every existing id is seen" accepts exactly the payloads that list every id once. */
  lemma ReorderAcceptsPermutations(keys: Keys, existing: seq<nat>, ids: seq<int>)
    requires IsOrder(keys, existing)
    ensures AcceptsOrder(existing, ids) <==> IsOrder(keys, ids)
  {
    ElementsSize(existing);
    ElementsSize(ids);
    assert Elements(existing) == keys.Keys;
    if AcceptsOrder(existing, ids) {
      assert Elements(existing) <= Elements(ids);
      SubsetSize(Elements(existing), Elements(ids));
      assert forall id :: id in ids <==> id in Elements(ids);
    }
    if IsOrder(keys, ids) {
      assert Elements(ids) == keys.Keys;
    }
  }

  /** Whatever numbers a payload holds: what passes the two checks are existing ids. */
  lemma AcceptedAreIds(keys: Keys, existing: seq<nat>, ids: seq<int>)
    requires IsOrder(keys, existing) && AcceptsOrder(existing, ids)
    ensures forall id :: id in ids ==> id >= 0 && id in keys
  {
    ElementsSize(existing);
    ElementsSize(ids);
    assert Elements(existing) <= Elements(ids);
    SubsetSize(Elements(existing), Elements(ids));
    forall id | id in ids ensures id >= 0 && id in keys {
      assert id in Elements(ids);
      assert id in Elements(existing);
    }
  }

  /** An accepted payload becomes the listing order; ids, flags, counters and cooldowns stay with their key. */
  lemma ReorderResult(db: Db, ids: seq<int>, order: seq<nat>)
    requires TableOk(db) && IsOrder(db.keys, order) && Reorder(db, ids, order).Ok?
    ensures var after := Reorder(db, ids, order).value;
      && TableOk(after) && after == db.(keys := after.keys) && IsOrder(db.keys, ids)
      && Ids(Listing(after.keys)) == ids
      && after.keys.Keys == db.keys.Keys
      && (forall id :: id in db.keys ==> after.keys[id] == db.keys[id].(priority := after.keys[id].priority))
  {
    ListingIds(Listing(db.keys), db.keys);
    ReorderAcceptsPermutations(db.keys, Ids(Listing(db.keys)), ids);
    DensePriorities(db.keys);
    assert forall i :: 0 <= i < |ids| ==> ids[i] in ids;
    RenumberedTable(db.keys, order, ids);
    var after := Reorder(db, ids, order).value.keys;
    ListingUnique(Listing(after), Rows(after, ids), after);
    SameAliases(after, db.keys);
  }

  lemma SameAliases(after: Keys, keys: Keys)
    requires after.Keys == keys.Keys && DistinctAliases(keys)
    requires forall id :: id in keys ==> after[id] == keys[id].(priority := after[id].priority)
    ensures DistinctAliases(after)
  {
  }

  /** In a table of at most 1,000,000 rows a reorder succeeds exactly when the payload is a permutation. */
  lemma ReorderSucceedsIff(db: Db, ids: seq<int>, order: seq<nat>)
    requires TableOk(db) && IsOrder(db.keys, order) && |db.keys| <= SHIFT
    ensures Reorder(db, ids, order).Ok? <==> IsOrder(db.keys, ids)
    ensures Reorder(db, ids, order).Err? ==> Reorder(db, ids, order).error == BadPayload
  {
    ListingIds(Listing(db.keys), db.keys);
    ReorderAcceptsPermutations(db.keys, Ids(Listing(db.keys)), ids);
    if IsOrder(db.keys, ids) {
      DensePriorities(db.keys);
      OrderLength(db.keys, ids);
      assert forall i :: 0 <= i < |ids| ==> ids[i] in ids;
      RenumberSucceeds(db.keys, order, ids);
    }
  }

  lemma OrderLength(keys: Keys, order: seq<int>)
    requires IsOrder(keys, order)
    ensures |order| == |keys|
  {
    ElementsSize(order);
    assert Elements(order) == keys.Keys && |keys.Keys| == |keys|;
  }

  /** Beyond 1,000,000 rows a valid payload trips the index when the rows are visited by ascending priority. */
  lemma ReorderTrips(db: Db, ids: seq<int>)
    requires TableOk(db) && |db.keys| > SHIFT && IsOrder(db.keys, ids)
    ensures Reorder(db, ids, Ids(Listing(db.keys))) == Err(Constraint)
  {
    var ks := Listing(db.keys);
    ListingIds(ks, db.keys);
    ReorderAcceptsPermutations(db.keys, Ids(ks), ids);
    DensePriorities(db.keys);
    DenseListingOf(db.keys, ks);
    ListingLength(ks, db.keys);
    assert ks[0] in ks && ks[SHIFT] in ks;
    AscendingTrips(db.keys, ks[0].id, ks[SHIFT].id);
  }

  ghost predicate ReorderSafe(db: Db, ids: seq<int>)
    requires Wf(db.keys)
  {
    forall order: seq<nat> :: IsOrder(db.keys, order) ==> Reorder(db, ids, order).Ok?
  }

  /** A payload goes through in every visiting order exactly when it is a permutation of at most 1,000,000 ids. */
  lemma ReorderSafeIff(db: Db, ids: seq<int>)
    requires TableOk(db)
    ensures ReorderSafe(db, ids) <==> |db.keys| <= SHIFT && IsOrder(db.keys, ids)
  {
    if |db.keys| <= SHIFT && IsOrder(db.keys, ids) {
      forall order: seq<nat> | IsOrder(db.keys, order) ensures Reorder(db, ids, order).Ok? { ReorderSucceedsIff(db, ids, order); }
    } else {
      ReorderUnsafe(db, ids);
    }
  }

  lemma ReorderUnsafe(db: Db, ids: seq<int>)
    requires TableOk(db) && !(|db.keys| <= SHIFT && IsOrder(db.keys, ids))
    ensures !ReorderSafe(db, ids)
  {
    var listed := Ids(Listing(db.keys));
    ListingIds(Listing(db.keys), db.keys);
    if IsOrder(db.keys, ids) {
      ReorderTrips(db, ids);
    } else {
      ReorderAcceptsPermutations(db.keys, listed, ids);
    }
    assert Reorder(db, ids, listed).Err?;
  }
}
