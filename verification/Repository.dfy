/** The store as the program has it: methods that change the tables in place, one transaction each, proved
    against the functions of Store and KeyTable. */
module Repositories {
  import opened Wrappers
  import opened Store
  import opened Listings
  import opened KeyTable
  import opened Columns

  class Repository {
    var keys: Keys
    var nextKey: nat
    var config: Config
    var logs: seq<LogRow>
    var nextLog: nat

    ghost function Tables(): Db
      reads this
    {
      Db(keys, nextKey, config, logs, nextLog)
    }

    ghost predicate Valid()
      reads this
    {
      TableOk(Tables()) && ConfigOk(config)
    }

    constructor (config: Config)
      requires ConfigOk(config)
      ensures Valid() && Tables() == Db(map[], 1, config, [], 1)
    {
      this.keys, nextKey, this.config, logs, nextLog := map[], 1, config, [], 1;
      new;
      assert IsListing([], keys) && DenseListing([]);
    }

    // ---------- Queries ----------

    method ListUpstreamKeys() returns (ks: seq<Key>)
      requires Wf(keys)
      ensures ks == Listing(keys)
    {
      ks := [];
      var waiting := keys.Keys;
      while waiting != {}
        invariant waiting <= keys.Keys
        invariant IsListing(ks, Only(keys, keys.Keys - waiting))
        invariant forall k, id :: k in ks && id in waiting ==> Before(k, keys[id])
        decreases |waiting|
      {
        ghost var least := Least(keys, waiting);
        assert IsLeast(least, waiting, keys);
        var id :| id in waiting && forall j | j in waiting :: j == id || Before(keys[id], keys[j]);
        ghost var before := Only(keys, keys.Keys - waiting);
        ListingAppend(ks, before, keys[id]);
        waiting := waiting - {id};
        assert Only(keys, keys.Keys - waiting) == before[id := keys[id]];
        ks := ks + [keys[id]];
      }
      assert Only(keys, keys.Keys - waiting) == keys;
      ListingUnique(ks, Listing(keys), keys);
    }

    method NextPriorityOf() returns (p: int)
      ensures p == NextPriority(keys)
    {
      if keys == map[] { return 1; }
      var waiting := keys.Keys;
      var top :| top in waiting;
      waiting := waiting - {top};
      while waiting != {}
        invariant waiting <= keys.Keys && IsHighest(top, keys.Keys - waiting, keys)
        decreases |waiting|
      {
        var id :| id in waiting;
        if keys[top].priority < keys[id].priority { top := id; }
        waiting := waiting - {id};
      }
      assert IsHighest(top, keys.Keys, keys);
      return keys[top].priority + 1;
    }

    // ---------- Statements used inside transactions ----------

    /** UPDATE upstream_keys SET priority = priority + 1000000. */
    method ShiftRows(order: seq<nat>) returns (ok: bool)
      modifies this`keys
      ensures ok <==> ShiftEach(old(keys), order).Some?
      ensures ok ==> keys == ShiftEach(old(keys), order).value
    {
      var i := 0;
      assert order[0..] == order;
      while i < |order|
        invariant 0 <= i <= |order| && ShiftEach(keys, order[i..]) == ShiftEach(old(keys), order)
      {
        var id := order[i];
        assert order[i..][0] == id && order[i..][1..] == order[i + 1..];
        if id in keys {
          if PriorityTaken(keys, id, keys[id].priority + SHIFT) { return false; }
          keys := keys[id := keys[id].(priority := keys[id].priority + SHIFT)];
        }
        i := i + 1;
      }
      return true;
    }

    method AssignRows(ids: seq<int>) returns (ok: bool)
      modifies this`keys
      ensures ok <==> AssignEach(old(keys), ids, 1).Some?
      ensures ok ==> keys == AssignEach(old(keys), ids, 1).value
    {
      var i := 0;
      assert ids[0..] == ids;
      while i < |ids|
        invariant 0 <= i <= |ids| && AssignEach(keys, ids[i..], i + 1) == AssignEach(old(keys), ids, 1)
      {
        var id := ids[i];
        assert ids[i..][0] == id && ids[i..][1..] == ids[i + 1..];
        if id in keys {
          if PriorityTaken(keys, id, i + 1) { return false; }
          keys := keys[id := keys[id].(priority := i + 1)];
        }
        i := i + 1;
      }
      return true;
    }

    // ---------- Transactions on upstream_keys ----------

    method CreateUpstreamKey(alias: string, hint: string, secret: string, enabled: bool) returns (r: Result<Key, Error>)
      requires Valid()
      modifies this
      ensures Valid()
      ensures match CreateKey(old(Tables()), alias, hint, secret, enabled)
              case Ok(db) => Tables() == db && r == Ok(db.keys[old(nextKey)])
              case Err(e) => Tables() == old(Tables()) && r == Err(e)
      ensures r.Ok? <==> forall j :: j in old(keys) ==> old(keys)[j].alias != alias
      ensures r.Ok? ==> keys == old(keys)[old(nextKey) := Key(old(nextKey), alias, hint, secret, enabled, |old(keys)| + 1, 0, None, "")]
    {
      CreateColumns(Tables(), alias, hint, secret, enabled);
      var priority := NextPriorityOf();
      if AliasTaken(keys, nextKey, alias) { return Err(Constraint); }
      CreateKeeps(Tables(), alias, hint, secret, enabled);
      var key := Key(nextKey, alias, hint, secret, enabled, priority, 0, None, "");
      keys := keys[nextKey := key];
      nextKey := nextKey + 1;
      return Ok(key);
    }

    method ReplaceUpstreamKey(id: nat, alias: string, hint: string, secret: string, enabled: bool) returns (r: Result<Key, Error>)
      requires Valid()
      modifies this`keys
      ensures Valid()
      ensures match ReplaceKey(old(Tables()), id, alias, hint, secret, enabled)
              case Ok(db) => Tables() == db && r == Ok(db.keys[id])
              case Err(e) => Tables() == old(Tables()) && r == Err(e)
      ensures r.Ok? <==> id in old(keys) && NoOtherAlias(old(keys), id, alias)
      ensures r.Ok? ==> OnlyRow(old(Tables()), Tables(), id) && Replaced(old(keys)[id], keys[id], alias, hint, secret, enabled)
    {
      ReplaceResult(Tables(), id, alias, hint, secret, enabled);
      if id !in keys { return Err(NotFound); }
      if AliasTaken(keys, id, alias) { return Err(Constraint); }
      ReplaceKeeps(Tables(), id, alias, hint, secret, enabled);
      keys := keys[id := keys[id].(alias := alias, hint := hint, secret := secret, enabled := enabled)];
      return Ok(keys[id]);
    }

    method SetUpstreamEnabled(id: nat, enabled: bool) returns (r: Result<Key, Error>)
      requires Valid()
      modifies this`keys
      ensures Valid()
      ensures match SetEnabled(old(Tables()), id, enabled)
              case Ok(db) => Tables() == db && r == Ok(db.keys[id])
              case Err(e) => Tables() == old(Tables()) && r == Err(e)
    {
      if id !in keys { return Err(NotFound); }
      SetEnabledKeeps(Tables(), id, enabled);
      keys := keys[id := keys[id].(enabled := enabled)];
      return Ok(keys[id]);
    }

    method DeleteUpstreamKey(id: nat, order: seq<nat>) returns (r: Result<(), Error>)
      requires Valid() && (id in keys ==> IsOrder(keys - {id}, order))
      modifies this
      ensures match Delete(old(Tables()), id, order)
              case Ok(db) => Tables() == db && r == Ok(()) && TableOk(Tables())
              case Err(e) => Tables() == old(Tables()) && r == Err(e)
      ensures old(id in keys && DeleteFits(Tables(), id)) ==> r.Ok?
      ensures r.Ok? ==> keys.Keys == old(keys).Keys - {id} && LogsForgot(old(logs), logs, id)
    {
      DeleteColumns(Tables(), id, order);
      if id !in keys { return Err(NotFound); }
      var savedKeys, savedLogs := keys, logs;
      ghost var db := Tables();
      keys := keys - {id};
      logs := seq(|logs|, i requires 0 <= i < |savedLogs| => Forget(savedLogs[i], id));
      var survivors := ListUpstreamKeys();
      if DeleteFits(db, id) { DeleteSucceeds(db, id, order); }
      var shifted := ShiftRows(order);
      var done := false;
      if shifted { done := AssignRows(Ids(survivors)); }
      if !done {
        keys, logs := savedKeys, savedLogs;
        return Err(Constraint);
      }
      assert Delete(db, id, order).Ok?;
      DeleteKeepsTable(db, id, order);
      return Ok(());
    }

    /** Equal length, and every existing id is among those seen in the payload. */
    method AcceptsPayload(existing: seq<nat>, ids: seq<int>) returns (ok: bool)
      ensures ok <==> AcceptsOrder(existing, ids)
    {
      if |existing| != |ids| { return false; }
      var seen: set<int> := {};
      for i := 0 to |ids|
        invariant forall id :: id in seen <==> id in ids[..i]
      {
        seen := seen + {ids[i]};
        assert ids[..i + 1] == ids[..i] + [ids[i]];
      }
      assert ids[..|ids|] == ids;
      for i := 0 to |existing|
        invariant forall j :: 0 <= j < i ==> existing[j] in ids
      {
        if existing[i] !in seen { return false; }
      }
      return true;
    }

    method ReorderUpstreamKeys(ids: seq<int>, order: seq<nat>) returns (r: Result<(), Error>)
      requires Valid() && IsOrder(keys, order)
      modifies this
      ensures match Reorder(old(Tables()), ids, order)
              case Ok(db) => Tables() == db && r == Ok(()) && TableOk(Tables())
              case Err(e) => Tables() == old(Tables()) && r == Err(e)
      ensures old(|keys|) <= SHIFT ==> (r.Ok? <==> IsOrder(old(keys), ids))
    {
      if |keys| <= SHIFT { ReorderSucceedsIff(Tables(), ids, order); }
      var listed := ListUpstreamKeys();
      var existing := Ids(listed);
      var accepted := AcceptsPayload(existing, ids);
      if !accepted { return Err(BadPayload); }
      var saved := keys;
      ghost var db := Tables();
      var shifted := ShiftRows(order);
      var done := false;
      if shifted { done := AssignRows(ids); }
      if !done {
        keys := saved;
        return Err(Constraint);
      }
      ReorderResult(db, ids, order);
      return Ok(());
    }

    method RecordUpstreamResult(id: nat, success: bool, threshold: int, cooldown: int, now: Time, summary: string)
      returns (r: Result<Key, Error>)
      requires Valid()
      modifies this`keys
      ensures Valid()
      ensures match RecordResult(old(Tables()), id, success, threshold, cooldown, now, summary)
              case Ok(db) => Tables() == db && r == Ok(db.keys[id])
              case Err(e) => Tables() == old(Tables()) && r == Err(e)
      ensures r.Ok? <==> id in old(keys)
      ensures r.Ok? ==> OnlyRow(old(Tables()), Tables(), id)
      ensures r.Ok? ==> ResultWritten(old(keys)[id], keys[id], success, threshold, cooldown, now, summary)
    {
      RecordColumns(Tables(), id, success, threshold, cooldown, now, summary);
      if id !in keys { return Err(NotFound); }
      var key := keys[id];
      RecordKeeps(Tables(), id, success, threshold, cooldown, now, summary);
      if success {
        keys := keys[id := key.(failures := 0, cooldownUntil := None, lastError := "")];
      } else {
        var newFailures := key.failures + 1;
        var cooldownUntil := key.cooldownUntil;
        if newFailures >= threshold { cooldownUntil := Some(now + cooldown); }
        keys := keys[id := key.(failures := newFailures, cooldownUntil := cooldownUntil, lastError := summary)];
      }
      return Ok(keys[id]);
    }

    method UpdateAppConfig(proxyUrl: string, baseUrl: string, authMode: string, threshold: int, cooldownSeconds: int)
      returns (r: Result<Config, Error>)
      requires Valid()
      modifies this`config
      ensures Valid()
      ensures match UpdateConfig(old(Tables()), Config(proxyUrl, baseUrl, authMode, threshold, cooldownSeconds))
              case Ok(db) => Tables() == db && r == Ok(db.config)
              case Err(e) => Tables() == old(Tables()) && r == Err(e)
      ensures r.Ok? <==> (authMode == "authorization_bearer" || authMode == "x_api_key") && threshold >= 1 && cooldownSeconds >= 60
    {
      if authMode != "authorization_bearer" && authMode != "x_api_key" { return Err(Constraint); }
      if threshold < 1 || cooldownSeconds < 60 { return Err(Constraint); }
      config := Config(proxyUrl, baseUrl, authMode, threshold, cooldownSeconds);
      return Ok(config);
    }

    // ---------- Transactions on request_logs ----------

    method InsertRequestLog(entry: Entry) returns (r: Result<(), Error>)
      modifies this
      ensures match InsertLog(old(Tables()), entry)
              case Ok(db) => Tables() == db && r == Ok(())
              case Err(e) => Tables() == old(Tables()) && r == Err(e)
      ensures logs == old(logs) + if r.Ok? && entry.status != 401 then [LogRow(old(nextLog), entry)] else []
    {
      if entry.status == UNAUTHORIZED { return Ok(()); }
      if !RouteOk(entry.route) { return Err(Constraint); }
      if entry.keyId.Some? && entry.keyId.value !in keys { return Err(Constraint); }
      logs := logs + [LogRow(nextLog, entry)];
      nextLog := nextLog + 1;
      return Ok(());
    }

    method CleanupRequestLogs(olderThan: Time) returns (affected: nat)
      modifies this`logs
      ensures Tables() == CleanupLogs(old(Tables()), olderThan) && affected == |old(logs)| - |logs|
    {
      var kept: seq<LogRow> := [];
      affected := 0;
      for i := 0 to |logs|
        invariant kept == Since(logs[..i], olderThan) && affected == i - |kept|
      {
        assert logs[..i + 1][..i] == logs[..i];
        if logs[i].entry.ts < olderThan { affected := affected + 1; } else { kept := kept + [logs[i]]; }
      }
      assert logs[..|logs|] == logs;
      logs := kept;
    }
  }
}
