/** What each transaction does to every column, and exactly when it succeeds. */
module Columns {
  import opened Wrappers
  import opened Store
  import opened Listings
  import opened KeyTable
  import opened Gateway

  // ---------- upstream_keys ----------

  /** Of the whole store only the one row of upstream_keys may differ. */
  ghost predicate OnlyRow(before: Db, after: Db, id: nat) {
    && after.keys.Keys == before.keys.Keys
    && (forall j :: j in before.keys && j != id ==> after.keys[j] == before.keys[j])
    && after.nextKey == before.nextKey && after.config == before.config
    && after.logs == before.logs && after.nextLog == before.nextLog
  }

  ghost predicate NoOtherAlias(keys: Keys, id: nat, alias: string) {
    forall j :: j in keys && j != id ==> keys[j].alias != alias
  }

  /** The listing is as before but for the entry of one row. */
  ghost predicate OneEntry(before: Keys, after: Keys, id: nat)
    requires Wf(before) && Wf(after) && id in after
  {
    && |Listing(after)| == |Listing(before)|
    && forall i :: 0 <= i < |Listing(before)| ==>
         Listing(after)[i] == if Listing(before)[i].id == id then after[id] else Listing(before)[i]
  }

  /** A create goes through exactly if no row has the alias, and adds exactly the new row. */
  lemma CreateColumns(db: Db, alias: string, hint: string, secret: string, enabled: bool)
    requires TableOk(db)
    ensures var r := CreateKey(db, alias, hint, secret, enabled);
      && (r.Ok? <==> forall j :: j in db.keys ==> db.keys[j].alias != alias)
      && (r.Err? ==> r.error == Constraint)
      && (r.Ok? ==>
            && r.value.keys == db.keys[db.nextKey := Key(db.nextKey, alias, hint, secret, enabled, |db.keys| + 1, 0, None, "")]
            && r.value.nextKey == db.nextKey + 1
            && r.value.config == db.config && r.value.logs == db.logs && r.value.nextLog == db.nextLog)
  {
    var ks := Listing(db.keys);
    DenseListingOf(db.keys, ks);
    ListingLength(ks, db.keys);
    NextAfterDense(db.keys, ks);
  }

  /** The row after a replace: the four given values, and the rest as before. */
  predicate Replaced(before: Key, after: Key, alias: string, hint: string, secret: string, enabled: bool) {
    && after.alias == alias && after.hint == hint && after.secret == secret && after.enabled == enabled
    && after.id == before.id && after.priority == before.priority && after.failures == before.failures
    && after.cooldownUntil == before.cooldownUntil && after.lastError == before.lastError
  }

  /** A replace goes through exactly if the row exists and no other row has the alias.  Then the row holds the four
      given values, and nothing else has changed, in the store or in the listing. */
  lemma ReplaceResult(db: Db, id: nat, alias: string, hint: string, secret: string, enabled: bool)
    requires TableOk(db)
    ensures var r := ReplaceKey(db, id, alias, hint, secret, enabled);
      && (r.Ok? <==> id in db.keys && NoOtherAlias(db.keys, id, alias))
      && (r.Err? ==> r.error == if id in db.keys then Constraint else NotFound)
      && (r.Ok? ==>
            && OnlyRow(db, r.value, id) && Replaced(db.keys[id], r.value.keys[id], alias, hint, secret, enabled)
            && TableOk(r.value) && OneEntry(db.keys, r.value.keys, id))
  {
    var r := ReplaceKey(db, id, alias, hint, secret, enabled);
    if r.Ok? {
      EditKeeps(db, r.value.keys[id]);
    }
  }

  /** Switching a key on or off touches no other column. */
  lemma EnableColumns(db: Db, id: nat, enabled: bool)
    requires TableOk(db)
    ensures var r := SetEnabled(db, id, enabled);
      && (r.Ok? <==> id in db.keys)
      && (r.Err? ==> r.error == NotFound)
      && (r.Ok? ==>
            && OnlyRow(db, r.value, id) && OneEntry(db.keys, r.value.keys, id)
            && var key := db.keys[id]; Replaced(key, r.value.keys[id], key.alias, key.hint, key.secret, enabled))
  {
    if id in db.keys {
      OwnAliasFree(db.keys, id);
      EditKeeps(db, SetEnabled(db, id, enabled).value.keys[id]);
    }
  }

  /** The row after a result: counter, cooldown and error text are written, and the rest is as before. */
  predicate ResultWritten(before: Key, after: Key, success: bool, threshold: int, cooldown: int, now: Time, summary: string) {
    && after.id == before.id && after.alias == before.alias && after.hint == before.hint && after.secret == before.secret
    && after.enabled == before.enabled && after.priority == before.priority
    && (success ==> after.failures == 0 && after.cooldownUntil == None && after.lastError == "")
    && (!success ==>
          && after.failures == before.failures + 1 && after.lastError == summary
          && after.cooldownUntil == if before.failures + 1 < threshold then before.cooldownUntil else Some(now + cooldown))
  }

  lemma RecordColumns(db: Db, id: nat, success: bool, threshold: int, cooldown: int, now: Time, summary: string)
    ensures var r := RecordResult(db, id, success, threshold, cooldown, now, summary);
      && (r.Ok? <==> id in db.keys)
      && (r.Err? ==> r.error == NotFound)
      && (r.Ok? ==>
            OnlyRow(db, r.value, id) && ResultWritten(db.keys[id], r.value.keys[id], success, threshold, cooldown, now, summary))
  {
  }

  // ---------- request_logs ----------

  /** Every row of the log is still there with all its columns, but those of the key no longer name it. */
  ghost predicate LogsForgot(before: seq<LogRow>, after: seq<LogRow>, id: nat) {
    && |after| == |before|
    && forall i :: 0 <= i < |before| ==> var had, has := before[i].entry, after[i].entry;
         && after[i].id == before[i].id
         && has.ts == had.ts && has.route == had.route && has.alias == had.alias
         && has.status == had.status && has.success == had.success && has.origin == had.origin
         && has.keyId == if had.keyId == Some(id) then None else had.keyId
  }

  /** A delete drops one row; of the others only the priority can change, and of the log only its references. */
  lemma DeleteColumns(db: Db, id: nat, order: seq<nat>)
    requires TableOk(db) && (id in db.keys ==> IsOrder(db.keys - {id}, order))
    ensures var r := Delete(db, id, order);
      && (r.Err? ==> r.error == if id in db.keys then Constraint else NotFound)
      && (r.Ok? ==>
            && id in db.keys && r.value.keys.Keys == db.keys.Keys - {id}
            && (forall j :: j in r.value.keys ==> r.value.keys[j] == db.keys[j].(priority := r.value.keys[j].priority))
            && r.value.nextKey == db.nextKey && r.value.config == db.config && r.value.nextLog == db.nextLog
            && LogsForgot(db.logs, r.value.logs, id))
  {
    if id in db.keys && Delete(db, id, order).Ok? { DeleteKeepsColumns(db, id, order); }
  }

  /** An insert: 401 is skipped, an unknown route or key is refused, and any other row goes to the end of the log. */
  lemma InsertColumns(db: Db, entry: Entry)
    ensures var r := InsertLog(db, entry);
      if entry.status == 401 then r == Ok(db)
      else if (entry.route == "/v1/messages" || entry.route == "/v1/models") && (entry.keyId == None || entry.keyId.value in db.keys) then
        r == Ok(Db(db.keys, db.nextKey, db.config, db.logs + [LogRow(db.nextLog, entry)], db.nextLog + 1))
      else r == Err(Constraint)
  {
  }

  // ---------- In the running gateway ----------

  /** What the mark of a result does to the tables, with the bounds of success written out. */
  lemma RecordStepColumns(s: State, req: nat, summary: string)
    requires Inv(s) && req in s.reqs && s.reqs[req].Marking?
    ensures var p := s.reqs[req]; var after := Step(s, Record(req, true, summary));
      if p.key in s.db.keys then
        && OnlyRow(s.db, after.db, p.key)
        && ResultWritten(s.db.keys[p.key], after.db.keys[p.key], p.outcome.Answer? && 200 <= p.outcome.status < 300,
             p.config.threshold, CooldownNanos(p.config.cooldownSeconds), s.now, summary)
      else after.db == s.db
  {
  }

  /** An edit in the running gateway does what the transaction does, or nothing. */
  lemma ReplaceStepColumns(s: State, id: nat, alias: string, hint: string, secret: string, enabled: bool)
    requires Inv(s)
    ensures var after := Step(s, ReplaceAction(id, alias, hint, secret, enabled));
      && after == s.(db := after.db)
      && if id in s.db.keys && NoOtherAlias(s.db.keys, id, alias) then
           OnlyRow(s.db, after.db, id) && Replaced(s.db.keys[id], after.db.keys[id], alias, hint, secret, enabled)
         else after.db == s.db
  {
    ReplaceResult(s.db, id, alias, hint, secret, enabled);
  }

  /** Saving a configuration: both modes, a threshold from 1 and a cooldown from 60 seconds pass, nothing else. */
  lemma ConfigStepColumns(s: State, config: Config)
    requires Inv(s)
    ensures var after := Step(s, ConfigAction(config));
      && after == s.(db := s.db.(config := after.db.config))
      && after.db.config ==
         if (config.authMode == "authorization_bearer" || config.authMode == "x_api_key") && config.threshold >= 1
            && config.cooldownSeconds >= 60 then config else s.db.config
  {
  }

  /** A cleanup takes exactly the rows older than 24 hours, in nanoseconds, before the clock it read. */
  lemma CleanupStepColumns(s: State, lag: nat)
    requires Inv(s)
    ensures var after := Step(s, CleanupAction(lag));
      && after == s.(db := s.db.(logs := after.db.logs)) && IdsGrow(after.db.logs)
      && forall row :: row in after.db.logs <==> row in s.db.logs && row.entry.ts >= s.now - lag - 86_400_000_000_000
  {
    SinceMembers(s.db.logs, s.now - lag - DAY);
    StepKeeps(s, CleanupAction(lag));
  }
}
