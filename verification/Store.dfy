/** The tables of the store and the meaning of each statement on them, as functions from one database
    value to the next.  The constraints of the schema (unique alias, unique priority, foreign key, CHECKs)
    are part of the meaning: a statement that would violate one fails, and its transaction is rolled back. */
module Store {
  import opened Wrappers

  // ---------- Tables ----------

  /** Time in nanoseconds. */
  type Time = int

  /** A row of upstream_keys. */
  datatype Key = Key(
    id: nat,
    alias: string,
    hint: string,
    secret: string,
    enabled: bool,
    priority: int,
    failures: nat,
    cooldownUntil: Option<Time>,
    lastError: string)

  type Keys = map<nat, Key>

  /** The columns of the single app_config row that its editing form writes. */
  datatype Config = Config(proxyUrl: string, baseUrl: string, authMode: string, threshold: int, cooldownSeconds: int)

  /** Who produced a log row: the gateway before any key was chosen, the gateway after choosing a key but
      before calling it, or the call itself.  The text column failure_reason carries this in the table. */
  datatype Origin = NoKey | LocalAbort | Upstream

  /** What Proxy hands to InsertRequestLog. */
  datatype Entry = Entry(
    ts: Time,
    route: string,
    keyId: Option<nat>,
    alias: string,
    status: int,
    success: bool,
    origin: Origin)

  /** A row of request_logs. */
  datatype LogRow = LogRow(id: nat, entry: Entry)

  datatype Db = Db(keys: Keys, nextKey: nat, config: Config, logs: seq<LogRow>, nextLog: nat)

  datatype Error = NotFound | Constraint | BadPayload

  const SHIFT := 1_000_000
  const SECOND := 1_000_000_000
  const DAY := 24 * 3600 * SECOND
  const UNAUTHORIZED := 401

  // ---------- upstream_keys: order and constraints ----------

  ghost predicate Wf(keys: Keys) {
    forall id :: id in keys ==> keys[id].id == id
  }

  /** ORDER BY priority ASC, id ASC. */
  predicate Before(a: Key, b: Key) {
    a.priority < b.priority || (a.priority == b.priority && a.id < b.id)
  }

  ghost predicate Sorted(ks: seq<Key>) {
    forall i, j :: 0 <= i < j < |ks| ==> Before(ks[i], ks[j])
  }

  /** ks is the answer of ListUpstreamKeys on keys. */
  ghost predicate IsListing(ks: seq<Key>, keys: Keys) {
    && Wf(keys)
    && Sorted(ks)
    && (forall k :: k in ks ==> k.id in keys && keys[k.id] == k)
    && (forall id :: id in keys ==> keys[id] in ks)
  }

  /** No failure counted and no cooldown. */
  predicate Fresh(key: Key) {
    key.failures == 0 && key.cooldownUntil == None
  }

  function Ids(ks: seq<Key>): seq<nat> {
    seq(|ks|, i requires 0 <= i < |ks| => ks[i].id)
  }

  ghost predicate DistinctPriorities(keys: Keys) {
    forall i, j :: i in keys && j in keys && i != j ==> keys[i].priority != keys[j].priority
  }

  ghost predicate DistinctAliases(keys: Keys) {
    forall i, j :: i in keys && j in keys && i != j ==> keys[i].alias != keys[j].alias
  }

  /** The priorities are exactly 1..n, in listing order. */
  ghost predicate Dense(keys: Keys) {
    exists ks :: IsListing(ks, keys) && DenseListing(ks)
  }

  ghost predicate DenseListing(ks: seq<Key>) {
    forall i :: 0 <= i < |ks| ==> ks[i].priority == i + 1
  }

  predicate PriorityTaken(keys: Keys, id: int, priority: int) {
    exists j :: j in keys && j != id && keys[j].priority == priority
  }

  predicate AliasTaken(keys: Keys, id: nat, alias: string) {
    exists j :: j in keys && j != id && keys[j].alias == alias
  }

  // ---------- Renumbering, one row at a time ----------

  /** Every id of the table, each once: an order in which SQLite may visit the rows. */
  ghost predicate IsOrder(keys: Keys, order: seq<int>) {
    && NoDuplicates(order)
    && (forall id :: id in order <==> id in keys)
  }

  ghost predicate NoDuplicates(order: seq<int>) {
    forall i, j :: 0 <= i < j < |order| ==> order[i] != order[j]
  }

  /** One row's priority is written; the unique index is checked on the spot. */
  function SetPriority(keys: Keys, id: int, priority: int): Option<Keys> {
    if id !in keys then Some(keys)
    else if PriorityTaken(keys, id, priority) then None
    else Some(keys[id := keys[id].(priority := priority)])
  }

  /** UPDATE upstream_keys SET priority = priority + 1000000, visiting the rows in the given order. */
  function ShiftEach(keys: Keys, order: seq<nat>): Option<Keys> {
    if order == [] then Some(keys)
    else if order[0] !in keys then ShiftEach(keys, order[1..])
    else match SetPriority(keys, order[0], keys[order[0]].priority + SHIFT)
      case None => None
      case Some(next) => ShiftEach(next, order[1..])
  }

  /** The loop that gives ids[0], ids[1], ... the priorities first, first + 1, ... */
  function AssignEach(keys: Keys, ids: seq<int>, first: int): Option<Keys> {
    if ids == [] then Some(keys)
    else match SetPriority(keys, ids[0], first)
      case None => None
      case Some(next) => AssignEach(next, ids[1..], first + 1)
  }

  function Renumber(keys: Keys, order: seq<nat>, ids: seq<int>): Option<Keys> {
    match ShiftEach(keys, order)
    case None => None
    case Some(shifted) => AssignEach(shifted, ids, 1)
  }

  // ---------- upstream_keys: statements ----------

  /** SELECT MAX(priority) + 1, or 1 on the empty table. */
  ghost predicate IsNextPriority(p: int, keys: Keys) {
    if keys == map[] then p == 1
    else (forall id :: id in keys ==> keys[id].priority < p) && exists id :: id in keys && keys[id].priority == p - 1
  }

  ghost function NextPriority(keys: Keys): (p: int)
    ensures IsNextPriority(p, keys)
  {
    if keys == map[] then 1
    else
      assert exists top :: IsHighest(top, keys.Keys, keys) by { var top := Highest(keys, keys.Keys); }
      var top :| IsHighest(top, keys.Keys, keys);
      keys[top].priority + 1
  }

  ghost predicate IsHighest(top: nat, ids: set<nat>, keys: Keys) {
    top in ids && forall j :: j in ids ==> j in keys && top in keys && keys[j].priority <= keys[top].priority
  }

  lemma {:induction false} Highest(keys: Keys, ids: set<nat>) returns (top: nat)
    requires ids != {} && ids <= keys.Keys
    ensures IsHighest(top, ids, keys)
    decreases |ids|
  {
    top :| top in ids;
    if ids != {top} {
      var best := Highest(keys, ids - {top});
      if keys[top].priority < keys[best].priority { top := best; }
    }
  }

  ghost function CreateKey(db: Db, alias: string, hint: string, secret: string, enabled: bool): Result<Db, Error> {
    if AliasTaken(db.keys, db.nextKey, alias) then Err(Constraint)
    else
      var key := Key(db.nextKey, alias, hint, secret, enabled, NextPriority(db.keys), 0, None, "");
      Ok(db.(keys := db.keys[db.nextKey := key], nextKey := db.nextKey + 1))
  }

  function ReplaceKey(db: Db, id: nat, alias: string, hint: string, secret: string, enabled: bool): Result<Db, Error> {
    if id !in db.keys then Err(NotFound)
    else if AliasTaken(db.keys, id, alias) then Err(Constraint)
    else Ok(db.(keys := db.keys[id := db.keys[id].(alias := alias, hint := hint, secret := secret, enabled := enabled)]))
  }

  function SetEnabled(db: Db, id: nat, enabled: bool): Result<Db, Error> {
    if id !in db.keys then Err(NotFound)
    else Ok(db.(keys := db.keys[id := db.keys[id].(enabled := enabled)]))
  }

  /** ON DELETE SET NULL. */
  function Forget(row: LogRow, id: nat): LogRow {
    if row.entry.keyId == Some(id) then row.(entry := row.entry.(keyId := None)) else row
  }

  function ForgetAll(logs: seq<LogRow>, id: nat): seq<LogRow> {
    seq(|logs|, i requires 0 <= i < |logs| => Forget(logs[i], id))
  }

  /** DeleteUpstreamKey; ids is the survivors' listing, order the order in which the shift visits them. */
  function DeleteKey(db: Db, id: nat, order: seq<nat>, ids: seq<nat>): Result<Db, Error> {
    if id !in db.keys then Err(NotFound)
    else match Renumber(db.keys - {id}, order, ids)
      case None => Err(Constraint)
      case Some(keys) => Ok(db.(keys := keys, logs := ForgetAll(db.logs, id)))
  }

  /** The two checks ReorderUpstreamKeys makes on its payload. */
  predicate AcceptsOrder(existing: seq<int>, ids: seq<int>) {
    |existing| == |ids| && forall id :: id in existing ==> id in ids
  }

  function ReorderKeys(db: Db, existing: seq<nat>, ids: seq<int>, order: seq<nat>): Result<Db, Error> {
    if !AcceptsOrder(existing, ids) then Err(BadPayload)
    else match Renumber(db.keys, order, ids)
      case None => Err(Constraint)
      case Some(keys) => Ok(db.(keys := keys))
  }

  /** An int64 product wraps around. */
  function Wrap64(x: int): int {
    (x + 0x8000_0000_0000_0000) % 0x1_0000_0000_0000_0000 - 0x8000_0000_0000_0000
  }

  /** time.Duration(cooldown_seconds) * time.Second. */
  function CooldownNanos(seconds: int): int {
    Wrap64(seconds * SECOND)
  }

  /** One failed call: the counter grows, and the cooldown is armed again if the threshold is met. */
  function Failed(key: Key, threshold: int, cooldown: int, now: Time, summary: string): Key {
    key.(
      failures := key.failures + 1,
      cooldownUntil := if key.failures + 1 >= threshold then Some(now + cooldown) else key.cooldownUntil,
      lastError := summary)
  }

  function Succeeded(key: Key): Key {
    key.(failures := 0, cooldownUntil := None, lastError := "")
  }

  function RecordResult(db: Db, id: nat, success: bool, threshold: int, cooldown: int, now: Time, summary: string): Result<Db, Error> {
    if id !in db.keys then Err(NotFound)
    else
      var key := db.keys[id];
      Ok(db.(keys := db.keys[id := if success then Succeeded(key) else Failed(key, threshold, cooldown, now, summary)]))
  }

  // ---------- app_config ----------

  predicate ConfigOk(config: Config) {
    && config.authMode in ["authorization_bearer", "x_api_key"]
    && config.threshold >= 1 && config.cooldownSeconds >= 60
  }

  function UpdateConfig(db: Db, config: Config): Result<Db, Error> {
    if ConfigOk(config) then Ok(db.(config := config)) else Err(Constraint)
  }

  // ---------- request_logs ----------

  predicate RouteOk(route: string) {
    route == "/v1/messages" || route == "/v1/models"
  }

  /** InsertRequestLog: 401s are skipped; the CHECK on route and the foreign key can fail the insert. */
  function InsertLog(db: Db, entry: Entry): Result<Db, Error> {
    if entry.status == UNAUTHORIZED then Ok(db)
    else if !RouteOk(entry.route) || (entry.keyId.Some? && entry.keyId.value !in db.keys) then Err(Constraint)
    else Ok(db.(logs := db.logs + [LogRow(db.nextLog, entry)], nextLog := db.nextLog + 1))
  }

  /** WHERE request_ts >= since. */
  function Since(logs: seq<LogRow>, since: Time): seq<LogRow> {
    if logs == [] then []
    else
      var rest := Since(logs[..|logs| - 1], since);
      var last := logs[|logs| - 1];
      if last.entry.ts >= since then rest + [last] else rest
  }

  function CleanupLogs(db: Db, olderThan: Time): Db {
    db.(logs := Since(db.logs, olderThan))
  }
}
