/** Who is let into the administration: bootstrap, login, reset and request checks as handlers that interleave
    freely, each broken up where it lets go of the database. */
module AuthProtocol {
  import opened Wrappers

  /** The part of app_config that decides.  The empty hash means no key has been set. */
  datatype Account = Account(hash: string, version: int)

  // ---------- The two transactions ----------

  datatype Error = AlreadyInitialized

  function Bootstrapped(account: Account, hash: string): Result<Account, Error> {
    if account.hash != "" then Err(AlreadyInitialized) else Ok(Account(hash, 1))
  }

  function Changed(account: Account, hash: string): Account {
    Account(hash, account.version + 1)
  }

  class AppConfig {
    var hash: string
    var version: int

    ghost function Value(): Account
      reads this
    {
      Account(hash, version)
    }

    constructor ()
      ensures Value() == Account("", 1)
    {
      hash, version := "", 1;
    }

    method BootstrapDownstreamKey(keyHash: string) returns (r: Result<(), Error>)
      modifies this
      ensures match Bootstrapped(old(Value()), keyHash)
              case Ok(account) => Value() == account && r == Ok(())
              case Err(e) => Value() == old(Value()) && r == Err(e)
    {
      if hash != "" { return Err(AlreadyInitialized); }
      hash, version := keyHash, 1;
      return Ok(());
    }

    method UpdateDownstreamKey(keyHash: string)
      modifies this
      ensures Value() == Changed(old(Value()), keyHash)
    {
      hash := keyHash;
      version := version + 1;
    }
  }

  // ---------- Handlers ----------

  /** A session cookie: the token's content. */
  datatype Cookie = Cookie(version: int, expiresAt: int)

  datatype Handler =
    | BootHashed(password: string, newHash: string)
    | BootCommitted(password: string)
    | LoginRead(password: string, seen: Account)
    | LoginVerified(password: string, seen: Account)
    | Checking(cookie: Cookie)
    | Authorized(cookie: Cookie)
    | ResetHashed(cookie: Cookie, newHash: string)

  datatype Event =
    | Bootstrap(hash: string)
    | Reset(h: nat, cookie: Cookie, version: int, hash: string)
    | Issue(cookie: Cookie, password: string)
    | Accept(h: nat, cookie: Cookie)
    | Refuse(cookie: Cookie)

  /** keys remembers which hash came into force with which version. */
  datatype State = State(account: Account, handlers: map<nat, Handler>, issued: set<Cookie>, keys: map<int, string>, trace: seq<Event>)

  datatype Action =
    | StartBootstrap(h: nat, password: string, hash: string)
    | CommitBootstrap(h: nat)
    | StartLogin(h: nat, password: string)
    | VerifyLogin(h: nat)
    | SetCookie(h: nat, expiresAt: int)
    | StartCheck(h: nat, cookie: Cookie, now: int)
    | FinishCheck(h: nat)
    | StartReset(h: nat, hash: string)
    | CommitReset(h: nat)
    | End(h: nat)

  predicate Initial(s: State) {
    s == State(Account("", 1), map[], {}, map[], [])
  }

  function Goto(s: State, h: nat, handler: Handler): State {
    s.(handlers := s.handlers[h := handler])
  }

  function Finish(s: State, h: nat): State {
    s.(handlers := s.handlers - {h})
  }

  function Emit(s: State, e: Event): State {
    s.(trace := s.trace + [e])
  }

  function GiveCookie(s: State, h: nat, cookie: Cookie, password: string): State {
    Emit(Finish(s, h).(issued := s.issued + {cookie}), Issue(cookie, password))
  }

  /** The handlers' steps, for the hash check verify; an action that is not possible changes nothing.  Only
      cookies that were issued get past the signature. */
  function Step(verify: (string, string) -> bool, s: State, a: Action): State {
    match a
    case StartBootstrap(h, password, hash) =>
      if h !in s.handlers && password != "" && hash != "" && verify(password, hash) then Goto(s, h, BootHashed(password, hash)) else s
    case CommitBootstrap(h) =>
      if h in s.handlers && s.handlers[h].BootHashed? then
        match Bootstrapped(s.account, s.handlers[h].newHash)
        case Err(_) => Finish(s, h)
        case Ok(account) =>
          Emit(Goto(s, h, BootCommitted(s.handlers[h].password)).(account := account, keys := s.keys[account.version := account.hash]),
               Bootstrap(account.hash))
      else s
    case StartLogin(h, password) =>
      if h !in s.handlers && s.account.hash != "" then Goto(s, h, LoginRead(password, s.account)) else s
    case VerifyLogin(h) =>
      if h in s.handlers && s.handlers[h].LoginRead? then
        var p := s.handlers[h];
        if verify(p.password, p.seen.hash) then Goto(s, h, LoginVerified(p.password, p.seen)) else Finish(s, h)
      else s
    case SetCookie(h, expiresAt) =>
      if h in s.handlers && s.handlers[h].BootCommitted? then GiveCookie(s, h, Cookie(1, expiresAt), s.handlers[h].password)
      else if h in s.handlers && s.handlers[h].LoginVerified? then
        GiveCookie(s, h, Cookie(s.handlers[h].seen.version, expiresAt), s.handlers[h].password)
      else s
    case StartCheck(h, cookie, now) =>
      if h !in s.handlers && cookie in s.issued && now < cookie.expiresAt then Goto(s, h, Checking(cookie)) else s
    case FinishCheck(h) =>
      if h in s.handlers && s.handlers[h].Checking? then
        var cookie := s.handlers[h].cookie;
        if cookie.version == s.account.version then Emit(Goto(s, h, Authorized(cookie)), Accept(h, cookie))
        else Emit(Finish(s, h), Refuse(cookie))
      else s
    case StartReset(h, hash) =>
      if h in s.handlers && s.handlers[h].Authorized? && hash != "" then Goto(s, h, ResetHashed(s.handlers[h].cookie, hash))
      else s
    case CommitReset(h) =>
      if h in s.handlers && s.handlers[h].ResetHashed? then
        var account := Changed(s.account, s.handlers[h].newHash);
        Emit(Finish(s, h).(account := account, keys := s.keys[account.version := account.hash]),
             Reset(h, s.handlers[h].cookie, account.version, account.hash))
      else s
    case End(h) => Finish(s, h)
  }

  function Run(verify: (string, string) -> bool, s: State, actions: seq<Action>): State
    decreases |actions|
  {
    if actions == [] then s else Run(verify, Step(verify, s, actions[0]), actions[1..])
  }

  // ---------- What every step keeps ----------

  function Resets(trace: seq<Event>): nat {
    if trace == [] then 0 else Resets(trace[..|trace| - 1]) + if trace[|trace| - 1].Reset? then 1 else 0
  }

  function Bootstraps(trace: seq<Event>): nat {
    if trace == [] then 0 else Bootstraps(trace[..|trace| - 1]) + if trace[|trace| - 1].Bootstrap? then 1 else 0
  }

  /** The holder has shown the key that came into force with the version. */
  predicate Vouched(verify: (string, string) -> bool, s: State, version: int, password: string) {
    version in s.keys && 1 <= version <= s.account.version && verify(password, s.keys[version])
  }

  /** The last check that handler h has passed, as event j, let the cookie in. */
  predicate LetIn(trace: seq<Event>, h: nat, cookie: Cookie, j: nat) {
    && j < |trace| && trace[j] == Accept(h, cookie)
    && forall k :: j < k < |trace| && trace[k].Accept? ==> trace[k].h != h
  }

  ghost predicate HandlerOk(verify: (string, string) -> bool, s: State, h: nat, p: Handler) {
    match p
    case BootHashed(password, hash) => hash != "" && verify(password, hash)
    case BootCommitted(password) => s.account.hash != "" && Vouched(verify, s, 1, password)
    case LoginRead(_, seen) =>
      s.account.hash != "" && seen.version in s.keys && seen.hash == s.keys[seen.version] && 1 <= seen.version <= s.account.version
    case LoginVerified(password, seen) => s.account.hash != "" && Vouched(verify, s, seen.version, password)
    case Checking(cookie) => cookie in s.issued
    case Authorized(cookie) => cookie in s.issued && exists j: nat :: LetIn(s.trace, h, cookie, j)
    case ResetHashed(cookie, hash) => hash != "" && s.account.hash != "" && exists j: nat :: LetIn(s.trace, h, cookie, j)
  }

  /** What the past says about an event: cookies are issued to holders of the key of their version, a check
      accepts exactly the version that as many resets have made, and a reset comes from a handler let in before. */
  ghost predicate EventOk(verify: (string, string) -> bool, keys: map<int, string>, past: seq<Event>, e: Event) {
    match e
    case Bootstrap(_) => Bootstraps(past) == 0 && Resets(past) == 0
    case Reset(h, cookie, version, hash) =>
      version == 2 + Resets(past) && version in keys && keys[version] == hash && exists j: nat :: LetIn(past, h, cookie, j)
    case Issue(cookie, password) =>
      1 <= cookie.version <= 1 + Resets(past) && cookie.version in keys && verify(password, keys[cookie.version])
    case Accept(_, cookie) => cookie.version == 1 + Resets(past)
    case Refuse(cookie) => cookie.version != 1 + Resets(past)
  }

  ghost predicate TraceOk(verify: (string, string) -> bool, keys: map<int, string>, trace: seq<Event>) {
    trace == [] || (var past := trace[..|trace| - 1]; TraceOk(verify, keys, past) && EventOk(verify, keys, past, trace[|trace| - 1]))
  }

  ghost predicate AccountOk(s: State) {
    && s.account.version == 1 + Resets(s.trace)
    && Bootstraps(s.trace) == (if s.account.hash == "" then 0 else 1)
    && (s.account.hash == "" ==> s.issued == {} && s.account.version == 1)
    && (s.account.hash != "" ==> s.account.version in s.keys && s.keys[s.account.version] == s.account.hash)
    && (forall v :: v in s.keys ==> 1 <= v <= s.account.version && s.account.hash != "")
    && (forall c :: c in s.issued ==> 1 <= c.version <= s.account.version)
  }

  ghost predicate HandlersOk(verify: (string, string) -> bool, s: State) {
    forall h :: h in s.handlers ==> HandlerOk(verify, s, h, s.handlers[h])
  }

  ghost predicate Inv(verify: (string, string) -> bool, s: State) {
    AccountOk(s) && HandlersOk(verify, s) && TraceOk(verify, s.keys, s.trace)
  }

  lemma InitialInv(verify: (string, string) -> bool, s: State)
    requires Initial(s)
    ensures Inv(verify, s)
  {
  }

  /** The later state knows every key, cookie and event of the earlier one. */
  ghost predicate Grows(s: State, after: State) {
    && s.account.version <= after.account.version
    && (s.account.hash != "" ==> after.account.hash != "")
    && (forall v :: v in s.keys ==> v in after.keys && after.keys[v] == s.keys[v])
    && s.issued <= after.issued
    && s.trace <= after.trace
  }

  lemma HandlerCarries(verify: (string, string) -> bool, s: State, after: State, h: nat, p: Handler)
    requires HandlerOk(verify, s, h, p) && Grows(s, after)
    requires forall i :: |s.trace| <= i < |after.trace| && after.trace[i].Accept? ==> after.trace[i].h != h
    ensures HandlerOk(verify, after, h, p)
  {
    if p.Authorized? || p.ResetHashed? {
      var j: nat :| LetIn(s.trace, h, p.cookie, j);
      assert LetIn(after.trace, h, p.cookie, j);
    }
  }

  lemma HandlersCarry(verify: (string, string) -> bool, s: State, after: State, h: nat)
    requires HandlersOk(verify, s) && Grows(s, after)
    requires forall k :: k in after.handlers && k != h ==> k in s.handlers && after.handlers[k] == s.handlers[k]
    requires forall i :: |s.trace| <= i < |after.trace| && after.trace[i].Accept? ==> after.trace[i].h == h
    requires h in after.handlers ==> HandlerOk(verify, after, h, after.handlers[h])
    ensures HandlersOk(verify, after)
  {
    forall k | k in after.handlers ensures HandlerOk(verify, after, k, after.handlers[k]) {
      if k != h { HandlerCarries(verify, s, after, k, s.handlers[k]); }
    }
  }

  lemma {:induction false} TraceCarries(verify: (string, string) -> bool,
      before: map<int, string>, keys: map<int, string>, trace: seq<Event>)
    requires forall v :: v in before ==> v in keys && keys[v] == before[v]
    requires TraceOk(verify, before, trace)
    ensures TraceOk(verify, keys, trace)
  {
    if trace != [] { TraceCarries(verify, before, keys, trace[..|trace| - 1]); }
  }

  lemma TraceAppend(verify: (string, string) -> bool, keys: map<int, string>, trace: seq<Event>, e: Event)
    requires TraceOk(verify, keys, trace) && EventOk(verify, keys, trace, e)
    ensures TraceOk(verify, keys, trace + [e])
    ensures Resets(trace + [e]) == Resets(trace) + (if e.Reset? then 1 else 0)
    ensures Bootstraps(trace + [e]) == Bootstraps(trace) + (if e.Bootstrap? then 1 else 0)
  {
    assert (trace + [e])[..|trace|] == trace;
  }

  lemma {:induction false} TraceAt(verify: (string, string) -> bool, keys: map<int, string>, trace: seq<Event>, i: nat)
    requires TraceOk(verify, keys, trace) && i < |trace|
    ensures EventOk(verify, keys, trace[..i], trace[i])
  {
    var past := trace[..|trace| - 1];
    if i < |past| {
      TraceAt(verify, keys, past, i);
      assert past[..i] == trace[..i];
    }
  }

  lemma CommitBootstrapKeeps(verify: (string, string) -> bool, s: State, h: nat)
    requires Inv(verify, s)
    ensures Inv(verify, Step(verify, s, CommitBootstrap(h))) && Grows(s, Step(verify, s, CommitBootstrap(h)))
  {
    if h in s.handlers && s.handlers[h].BootHashed? {
      assert HandlerOk(verify, s, h, s.handlers[h]);
      var after := Step(verify, s, CommitBootstrap(h));
      if s.account.hash == "" {
        var e := Bootstrap(s.handlers[h].newHash);
        TraceCarries(verify, s.keys, after.keys, s.trace);
        TraceAppend(verify, after.keys, s.trace, e);
      }
      HandlersCarry(verify, s, after, h);
    }
  }

  lemma CommitResetKeeps(verify: (string, string) -> bool, s: State, h: nat)
    requires Inv(verify, s)
    ensures Inv(verify, Step(verify, s, CommitReset(h))) && Grows(s, Step(verify, s, CommitReset(h)))
  {
    if h in s.handlers && s.handlers[h].ResetHashed? {
      assert HandlerOk(verify, s, h, s.handlers[h]);
      var after := Step(verify, s, CommitReset(h));
      var e := Reset(h, s.handlers[h].cookie, after.account.version, after.account.hash);
      TraceCarries(verify, s.keys, after.keys, s.trace);
      TraceAppend(verify, after.keys, s.trace, e);
      HandlersCarry(verify, s, after, h);
    }
  }

  lemma GiveCookieKeeps(verify: (string, string) -> bool, s: State, h: nat, cookie: Cookie, password: string)
    requires Inv(verify, s) && Vouched(verify, s, cookie.version, password)
    ensures Inv(verify, GiveCookie(s, h, cookie, password)) && Grows(s, GiveCookie(s, h, cookie, password))
  {
    TraceAppend(verify, s.keys, s.trace, Issue(cookie, password));
    HandlersCarry(verify, s, GiveCookie(s, h, cookie, password), h);
  }

  lemma FinishCheckKeeps(verify: (string, string) -> bool, s: State, h: nat)
    requires Inv(verify, s)
    ensures Inv(verify, Step(verify, s, FinishCheck(h))) && Grows(s, Step(verify, s, FinishCheck(h)))
  {
    if h in s.handlers && s.handlers[h].Checking? {
      assert HandlerOk(verify, s, h, s.handlers[h]);
      var cookie := s.handlers[h].cookie;
      TraceAppend(verify, s.keys, s.trace, if cookie.version == s.account.version then Accept(h, cookie) else Refuse(cookie));
      var after := Step(verify, s, FinishCheck(h));
      if cookie.version == s.account.version { assert LetIn(after.trace, h, cookie, |s.trace|); }
      HandlersCarry(verify, s, after, h);
    }
  }

  lemma LocalStepKeeps(verify: (string, string) -> bool, s: State, a: Action)
    requires Inv(verify, s)
    requires a.StartBootstrap? || a.StartLogin? || a.VerifyLogin? || a.StartCheck? || a.StartReset? || a.End?
    ensures Inv(verify, Step(verify, s, a)) && Grows(s, Step(verify, s, a))
  {
    if a.h in s.handlers { assert HandlerOk(verify, s, a.h, s.handlers[a.h]); }
    HandlersCarry(verify, s, Step(verify, s, a), a.h);
  }

  /** Every step of every handler keeps the invariant, never lowers the version and never forgets which hash
      came with a version. */
  lemma StepKeeps(verify: (string, string) -> bool, s: State, a: Action)
    requires Inv(verify, s)
    ensures Inv(verify, Step(verify, s, a)) && Grows(s, Step(verify, s, a))
  {
    match a
    case CommitBootstrap(h) => CommitBootstrapKeeps(verify, s, h);
    case CommitReset(h) => CommitResetKeeps(verify, s, h);
    case FinishCheck(h) => FinishCheckKeeps(verify, s, h);
    case SetCookie(h, expiresAt) =>
      if h in s.handlers && (s.handlers[h].BootCommitted? || s.handlers[h].LoginVerified?) {
        var p := s.handlers[h];
        assert HandlerOk(verify, s, h, p);
        GiveCookieKeeps(verify, s, h, Cookie(if p.BootCommitted? then 1 else p.seen.version, expiresAt), p.password);
      }
    case _ => LocalStepKeeps(verify, s, a);
  }

  // ---------- Over all runs ----------

  /** The version never decreases, and the hash that came with a version never changes. */
  lemma {:induction false} VersionsOnlyGrow(verify: (string, string) -> bool, s: State, actions: seq<Action>)
    requires Inv(verify, s)
    ensures Inv(verify, Run(verify, s, actions)) && Grows(s, Run(verify, s, actions))
    decreases |actions|
  {
    if actions != [] {
      var next := Step(verify, s, actions[0]);
      StepKeeps(verify, s, actions[0]);
      VersionsOnlyGrow(verify, next, actions[1..]);
      GrowsTransitive(s, next, Run(verify, next, actions[1..]));
    }
  }

  lemma GrowsTransitive(a: State, b: State, c: State)
    requires Grows(a, b) && Grows(b, c)
    ensures Grows(a, c)
  {
  }

  /** Every event of every run is explained by the events before it. */
  lemma RunEvent(verify: (string, string) -> bool, s: State, actions: seq<Action>, i: nat)
    requires Initial(s) && i < |Run(verify, s, actions).trace|
    ensures var after := Run(verify, s, actions); EventOk(verify, after.keys, after.trace[..i], after.trace[i])
  {
    InitialInv(verify, s);
    VersionsOnlyGrow(verify, s, actions);
    TraceAt(verify, Run(verify, s, actions).keys, Run(verify, s, actions).trace, i);
  }

  lemma {:induction false} ResetsMonotone(trace: seq<Event>, i: nat, j: nat)
    requires i <= j <= |trace|
    ensures Resets(trace[..i]) <= Resets(trace[..j])
    ensures i < j && trace[i].Reset? ==> Resets(trace[..i]) < Resets(trace[..j])
    decreases j
  {
    if i < j {
      ResetsMonotone(trace, i, j - 1);
      assert trace[..j][..j - 1] == trace[..j - 1];
    }
  }

  lemma {:induction false} BootstrapSeen(trace: seq<Event>, i: nat, j: nat)
    requires i < j <= |trace| && trace[i].Bootstrap?
    ensures Bootstraps(trace[..j]) >= 1
    decreases j
  {
    assert trace[..j][..j - 1] == trace[..j - 1];
    if i < j - 1 { BootstrapSeen(trace, i, j - 1); }
  }

  /** Over all interleavings: bootstrap succeeds at most once. */
  lemma BootstrapOnce(verify: (string, string) -> bool, s: State, actions: seq<Action>, i: nat, j: nat)
    requires Initial(s) && i < j < |Run(verify, s, actions).trace|
    ensures var trace := Run(verify, s, actions).trace; !(trace[i].Bootstrap? && trace[j].Bootstrap?)
  {
    var trace := Run(verify, s, actions).trace;
    RunEvent(verify, s, actions, j);
    if trace[i].Bootstrap? { BootstrapSeen(trace, i, j); }
  }

  /** A reset invalidates for ever: a cookie accepted after a reset has the version of that reset or a later
      one, and every cookie issued before it has an older one. */
  lemma ResetInvalidates(verify: (string, string) -> bool, s: State, actions: seq<Action>, i: nat, r: nat, j: nat)
    requires Initial(s)
    requires i < r < j < |Run(verify, s, actions).trace|
    requires var trace := Run(verify, s, actions).trace; trace[i].Issue? && trace[r].Reset? && trace[j].Accept?
    ensures var trace := Run(verify, s, actions).trace;
      trace[i].cookie.version < trace[r].version <= trace[j].cookie.version && trace[i].cookie != trace[j].cookie
  {
    var trace := Run(verify, s, actions).trace;
    RunEvent(verify, s, actions, i);
    RunEvent(verify, s, actions, r);
    RunEvent(verify, s, actions, j);
    ResetsMonotone(trace, i, r);
    ResetsMonotone(trace, r, j);
  }

  /** Whatever was on its way when a reset committed - a login that had read or verified the old key, a
      bootstrap about to set its cookie - ends in a cookie that no later check accepts. */
  lemma PendingLoginsAreStale(verify: (string, string) -> bool, s: State, a: Action, h: nat, later: seq<Action>)
    requires Inv(verify, s) && a.CommitReset? && a.h in s.handlers && s.handlers[a.h].ResetHashed?
    requires h in s.handlers && (s.handlers[h].LoginRead? || s.handlers[h].LoginVerified? || s.handlers[h].BootCommitted?)
    ensures (if s.handlers[h].BootCommitted? then 1 else s.handlers[h].seen.version)
            < Run(verify, Step(verify, s, a), later).account.version
  {
    assert HandlerOk(verify, s, h, s.handlers[h]);
    StepKeeps(verify, s, a);
    VersionsOnlyGrow(verify, Step(verify, s, a), later);
  }

  /** Each version stands for one key: all who hold a cookie of a version have shown a password that the hash
      in force under that version verifies. */
  lemma VersionsVouchForOneKey(verify: (string, string) -> bool, s: State, actions: seq<Action>, i: nat, j: nat)
    requires Initial(s)
    requires var trace := Run(verify, s, actions).trace;
      i < |trace| && j < |trace| && trace[i].Issue? && trace[j].Issue? && trace[i].cookie.version == trace[j].cookie.version
    ensures var after := Run(verify, s, actions); var v := after.trace[i].cookie.version;
      && v in after.keys && verify(after.trace[i].password, after.keys[v]) && verify(after.trace[j].password, after.keys[v])
      && (v == after.account.version ==> after.keys[v] == after.account.hash)
  {
    InitialInv(verify, s);
    VersionsOnlyGrow(verify, s, actions);
    RunEvent(verify, s, actions, i);
    RunEvent(verify, s, actions, j);
  }

  /** Checks are exact: a check reads acceptance if and only if the cookie carries the current version. */
  lemma ChecksAreExact(verify: (string, string) -> bool, s: State, actions: seq<Action>, j: nat)
    requires Initial(s) && j < |Run(verify, s, actions).trace|
    requires var e := Run(verify, s, actions).trace[j]; e.Accept? || e.Refuse?
    ensures var trace := Run(verify, s, actions).trace; trace[j].Accept? <==> trace[j].cookie.version == 1 + Resets(trace[..j])
  {
    RunEvent(verify, s, actions, j);
  }

  // ---------- Resets of an authorization that has run out ----------

  lemma {:induction false} NoResetBetween(trace: seq<Event>, i: nat, j: nat)
    requires i <= j <= |trace| && forall m :: i <= m < j ==> !trace[m].Reset?
    ensures Resets(trace[..i]) == Resets(trace[..j])
    decreases j
  {
    if i < j {
      NoResetBetween(trace, i, j - 1);
      assert trace[..j][..j - 1] == trace[..j - 1];
    }
  }

  /** The reset takes effect although its handler's cookie would no longer pass the check. */
  predicate Outdated(trace: seq<Event>, r: nat)
    requires r < |trace| && trace[r].Reset?
  {
    trace[r].cookie.version != 1 + Resets(trace[..r])
  }

  predicate ResetWithin(trace: seq<Event>, j: nat, r: nat)
    requires r <= |trace|
  {
    exists m :: j < m < r && trace[m].Reset?
  }

  /** In every run a reset comes from a handler that passed the check, and its cookie has run out by then if and
      only if another reset committed in between. */
  lemma OutdatedResetIff(verify: (string, string) -> bool, s: State, actions: seq<Action>, r: nat)
    requires Initial(s) && r < |Run(verify, s, actions).trace| && Run(verify, s, actions).trace[r].Reset?
    ensures var trace := Run(verify, s, actions).trace;
      exists j: nat :: LetIn(trace[..r], trace[r].h, trace[r].cookie, j) && (Outdated(trace, r) <==> ResetWithin(trace, j, r))
  {
    var trace := Run(verify, s, actions).trace;
    RunEvent(verify, s, actions, r);
    var j: nat :| LetIn(trace[..r], trace[r].h, trace[r].cookie, j);
    assert trace[j] == trace[..r][j];
    RunEvent(verify, s, actions, j);
    if ResetWithin(trace, j, r) {
      var m :| j < m < r && trace[m].Reset?;
      ResetsMonotone(trace, j, m);
      ResetsMonotone(trace, m, r);
    } else {
      NoResetBetween(trace, j, r);
    }
  }

  lemma {:induction false} RunAppend(verify: (string, string) -> bool, s: State, first: seq<Action>, second: seq<Action>)
    ensures Run(verify, s, first + second) == Run(verify, Run(verify, s, first), second)
    decreases |first|
  {
    if first == [] {
      assert first + second == second;
    } else {
      assert (first + second)[1..] == first[1..] + second;
      RunAppend(verify, Step(verify, s, first[0]), first[1..], second);
    }
  }

  lemma RunThree(verify: (string, string) -> bool, s: State, a: Action, b: Action, c: Action)
    ensures Run(verify, s, [a, b, c]) == Step(verify, Step(verify, Step(verify, s, a), b), c)
  {
    var s1 := Step(verify, s, a);
    var s2 := Step(verify, s1, b);
    assert [c][1..] == [];
    assert Run(verify, s2, [c]) == Step(verify, s2, c);
    assert [b, c][1..] == [c];
    assert Run(verify, s1, [b, c]) == Run(verify, s2, [c]);
    assert [a, b, c][1..] == [b, c];
  }

  /** The first key is set, and handler 0 gets the cookie. */
  function SetUp(password: string, hash: string, cookie: Cookie): seq<Action> {
    [StartBootstrap(0, password, hash), CommitBootstrap(0), SetCookie(0, cookie.expiresAt)]
  }

  /** A handler passes the check and hashes a new key. */
  function CheckAndHash(h: nat, cookie: Cookie, now: int, hash: string): seq<Action> {
    [StartCheck(h, cookie, now), FinishCheck(h), StartReset(h, hash)]
  }

  /** Handlers 1 and 2 both pass the check with the cookie before either commits its reset. */
  function TwoResets(password: string, hash: string, cookie: Cookie, now: int, first: string, second: string): seq<Action> {
    SetUp(password, hash, cookie)
      + (CheckAndHash(1, cookie, now, first) + (CheckAndHash(2, cookie, now, second) + [CommitReset(1), CommitReset(2), End(0)]))
  }

  lemma CheckAndHashResult(verify: (string, string) -> bool, s: State, h: nat, cookie: Cookie, now: int, hash: string)
    requires h !in s.handlers && cookie in s.issued && now < cookie.expiresAt && cookie.version == s.account.version && hash != ""
    ensures Run(verify, s, CheckAndHash(h, cookie, now, hash)) ==
      s.(handlers := s.handlers[h := ResetHashed(cookie, hash)], trace := s.trace + [Accept(h, cookie)])
  {
    RunThree(verify, s, StartCheck(h, cookie, now), FinishCheck(h), StartReset(h, hash));
    var s1 := Step(verify, s, StartCheck(h, cookie, now));
    var s2 := Step(verify, s1, FinishCheck(h));
    assert s2.handlers == s.handlers[h := Authorized(cookie)];
    assert Step(verify, s2, StartReset(h, hash)).handlers == s.handlers[h := ResetHashed(cookie, hash)];
  }

  lemma SetUpResult(verify: (string, string) -> bool, s: State, password: string, hash: string, cookie: Cookie)
    requires Initial(s) && password != "" && hash != "" && verify(password, hash) && cookie.version == 1
    ensures Run(verify, s, SetUp(password, hash, cookie)) ==
      State(Account(hash, 1), map[], {cookie}, map[1 := hash], [Bootstrap(hash), Issue(cookie, password)])
  {
    RunThree(verify, s, StartBootstrap(0, password, hash), CommitBootstrap(0), SetCookie(0, cookie.expiresAt));
    var s1 := Step(verify, s, StartBootstrap(0, password, hash));
    var s2 := Step(verify, s1, CommitBootstrap(0));
    assert s2.handlers == map[0 := BootCommitted(password)];
    var s3 := Step(verify, s2, SetCookie(0, cookie.expiresAt));
    assert s3.handlers == map[] && s3.issued == {Cookie(1, cookie.expiresAt)} == {cookie};
  }

  lemma CommitBothResult(verify: (string, string) -> bool, s: State, cookie: Cookie, first: string, second: string)
    requires s.handlers == map[1 := ResetHashed(cookie, first), 2 := ResetHashed(cookie, second)] && s.account.version == 1
    ensures var after := Run(verify, s, [CommitReset(1), CommitReset(2), End(0)]);
      && after.account == Account(second, 3)
      && after.trace == s.trace + [Reset(1, cookie, 2, first), Reset(2, cookie, 3, second)]
  {
    RunThree(verify, s, CommitReset(1), CommitReset(2), End(0));
    var s1 := Step(verify, s, CommitReset(1));
    assert s1.handlers == map[2 := ResetHashed(cookie, second)] && s1.account == Account(first, 2);
    assert s1.trace == s.trace + [Reset(1, cookie, 2, first)];
    var s2 := Step(verify, s1, CommitReset(2));
    assert s2.account == Account(second, 3) && s2.trace == s1.trace + [Reset(2, cookie, 3, second)];
  }

  lemma TwoResetsCounted(trace: seq<Event>, rest: seq<Event>, a: Event, b: Event)
    requires trace == rest + [a, b] && a.Reset? && b.Reset? && forall k :: 0 <= k < |rest| ==> !rest[k].Reset?
    ensures Resets(trace[..|rest|]) == 0 && Resets(trace[..|rest| + 1]) == 1
  {
    NoResetBetween(trace, 0, |rest|);
    assert trace[..|rest| + 1][..|rest|] == trace[..|rest|];
  }

  /** From the state before any key is set: two handlers pass the check with one cookie, both resets commit, and
      the key of the second, whose cookie has run out, is the one in force. */
  lemma OutdatedResetHappens(verify: (string, string) -> bool, s: State, password: string, hash: string, cookie: Cookie, now: int,
      first: string, second: string)
    requires Initial(s) && password != "" && hash != "" && first != "" && second != "" && verify(password, hash)
    requires cookie.version == 1 && now < cookie.expiresAt
    ensures var after := Run(verify, s, TwoResets(password, hash, cookie, now, first, second));
      && after.account == Account(second, 3)
      && after.trace == [Bootstrap(hash), Issue(cookie, password), Accept(1, cookie), Accept(2, cookie),
                         Reset(1, cookie, 2, first), Reset(2, cookie, 3, second)]
      && !Outdated(after.trace, 4) && Outdated(after.trace, 5)
  {
    var s1 := Run(verify, s, SetUp(password, hash, cookie));
    SetUpResult(verify, s, password, hash, cookie);
    var s2 := Run(verify, s1, CheckAndHash(1, cookie, now, first));
    CheckAndHashResult(verify, s1, 1, cookie, now, first);
    var s3 := Run(verify, s2, CheckAndHash(2, cookie, now, second));
    CheckAndHashResult(verify, s2, 2, cookie, now, second);
    var commits := [CommitReset(1), CommitReset(2), End(0)];
    CommitBothResult(verify, s3, cookie, first, second);
    RunAppend(verify, s2, CheckAndHash(2, cookie, now, second), commits);
    RunAppend(verify, s1, CheckAndHash(1, cookie, now, first), CheckAndHash(2, cookie, now, second) + commits);
    RunAppend(verify, s, SetUp(password, hash, cookie),
      CheckAndHash(1, cookie, now, first) + (CheckAndHash(2, cookie, now, second) + commits));
    TwoResetsCounted(Run(verify, s3, commits).trace, s3.trace, Reset(1, cookie, 2, first), Reset(2, cookie, 3, second));
  }

  // ---------- What a handler gets done ----------

  predicate NotBy(actions: seq<Action>, h: nat) {
    forall i :: 0 <= i < |actions| ==> actions[i].h != h
  }

  lemma StepOfOthers(verify: (string, string) -> bool, s: State, a: Action, h: nat)
    requires a.h != h
    ensures h in Step(verify, s, a).handlers <==> h in s.handlers
    ensures h in s.handlers ==> Step(verify, s, a).handlers[h] == s.handlers[h]
  {
  }

  /** What others do leaves a handler where it is. */
  lemma {:induction false} RunOfOthers(verify: (string, string) -> bool, s: State, actions: seq<Action>, h: nat)
    requires NotBy(actions, h)
    ensures h in Run(verify, s, actions).handlers <==> h in s.handlers
    ensures h in s.handlers ==> Run(verify, s, actions).handlers[h] == s.handlers[h]
    decreases |actions|
  {
    if actions != [] {
      StepOfOthers(verify, s, actions[0], h);
      RunOfOthers(verify, Step(verify, s, actions[0]), actions[1..], h);
    }
  }

  /** The states of a login, with whatever others do between its steps. */
  function LoginRun(verify: (string, string) -> bool, s: State, h: nat, password: string, one: seq<Action>, two: seq<Action>)
    : (State, State)
  {
    var read := Run(verify, Step(verify, s, StartLogin(h, password)), one);
    var checked := Run(verify, Step(verify, read, VerifyLogin(h)), two);
    (read, checked)
  }

  /** Once a key is set, a login gets a cookie of the version it has read exactly if its password verifies against
      the hash it has read, whatever other handlers do meanwhile; and otherwise it is over without a cookie. */
  lemma LoginOutcome(verify: (string, string) -> bool, s: State, h: nat, password: string, one: seq<Action>, two: seq<Action>,
      expiresAt: int)
    requires s.account.hash != "" && h !in s.handlers && NotBy(one, h) && NotBy(two, h)
    ensures var (read, checked) := LoginRun(verify, s, h, password, one, two);
      var after := Step(verify, checked, SetCookie(h, expiresAt)); var cookie := Cookie(s.account.version, expiresAt);
      && h !in after.handlers && after.account == checked.account
      && if verify(password, s.account.hash) then
           after.issued == checked.issued + {cookie} && after.trace == checked.trace + [Issue(cookie, password)]
         else
           && h !in Step(verify, read, VerifyLogin(h)).handlers && Step(verify, read, VerifyLogin(h)).trace == read.trace
           && after == checked
  {
    var started := Step(verify, s, StartLogin(h, password));
    var (read, checked) := LoginRun(verify, s, h, password, one, two);
    assert started.handlers[h] == LoginRead(password, s.account);
    RunOfOthers(verify, started, one, h);
    RunOfOthers(verify, Step(verify, read, VerifyLogin(h)), two, h);
  }

  /** A first key sets itself: of the handlers that want to set one, the first to commit gets version 1 and its
      cookie; one that commits later gets nothing and changes nothing. */
  lemma BootstrapOutcome(verify: (string, string) -> bool, s: State, h: nat, password: string, hash: string, one: seq<Action>,
      two: seq<Action>, expiresAt: int)
    requires h !in s.handlers && password != "" && hash != "" && verify(password, hash) && NotBy(one, h) && NotBy(two, h)
    ensures var hashed := Run(verify, Step(verify, s, StartBootstrap(h, password, hash)), one);
      var committed := Step(verify, hashed, CommitBootstrap(h)); var later := Run(verify, committed, two);
      var after := Step(verify, later, SetCookie(h, expiresAt)); var cookie := Cookie(1, expiresAt);
      && h !in after.handlers
      && if hashed.account.hash == "" then
           committed.account == Account(hash, 1) && committed.trace == hashed.trace + [Bootstrap(hash)]
           && after.issued == later.issued + {cookie} && after.trace == later.trace + [Issue(cookie, password)]
         else committed == Finish(hashed, h) && after == later
  {
    var started := Step(verify, s, StartBootstrap(h, password, hash));
    assert started.handlers[h] == BootHashed(password, hash);
    RunOfOthers(verify, started, one, h);
    var hashed := Run(verify, started, one);
    RunOfOthers(verify, Step(verify, hashed, CommitBootstrap(h)), two, h);
  }

  /** A check of an issued cookie that starts before its expiry ends in acceptance exactly if the version is the
      current one when the check ends; any other check does not start. */
  lemma CheckOutcome(verify: (string, string) -> bool, s: State, h: nat, cookie: Cookie, now: int, one: seq<Action>)
    requires h !in s.handlers && NotBy(one, h)
    ensures var started := Step(verify, s, StartCheck(h, cookie, now));
      var checked := Run(verify, started, one); var after := Step(verify, checked, FinishCheck(h));
      && (cookie !in s.issued || now >= cookie.expiresAt ==> started == s && after == checked)
      && (cookie in s.issued && now < cookie.expiresAt ==>
            && after.account == checked.account
            && after.trace == checked.trace + [if cookie.version == checked.account.version then Accept(h, cookie) else Refuse(cookie)]
            && (h in after.handlers <==> cookie.version == checked.account.version)
            && (h in after.handlers ==> after.handlers[h] == Authorized(cookie)))
  {
    var started := Step(verify, s, StartCheck(h, cookie, now));
    if cookie in s.issued && now < cookie.expiresAt { assert started.handlers[h] == Checking(cookie); }
    RunOfOthers(verify, started, one, h);
  }

  /** The states of a check, with whatever others do between its two steps. */
  function CheckRun(verify: (string, string) -> bool, s: State, h: nat, cookie: Cookie, now: int, one: seq<Action>): State {
    Run(verify, Step(verify, s, StartCheck(h, cookie, now)), one)
  }

  /** From any reachable state with an issued cookie, after whatever else has happened: a check that starts before
      its expiry accepts the cookie exactly if as many resets have committed as its version says. */
  lemma CookieWorks(verify: (string, string) -> bool, s: State, cookie: Cookie, later: seq<Action>, h: nat, now: int, one: seq<Action>)
    requires Inv(verify, s) && cookie in s.issued && now < cookie.expiresAt
    requires h !in Run(verify, s, later).handlers && NotBy(one, h)
    ensures var checked := CheckRun(verify, Run(verify, s, later), h, cookie, now, one);
      Step(verify, checked, FinishCheck(h)).trace == checked.trace + [Accept(h, cookie)] <==> cookie.version == 1 + Resets(checked.trace)
  {
    var found := Run(verify, s, later);
    VersionsOnlyGrow(verify, s, later);
    CheckOutcome(verify, found, h, cookie, now, one);
    StepKeeps(verify, found, StartCheck(h, cookie, now));
    VersionsOnlyGrow(verify, Step(verify, found, StartCheck(h, cookie, now)), one);
    AcceptOrRefuse(CheckRun(verify, found, h, cookie, now, one).trace, h, cookie);
  }

  lemma AcceptOrRefuse(trace: seq<Event>, h: nat, cookie: Cookie)
    ensures trace + [Accept(h, cookie)] != trace + [Refuse(cookie)]
  {
    assert (trace + [Accept(h, cookie)])[|trace|] == Accept(h, cookie);
    assert (trace + [Refuse(cookie)])[|trace|] == Refuse(cookie);
  }

  /** An authorized handler that resets sets the hash it asked for and the next version, whatever others do
      meanwhile. */
  lemma ResetOutcome(verify: (string, string) -> bool, s: State, h: nat, hash: string, one: seq<Action>)
    requires h in s.handlers && s.handlers[h].Authorized? && hash != "" && NotBy(one, h)
    ensures var hashed := Run(verify, Step(verify, s, StartReset(h, hash)), one); var after := Step(verify, hashed, CommitReset(h));
      && after.account == Account(hash, hashed.account.version + 1) && h !in after.handlers
      && after.trace == hashed.trace + [Reset(h, s.handlers[h].cookie, hashed.account.version + 1, hash)]
  {
    var started := Step(verify, s, StartReset(h, hash));
    assert started.handlers[h] == ResetHashed(s.handlers[h].cookie, hash);
    RunOfOthers(verify, started, one, h);
  }

  lemma LoginKeeps(verify: (string, string) -> bool, s: State, h: nat, password: string, one: seq<Action>, two: seq<Action>, expiresAt: int)
    requires Inv(verify, s)
    ensures Inv(verify, Step(verify, LoginRun(verify, s, h, password, one, two).1, SetCookie(h, expiresAt)))
  {
    var (read, checked) := LoginRun(verify, s, h, password, one, two);
    StepKeeps(verify, s, StartLogin(h, password));
    VersionsOnlyGrow(verify, Step(verify, s, StartLogin(h, password)), one);
    StepKeeps(verify, read, VerifyLogin(h));
    VersionsOnlyGrow(verify, Step(verify, read, VerifyLogin(h)), two);
    StepKeeps(verify, checked, SetCookie(h, expiresAt));
  }

  /** From the login to its use: from any reachable state with a key set, a login with the right password gets a
      cookie, and any check with it that starts before its expiry accepts it exactly if no reset has committed
      since the login read the key - with anything else going on before, between and after the steps. */
  lemma LoginThenCheck(verify: (string, string) -> bool, s: State, h: nat, password: string, one: seq<Action>, two: seq<Action>,
      expiresAt: int, later: seq<Action>, k: nat, now: int, during: seq<Action>)
    requires Inv(verify, s) && s.account.hash != "" && h !in s.handlers && NotBy(one, h) && NotBy(two, h)
    requires verify(password, s.account.hash) && now < expiresAt && NotBy(during, k)
    requires k !in Run(verify, Step(verify, LoginRun(verify, s, h, password, one, two).1, SetCookie(h, expiresAt)), later).handlers
    ensures var issued := Step(verify, LoginRun(verify, s, h, password, one, two).1, SetCookie(h, expiresAt));
      var cookie := Cookie(s.account.version, expiresAt);
      var checked := CheckRun(verify, Run(verify, issued, later), k, cookie, now, during);
      && cookie in issued.issued
      && (Step(verify, checked, FinishCheck(k)).trace == checked.trace + [Accept(k, cookie)]
          <==> Resets(checked.trace) == Resets(s.trace))
  {
    LoginOutcome(verify, s, h, password, one, two, expiresAt);
    LoginKeeps(verify, s, h, password, one, two, expiresAt);
    var issued := Step(verify, LoginRun(verify, s, h, password, one, two).1, SetCookie(h, expiresAt));
    CookieWorks(verify, issued, Cookie(s.account.version, expiresAt), later, k, now, during);
  }

  /** Likewise for a bootstrap that commits while no key is set: checks with its cookie accept it exactly as long as
      no reset at all has committed. */
  lemma BootstrapThenCheck(verify: (string, string) -> bool, s: State, h: nat, two: seq<Action>, expiresAt: int,
      later: seq<Action>, k: nat, now: int, during: seq<Action>)
    requires Inv(verify, s) && s.account.hash == "" && h in s.handlers && s.handlers[h].BootHashed?
    requires NotBy(two, h) && now < expiresAt && NotBy(during, k)
    requires k !in Run(verify, Step(verify, Run(verify, Step(verify, s, CommitBootstrap(h)), two), SetCookie(h, expiresAt)), later).handlers
    ensures var issued := Step(verify, Run(verify, Step(verify, s, CommitBootstrap(h)), two), SetCookie(h, expiresAt));
      var checked := CheckRun(verify, Run(verify, issued, later), k, Cookie(1, expiresAt), now, during);
      && Cookie(1, expiresAt) in issued.issued
      && (Step(verify, checked, FinishCheck(k)).trace == checked.trace + [Accept(k, Cookie(1, expiresAt))] <==> Resets(checked.trace) == 0)
  {
    var committed := Step(verify, s, CommitBootstrap(h));
    StepKeeps(verify, s, CommitBootstrap(h));
    RunOfOthers(verify, committed, two, h);
    VersionsOnlyGrow(verify, committed, two);
    StepKeeps(verify, Run(verify, committed, two), SetCookie(h, expiresAt));
    CookieWorks(verify, Step(verify, Run(verify, committed, two), SetCookie(h, expiresAt)), Cookie(1, expiresAt), later, k, now, during);
  }
}
