/**
 Game accounts and their sessions, and what the event reactor (backend/services/event_reactor.py)
 and the account service (backend/services/game_account_service.py) do to them, as functions of
 the old rows.
 */
module AccountEffects {
  import opened Prelude

  type AccountId = nat
  type SessionId = nat
  type OrgId = nat
  type DeviceId = nat
  type Time = real

  datatype AccountStatus =
    Free | InUse | Cooldown | PendingRegistration | Banned | Captcha | PhoneVerify | Disabled | Archived

  datatype Account = Account(
    org: OrgId, game: string, login: string, status: AccountStatus,
    device: Option<DeviceId>, assignedAt: Option<Time>, createdAt: Time,
    totalBans: nat, totalSessions: nat)

  /** A session is open while `endedAt` is absent. */
  datatype Session = Session(
    org: OrgId, account: AccountId, device: DeviceId, startedAt: Time,
    endedAt: Option<Time>, reason: Option<EndReason>)

  datatype EndReason = ByBan | ByCaptcha | ByError | ByDeviceOffline

  type Accounts = map<AccountId, Account>
  type Sessions = map<SessionId, Session>

  datatype Db = Db(accounts: Accounts, sessions: Sessions)

  // ── events ──

  datatype EventType =
    | AccountBanned | AccountCaptcha | AccountPhoneVerify | AccountError
    | GameCrashed | DeviceError | DeviceOffline
    | Other(name: string)

  /** The event type that a name stands for. */
  function Kind(name: string): EventType {
    if name == "account.banned" then AccountBanned
    else if name == "account.captcha" then AccountCaptcha
    else if name == "account.phone_verify" then AccountPhoneVerify
    else if name == "account.error" then AccountError
    else if name == "game.crashed" then GameCrashed
    else if name == "device.error" then DeviceError
    else if name == "device.offline" then DeviceOffline
    else Other(name)
  }

  function Reaction(event: EventType): Option<AccountStatus> {
    match event
    case AccountBanned => Some(Banned)
    case AccountCaptcha => Some(Captcha)
    case AccountPhoneVerify => Some(PhoneVerify)
    case AccountError => Some(Disabled)
    case _ => None
  }

  function SessionEnd(event: EventType): Option<EndReason> {
    match event
    case AccountBanned => Some(ByBan)
    case AccountCaptcha => Some(ByCaptcha)
    case AccountPhoneVerify => Some(ByError)
    case AccountError => Some(ByError)
    case GameCrashed => Some(ByError)
    case DeviceError => Some(ByDeviceOffline)
    case DeviceOffline => Some(ByDeviceOffline)
    case Other(_) => None
  }

  /**
   An event as the reactor receives it, with two values the database chooses: the row the
   ORDER BY created_at LIMIT 1 query would return, and the id of a new session.
   */
  datatype Event = Event(
    org: OrgId, device: DeviceId, kind: EventType, account: Option<AccountId>, at: Time,
    pick: Option<AccountId>, session: SessionId)

  type EventId = nat

  /** What the stored event says about a rotation. */
  datatype Rotation = NotTried | NoFreeAccounts | RotatedTo(id: AccountId)

  /** The stored event. */
  datatype EventRow = EventRow(
    org: OrgId, device: DeviceId, kind: EventType, account: Option<AccountId>, at: Time,
    rotation: Rotation, processed: bool)

  /** The row of an event whose rotation query returned `pick`. */
  function Recorded(e: Event, pick: Option<AccountId>, done: bool): EventRow {
    EventRow(e.org, e.device, e.kind, e.account, e.at,
             if !done || !Rotates(e) then NotTried else if pick.None? then NoFreeAccounts else RotatedTo(pick.value),
             done)
  }

  function Unbound(a: Account, status: AccountStatus): Account {
    if status == Banned || status == Disabled
    then a.(status := status, device := None, assignedAt := None)
    else a.(status := status)
  }

  function StatusUpdated(accounts: Accounts, id: AccountId, org: OrgId, status: AccountStatus, ban: bool): Accounts {
    if id !in accounts || accounts[id].org != org then accounts
    else
      var a := Unbound(accounts[id], status);
      accounts[id := if ban then a.(totalBans := a.totalBans + 1) else a]
  }

  function OpenSessions(sessions: Sessions, id: AccountId, org: OrgId): set<SessionId> {
    set s | s in sessions && sessions[s].account == id && sessions[s].org == org && sessions[s].endedAt.None?
  }

  lemma TheOnlyOne<T>(some: set<T>)
    requires some != {} && |some| <= 1
    ensures exists s :: s in some && some == {s}
  {
    var s :| s in some;
    if some != {s} {
      var t :| t in some && t != s;
      SubsetSize({s, t}, some);
    }
  }

  /**
   Ends the open session of an account; the single-row query raises if there are several, which is
   the result None.
   */
  ghost function SessionEnded(db: Db, id: AccountId, org: OrgId, reason: EndReason, at: Time): Option<Db> {
    var open := OpenSessions(db.sessions, id, org);
    if open == {} then Some(db)
    else if |open| > 1 then None
    else
      TheOnlyOne(open);
      var s :| s in open && open == {s};
      var sessions := db.sessions[s := db.sessions[s].(endedAt := Some(at), reason := Some(reason))];
      var accounts :=
        if id in db.accounts
        then db.accounts[id := db.accounts[id].(totalSessions := db.accounts[id].totalSessions + 1)]
        else db.accounts;
      Some(Db(accounts, sessions))
  }

  predicate Candidate(accounts: Accounts, x: AccountId, org: OrgId, banned: AccountId) {
    && banned in accounts && x in accounts && x != banned
    && accounts[x].org == org && accounts[x].game == accounts[banned].game && accounts[x].status == Free
  }

  /** The rotation query returns an oldest candidate, or nothing when there is none. */
  ghost predicate Picked(accounts: Accounts, org: OrgId, banned: AccountId, pick: Option<AccountId>) {
    match pick
    case None => forall x | x in accounts :: !Candidate(accounts, x, org, banned)
    case Some(x) =>
      && Candidate(accounts, x, org, banned)
      && forall y | y in accounts && Candidate(accounts, y, org, banned) ::
           accounts[x].createdAt <= accounts[y].createdAt
  }

  function Rotated(db: Db, e: Event): Db {
    if e.pick.None? || e.pick.value !in db.accounts then db
    else
      var x := e.pick.value;
      Db(db.accounts[x := db.accounts[x].(status := InUse, device := Some(e.device), assignedAt := Some(e.at))],
         db.sessions[e.session := Session(e.org, x, e.device, e.at, None, None)])
  }

  /** The accounts after step 2 of `process_event`. */
  function Reacted(db: Db, e: Event): Db {
    if Reaction(e.kind).Some? && e.account.Some?
    then
      db.(accounts := StatusUpdated(db.accounts, e.account.value, e.org, Reaction(e.kind).value,
                                    e.kind == AccountBanned))
    else db
  }

  /** Steps 2 and 3. */
  ghost function Closed(db: Db, e: Event): Option<Db> {
    if SessionEnd(e.kind).Some? && e.account.Some?
    then SessionEnded(Reacted(db, e), e.account.value, e.org, SessionEnd(e.kind).value, e.at)
    else Some(Reacted(db, e))
  }

  predicate Rotates(e: Event) { e.kind == AccountBanned && e.account.Some? }

  /** The database part of `process_event`; None if a query raised. */
  ghost function Processed(db: Db, e: Event): Option<Db> {
    match Closed(db, e)
    case None => None
    case Some(closed) => Some(if Rotates(e) then Rotated(closed, e) else closed)
  }

  /** The values chosen by the database are possible ones. */
  ghost predicate Possible(db: Db, e: Event) {
    Rotates(e) && Closed(db, e).Some? ==>
      var closed := Closed(db, e).value;
      && Picked(closed.accounts, e.org, e.account.value, e.pick)
      && e.session !in closed.sessions
  }

  // ── the account service ──

  datatype Reply = Ok | NotFound | Conflict | Invalid

  /** A new account: the id is fresh, the rest comes from the request. */
  datatype NewAccount = NewAccount(id: AccountId, game: string, login: string)

  predicate Taken(accounts: Accounts, org: OrgId, game: string, login: string) {
    exists x | x in accounts :: accounts[x].org == org && accounts[x].game == game && accounts[x].login == login
  }

  function Opened(org: OrgId, n: NewAccount, now: Time): Account {
    Account(org, n.game, n.login, Free, None, None, now, 0, 0)
  }

  function CreatedAccount(accounts: Accounts, org: OrgId, n: NewAccount, now: Time): (Accounts, Reply) {
    if Taken(accounts, org, n.game, n.login) then (accounts, Conflict)
    else (accounts[n.id := Opened(org, n, now)], Ok)
  }

  function Imported(accounts: Accounts, org: OrgId, items: seq<NewAccount>, now: Time): Accounts {
    if items == [] then accounts
    else CreatedAccount(Imported(accounts, org, items[..|items| - 1], now), org, items[|items| - 1], now).0
  }

  /** Statuses an operator may set by hand; the request schema rejects the others. */
  const MANUAL: set<AccountStatus> := {Free, Disabled, Archived, Cooldown}

  function WithStatus(a: Account, status: AccountStatus): Account {
    if status == a.status then a
    else if status == Free then a.(status := Free, device := None, assignedAt := None)
    else a.(status := status)
  }

  function Patched(accounts: Accounts, id: AccountId, org: OrgId, login: Option<string>, status: Option<AccountStatus>)
    : (Accounts, Reply)
  {
    if status.Some? && status.value !in MANUAL then (accounts, Invalid)
    else if id !in accounts || accounts[id].org != org then (accounts, NotFound)
    else
      var a := accounts[id];
      if login.Some? && login.value != a.login && Taken(accounts - {id}, org, a.game, login.value)
      then (accounts, Conflict)
      else
        var b := if login.Some? then a.(login := login.value) else a;
        (accounts[id := if status.Some? then WithStatus(b, status.value) else b], Ok)
  }

  function AssignedTo(accounts: Accounts, id: AccountId, org: OrgId, device: DeviceId, deviceFound: bool, now: Time)
    : (Accounts, Reply)
  {
    if id !in accounts || accounts[id].org != org then (accounts, NotFound)
    else if accounts[id].status != Free then (accounts, Conflict)
    else if !deviceFound then (accounts, NotFound)
    else (accounts[id := accounts[id].(status := InUse, device := Some(device), assignedAt := Some(now))], Ok)
  }

  function ReleasedAccount(accounts: Accounts, id: AccountId, org: OrgId, cooldown: bool): (Accounts, Reply) {
    if id !in accounts || accounts[id].org != org then (accounts, NotFound)
    else if accounts[id].status != InUse then (accounts, Conflict)
    else
      var a := accounts[id];
      (accounts[id := a.(status := if cooldown then Cooldown else Free, device := None, assignedAt := None,
                         totalSessions := a.totalSessions + 1)], Ok)
  }
}
