/**
 Runs of the event reactor and the account service together: the binding between status and
 device, unique logins, exact counters, and where an operator's calls break the reactor's sessions.
 */
module AccountRuns {
  import opened Prelude
  import opened AccountEffects
  import opened ReactorRuns

  datatype Op =
    | React(event: Event)
    | Create(org: OrgId, item: NewAccount, now: Time)
    | Import(org: OrgId, items: seq<NewAccount>, now: Time)
    | Patch(id: AccountId, org: OrgId, login: Option<string>, status: Option<AccountStatus>)
    | Assign(id: AccountId, org: OrgId, device: DeviceId, deviceFound: bool, now: Time)
    | Release(id: AccountId, org: OrgId, cooldown: bool)

  /** New ids are new, and what the database picks is a possible choice. */
  ghost predicate Allowed(db: Db, op: Op) {
    match op
    case React(e) => Possible(db, e)
    case Create(_, n, _) => n.id !in db.accounts
    case Import(_, items, _) =>
      && (forall i | 0 <= i < |items| :: items[i].id !in db.accounts)
      && (forall i, k | 0 <= i < k < |items| :: items[i].id != items[k].id)
    case _ => true
  }

  /** A request whose query raised is rolled back. */
  ghost function Done(db: Db, op: Op): Db {
    match op
    case React(e) => if Processed(db, e).Some? then Processed(db, e).value else db
    case Create(org, n, now) => db.(accounts := CreatedAccount(db.accounts, org, n, now).0)
    case Import(org, items, now) => db.(accounts := Imported(db.accounts, org, items, now))
    case Patch(id, org, login, status) => db.(accounts := Patched(db.accounts, id, org, login, status).0)
    case Assign(id, org, device, found, now) => db.(accounts := AssignedTo(db.accounts, id, org, device, found, now).0)
    case Release(id, org, cooldown) => db.(accounts := ReleasedAccount(db.accounts, id, org, cooldown).0)
  }

  ghost predicate Runs(states: seq<Db>, ops: seq<Op>) {
    && |states| == |ops| + 1
    && forall i | 0 <= i < |ops| :: Allowed(states[i], ops[i]) && states[i + 1] == Done(states[i], ops[i])
  }

  // ── binding ──

  /** What a status says about the device. */
  predicate Bound(a: Account) {
    && (a.device.None? <==> a.assignedAt.None?)
    && (a.status == Free || a.status == Banned ==> a.device.None?)
    && (a.status == InUse ==> a.device.Some?)
  }

  ghost predicate AllBound(accounts: Accounts) {
    forall x | x in accounts :: Bound(accounts[x])
  }

  lemma EventKeepsBinding(db: Db, e: Event)
    requires AllBound(db.accounts) && Processed(db, e).Some?
    ensures AllBound(Processed(db, e).value.accounts)
  {
    assert AllBound(Reacted(db, e).accounts);
    hide Reacted;
    var closed := Closed(db, e).value;
    assert AllBound(closed.accounts);
    hide Closed;
    assert AllBound(Rotated(closed, e).accounts);
  }

  lemma {:induction false} ImportKeepsBinding(accounts: Accounts, org: OrgId, items: seq<NewAccount>, now: Time)
    requires AllBound(accounts)
    ensures AllBound(Imported(accounts, org, items, now))
  {
    if items == [] {
    } else {
      ImportKeepsBinding(accounts, org, items[..|items| - 1], now);
    }
  }

  /** A patch that sets a status by hand keeps every binding exactly when it is neither in_use nor banned. */
  lemma ManualStatusKeepsBindingExactly(status: AccountStatus)
    ensures (forall a | Bound(a) :: Bound(WithStatus(a, status))) <==> status != InUse && status != Banned
    ensures status in MANUAL ==> status != InUse && status != Banned
  {
    var free := Account(0, "", "", Free, None, None, 0.0, 0, 0);
    var used := Account(0, "", "", InUse, Some(0), Some(0.0), 0.0, 0, 0);
    assert Bound(free) && Bound(used);
    if status == InUse {
      assert !Bound(WithStatus(free, status));
    }
    if status == Banned {
      assert !Bound(WithStatus(used, status));
    }
  }

  lemma PatchKeepsBinding(accounts: Accounts, id: AccountId, org: OrgId, login: Option<string>,
                          status: Option<AccountStatus>)
    requires AllBound(accounts)
    ensures AllBound(Patched(accounts, id, org, login, status).0)
  {
    if status.Some? {
      ManualStatusKeepsBindingExactly(status.value);
    }
  }

  lemma DoneKeepsBinding(db: Db, op: Op)
    requires AllBound(db.accounts)
    ensures AllBound(Done(db, op).accounts)
  {
    match op
    case React(e) =>
      if Processed(db, e).Some? { EventKeepsBinding(db, e); }
    case Import(org, items, now) =>
      ImportKeepsBinding(db.accounts, org, items, now);
    case Patch(id, org, login, status) =>
      PatchKeepsBinding(db.accounts, id, org, login, status);
    case Create(_, _, _) =>
    case Assign(_, _, _, _, _) =>
    case Release(_, _, _) =>
  }

  /** Over every run of both services the status of an account says whether it has a device. */
  lemma {:induction false} StatusTellsBinding(states: seq<Db>, ops: seq<Op>)
    requires Runs(states, ops) && AllBound(states[0].accounts)
    ensures forall i | 0 <= i < |states| :: AllBound(states[i].accounts)
  {
    for n := 0 to |ops|
      invariant forall i | 0 <= i <= n :: AllBound(states[i].accounts)
    {
      DoneKeepsBinding(states[n], ops[n]);
    }
  }

  // ── unique logins ──

  ghost predicate UniqueLogins(accounts: Accounts) {
    forall x, y | x in accounts && y in accounts && Twins(accounts[x], accounts[y]) :: x == y
  }

  predicate Twins(a: Account, b: Account) {
    a.org == b.org && a.game == b.game && a.login == b.login
  }

  /** The step every operation but creation takes: same rows, same names. */
  predicate SameNames(a: Accounts, b: Accounts) {
    a.Keys == b.Keys && forall x | x in a :: Twins(a[x], b[x])
  }

  lemma EventKeepsNames(db: Db, e: Event)
    requires Possible(db, e) && Processed(db, e).Some?
    ensures SameNames(db.accounts, Processed(db, e).value.accounts)
  {
    assert SameNames(db.accounts, Reacted(db, e).accounts);
    hide Reacted;
    var closed := Closed(db, e).value;
    assert SameNames(db.accounts, closed.accounts);
    hide Closed;
    assert SameNames(closed.accounts, Rotated(closed, e).accounts);
  }

  lemma CreateKeepsUnique(accounts: Accounts, org: OrgId, n: NewAccount, now: Time)
    requires UniqueLogins(accounts) && n.id !in accounts
    ensures UniqueLogins(CreatedAccount(accounts, org, n, now).0)
  {
  }

  lemma {:induction false} ImportKeepsUnique(accounts: Accounts, org: OrgId, items: seq<NewAccount>, now: Time)
    requires UniqueLogins(accounts)
    requires forall i | 0 <= i < |items| :: items[i].id !in accounts
    requires forall i, k | 0 <= i < k < |items| :: items[i].id != items[k].id
    ensures UniqueLogins(Imported(accounts, org, items, now))
    ensures forall x | x in Imported(accounts, org, items, now) ::
              x in accounts || exists i | 0 <= i < |items| :: items[i].id == x
  {
    if items == [] {
    } else {
      var last := |items| - 1;
      var before := Imported(accounts, org, items[..last], now);
      ImportKeepsUnique(accounts, org, items[..last], now);
      CreateKeepsUnique(before, org, items[last], now);
    }
  }

  lemma PatchKeepsUnique(accounts: Accounts, id: AccountId, org: OrgId, login: Option<string>,
                         status: Option<AccountStatus>)
    requires UniqueLogins(accounts)
    ensures UniqueLogins(Patched(accounts, id, org, login, status).0)
  {
    var rest := accounts - {id};
    assert forall w | w in accounts && w != id :: w in rest && rest[w] == accounts[w];
  }

  lemma DoneKeepsUnique(db: Db, op: Op)
    requires UniqueLogins(db.accounts) && Allowed(db, op)
    ensures UniqueLogins(Done(db, op).accounts)
  {
    match op
    case React(e) =>
      if Processed(db, e).Some? { EventKeepsNames(db, e); }
    case Create(org, n, now) =>
      CreateKeepsUnique(db.accounts, org, n, now);
    case Import(org, items, now) =>
      ImportKeepsUnique(db.accounts, org, items, now);
    case Patch(id, org, login, status) =>
      PatchKeepsUnique(db.accounts, id, org, login, status);
    case Assign(_, _, _, _, _) =>
      assert SameNames(db.accounts, Done(db, op).accounts);
    case Release(_, _, _) =>
      assert SameNames(db.accounts, Done(db, op).accounts);
  }

  /** No run of both services ever gives one organisation two accounts with the same game and login. */
  lemma {:induction false} LoginsStayUnique(states: seq<Db>, ops: seq<Op>)
    requires Runs(states, ops) && UniqueLogins(states[0].accounts)
    ensures forall i | 0 <= i < |states| :: UniqueLogins(states[i].accounts)
  {
    for n := 0 to |ops|
      invariant forall i | 0 <= i <= n :: UniqueLogins(states[i].accounts)
    {
      DoneKeepsUnique(states[n], ops[n]);
    }
  }

  // ── counters over both services ──

  predicate Releases(db: Db, op: Op, x: AccountId) {
    op.Release? && op.id == x && ReleasedAccount(db.accounts, x, op.org, op.cooldown).1 == Ok
  }

  ghost predicate BanHits(db: Db, op: Op, x: AccountId) {
    op.React? && Processed(db, op.event).Some? && IsBanOf(db.accounts, op.event, x)
  }

  /** Effective releases of one account over a run. */
  function ReleasesIn(states: seq<Db>, ops: seq<Op>, x: AccountId): nat
    requires |states| == |ops| + 1
  {
    if ops == [] then 0
    else
      var n := |ops| - 1;
      ReleasesIn(states[..n + 1], ops[..n], x) + if Releases(states[n], ops[n], x) then 1 else 0
  }

  /** Ban reports that reached one account over a run. */
  ghost function BansIn(states: seq<Db>, ops: seq<Op>, x: AccountId): nat
    requires |states| == |ops| + 1
  {
    if ops == [] then 0
    else
      var n := |ops| - 1;
      BansIn(states[..n + 1], ops[..n], x) + if BanHits(states[n], ops[n], x) then 1 else 0
  }

  /** The counters of one account, with what was added to them. */
  ghost predicate Grown(before: Db, after: Db, x: AccountId, releases: nat, bans: nat)
    requires x in before.accounts
  {
    && x in after.accounts
    && after.accounts[x].totalSessions - before.accounts[x].totalSessions
       == |EndedOf(after.sessions, x)| - |EndedOf(before.sessions, x)| + releases
    && after.accounts[x].totalBans == before.accounts[x].totalBans + bans
  }

  lemma {:induction false} ImportKeepsRows(accounts: Accounts, org: OrgId, items: seq<NewAccount>, now: Time,
                                           x: AccountId)
    requires x in accounts && forall i | 0 <= i < |items| :: items[i].id != x
    ensures x in Imported(accounts, org, items, now) && Imported(accounts, org, items, now)[x] == accounts[x]
  {
    if items == [] {
    } else {
      ImportKeepsRows(accounts, org, items[..|items| - 1], now, x);
    }
  }

  lemma StepGrows(db: Db, op: Op, x: AccountId)
    requires x in db.accounts && Allowed(db, op)
    ensures Grown(db, Done(db, op), x, if Releases(db, op, x) then 1 else 0, if BanHits(db, op, x) then 1 else 0)
  {
    match op
    case React(e) =>
      if Processed(db, e).Some? { EventCounts(db, e, x); }
    case Import(org, items, now) =>
      ImportKeepsRows(db.accounts, org, items, now, x);
    case Create(_, _, _) =>
    case Patch(_, _, _, _) =>
    case Assign(_, _, _, _, _) =>
    case Release(_, _, _) =>
  }

  /**
   Over every run of both services total_sessions grows by exactly the sessions the reactor ended
   plus the releases by an operator, and total_bans by exactly the ban reports that got through.
   */
  lemma {:induction false} CountersAddUp(states: seq<Db>, ops: seq<Op>, x: AccountId)
    requires Runs(states, ops) && x in states[0].accounts
    ensures Grown(states[0], states[|ops|], x, ReleasesIn(states, ops, x), BansIn(states, ops, x))
  {
    if ops == [] {
    } else {
      var n := |ops| - 1;
      CountersAddUp(states[..n + 1], ops[..n], x);
      hide EndedOf, Done, Allowed, Releases, BanHits;
      StepGrows(states[n], ops[n], x);
    }
  }

  // ── where the operators' calls break the session property ──

  /** The account an operator's call makes free, if any. */
  function Frees(accounts: Accounts, op: Op): set<AccountId> {
    match op
    case Patch(id, org, login, status) =>
      if Patched(accounts, id, org, login, status).1 == Ok && status == Some(Free) then {id} else {}
    case Release(id, org, cooldown) =>
      if ReleasedAccount(accounts, id, org, cooldown).1 == Ok && !cooldown then {id} else {}
    case _ => {}
  }

  /**
   An operator's call keeps the session properties exactly when it does not free an account that
   still has an open session; the service never looks.
   */
  lemma OperatorKeepsSessionsExactly(db: Db, op: Op)
    requires OneSession(db) && Allowed(db, op) && (op.Patch? || op.Assign? || op.Release?)
    ensures OneSession(Done(db, op))
       <==> forall s | Open(db.sessions, s) :: db.sessions[s].account !in Frees(db.accounts, op)
  {
    var after := Done(db, op).accounts;
    forall x ensures IsFree(after, x) ==> IsFree(db.accounts, x) || x in Frees(db.accounts, op) {}
    forall x | x in Frees(db.accounts, op) ensures IsFree(after, x) {}
  }

  /** The single-row lookup raises on two open sessions. */
  lemma TwoOpenRaise(db: Db, e: Event, s: SessionId, t: SessionId)
    requires SessionEnd(e.kind).Some? && e.account.Some? && s != t
    requires {s, t} <= OpenSessions(db.sessions, e.account.value, e.org)
    ensures Processed(db, e).None?
  {
    SubsetSize({s, t}, OpenSessions(db.sessions, e.account.value, e.org));
  }

  /** A rotation that hands out an account with a session still open gives it a second one. */
  lemma StrandedSessionDoubles(db: Db, e: Event, s: SessionId)
    requires Rotates(e) && e.pick.Some? && e.session !in db.sessions
    requires OpenSessions(db.sessions, e.account.value, e.org) == {}
    requires Picked(db.accounts, e.org, e.account.value, e.pick)
    requires s in OpenSessions(db.sessions, e.pick.value, e.org)
    ensures Possible(db, e) && Processed(db, e).Some?
    ensures {s, e.session} <= OpenSessions(Processed(db, e).value.sessions, e.pick.value, e.org)
    ensures s != e.session
  {
    var closed := Closed(db, e).value;
    forall y
      ensures Candidate(closed.accounts, y, e.org, e.account.value)
         <==> Candidate(db.accounts, y, e.org, e.account.value)
    {
      SameCandidates(db, e, y);
    }
    forall y | y != e.account.value && y in db.accounts
      ensures y in closed.accounts && closed.accounts[y] == db.accounts[y]
    {
      SameCandidates(db, e, y);
    }
  }

  /** One of two accounts in use has its session on record. */
  lemma TwoInUse() returns (start: Db)
    ensures OneSession(start) && AllBound(start.accounts) && UniqueLogins(start.accounts)
    ensures start.accounts.Keys == {1, 2}
    ensures forall x | x in {1, 2} ::
              start.accounts[x].status == InUse && start.accounts[x].org == 0 && start.accounts[x].game == ""
    ensures start.sessions == map[0 := Session(0, 1, 0, 0.0, None, None)]
  {
    var a := Account(0, "", "", InUse, Some(0), Some(0.0), 0.0, 0, 0);
    start := Db(map[1 := a, 2 := a.(login := "b")], map[0 := Session(0, 1, 0, 0.0, None, None)]);
  }

  /**
   After such a call the reactor can be made to fail: an account is released with its session
   open, handed out by a rotation, and the next report about it finds two open sessions.
   */
  lemma ReleaseThenReportRaises() returns (start: Db, op: Op, e: Event, report: Event)
    ensures OneSession(start) && AllBound(start.accounts) && UniqueLogins(start.accounts)
    ensures Allowed(start, op) && op.Release?
    ensures var middle := Done(start, op);
            && Possible(middle, e) && Processed(middle, e).Some?
            && Processed(Processed(middle, e).value, report).None?
  {
    hide OneSession, AllBound, UniqueLogins;
    start := TwoInUse();
    op := Release(1, 0, false);
    e := Event(0, 1, AccountBanned, Some(2), 1.0, Some(1), 1);
    report := Event(0, 1, AccountCaptcha, Some(1), 2.0, None, 2);
    var middle := Done(start, op);
    assert OpenSessions(middle.sessions, 2, 0) == {};
    assert forall x | Candidate(middle.accounts, x, 0, 2) :: x == 1;
    hide Done, Possible, Closed, Processed;
    StrandedSessionDoubles(middle, e, 0);
    TwoOpenRaise(Processed(middle, e).value, report, 0, 1);
  }
}
