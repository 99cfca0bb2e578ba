/**
 What the calls of the account service are worth: when each is refused, what the rows are afterwards,
 which rows of an import are created, and where the device of an account comes from.
 */
module AccountCalls {
  import opened Prelude
  import opened AccountEffects
  import opened ReactorRuns
  import opened AccountRuns

  /** Another account of the organisation has this game and login. */
  ghost predicate TakenByOther(accounts: Accounts, id: AccountId, org: OrgId, game: string, login: string) {
    exists y :: y in accounts && y != id
                && accounts[y].org == org && accounts[y].game == game && accounts[y].login == login
  }

  ghost predicate OthersStay(before: Accounts, after: Accounts, id: AccountId) {
    && after.Keys == before.Keys
    && forall y | y in before && y != id :: after[y] == before[y]
  }

  predicate Owned(accounts: Accounts, id: AccountId, org: OrgId) {
    id in accounts && accounts[id].org == org
  }

  /**
   An account is changed exactly when it is found, the status is one that may be set by hand, and a new
   login is not taken. Then it has that login and status, loses its device only by becoming free, and
   nothing else changes.
   */
  lemma PatchExactly(accounts: Accounts, id: AccountId, org: OrgId, login: Option<string>,
                     status: Option<AccountStatus>)
    ensures var (after, reply) := Patched(accounts, id, org, login, status);
            && (reply == Ok <==>
                  && (status.Some? ==> status.value in {Free, Disabled, Archived, Cooldown})
                  && Owned(accounts, id, org)
                  && (login.Some? && login.value != accounts[id].login ==>
                        !TakenByOther(accounts, id, org, accounts[id].game, login.value)))
            && (reply != Ok ==> after == accounts)
            && (reply == Ok ==>
                  var a, b := accounts[id], after[id];
                  var freed := status == Some(Free) && a.status != Free;
                  && OthersStay(accounts, after, id)
                  && b.login == (if login.Some? then login.value else a.login)
                  && b.status == (if status.Some? then status.value else a.status)
                  && b.device == (if freed then None else a.device)
                  && b.assignedAt == (if freed then None else a.assignedAt)
                  && b == a.(login := b.login, status := b.status, device := b.device, assignedAt := b.assignedAt))
  {
    if Owned(accounts, id, org) && login.Some? {
      var a, rest := accounts[id], accounts - {id};
      assert Taken(rest, org, a.game, login.value) <==> TakenByOther(accounts, id, org, a.game, login.value) by {
        assert forall y | y in accounts && y != id :: y in rest && rest[y] == accounts[y];
      }
    }
  }

  /** An account is created exactly when no account of the organisation has the game and login. */
  lemma CreateExactly(accounts: Accounts, org: OrgId, n: NewAccount, now: Time)
    requires n.id !in accounts
    ensures var (after, reply) := CreatedAccount(accounts, org, n, now);
            && (reply == Ok <==> !TakenByOther(accounts, n.id, org, n.game, n.login))
            && (reply != Ok ==> after == accounts)
            && (reply == Ok ==>
                  after == accounts[n.id := Account(org, n.game, n.login, Free, None, None, now, 0, 0)])
  {
    assert Taken(accounts, org, n.game, n.login) <==> TakenByOther(accounts, n.id, org, n.game, n.login);
  }

  /** Exactly a free account is handed out, to exactly the device asked for. */
  lemma AssignExactly(accounts: Accounts, id: AccountId, org: OrgId, device: DeviceId, found: bool, now: Time)
    ensures var (after, reply) := AssignedTo(accounts, id, org, device, found, now);
            && (reply == Ok <==> Owned(accounts, id, org) && accounts[id].status == Free && found)
            && (reply != Ok ==> after == accounts)
            && (reply == Ok ==>
                  && OthersStay(accounts, after, id)
                  && after[id] == accounts[id].(status := InUse, device := Some(device), assignedAt := Some(now)))
  {
  }

  /** Exactly an account in use is released, to cool down or to be free, and its session is counted. */
  lemma ReleaseExactly(accounts: Accounts, id: AccountId, org: OrgId, cooldown: bool)
    ensures var (after, reply) := ReleasedAccount(accounts, id, org, cooldown);
            && (reply == Ok <==> Owned(accounts, id, org) && accounts[id].status == InUse)
            && (reply != Ok ==> after == accounts)
            && (reply == Ok ==>
                  && OthersStay(accounts, after, id)
                  && after[id] == accounts[id].(
                       status := if cooldown then Cooldown else Free, device := None, assignedAt := None,
                       totalSessions := accounts[id].totalSessions + 1))
  {
  }

  // ── import ──

  /** Neither an account nor an earlier row of the import has the login. */
  ghost predicate FirstOfItsLogin(accounts: Accounts, org: OrgId, items: seq<NewAccount>, i: nat)
    requires i < |items|
  {
    && (forall y | y in accounts ::
          !(accounts[y].org == org && accounts[y].game == items[i].game && accounts[y].login == items[i].login))
    && forall k | 0 <= k < i :: items[k].game != items[i].game || items[k].login != items[i].login
  }

  /** After an import of new ids the logins on record are the old ones and those of the rows. */
  lemma {:induction false} LoginsAfterImport(accounts: Accounts, org: OrgId, items: seq<NewAccount>, now: Time,
                                             game: string, login: string)
    requires forall i | 0 <= i < |items| :: items[i].id !in accounts
    requires forall i, k | 0 <= i < k < |items| :: items[i].id != items[k].id
    ensures Taken(Imported(accounts, org, items, now), org, game, login)
       <==> Taken(accounts, org, game, login)
            || exists i :: 0 <= i < |items| && items[i].game == game && items[i].login == login
  {
    if items == [] {
    } else {
      var front, last := items[..|items| - 1], items[|items| - 1];
      var before := Imported(accounts, org, front, now);
      LoginsAfterImport(accounts, org, front, now, game, login);
      assert forall i | 0 <= i < |front| :: front[i] == items[i];
      NewLogin(before, org, last, now, game, login) by {
        ImportedIds(accounts, org, front, now, last.id);
      }
    }
  }

  lemma {:induction false} ImportedIds(accounts: Accounts, org: OrgId, items: seq<NewAccount>, now: Time, x: AccountId)
    requires x !in accounts && forall i | 0 <= i < |items| :: items[i].id != x
    ensures x !in Imported(accounts, org, items, now)
  {
    if items == [] {
    } else {
      ImportedIds(accounts, org, items[..|items| - 1], now, x);
    }
  }

  lemma NewLogin(accounts: Accounts, org: OrgId, n: NewAccount, now: Time, game: string, login: string)
    requires n.id !in accounts
    ensures Taken(CreatedAccount(accounts, org, n, now).0, org, game, login)
       <==> Taken(accounts, org, game, login) || (n.game == game && n.login == login)
  {
    var after := CreatedAccount(accounts, org, n, now).0;
    assert forall y | y in accounts :: y in after && after[y] == accounts[y];
    if !Taken(accounts, org, n.game, n.login) {
      assert n.id in after && after[n.id] == Opened(org, n, now);
    }
  }

  /**
   Row `i` of an import becomes an account exactly when its login is neither on record nor in an earlier
   row; the account is free, belongs to the organisation and has the game and login of the row.
   */
  lemma {:induction false} ImportsExactly(accounts: Accounts, org: OrgId, items: seq<NewAccount>, now: Time, i: nat)
    requires forall i | 0 <= i < |items| :: items[i].id !in accounts
    requires forall i, k | 0 <= i < k < |items| :: items[i].id != items[k].id
    requires i < |items|
    ensures var after := Imported(accounts, org, items, now);
            && (items[i].id in after <==> FirstOfItsLogin(accounts, org, items, i))
            && (items[i].id in after ==>
                  after[items[i].id] == Account(org, items[i].game, items[i].login, Free, None, None, now, 0, 0))
    decreases |items|
  {
    var front, last := items[..|items| - 1], items[|items| - 1];
    var before := Imported(accounts, org, front, now);
    assert forall k | 0 <= k < |front| :: front[k] == items[k];
    if i < |front| {
      ImportsExactly(accounts, org, front, now, i);
      assert FirstOfItsLogin(accounts, org, items, i) <==> FirstOfItsLogin(accounts, org, front, i);
    } else {
      ImportedIds(accounts, org, front, now, last.id);
      LoginsAfterImport(accounts, org, front, now, last.game, last.login);
    }
  }

  // ── where a device comes from ──

  /** The call hands account `x` out to the device: an operator assigns it, or a rotation picks it. */
  predicate HandsOut(op: Op, x: AccountId, device: DeviceId, at: Time) {
    match op
    case Assign(id, _, d, found, now) => id == x && d == device && found && now == at
    case React(e) => Rotates(e) && e.pick == Some(x) && e.device == device && e.at == at
    case _ => false
  }

  /** The device of an account and since when. */
  predicate BoundTo(db: Db, x: AccountId, device: DeviceId, at: Time) {
    x in db.accounts && db.accounts[x].device == Some(device) && db.accounts[x].assignedAt == Some(at)
  }

  /** Nothing is bound or freed: accounts only lose their device or stop being free. */
  ghost predicate NoneBound(before: Accounts, after: Accounts) {
    && after.Keys == before.Keys
    && forall y | y in before ::
         && (after[y].status == Free ==> before[y].status == Free)
         && (after[y].device.Some? ==>
               after[y].device == before[y].device && after[y].assignedAt == before[y].assignedAt)
  }

  lemma ReactionBindsNone(db: Db, e: Event)
    requires Closed(db, e).Some?
    ensures NoneBound(db.accounts, Closed(db, e).value.accounts)
  {
    assert NoneBound(db.accounts, Reacted(db, e).accounts);
    hide Reacted;
    assert NoneBound(Reacted(db, e).accounts, Closed(db, e).value.accounts);
  }

  lemma EventBinding(db: Db, e: Event, x: AccountId, device: DeviceId, at: Time)
    requires Possible(db, e) && Processed(db, e).Some? && BoundTo(Processed(db, e).value, x, device, at)
    ensures BoundTo(db, x, device, at) || (HandsOut(React(e), x, device, at) && IsFree(db.accounts, x))
  {
    ReactionBindsNone(db, e);
    hide Closed;
  }

  lemma {:induction false} ImportBinding(accounts: Accounts, org: OrgId, items: seq<NewAccount>, now: Time,
                                         x: AccountId)
    requires forall i | 0 <= i < |items| :: items[i].id !in accounts
    requires x in Imported(accounts, org, items, now) && Imported(accounts, org, items, now)[x].device.Some?
    ensures x in accounts && Imported(accounts, org, items, now)[x] == accounts[x]
  {
    if items == [] {
    } else {
      var front := items[..|items| - 1];
      var before := Imported(accounts, org, front, now);
      if x in before && before[x] == Imported(accounts, org, items, now)[x] {
        ImportBinding(accounts, org, front, now, x);
      }
    }
  }

  lemma BindingStep(db: Db, op: Op, x: AccountId, device: DeviceId, at: Time)
    requires Allowed(db, op) && BoundTo(Done(db, op), x, device, at)
    ensures BoundTo(db, x, device, at) || (HandsOut(op, x, device, at) && IsFree(db.accounts, x))
  {
    match op
    case React(e) =>
      if Processed(db, e).Some? { EventBinding(db, e, x, device, at); }
    case Import(org, items, now) =>
      ImportBinding(db.accounts, org, items, now, x);
    case Create(_, _, _) =>
    case Patch(_, _, _, _) =>
    case Assign(_, _, _, _, _) =>
    case Release(_, _, _) =>
  }

  /**
   Over every run of both services: an account bound to a device was free when an operator or a rotation
   handed it out to that device at that time, and has been bound to it ever since.
   */
  lemma {:induction false} DevicesComeFromHandouts(states: seq<Db>, ops: seq<Op>, i: nat, x: AccountId,
                                                   device: DeviceId, at: Time)
    returns (k: nat)
    requires Runs(states, ops) && i < |states| && BoundTo(states[i], x, device, at)
    requires !BoundTo(states[0], x, device, at)
    ensures k < i && k < |ops| && HandsOut(ops[k], x, device, at) && IsFree(states[k].accounts, x)
    ensures forall m | k < m <= i :: BoundTo(states[m], x, device, at)
    decreases i
  {
    assert i > 0;
    assert Allowed(states[i - 1], ops[i - 1]) && states[i] == Done(states[i - 1], ops[i - 1]);
    hide Runs, Done, Allowed, HandsOut, IsFree, BoundTo;
    if BoundTo(states[i - 1], x, device, at) {
      k := DevicesComeFromHandouts(states, ops, i - 1, x, device, at);
    } else {
      BindingStep(states[i - 1], ops[i - 1], x, device, at);
      k := i - 1;
    }
  }
}
