/** The event reactor and the account service as classes over one database. */
module AccountServices {
  import opened Prelude
  import opened AccountEffects
  import opened EventOutcomes
  import Triggers

  class AccountDatabase {
    var accounts: Accounts
    var sessions: Sessions
    var events: map<EventId, EventRow>

    constructor ()
      ensures accounts == map[] && sessions == map[] && events == map[]
    {
      accounts, sessions, events := map[], map[], map[];
    }

    function Rows(): Db
      reads this
    {
      Db(accounts, sessions)
    }
  }

  /** The outcome of an event, by its name; the pick does not matter to the sessions. */
  lemma ToldByName(db: Db, e: Event, pick: Option<AccountId>, name: string, after: Db)
    requires e.kind == Kind(name) && e.account.Some?
    requires Possible(db, e.(pick := pick)) && Processed(db, e.(pick := pick)) == Some(after)
    ensures SessionsAfter(db, e, name, e.account.value, after)
    ensures AccountsAfter(db, e.(pick := pick), name, e.account.value, after)
  {
    hide Kind, Possible, Processed;
    EventsEndSessionsExactly(db, e.(pick := pick), name, e.account.value, after);
    EventsSetStatusExactly(db, e.(pick := pick), name, e.account.value, after);
  }

  class EventReactor {
    const db: AccountDatabase
    const triggers: Triggers.TriggerTable

    constructor (db: AccountDatabase, triggers: Triggers.TriggerTable)
      ensures this.db == db && this.triggers == triggers
    {
      this.db, this.triggers := db, triggers;
    }

    method UpdateAccountStatus(id: AccountId, org: OrgId, status: AccountStatus, kind: EventType)
      modifies db`accounts
      ensures db.accounts == StatusUpdated(old(db.accounts), id, org, status, kind == AccountBanned)
    {
      if id !in db.accounts || db.accounts[id].org != org {
        return;
      }
      var a := db.accounts[id].(status := status);
      if status == Banned || status == Disabled {
        a := a.(device := None, assignedAt := None);
      }
      if kind == AccountBanned {
        a := a.(totalBans := a.totalBans + 1);
      }
      db.accounts := db.accounts[id := a];
    }

    method EndActiveSession(id: AccountId, org: OrgId, reason: EndReason, at: Time) returns (ok: bool)
      modifies db`accounts, db`sessions
      ensures ok <==> SessionEnded(old(db.Rows()), id, org, reason, at).Some?
      ensures db.Rows() == if ok then SessionEnded(old(db.Rows()), id, org, reason, at).value else old(db.Rows())
      ensures ok ==>
                && db.sessions.Keys == old(db.sessions).Keys
                && forall s | s in db.sessions ::
                     db.sessions[s] == if OpenOf(old(db.Rows()), s, id, org)
                                       then old(db.sessions)[s].(endedAt := Some(at), reason := Some(reason))
                                       else old(db.sessions)[s]
    {
      var open := OpenSessions(db.sessions, id, org);
      assert forall s :: s in open <==> OpenOf(db.Rows(), s, id, org);
      if open == {} {
        return true;
      }
      if |open| > 1 {
        return false;
      }
      TheOnlyOne(open);
      var s :| s in open;
      assert open == {s};
      db.sessions := db.sessions[s := db.sessions[s].(endedAt := Some(at), reason := Some(reason))];
      if id in db.accounts {
        db.accounts := db.accounts[id := db.accounts[id].(totalSessions := db.accounts[id].totalSessions + 1)];
      }
      ok := true;
    }

    /** The rotation query: an oldest free account of the same game and organisation. */
    method FindFree(org: OrgId, banned: AccountId) returns (pick: Option<AccountId>)
      ensures Picked(db.accounts, org, banned, pick)
    {
      pick := None;
      if banned !in db.accounts {
        return;
      }
      var candidates := set x | x in db.accounts && Candidate(db.accounts, x, org, banned);
      var todo := candidates;
      while todo != {}
        invariant todo <= candidates
        invariant pick.None? ==> todo == candidates
        invariant pick.Some? ==> pick.value in candidates - todo
        invariant pick.Some? ==>
                    forall y | y in candidates - todo :: db.accounts[pick.value].createdAt <= db.accounts[y].createdAt
        decreases todo
      {
        var x :| x in todo;
        if pick.None? || db.accounts[x].createdAt < db.accounts[pick.value].createdAt {
          pick := Some(x);
        }
        todo := todo - {x};
      }
      assert forall x | x in db.accounts && Candidate(db.accounts, x, org, banned) :: x in candidates;
    }

    method TryRotateAccount(e: Event) returns (pick: Option<AccountId>)
      requires e.account.Some?
      modifies db`accounts, db`sessions
      ensures Picked(old(db.accounts), e.org, e.account.value, pick)
      ensures db.Rows() == Rotated(old(db.Rows()), e.(pick := pick))
    {
      pick := FindFree(e.org, e.account.value);
      if pick.None? {
        return;
      }
      var x := pick.value;
      var a := db.accounts[x].(status := InUse, device := Some(e.device), assignedAt := Some(e.at));
      db.accounts := db.accounts[x := a];
      db.sessions := db.sessions[e.session := Session(e.org, x, e.device, e.at, None, None)];
    }

    /** Steps 2 to 4 of `process_event`; the `pick` of the given event is ignored. */
    method React(e: Event) returns (ok: bool, pick: Option<AccountId>)
      requires e.session !in db.sessions
      modifies db`accounts, db`sessions
      ensures ok <==> Closed(old(db.Rows()), e).Some?
      ensures ok ==> Possible(old(db.Rows()), e.(pick := pick))
                     && Processed(old(db.Rows()), e.(pick := pick)) == Some(db.Rows())
      ensures pick.Some? ==> Rotates(e)
    {
      pick := None;
      if Reaction(e.kind).Some? && e.account.Some? {
        UpdateAccountStatus(e.account.value, e.org, Reaction(e.kind).value, e.kind);
      }
      assert db.Rows() == Reacted(old(db.Rows()), e);
      ok := true;
      if SessionEnd(e.kind).Some? && e.account.Some? {
        ok := EndActiveSession(e.account.value, e.org, SessionEnd(e.kind).value, e.at);
        if !ok {
          return;
        }
      }
      assert Closed(old(db.Rows()), e) == Some(db.Rows());
      if e.kind == AccountBanned && e.account.Some? {
        pick := TryRotateAccount(e);
      }
    }

    /**
     `process_event`: store the event, react, fire the triggers, mark it as processed. `signal` is
     the event as the triggers see it and `found` the active triggers of the organisation. If a
     query raises, the rest is not done; the caller's transaction is rolled back.
     */
    method ProcessEvent(id: EventId, e: Event, signal: Triggers.Signal, found: seq<Triggers.TriggerId>)
      returns (ok: bool, pick: Option<AccountId>, launched: seq<Triggers.Launch>)
      requires id !in db.events && e.session !in db.sessions && e.kind == Kind(signal.kind)
      requires signal.org == e.org && signal.now == e.at && Triggers.Found(triggers.rows, signal, found)
      modifies db, triggers
      ensures ok <==> Closed(old(db.Rows()), e).Some?
      ensures ok ==> Possible(old(db.Rows()), e.(pick := pick))
                     && Processed(old(db.Rows()), e.(pick := pick)) == Some(db.Rows())
      ensures ok && e.account.Some? ==>
                && SessionsAfter(old(db.Rows()), e, signal.kind, e.account.value, db.Rows())
                && AccountsAfter(old(db.Rows()), e.(pick := pick), signal.kind, e.account.value, db.Rows())
      ensures db.events == old(db.events)[id := Recorded(e, pick, ok)]
      ensures ok ==> Triggers.Stamped(old(triggers.rows), triggers.rows, signal, found)
      ensures ok ==> launched == Triggers.Launches(old(triggers.rows), signal, found)
      ensures !ok ==> triggers.rows == old(triggers.rows) && launched == []
    {
      hide Kind, Closed, Processed, Possible, Triggers.Launches, SessionsAfter, AccountsAfter;
      launched := [];
      db.events := db.events[id := EventRow(e.org, e.device, e.kind, e.account, e.at, NotTried, false)];
      ok, pick := React(e);
      if !ok {
        return;
      }
      if e.account.Some? {
        ToldByName(old(db.Rows()), e, pick, signal.kind, db.Rows());
      }
      if e.kind == AccountBanned && e.account.Some? {
        var rotation := if pick.Some? then RotatedTo(pick.value) else NoFreeAccounts;
        db.events := db.events[id := db.events[id].(rotation := rotation)];
      }
      launched := triggers.CheckEventTriggers(signal, found);
      db.events := db.events[id := db.events[id].(processed := true)];
    }
  }

  class GameAccountService {
    const db: AccountDatabase

    constructor (db: AccountDatabase)
      ensures this.db == db
    {
      this.db := db;
    }

    method CreateAccount(org: OrgId, n: NewAccount, now: Time) returns (reply: Reply)
      modifies db`accounts
      ensures (db.accounts, reply) == CreatedAccount(old(db.accounts), org, n, now)
    {
      if Taken(db.accounts, org, n.game, n.login) {
        return Conflict;
      }
      db.accounts := db.accounts[n.id := Opened(org, n, now)];
      reply := Ok;
    }

    /** Bulk import; rows whose login is taken are skipped. */
    method ImportAccounts(org: OrgId, items: seq<NewAccount>, now: Time) returns (created: nat, skipped: nat)
      requires forall i | 0 <= i < |items| :: items[i].id !in db.accounts
      requires forall i, k | 0 <= i < k < |items| :: items[i].id != items[k].id
      modifies db`accounts
      ensures db.accounts == Imported(old(db.accounts), org, items, now)
      ensures created + skipped == |items| && |db.accounts| == |old(db.accounts)| + created
    {
      created, skipped := 0, 0;
      for i := 0 to |items|
        invariant db.accounts == Imported(old(db.accounts), org, items[..i], now)
        invariant created + skipped == i && |db.accounts| == |old(db.accounts)| + created
        invariant forall k | i <= k < |items| :: items[k].id !in db.accounts
      {
        assert items[..i + 1][..i] == items[..i];
        if Taken(db.accounts, org, items[i].game, items[i].login) {
          skipped := skipped + 1;
          continue;
        }
        ghost var keys := db.accounts.Keys;
        db.accounts := db.accounts[items[i].id := Opened(org, items[i], now)];
        assert db.accounts.Keys == keys + {items[i].id};
        created := created + 1;
      }
      assert items[..|items|] == items;
    }

    method UpdateAccount(id: AccountId, org: OrgId, login: Option<string>, status: Option<AccountStatus>)
      returns (reply: Reply)
      modifies db`accounts
      ensures (db.accounts, reply) == Patched(old(db.accounts), id, org, login, status)
    {
      if status.Some? && status.value !in MANUAL {
        return Invalid;
      }
      if id !in db.accounts || db.accounts[id].org != org {
        return NotFound;
      }
      var a := db.accounts[id];
      if login.Some? && login.value != a.login {
        if Taken(db.accounts - {id}, org, a.game, login.value) {
          return Conflict;
        }
        a := a.(login := login.value);
      }
      if status.Some? && status.value != a.status {
        a := a.(status := status.value);
        if status.value == Free {
          a := a.(device := None, assignedAt := None);
        }
      }
      db.accounts := db.accounts[id := a];
      reply := Ok;
    }

    method AssignAccount(id: AccountId, org: OrgId, device: DeviceId, deviceFound: bool, now: Time)
      returns (reply: Reply)
      modifies db`accounts
      ensures (db.accounts, reply) == AssignedTo(old(db.accounts), id, org, device, deviceFound, now)
    {
      if id !in db.accounts || db.accounts[id].org != org {
        return NotFound;
      }
      if db.accounts[id].status != Free {
        return Conflict;
      }
      if !deviceFound {
        return NotFound;
      }
      var a := db.accounts[id].(status := InUse, device := Some(device), assignedAt := Some(now));
      db.accounts := db.accounts[id := a];
      reply := Ok;
    }

    method ReleaseAccount(id: AccountId, org: OrgId, cooldownMinutes: Option<nat>) returns (reply: Reply)
      modifies db`accounts
      ensures (db.accounts, reply) ==
              ReleasedAccount(old(db.accounts), id, org, cooldownMinutes.Some? && cooldownMinutes.value > 0)
    {
      if id !in db.accounts || db.accounts[id].org != org {
        return NotFound;
      }
      var a := db.accounts[id];
      if a.status != InUse {
        return Conflict;
      }
      a := a.(totalSessions := a.totalSessions + 1, device := None, assignedAt := None);
      if cooldownMinutes.Some? && cooldownMinutes.value > 0 {
        a := a.(status := Cooldown);
      } else {
        a := a.(status := Free);
      }
      db.accounts := db.accounts[id := a];
      reply := Ok;
    }
  }
}
