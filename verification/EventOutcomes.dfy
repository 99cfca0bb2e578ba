/**
 What an event does, told by its name alone: which session it ends and with which reason, which status
 it gives an account, and that it touches nothing else.
 */
module EventOutcomes {
  import opened Prelude
  import opened AccountEffects
  import opened ReactorRuns

  /** The events that end a session, with the reason. */
  const ENDINGS: map<string, EndReason> := map[
    "account.banned" := ByBan,
    "account.captcha" := ByCaptcha,
    "account.phone_verify" := ByError,
    "account.error" := ByError,
    "game.crashed" := ByError,
    "device.error" := ByDeviceOffline,
    "device.offline" := ByDeviceOffline]

  /** The events that give an account a new status. */
  const STATUSES: map<string, AccountStatus> := map[
    "account.banned" := Banned,
    "account.captcha" := Captcha,
    "account.phone_verify" := PhoneVerify,
    "account.error" := Disabled]

  lemma EndingOfName(name: string)
    ensures SessionEnd(Kind(name)) == if name in ENDINGS then Some(ENDINGS[name]) else None
  {
  }

  lemma StatusOfName(name: string)
    ensures Reaction(Kind(name)) == if name in STATUSES then Some(STATUSES[name]) else None
    ensures Kind(name) == AccountBanned <==> name == "account.banned"
  {
  }

  /** An event with this name about account `x` was processed. */
  ghost predicate About(db: Db, e: Event, name: string, x: AccountId, after: Db) {
    e.kind == Kind(name) && e.account == Some(x) && Possible(db, e) && Processed(db, e) == Some(after)
  }

  /** Session `s` of account `x` in organisation `org` is open. */
  predicate OpenOf(db: Db, s: SessionId, x: AccountId, org: OrgId) {
    s in db.sessions && db.sessions[s].account == x && db.sessions[s].org == org && db.sessions[s].endedAt.None?
  }

  predicate Ends(db: Db, e: Event, name: string, s: SessionId, x: AccountId) {
    name in ENDINGS && OpenOf(db, s, x, e.org)
  }

  /** The old sessions after the event: the open ones of the account have ended, the others are the same. */
  predicate SessionsAfter(db: Db, e: Event, name: string, x: AccountId, after: Db) {
    forall s | s in db.sessions ::
      && s in after.sessions
      && after.sessions[s] ==
         if Ends(db, e, name, s, x)
         then db.sessions[s].(endedAt := Some(e.at), reason := Some(ENDINGS[name]))
         else db.sessions[s]
  }

  /** What ending the session of an account does, session by session. */
  lemma EndedSessions(db: Db, x: AccountId, org: OrgId, reason: EndReason, at: Time)
    requires SessionEnded(db, x, org, reason, at).Some?
    ensures var after := SessionEnded(db, x, org, reason, at).value;
            && after.sessions.Keys == db.sessions.Keys
            && (forall s | s in db.sessions ::
                  after.sessions[s] == if OpenOf(db, s, x, org)
                                       then db.sessions[s].(endedAt := Some(at), reason := Some(reason))
                                       else db.sessions[s])
            && after.accounts.Keys == db.accounts.Keys
            && (forall y | y in db.accounts ::
                  after.accounts[y] ==
                  if y == x && exists s :: OpenOf(db, s, x, org)
                  then db.accounts[y].(totalSessions := db.accounts[y].totalSessions + 1)
                  else db.accounts[y])
  {
    var open := OpenSessions(db.sessions, x, org);
    assert forall s :: s in open <==> OpenOf(db, s, x, org);
    if open != {} {
      TheOnlyOne(open);
      var s :| s in open && open == {s};
      assert OpenOf(db, s, x, org);
    }
  }

  /** Steps 2 and 3 leave the other fields and rows alone. */
  lemma ReactionEffect(db: Db, e: Event, name: string, x: AccountId)
    requires e.kind == Kind(name) && e.account == Some(x)
    ensures Reacted(db, e).sessions == db.sessions && Reacted(db, e).accounts.Keys == db.accounts.Keys
    ensures forall y | y in db.accounts ::
              Reacted(db, e).accounts[y] ==
              if y == x && db.accounts[x].org == e.org && name in STATUSES
              then Changed(db.accounts[x], name)
              else db.accounts[y]
  {
    StatusOfName(name);
    hide Kind;
  }

  /** The row of an account after a reaction: banned and failing accounts lose their device, bans are counted. */
  function Changed(a: Account, name: string): Account
    requires name in STATUSES
  {
    var loses := STATUSES[name] == Banned || STATUSES[name] == Disabled;
    a.(status := STATUSES[name],
       device := if loses then None else a.device,
       assignedAt := if loses then None else a.assignedAt,
       totalBans := a.totalBans + if STATUSES[name] == Banned then 1 else 0)
  }

  /** The accounts after the event, but for the one handed out. */
  ghost predicate AccountsAfter(db: Db, e: Event, name: string, x: AccountId, after: Db) {
    && after.accounts.Keys == db.accounts.Keys
    && forall y | y in db.accounts && !(name == "account.banned" && e.pick == Some(y)) ::
         after.accounts[y] == if y == x then Outcome(db, e, name, x) else db.accounts[y]
  }

  /** The row of the account the event is about. */
  ghost function Outcome(db: Db, e: Event, name: string, x: AccountId): Account
    requires x in db.accounts
  {
    var a := db.accounts[x];
    var b := if a.org == e.org && name in STATUSES then Changed(a, name) else a;
    b.(totalSessions := a.totalSessions + if exists s :: Ends(db, e, name, s, x) then 1 else 0)
  }

  lemma EndsExactly(db: Db, e: Event, name: string, x: AccountId)
    requires e.kind == Kind(name) && e.account == Some(x)
    ensures name !in ENDINGS ==> (forall s :: !Ends(db, e, name, s, x)) && Closed(db, e) == Some(Reacted(db, e))
    ensures name in ENDINGS ==>
              && Closed(db, e) == SessionEnded(Reacted(db, e), x, e.org, ENDINGS[name], e.at)
              && forall s :: Ends(db, e, name, s, x) <==> OpenOf(Reacted(db, e), s, x, e.org)
  {
    EndingOfName(name);
    ReactionEffect(db, e, name, x);
    hide Kind, SessionEnd, Reacted, SessionEnded;
  }

  lemma ClosedSessions(db: Db, e: Event, name: string, x: AccountId)
    requires e.kind == Kind(name) && e.account == Some(x) && Closed(db, e).Some?
    ensures Closed(db, e).value.sessions.Keys == db.sessions.Keys
    ensures SessionsAfter(db, e, name, x, Closed(db, e).value)
  {
    EndsExactly(db, e, name, x);
    ReactionEffect(db, e, name, x);
    hide Kind, Closed, Reacted, Changed, SessionEnded, OpenOf, Ends;
    if name in ENDINGS {
      EndedSessions(Reacted(db, e), x, e.org, ENDINGS[name], e.at);
    }
  }

  lemma ClosedAccounts(db: Db, e: Event, name: string, x: AccountId)
    requires e.kind == Kind(name) && e.account == Some(x) && Closed(db, e).Some?
    ensures var accounts := Closed(db, e).value.accounts;
            && accounts.Keys == db.accounts.Keys
            && forall y | y in db.accounts ::
                 accounts[y] == if y == x then Outcome(db, e, name, x) else db.accounts[y]
  {
    EndsExactly(db, e, name, x);
    ReactionEffect(db, e, name, x);
    hide Kind, Closed, Reacted, SessionEnded, OpenOf, Ends;
    if name in ENDINGS {
      EndedSessions(Reacted(db, e), x, e.org, ENDINGS[name], e.at);
    }
  }

  lemma RotationEffect(db: Db, e: Event, name: string, x: AccountId, after: Db)
    requires About(db, e, name, x, after)
    ensures Closed(db, e).Some?
    ensures var closed := Closed(db, e).value;
            && (name != "account.banned" || e.pick.None? ==> after == closed)
            && (name == "account.banned" && e.pick.Some? ==>
                  && e.pick.value != x && e.session !in closed.sessions
                  && after.accounts.Keys == closed.accounts.Keys
                  && (forall y | y in closed.accounts && y != e.pick.value ::
                        after.accounts[y] == closed.accounts[y])
                  && after.sessions ==
                     closed.sessions[e.session := Session(e.org, e.pick.value, e.device, e.at, None, None)])
  {
    StatusOfName(name);
    hide Kind, Closed;
  }

  /** A rotation adds a session of another account. */
  predicate AtMostOneMore(sessions: Sessions, sessions': Sessions, x: AccountId) {
    || sessions' == sessions
    || exists s :: s !in sessions && s in sessions' && sessions'[s].account != x && sessions' - {s} == sessions
  }

  lemma OneMoreSession(db: Db, e: Event, name: string, x: AccountId, closed: Db, after: Db)
    requires closed.sessions.Keys == db.sessions.Keys && SessionsAfter(db, e, name, x, closed)
    requires AtMostOneMore(closed.sessions, after.sessions, x)
    ensures SessionsAfter(db, e, name, x, after)
    ensures name in ENDINGS ==> forall s :: !OpenOf(after, s, x, e.org)
  {
    assert forall s | s in closed.sessions :: s in after.sessions && after.sessions[s] == closed.sessions[s];
    assert forall s | s in after.sessions :: s in closed.sessions || after.sessions[s].account != x;
    assert forall s | s in db.sessions && name in ENDINGS && OpenOf(db, s, x, e.org) :: Ends(db, e, name, s, x);
  }

  lemma NothingElseEnds(db: Db, e: Event, name: string, x: AccountId, closed: Db)
    requires closed.sessions.Keys == db.sessions.Keys && SessionsAfter(db, e, name, x, closed)
    ensures name !in ENDINGS ==> closed.sessions == db.sessions
  {
    assert name !in ENDINGS ==> forall s :: !Ends(db, e, name, s, x);
  }

  lemma RotationAddsSession(db: Db, e: Event, name: string, x: AccountId, after: Db)
    requires About(db, e, name, x, after)
    ensures e.kind == Kind(name) && e.account == Some(x) && Closed(db, e).Some?
    ensures AtMostOneMore(Closed(db, e).value.sessions, after.sessions, x)
    ensures name !in ENDINGS ==> after == Closed(db, e).value
  {
    RotationEffect(db, e, name, x, after);
    hide Closed, Kind, Processed, Possible;
    var sessions := Closed(db, e).value.sessions;
    if name == "account.banned" && e.pick.Some? {
      assert after.sessions - {e.session} == sessions;
    }
  }

  lemma SessionTotal(db: Db, e: Event, name: string, x: AccountId, after: Db)
    requires About(db, e, name, x, after)
    ensures x in db.accounts ==>
              && x in after.accounts
              && after.accounts[x].totalSessions ==
                 db.accounts[x].totalSessions + if exists s :: Ends(db, e, name, s, x) then 1 else 0
  {
    RotationEffect(db, e, name, x, after);
    hide Closed, Kind, Processed, Possible, Ends, Changed;
    ClosedAccounts(db, e, name, x);
  }

  /**
   Exactly the events of the table end sessions: afterwards the account has no open session in the
   organisation, the one that was open has ended now and for the reason of the table, every other old
   session is the same, and total_sessions grows by one if and only if there was one.
   */
  lemma EventsEndSessionsExactly(db: Db, e: Event, name: string, x: AccountId, after: Db)
    requires About(db, e, name, x, after)
    ensures SessionsAfter(db, e, name, x, after)
    ensures name in ENDINGS ==> forall s :: !OpenOf(after, s, x, e.org)
    ensures name !in ENDINGS ==> after.sessions == db.sessions
    ensures x in db.accounts ==>
              && x in after.accounts
              && after.accounts[x].totalSessions ==
                 db.accounts[x].totalSessions + if exists s :: Ends(db, e, name, s, x) then 1 else 0
  {
    hide *;
    RotationAddsSession(db, e, name, x, after);
    ClosedSessions(db, e, name, x);
    OneMoreSession(db, e, name, x, Closed(db, e).value, after);
    NothingElseEnds(db, e, name, x, Closed(db, e).value);
    SessionTotal(db, e, name, x, after);
  }

  /**
   Exactly the four account events change a status, and only that of an account of the organisation;
   the row of every other account stays, except the one a ban hands out.
   */
  lemma EventsSetStatusExactly(db: Db, e: Event, name: string, x: AccountId, after: Db)
    requires About(db, e, name, x, after)
    ensures AccountsAfter(db, e, name, x, after)
  {
    RotationEffect(db, e, name, x, after);
    ClosedAccounts(db, e, name, x);
    hide About, Closed, Outcome;
  }

  /** The other free accounts of the game of `x` in the organisation. */
  function Alternatives(accounts: Accounts, x: AccountId, org: OrgId): set<AccountId> {
    set y | y in accounts && x in accounts && y != x
            && accounts[y].status == Free && accounts[y].game == accounts[x].game && accounts[y].org == org
  }

  lemma CandidatesAreAlternatives(accounts: Accounts, x: AccountId, org: OrgId)
    ensures forall y :: Candidate(accounts, y, org, x) <==> y in Alternatives(accounts, x, org)
  {
  }

  /**
   A session is opened exactly by a ban of an account with an alternative; an oldest alternative is put
   in use on the device of the event, now, and the new session is its own.
   */
  lemma BansRotateExactly(db: Db, e: Event, name: string, x: AccountId, after: Db)
    requires About(db, e, name, x, after)
    ensures after.sessions.Keys != db.sessions.Keys
       <==> name == "account.banned" && Alternatives(db.accounts, x, e.org) != {}
    ensures name == "account.banned" && Alternatives(db.accounts, x, e.org) != {} ==>
              && e.pick.Some? && e.pick.value in Alternatives(db.accounts, x, e.org)
              && (forall y | y in Alternatives(db.accounts, x, e.org) ::
                    db.accounts[e.pick.value].createdAt <= db.accounts[y].createdAt)
              && e.pick.value in after.accounts
              && after.accounts[e.pick.value] == db.accounts[e.pick.value].(
                   status := InUse, device := Some(e.device), assignedAt := Some(e.at))
              && after.sessions.Keys == db.sessions.Keys + {e.session}
              && after.sessions[e.session] == Session(e.org, e.pick.value, e.device, e.at, None, None)
  {
    StatusOfName(name);
    RotationEffect(db, e, name, x, after);
    ClosedSessions(db, e, name, x);
    CandidatesAreAlternatives(db.accounts, x, e.org);
    hide Kind, Closed, SessionsAfter, Candidate, Alternatives;
    if name == "account.banned" {
      RotatesExactly(db, e);
    }
  }

  /** What is stored about the event: its rotation, if it is a ban, and that it was processed. */
  lemma RecordTellsRotation(e: Event, name: string, pick: Option<AccountId>, done: bool)
    requires e.kind == Kind(name)
    ensures var row := Recorded(e, pick, done);
            && row.org == e.org && row.device == e.device && row.account == e.account && row.at == e.at
            && row.kind == Kind(name) && row.processed == done
            && (row.rotation == NotTried <==> !done || name != "account.banned" || e.account.None?)
            && (row.rotation == NoFreeAccounts <==>
                  done && name == "account.banned" && e.account.Some? && pick.None?)
            && (forall y: AccountId :: row.rotation == RotatedTo(y) <==>
                  done && name == "account.banned" && e.account.Some? && pick == Some(y))
  {
    StatusOfName(name);
    hide Kind;
  }

  /** An event about no account changes nothing. */
  lemma NobodysEvent(db: Db, e: Event)
    requires e.account.None?
    ensures Processed(db, e) == Some(db)
  {
  }
}
