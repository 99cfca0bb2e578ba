/**
 Refresh-token rotation (backend/services/auth_service.py): login issues a token, refresh replaces
 it, logout revokes it. Rows are keyed by the secret itself: hashing is taken to be injective and
 new secrets to be new.
 */
module RefreshTokens {
  import opened Prelude

  type Secret = nat
  type UserId = nat
  type OrgId = nat
  type Jti = nat
  type Time = real

  datatype User = User(org: OrgId, active: bool)
  datatype Row = Row(user: UserId, org: OrgId, expires: Time, revokedAt: Option<Time>)
  type Tokens = map<Secret, Row>

  datatype Reply = Issued(secret: Secret) | NotFound | AlreadyRevoked | Expired | UserInactive

  predicate Live(tokens: Tokens, x: Secret) { x in tokens && tokens[x].revokedAt.None? }

  /** What `refresh` answers to a secret; `user` is the owner's row, if it still exists. */
  function Answer(tokens: Tokens, x: Secret, user: Option<User>, next: Secret, now: Time): Reply {
    if x !in tokens then NotFound
    else if tokens[x].revokedAt.Some? then AlreadyRevoked
    else if tokens[x].expires < now then Expired
    else if user.None? || !user.value.active then UserInactive
    else Issued(next)
  }

  function AfterLogin(tokens: Tokens, id: UserId, user: User, next: Secret, now: Time, lifetime: Time): Tokens {
    tokens[next := Row(id, user.org, now + lifetime, None)]
  }

  function AfterRefresh(tokens: Tokens, x: Secret, user: Option<User>, next: Secret, now: Time,
                        lifetime: Time): Tokens {
    if Answer(tokens, x, user, next, now).Issued?
    then AfterLogin(Revoked(tokens, x, now), tokens[x].user, user.value, next, now, lifetime)
    else tokens
  }

  function Revoked(tokens: Tokens, x: Secret, now: Time): Tokens {
    if Live(tokens, x) then tokens[x := tokens[x].(revokedAt := Some(now))] else tokens
  }

  class AuthService {
    const lifetime: Time
    var users: map<UserId, User>
    var tokens: Tokens
    /** Revoked access tokens and when the cache forgets them. */
    var blacklist: map<Jti, Time>

    constructor (lifetime: Time, users: map<UserId, User>)
      ensures this.lifetime == lifetime && this.users == users && tokens == map[] && blacklist == map[]
    {
      this.lifetime, this.users, tokens, blacklist := lifetime, users, map[], map[];
    }

    function Owner(x: Secret): Option<User>
      reads this
    {
      if x in tokens && tokens[x].user in users then Some(users[tokens[x].user]) else None
    }

    method IssueTokens(id: UserId, next: Secret, now: Time)
      requires id in users
      modifies this`tokens
      ensures tokens == AfterLogin(old(tokens), id, users[id], next, now, lifetime)
    {
      tokens := tokens[next := Row(id, users[id].org, now + lifetime, None)];
    }

    method Refresh(x: Secret, next: Secret, now: Time) returns (reply: Reply)
      requires next !in tokens
      modifies this`tokens
      ensures reply == Answer(old(tokens), x, old(Owner(x)), next, now)
      ensures tokens == AfterRefresh(old(tokens), x, old(Owner(x)), next, now, lifetime)
    {
      if x !in tokens {
        return NotFound;
      }
      var row := tokens[x];
      if row.revokedAt.Some? {
        return AlreadyRevoked;
      }
      if row.expires < now {
        return Expired;
      }
      if row.user !in users || !users[row.user].active {
        return UserInactive;
      }
      tokens := tokens[x := row.(revokedAt := Some(now))];
      tokens := tokens[next := Row(row.user, users[row.user].org, now + lifetime, None)];
      reply := Issued(next);
    }

    /** The access token stays blacklisted for the rest of its life, measured in whole seconds. */
    method Logout(jti: Jti, expires: int, x: Option<Secret>, now: Time)
      modifies this`tokens, this`blacklist
      ensures tokens == if x.Some? then Revoked(old(tokens), x.value, now) else old(tokens)
      ensures now < expires as real ==> jti in blacklist && expires as real <= blacklist[jti]
      ensures forall other | other != jti ::
                (other in blacklist <==> other in old(blacklist))
                && (other in blacklist ==> blacklist[other] == old(blacklist)[other])
    {
      var remaining := expires - now.Floor;
      if remaining > 0 {
        blacklist := blacklist[jti := now + remaining as real];
      }
      if x.Some? && x.value in tokens && tokens[x.value].revokedAt.None? {
        tokens := tokens[x.value := tokens[x.value].(revokedAt := Some(now))];
      }
    }
  }

  // ── runs ──

  datatype Op =
    | Login(id: UserId, who: User, next: Secret, now: Time)
    | Refresh(x: Secret, user: Option<User>, next: Secret, now: Time)
    | Logout(given: Option<Secret>, now: Time)

  /** The token table, and for every secret the one its login was given. */
  datatype Book = Book(tokens: Tokens, family: map<Secret, Secret>)

  function After(b: Book, op: Op, lifetime: Time): Book {
    match op
    case Login(id, user, next, now) =>
      Book(AfterLogin(b.tokens, id, user, next, now, lifetime), b.family[next := next])
    case Refresh(x, user, next, now) =>
      Book(AfterRefresh(b.tokens, x, user, next, now, lifetime),
           if Accepted(b, op) && x in b.family then b.family[next := b.family[x]] else b.family)
    case Logout(x, now) =>
      Book(if x.Some? then Revoked(b.tokens, x.value, now) else b.tokens, b.family)
  }

  predicate Accepted(b: Book, op: Op) {
    op.Refresh? && Answer(b.tokens, op.x, op.user, op.next, op.now).Issued?
  }

  /** A logout that revokes something. */
  predicate Effective(b: Book, op: Op) {
    op.Logout? && op.given.Some? && Live(b.tokens, op.given.value)
  }

  /** New secrets are new. */
  predicate Fresh(b: Book, op: Op) {
    op.Logout? || op.next !in b.tokens
  }

  function Run(ops: seq<Op>, lifetime: Time): Book {
    if ops == [] then Book(map[], map[]) else After(Run(ops[..|ops| - 1], lifetime), ops[|ops| - 1], lifetime)
  }

  ghost predicate FreshRun(ops: seq<Op>, lifetime: Time) {
    forall n: nat | n < |ops| :: Fresh(Run(ops[..n], lifetime), ops[n])
  }

  lemma FreshPrefix(ops: seq<Op>, lifetime: Time)
    requires FreshRun(ops, lifetime) && ops != []
    ensures FreshRun(ops[..|ops| - 1], lifetime)
    ensures Fresh(Run(ops[..|ops| - 1], lifetime), ops[|ops| - 1])
  {
    var last := |ops| - 1;
    assert Fresh(Run(ops[..last], lifetime), ops[last]);
    forall n: nat | n < last ensures Fresh(Run(ops[..last][..n], lifetime), ops[..last][n])
    {
      assert ops[..last][..n] == ops[..n];
      assert Fresh(Run(ops[..n], lifetime), ops[n]);
    }
  }

  // ── families ──

  function LiveTokens(b: Book): set<Secret> {
    set x | x in b.tokens && Live(b.tokens, x)
  }

  /** The unrevoked tokens that descend from the login that was given `root`. */
  function LiveIn(b: Book, root: Secret): set<Secret> {
    set x | x in b.tokens && Live(b.tokens, x) && x in b.family && b.family[x] == root
  }

  ghost predicate Sound(b: Book) {
    && b.tokens.Keys == b.family.Keys
    && (forall x | x in b.family :: b.family[x] in b.tokens && b.tokens[x].user == b.tokens[b.family[x]].user)
  }

  lemma StepSound(b: Book, op: Op, lifetime: Time)
    requires Sound(b) && Fresh(b, op)
    ensures Sound(After(b, op, lifetime))
  {
    var after := After(b, op, lifetime);
    SameOwners(b, op, lifetime);
    hide After, AfterLogin, AfterRefresh, Revoked, Fresh, Accepted;
    forall x | x in after.family
      ensures after.family[x] in after.tokens && after.tokens[x].user == after.tokens[after.family[x]].user
    {
      if x !in Gained(b, op) {
        assert x in b.family && after.family[x] == b.family[x];
      }
    }
  }

  /** The secret a step makes valid and the one it revokes. */
  function Gained(b: Book, op: Op): set<Secret> {
    if op.Login? || Accepted(b, op) then {op.next} else {}
  }

  function Lost(b: Book, op: Op): set<Secret> {
    if Accepted(b, op) then {op.x} else if Effective(b, op) then {op.given.value} else {}
  }

  /** The login a gained secret goes back to. */
  function Root(b: Book, op: Op): Secret
    requires Sound(b) && Gained(b, op) != {}
  {
    if op.Login? then op.next else b.family[op.x]
  }

  /** Pointwise, what a step leaves of the rows and of the families. */
  lemma RowAfter(b: Book, op: Op, lifetime: Time, x: Secret)
    requires Fresh(b, op) && b.tokens.Keys == b.family.Keys
    ensures var after := After(b, op, lifetime);
            && (x in after.tokens <==> x in b.tokens || x in Gained(b, op))
            && (x in after.family <==> x in b.tokens || x in Gained(b, op))
            && (x in b.tokens ==> after.tokens[x].user == b.tokens[x].user && after.family[x] == b.family[x])
  {
    assert x in b.tokens <==> x in b.family;
  }

  lemma GainedRow(b: Book, op: Op, lifetime: Time)
    requires Sound(b) && Fresh(b, op) && Gained(b, op) != {}
    ensures var x, after := op.next, After(b, op, lifetime);
            && x in after.family && after.family[x] == Root(b, op)
            && x in after.tokens && Root(b, op) in after.tokens
            && after.tokens[x].user == after.tokens[Root(b, op)].user
  {
    var after := After(b, op, lifetime);
    if op.Refresh? {
      assert op.x in b.family && b.family[op.x] in b.tokens;
      RowAfter(b, op, lifetime, b.family[op.x]);
      assert after.tokens[op.next].user == b.tokens[op.x].user;
    }
  }

  lemma SameOwners(b: Book, op: Op, lifetime: Time)
    requires Sound(b) && Fresh(b, op)
    ensures var after := After(b, op, lifetime);
            && after.tokens.Keys == after.family.Keys == b.tokens.Keys + Gained(b, op)
            && (forall x | x in b.tokens :: after.tokens[x].user == b.tokens[x].user && after.family[x] == b.family[x])
            && (forall x | x in Gained(b, op) ::
                  && after.family[x] == Root(b, op) && Root(b, op) in after.tokens
                  && after.tokens[x].user == after.tokens[Root(b, op)].user)
  {
    var after := After(b, op, lifetime);
    hide After, Fresh, Accepted;
    forall x
      ensures x in after.tokens <==> x in b.tokens || x in Gained(b, op)
      ensures x in after.family <==> x in b.tokens || x in Gained(b, op)
      ensures x in b.tokens ==> after.tokens[x].user == b.tokens[x].user && after.family[x] == b.family[x]
    {
      RowAfter(b, op, lifetime, x);
    }
    if Gained(b, op) != {} {
      GainedRow(b, op, lifetime);
    }
  }

  /** Pointwise, what a step does to the valid secrets. */
  lemma LiveAfter(b: Book, op: Op, lifetime: Time, y: Secret)
    requires Fresh(b, op)
    ensures Live(After(b, op, lifetime).tokens, y) <==> y in Gained(b, op) || (Live(b.tokens, y) && y !in Lost(b, op))
    ensures y in Lost(b, op) ==> Live(b.tokens, y)
    ensures y in Gained(b, op) ==> y !in b.tokens
  {
  }

  /** Tokens never change hands: the whole family belongs to the user who logged in. */
  lemma {:induction false} FamiliesBelongToOneUser(ops: seq<Op>, lifetime: Time)
    requires FreshRun(ops, lifetime)
    ensures Sound(Run(ops, lifetime))
  {
    if ops == [] {
    } else {
      FreshPrefix(ops, lifetime);
      FamiliesBelongToOneUser(ops[..|ops| - 1], lifetime);
      StepSound(Run(ops[..|ops| - 1], lifetime), ops[|ops| - 1], lifetime);
    }
  }

  predicate LoginOf(op: Op, root: Secret) { op.Login? && op.next == root }

  predicate LogoutOf(b: Book, op: Op, root: Secret) {
    Effective(b, op) && op.given.value in b.family && b.family[op.given.value] == root
  }

  function LostIn(b: Book, op: Op, root: Secret): set<Secret> {
    set x | x in Lost(b, op) && x in b.family && b.family[x] == root
  }

  function GainedIn(b: Book, op: Op, root: Secret): set<Secret>
    requires Sound(b)
  {
    if Gained(b, op) != {} && Root(b, op) == root then Gained(b, op) else {}
  }

  lemma LiveInAfter(b: Book, op: Op, lifetime: Time, root: Secret, y: Secret)
    requires Sound(b) && Fresh(b, op)
    ensures y in LiveIn(After(b, op, lifetime), root)
       <==> y in GainedIn(b, op, root) || (y in LiveIn(b, root) && y !in LostIn(b, op, root))
    ensures y in LostIn(b, op, root) ==> y in LiveIn(b, root)
    ensures y in GainedIn(b, op, root) ==> y !in LiveIn(b, root)
  {
    LiveAfter(b, op, lifetime, y);
    RowAfter(b, op, lifetime, y);
    if y in Gained(b, op) {
      GainedRow(b, op, lifetime);
      assert y == op.next && Gained(b, op) != {};
    }
    hide After, Fresh, Gained, Lost, Root, Live;
    assert y in b.tokens <==> y in b.family;
  }

  /** How a step changes the unrevoked tokens of one family. */
  lemma FamilyStep(b: Book, op: Op, lifetime: Time, root: Secret)
    requires Sound(b) && Fresh(b, op)
    ensures |LiveIn(After(b, op, lifetime), root)|
         == |LiveIn(b, root)| + (if LoginOf(op, root) then 1 else 0) - (if LogoutOf(b, op, root) then 1 else 0)
  {
    SizesOf(b, op, root);
    hide *;
    var after, live := LiveIn(After(b, op, lifetime), root), LiveIn(b, root);
    var lost, gained := LostIn(b, op, root), GainedIn(b, op, root);
    forall y
      ensures y in after <==> y in gained || (y in live && y !in lost)
      ensures (y in lost ==> y in live) && (y in gained ==> y !in live)
    {
      LiveInAfter(b, op, lifetime, root, y);
    }
    Swapped(live, lost, gained, after);
  }

  lemma SizesOf(b: Book, op: Op, root: Secret)
    requires Sound(b)
    ensures |GainedIn(b, op, root)| - |LostIn(b, op, root)|
         == (if LoginOf(op, root) then 1 else 0) - (if LogoutOf(b, op, root) then 1 else 0)
  {
    var lost := LostIn(b, op, root);
    if Accepted(b, op) {
      assert lost == if b.family[op.x] == root then {op.x} else {};
    } else if Effective(b, op) {
      assert lost == if b.family[op.given.value] == root then {op.given.value} else {};
    } else {
      assert lost == {};
    }
  }

  lemma Swapped<T>(live: set<T>, lost: set<T>, gained: set<T>, after: set<T>)
    requires forall y :: y in after <==> y in gained || (y in live && y !in lost)
    requires forall y :: (y in lost ==> y in live) && (y in gained ==> y !in live)
    ensures |after| == |live| - |lost| + |gained|
  {
    assert after == (live - lost) + gained;
    assert live == (live - lost) + lost;
    assert |(live - lost) + lost| == |live - lost| + |lost|;
  }

  function LoginsOf(ops: seq<Op>, root: Secret): nat {
    if ops == [] then 0 else LoginsOf(ops[..|ops| - 1], root) + if LoginOf(ops[|ops| - 1], root) then 1 else 0
  }

  function LogoutsOf(ops: seq<Op>, lifetime: Time, root: Secret): nat {
    if ops == [] then 0
    else
      var n := |ops| - 1;
      LogoutsOf(ops[..n], lifetime, root) + if LogoutOf(Run(ops[..n], lifetime), ops[n], root) then 1 else 0
  }

  /** A secret is handed out by at most one login, and only if it is a key of the table. */
  lemma {:induction false} OneLoginPerRoot(ops: seq<Op>, lifetime: Time, root: Secret)
    requires FreshRun(ops, lifetime)
    ensures LoginsOf(ops, root) <= if root in Run(ops, lifetime).tokens then 1 else 0
  {
    if ops == [] {
    } else {
      FreshPrefix(ops, lifetime);
      OneLoginPerRoot(ops[..|ops| - 1], lifetime, root);
    }
  }

  /**
   In every run each login's family has exactly one unrevoked token until an effective logout ends
   the family, and none from then on.
   */
  lemma {:induction false} OneLiveTokenPerFamily(ops: seq<Op>, lifetime: Time, root: Secret)
    requires FreshRun(ops, lifetime)
    ensures |LiveIn(Run(ops, lifetime), root)| == LoginsOf(ops, root) - LogoutsOf(ops, lifetime, root)
    ensures LoginsOf(ops, root) <= 1
  {
    OneLoginPerRoot(ops, lifetime, root);
    if ops == [] {
    } else {
      var before := ops[..|ops| - 1];
      FreshPrefix(ops, lifetime);
      FamiliesBelongToOneUser(before, lifetime);
      OneLiveTokenPerFamily(before, lifetime, root);
      FamilyStep(Run(before, lifetime), ops[|ops| - 1], lifetime, root);
    }
  }

  // ── all tokens together ──

  function Logins(ops: seq<Op>): nat {
    if ops == [] then 0 else Logins(ops[..|ops| - 1]) + if ops[|ops| - 1].Login? then 1 else 0
  }

  function EffectiveLogouts(ops: seq<Op>, lifetime: Time): nat {
    if ops == [] then 0
    else
      var n := |ops| - 1;
      EffectiveLogouts(ops[..n], lifetime) + if Effective(Run(ops[..n], lifetime), ops[n]) then 1 else 0
  }

  lemma LiveStep(b: Book, op: Op, lifetime: Time)
    requires Fresh(b, op)
    ensures |LiveTokens(After(b, op, lifetime))|
         == |LiveTokens(b)| + (if op.Login? then 1 else 0) - (if Effective(b, op) then 1 else 0)
  {
    var after, live := After(b, op, lifetime), LiveTokens(b);
    forall y ensures y in LiveTokens(after) <==> y in Gained(b, op) || (y in live && y !in Lost(b, op))
    {
      LiveAfter(b, op, lifetime, y);
    }
    forall y ensures (y in Lost(b, op) ==> y in live) && (y in Gained(b, op) ==> y !in live) {
      LiveAfter(b, op, lifetime, y);
    }
    Swapped(live, Lost(b, op), Gained(b, op), LiveTokens(after));
  }

  /** The unrevoked tokens are the logins less the effective logouts; refreshing never adds one. */
  lemma {:induction false} LiveTokensAreOpenLogins(ops: seq<Op>, lifetime: Time)
    requires FreshRun(ops, lifetime)
    ensures |LiveTokens(Run(ops, lifetime))| == Logins(ops) - EffectiveLogouts(ops, lifetime)
  {
    if ops == [] {
    } else {
      FreshPrefix(ops, lifetime);
      LiveTokensAreOpenLogins(ops[..|ops| - 1], lifetime);
      LiveStep(Run(ops[..|ops| - 1], lifetime), ops[|ops| - 1], lifetime);
    }
  }

  // ── each secret is accepted once ──

  /** How often `refresh` accepted this secret. */
  function TimesAccepted(ops: seq<Op>, lifetime: Time, x: Secret): nat {
    if ops == [] then 0
    else
      var n := |ops| - 1;
      TimesAccepted(ops[..n], lifetime, x)
      + if ops[n].Refresh? && ops[n].x == x && Accepted(Run(ops[..n], lifetime), ops[n]) then 1 else 0
  }

  /** No secret is accepted twice, and one that was accepted or logged out stays revoked. */
  lemma {:induction false} AcceptedAtMostOnce(ops: seq<Op>, lifetime: Time, x: Secret)
    requires FreshRun(ops, lifetime)
    ensures TimesAccepted(ops, lifetime, x)
         <= if x in Run(ops, lifetime).tokens && !Live(Run(ops, lifetime).tokens, x) then 1 else 0
  {
    if ops == [] {
    } else {
      FreshPrefix(ops, lifetime);
      AcceptedAtMostOnce(ops[..|ops| - 1], lifetime, x);
    }
  }

  // ── which secrets are accepted ──

  /** Operation `m` handed out the secret. */
  predicate Issues(ops: seq<Op>, lifetime: Time, m: nat, x: Secret)
    requires m < |ops|
  {
    && !ops[m].Logout? && ops[m].next == x
    && (ops[m].Refresh? ==> Accepted(Run(ops[..m], lifetime), ops[m]))
  }

  /** Operation `k` exchanged the secret or logged it out. */
  predicate Spends(ops: seq<Op>, lifetime: Time, k: nat, x: Secret)
    requires k < |ops|
  {
    match ops[k]
    case Login(_, _, _, _) => false
    case Refresh(y, _, _, _) => y == x && Accepted(Run(ops[..k], lifetime), ops[k])
    case Logout(given, _) => given == Some(x)
  }

  ghost predicate Unspent(ops: seq<Op>, lifetime: Time, m: nat, x: Secret) {
    forall k: nat | m < k < |ops| :: !Spends(ops, lifetime, k, x)
  }

  /** The user to whom a secret was handed out. */
  function Receiver(op: Op): Option<User> {
    match op
    case Login(_, who, _, _) => Some(who)
    case Refresh(_, user, _, _) => user
    case Logout(_, _) => None
  }

  /** The row of a secret tells when it was handed out, for whom, and whether it was spent since. */
  ghost predicate Traced(ops: seq<Op>, lifetime: Time, m: nat, x: Secret)
    requires m < |ops|
  {
    var tokens := Run(ops, lifetime).tokens;
    && Issues(ops, lifetime, m, x) && x in tokens
    && tokens[x].expires == ops[m].now + lifetime
    && (Receiver(ops[m]).Some? ==> tokens[x].org == Receiver(ops[m]).value.org)
    && (Live(tokens, x) <==> Unspent(ops, lifetime, m, x))
  }

  lemma SameBefore(ops: seq<Op>, lifetime: Time, m: nat, x: Secret)
    requires m < |ops| - 1
    ensures Issues(ops, lifetime, m, x) <==> Issues(ops[..|ops| - 1], lifetime, m, x)
    ensures Spends(ops, lifetime, m, x) <==> Spends(ops[..|ops| - 1], lifetime, m, x)
  {
    assert ops[..|ops| - 1][..m] == ops[..m];
  }

  lemma SpentSoFar(ops: seq<Op>, lifetime: Time, m: nat, x: Secret)
    requires m < |ops| - 1
    ensures Unspent(ops, lifetime, m, x)
       <==> Unspent(ops[..|ops| - 1], lifetime, m, x) && !Spends(ops, lifetime, |ops| - 1, x)
  {
    hide Spends;
    var front := ops[..|ops| - 1];
    forall k: nat | k < |front| ensures Spends(ops, lifetime, k, x) <==> Spends(front, lifetime, k, x) {
      SameBefore(ops, lifetime, k, x);
    }
    if Unspent(ops, lifetime, m, x) {
      forall k: nat | m < k < |front| ensures !Spends(front, lifetime, k, x) {
        assert !Spends(ops, lifetime, k, x);
      }
    }
  }

  /** What one operation does to the row of a secret. */
  lemma RowStep(b: Book, op: Op, lifetime: Time, x: Secret)
    requires Fresh(b, op)
    ensures var after := After(b, op, lifetime).tokens;
            && (x in b.tokens ==>
                  && x in after && after[x].expires == b.tokens[x].expires && after[x].org == b.tokens[x].org
                  && (Live(after, x) <==>
                        Live(b.tokens, x) && !(op.Refresh? && op.x == x && Accepted(b, op))
                        && !(op.Logout? && op.given == Some(x))))
            && (x !in b.tokens ==>
                  && (x in after <==> !op.Logout? && op.next == x && (op.Refresh? ==> Accepted(b, op)))
                  && (x in after ==>
                        && Live(after, x) && after[x].expires == op.now + lifetime
                        && (Receiver(op).Some? ==> after[x].org == Receiver(op).value.org)))
  {
  }

  /** Every secret on record was handed out by some operation, and its row is traced back to it. */
  lemma {:induction false} TokensAreTraced(ops: seq<Op>, lifetime: Time, x: Secret) returns (m: nat)
    requires FreshRun(ops, lifetime) && x in Run(ops, lifetime).tokens
    ensures m < |ops| && Traced(ops, lifetime, m, x)
    decreases |ops|
  {
    var n := |ops| - 1;
    var front := ops[..n];
    FreshPrefix(ops, lifetime);
    RowStep(Run(front, lifetime), ops[n], lifetime, x);
    if x in Run(front, lifetime).tokens {
      m := TokensAreTraced(front, lifetime, x);
      SameBefore(ops, lifetime, m, x);
      SpentSoFar(ops, lifetime, m, x);
    } else {
      m := n;
      assert Unspent(ops, lifetime, m, x);
    }
  }

  /** A secret that was handed out stays on record. */
  lemma {:induction false} IssuedStays(ops: seq<Op>, lifetime: Time, m: nat, x: Secret)
    requires FreshRun(ops, lifetime) && m < |ops| && Issues(ops, lifetime, m, x)
    ensures x in Run(ops, lifetime).tokens
    decreases |ops|
  {
    var n := |ops| - 1;
    FreshPrefix(ops, lifetime);
    RowStep(Run(ops[..n], lifetime), ops[n], lifetime, x);
    hide FreshRun, After, Accepted;
    if m < n {
      SameBefore(ops, lifetime, m, x);
      hide Issues;
      IssuedStays(ops[..n], lifetime, m, x);
    }
  }

  lemma FreshTake(ops: seq<Op>, lifetime: Time, n: nat)
    requires FreshRun(ops, lifetime) && n <= |ops|
    ensures FreshRun(ops[..n], lifetime)
  {
    forall k: nat | k < n ensures Fresh(Run(ops[..n][..k], lifetime), ops[..n][k]) {
      assert ops[..n][..k] == ops[..k];
      assert Fresh(Run(ops[..k], lifetime), ops[k]);
    }
  }

  /** No secret is handed out twice. */
  lemma IssuedOnce(ops: seq<Op>, lifetime: Time, m: nat, k: nat, x: Secret)
    requires FreshRun(ops, lifetime) && m < k < |ops| && Issues(ops, lifetime, m, x)
    ensures !Issues(ops, lifetime, k, x)
  {
    FreshTake(ops, lifetime, k);
    assert ops[..k][..m] == ops[..m];
    IssuedStays(ops[..k], lifetime, m, x);
    assert Fresh(Run(ops[..k], lifetime), ops[k]);
  }

  /** Handed out by operation `m` at most `lifetime` ago and not spent since. */
  ghost predicate StillGood(ops: seq<Op>, lifetime: Time, m: nat, x: Secret, now: Time) {
    m < |ops| && Issues(ops, lifetime, m, x) && Unspent(ops, lifetime, m, x) && now <= ops[m].now + lifetime
  }

  /**
   Over every run: a secret is exchanged exactly when it was handed out at most `lifetime` ago, has been
   neither exchanged nor logged out since, and its owner is active now.
   */
  lemma AcceptedExactly(ops: seq<Op>, lifetime: Time, op: Op)
    requires FreshRun(ops, lifetime) && op.Refresh?
    ensures Accepted(Run(ops, lifetime), op)
       <==> (exists m: nat :: StillGood(ops, lifetime, m, op.x, op.now)) && op.user.Some? && op.user.value.active
  {
    var x := op.x;
    if x in Run(ops, lifetime).tokens {
      var m := TokensAreTraced(ops, lifetime, x);
      hide Run, FreshRun, Unspent;
      forall k: nat | StillGood(ops, lifetime, k, x, op.now) ensures k == m {
        if k < m {
          IssuedOnce(ops, lifetime, k, m, x);
        } else if m < k {
          IssuedOnce(ops, lifetime, m, k, x);
        }
      }
      assert Accepted(Run(ops, lifetime), op) ==> StillGood(ops, lifetime, m, x, op.now);
    } else {
      forall m: nat ensures !StillGood(ops, lifetime, m, x, op.now) {
        if StillGood(ops, lifetime, m, x, op.now) {
          IssuedStays(ops, lifetime, m, x);
        }
      }
    }
  }

  /** How a secret that is not exchanged is refused. */
  lemma RefusalsExactly(ops: seq<Op>, lifetime: Time, op: Op)
    requires FreshRun(ops, lifetime) && op.Refresh?
    ensures var reply := Answer(Run(ops, lifetime).tokens, op.x, op.user, op.next, op.now);
            && (reply == NotFound <==> forall m: nat | m < |ops| :: !Issues(ops, lifetime, m, op.x))
            && (reply == AlreadyRevoked <==>
                  exists m: nat :: m < |ops| && Issues(ops, lifetime, m, op.x) && !Unspent(ops, lifetime, m, op.x))
            && (reply == Expired <==>
                  exists m: nat :: m < |ops| && Issues(ops, lifetime, m, op.x) && Unspent(ops, lifetime, m, op.x)
                                   && ops[m].now + lifetime < op.now)
  {
    var x := op.x;
    if x in Run(ops, lifetime).tokens {
      var m := TokensAreTraced(ops, lifetime, x);
      hide Run, FreshRun, Unspent;
      forall k: nat | k < |ops| && Issues(ops, lifetime, k, x) ensures k == m {
        if k < m {
          IssuedOnce(ops, lifetime, k, m, x);
        } else if m < k {
          IssuedOnce(ops, lifetime, m, k, x);
        }
      }
    } else {
      forall m: nat | m < |ops| ensures !Issues(ops, lifetime, m, x) {
        if Issues(ops, lifetime, m, x) {
          IssuedStays(ops, lifetime, m, x);
        }
      }
    }
  }
}
