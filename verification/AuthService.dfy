/** The tables of internal/auth and internal/users, and the transactions that
    change them, statement by statement. A transaction that fails part-way puts
    back the tables it began with. */
module AuthService {
  import opened Bytes
  import opened Wrappers
  import opened AuthState

  const MAX_PASSWORD_BYTES := 1024
  const MAX_USERNAME_BYTES := 64

  datatype Error =
    | Unauthorized | AccountDisabled | PasswordPolicy | NotFound | InvalidIdleTimeout | Forbidden
    | UsernameTaken | ConfirmationMismatch | LastAdminProtected | AuditFailed

  ghost predicate UniqueNames(users: Users) {
    forall u, v :: u in users && v in users && users[u].name == users[v].name ==> u == v
  }

  /** Whom a vault item belongs to. */
  datatype Belongs = Belongs(owner: Option<Id>, creator: Option<Id>)

  /** An idempotency key: its scope is "<operation>:<actor>". */
  datatype ClaimKey = ClaimKey(operation: Text, actor: Id, key: Text)

  const DAY_NS: Time := 86_400_000_000_000
  const MINUTE_NS: Time := 60_000_000_000

  /** `strftime('%f')`: the nearest millisecond. */
  lemma RoundMsMeans(at: Time)
    ensures RoundMs(at) % 1_000_000 == 0 && -500_000 < RoundMs(at) - at <= 500_000
  {
  }

  class AuthTables {
    var users: Users
    var sessions: Sessions
    /** Of the other tables, what deleting a member reaches. */
    var items: map<Id, Belongs>
    var claims: set<ClaimKey>

    constructor (users: Users, items: map<Id, Belongs>, claims: set<ClaimKey>)
      ensures Current() == Db(users, map[]) && this.items == items && this.claims == claims
    {
      this.users, this.sessions, this.items, this.claims := users, map[], items, claims;
    }

    ghost function Current(): Db
      reads this
    {
      Db(users, sessions)
    }

    method FindUser(name: Text) returns (r: Option<Id>)
      requires UniqueNames(users)
      ensures r.None? <==> forall u :: u in users ==> users[u].name != name
      ensures r.Some? ==> r.value in users && users[r.value].name == name
    {
      if exists u :: u in users && users[u].name == name {
        var u :| u in users && users[u].name == name;
        return Some(u);
      }
      return None;
    }

    /** The part of `Login` before its transaction. An unknown name costs the
        same password work, against a hash no password opens. */
    method BeginLogin(name: Text, password: Text, dummy: Hash, salted: Hash, token: Id)
      returns (r: Result<Flight, Error>)
      requires UniqueNames(users) && salted.password == password
      ensures r.Ok? <==> (&& |name| <= MAX_USERNAME_BYTES && |password| <= MAX_PASSWORD_BYTES
                          && exists u :: u in users && users[u].name == name && users[u].active && Verify(password, users[u].hash))
      ensures r.Ok? ==>
                var f := r.value;
                && f.LoginFlight? && Proven(f) && f.password == password && f.token == token
                && f.user in users && users[f.user].name == name && users[f.user].active && f.hash == users[f.user].hash
                && f.sessionHash == (if f.hash.params != salted.params then salted else f.hash)
      ensures r == Err(AccountDisabled) <==>
                (&& |name| <= MAX_USERNAME_BYTES && |password| <= MAX_PASSWORD_BYTES
                 && exists u :: u in users && users[u].name == name && !users[u].active && Verify(password, users[u].hash))
      ensures r.Err? ==> r.error in {Unauthorized, AccountDisabled}
    {
      if |name| > MAX_USERNAME_BYTES || |password| > MAX_PASSWORD_BYTES {
        return Err(Unauthorized);
      }
      var id := FindUser(name);
      var hash := dummy;
      if id.Some? {
        hash := users[id.value].hash;
      }
      var valid := Verify(password, hash);
      if !valid || id.None? {
        return Err(Unauthorized);
      }
      if !users[id.value].active {
        return Err(AccountDisabled);
      }
      var sessionHash := hash;
      if hash.params != salted.params {
        sessionHash := salted;
      }
      return Ok(LoginFlight(id.value, password, hash, sessionHash, token));
    }

    /** The transaction of `Login`: rehash under compare-and-swap, insert under
        the same guard, correct the provisional idle expiry, audit. `idle` is
        the timeout read before the transaction. */
    method CommitLogin(f: Flight, idle: int, at: Time, audited: bool) returns (r: Result<Session, Error>)
      requires f.LoginFlight? && f.token !in sessions
      modifies this`users, this`sessions
      ensures Current() == LoginDone(old(Current()), f, at, audited)
      ensures r.Ok? <==> LoginGuard(old(Current()), f) && audited
      ensures r.Ok? ==> f.token in sessions && r.value == sessions[f.token]
      ensures r.Err? ==> r.error == (if LoginGuard(old(Current()), f) then AuditFailed else Unauthorized)
      // In terms of the rows.
      ensures r.Ok? <==> f.user in old(users) && old(users)[f.user].hash == f.hash && old(users)[f.user].active && audited
      ensures r.Err? ==> users == old(users) && sessions == old(sessions)
      ensures r.Ok? ==>
                var was := old(users)[f.user];
                && users == old(users)[f.user := was.(hash := f.sessionHash)]
                && sessions == old(sessions)[f.token :=
                     Session(f.user, at, at + DAY_NS, at + was.idleMinutes * MINUTE_NS, false, f.password)]
    {
      var wasUsers, wasSessions := users, sessions;
      if f.sessionHash != f.hash {
        if !(f.user in users && users[f.user].hash == f.hash && users[f.user].active) {
          return Err(Unauthorized);
        }
        users := users[f.user := users[f.user].(hash := f.sessionHash)];
      }
      if !(f.user in users && users[f.user].hash == f.sessionHash && users[f.user].active) {
        users := wasUsers;
        return Err(Unauthorized);
      }
      sessions := sessions[f.token := Session(f.user, at, at + ABSOLUTE_LIFETIME, at + idle * MINUTE, false, f.password)];
      var current := users[f.user].idleMinutes;
      sessions := sessions[f.token := sessions[f.token].(idle := at + current * MINUTE)];
      if !audited {
        users, sessions := wasUsers, wasSessions;
        return Err(AuditFailed);
      }
      assert users == wasUsers[f.user := wasUsers[f.user].(hash := f.sessionHash)];
      return Ok(sessions[f.token]);
    }

    /** The part of `ChangePassword` before its transaction, the caller's
        session already accepted. */
    method BeginChange(user: Id, caller: Id, current: Text, next: Text, acceptable: bool, salted: Hash, token: Id)
      returns (r: Result<Flight, Error>)
      requires salted.password == next
      ensures r.Ok? <==> |current| <= MAX_PASSWORD_BYTES && acceptable && current != next
                         && user in users && Verify(current, users[user].hash)
      ensures r.Ok? ==> r.value == ChangeFlight(user, caller, users[user].hash, salted, token)
      ensures r.Err? ==> r.error in {Unauthorized, PasswordPolicy}
    {
      if |current| > MAX_PASSWORD_BYTES {
        return Err(Unauthorized);
      }
      if !acceptable {
        return Err(PasswordPolicy);
      }
      if user !in users {
        return Err(Unauthorized);
      }
      var oldHash := users[user].hash;
      if !Verify(current, oldHash) {
        return Err(Unauthorized);
      }
      if current == next {
        return Err(PasswordPolicy);
      }
      return Ok(ChangeFlight(user, caller, oldHash, salted, token));
    }

    /** The transaction of `ChangePassword`. */
    method CommitChange(f: Flight, at: Time, audited: bool) returns (r: Result<Session, Error>)
      requires f.ChangeFlight? && f.token !in sessions
      modifies this`users, this`sessions
      ensures Current() == ChangeDone(old(Current()), f, at, audited)
      ensures r.Ok? <==> ChangeGuard(old(Current()), f, at) && audited
      ensures r.Ok? ==> f.token in sessions && r.value == sessions[f.token]
      // In terms of the rows.
      ensures r.Ok? <==> (&& f.user in old(users) && old(users)[f.user].hash == f.oldHash && old(users)[f.user].active && audited
                          && f.caller in old(sessions) && old(sessions)[f.caller].user == f.user && !old(sessions)[f.caller].revoked
                          && old(sessions)[f.caller].absolute > at && old(sessions)[f.caller].idle > at)
      ensures r.Err? ==> users == old(users) && sessions == old(sessions)
      ensures r.Ok? ==>
                var was := old(users)[f.user];
                && users == old(users)[f.user := was.(hash := f.newHash, mustChange := false)]
                && r.value == Session(f.user, at, at + DAY_NS, at + was.idleMinutes * MINUTE_NS, false, f.newHash.password)
                && sessions.Keys == old(sessions).Keys + {f.token}
                && RevokedOf(old(sessions), sessions, f.user)
    {
      var wasUsers, wasSessions := users, sessions;
      if !(f.user in users && users[f.user].hash == f.oldHash && users[f.user].active
           && f.caller in sessions && sessions[f.caller].user == f.user && Live(sessions[f.caller], at)) {
        return Err(Unauthorized);
      }
      users := users[f.user := users[f.user].(hash := f.newHash, mustChange := false)];
      sessions := RevokeOf(sessions, f.user);
      var idle := users[f.user].idleMinutes;
      sessions := sessions[f.token :=
        Session(f.user, at, at + ABSOLUTE_LIFETIME, at + idle * MINUTE, false, f.newHash.password)];
      if !audited {
        users, sessions := wasUsers, wasSessions;
        return Err(AuditFailed);
      }
      return Ok(sessions[f.token]);
    }

    method Authenticate(session: Id, at: Time) returns (r: Result<Actor, Error>)
      ensures r.Ok? <==> Accepts(Current(), session, at)
      ensures r.Ok? <==> (&& session in sessions && !sessions[session].revoked
                          && at < sessions[session].absolute && at < sessions[session].idle
                          && sessions[session].user in users && users[sessions[session].user].active)
      ensures r.Ok? ==> r.value == Actor(sessions[session].user, session, users[sessions[session].user].role)
    {
      if session !in sessions || !Live(sessions[session], at) {
        return Err(Unauthorized);
      }
      var user := sessions[session].user;
      if user !in users || !users[user].active {
        return Err(Unauthorized);
      }
      return Ok(Actor(user, session, users[user].role));
    }

    method Touch(session: Id, at: Time) returns (r: Result<Time, Error>)
      modifies this`sessions
      ensures Current() == Touched(old(Current()), session, at)
      ensures r.Ok? <==> AcceptsSettled(old(Current()), session, at)
      ensures r.Ok? ==> session in sessions && r.value == sessions[session].idle
      // In terms of the rows.
      ensures r.Ok? <==> Accepts(old(Current()), session, at) && !users[old(sessions)[session].user].mustChange
      ensures r.Err? ==> sessions == old(sessions)
      ensures r.Ok? ==>
                var was := old(sessions)[session];
                var extended := RoundMs(at) + users[was.user].idleMinutes * MINUTE_NS;
                && sessions == old(sessions)[session := was.(idle := r.value)]
                && r.value <= was.absolute && r.value <= extended && (r.value == was.absolute || r.value == extended)
    {
      if session !in sessions || !Live(sessions[session], at) {
        return Err(Unauthorized);
      }
      var row := sessions[session];
      if row.user !in users || !users[row.user].active || users[row.user].mustChange {
        return Err(Unauthorized);
      }
      var extended := RoundMs(at) + users[row.user].idleMinutes * MINUTE;
      if row.absolute < extended {
        extended := row.absolute;
      }
      sessions := sessions[session := row.(idle := extended)];
      return Ok(extended);
    }

    method Logout(session: Id, at: Time, audited: bool) returns (r: Result<Id, Error>)
      modifies this`sessions
      ensures Current() == LoggedOut(old(Current()), session, at, audited)
      ensures r.Ok? <==> Accepts(old(Current()), session, at) && audited
      ensures sessions == if r.Ok? then old(sessions)[session := old(sessions)[session].(revoked := true)] else old(sessions)
      ensures r.Ok? ==> forall t :: !Accepts(Current(), session, t)
    {
      var was := sessions;
      if session !in sessions || !Live(sessions[session], at) {
        return Err(Unauthorized);
      }
      var user := sessions[session].user;
      if user !in users || !users[user].active {
        return Err(Unauthorized);
      }
      sessions := sessions[session := sessions[session].(revoked := true)];
      if !audited {
        sessions := was;
        return Err(AuditFailed);
      }
      return Ok(user);
    }

    method RevokeSession(caller: Id, target: Id, at: Time, audited: bool) returns (r: Result<Id, Error>)
      modifies this`sessions
      ensures Current() == OwnRevoked(old(Current()), caller, target, at, audited)
      ensures r.Ok? <==> RevokeGuard(old(Current()), caller, target, at) && audited
      ensures r == Err(NotFound) <==> AcceptsSettled(old(Current()), caller, at) && !RevokeGuard(old(Current()), caller, target, at)
      ensures r.Ok? <==> (&& Accepts(old(Current()), caller, at) && !users[old(sessions)[caller].user].mustChange && audited
                          && target in old(sessions) && !old(sessions)[target].revoked
                          && old(sessions)[target].user == old(sessions)[caller].user)
      ensures sessions == if r.Ok? then old(sessions)[target := old(sessions)[target].(revoked := true)] else old(sessions)
      ensures r.Ok? ==> forall t :: !Accepts(Current(), target, t)
    {
      var was := sessions;
      if caller !in sessions || !Live(sessions[caller], at) {
        return Err(Unauthorized);
      }
      var user := sessions[caller].user;
      if user !in users || !users[user].active || users[user].mustChange {
        return Err(Unauthorized);
      }
      if target !in sessions || sessions[target].revoked || sessions[target].user != user {
        return Err(NotFound);
      }
      sessions := sessions[target := sessions[target].(revoked := true)];
      if !audited {
        sessions := was;
        return Err(AuditFailed);
      }
      return Ok(user);
    }

    /** Shortens the owner's live sessions; never lengthens one. */
    method SetIdleTimeout(session: Id, minutes: int, at: Time) returns (r: Option<Error>)
      modifies this`users, this`sessions
      ensures Current() == IdleSet(old(Current()), session, minutes, at)
      ensures r == Some(InvalidIdleTimeout) <==> !(MIN_IDLE <= minutes <= MAX_IDLE)
      ensures r.None? <==> MIN_IDLE <= minutes <= MAX_IDLE && AcceptsSettled(old(Current()), session, at)
      // In terms of the rows.
      ensures r.None? <==> 5 <= minutes <= 30 && Accepts(old(Current()), session, at) && !old(users)[old(sessions)[session].user].mustChange
      ensures r.Some? ==> users == old(users) && sessions == old(sessions)
      ensures r.None? ==>
                var user := old(sessions)[session].user;
                && users == old(users)[user := old(users)[user].(idleMinutes := minutes)]
                && sessions.Keys == old(sessions).Keys
                && forall s :: s in sessions ==>
                     var was, limit := old(sessions)[s], RoundMs(at) + minutes * MINUTE_NS;
                     sessions[s] == if was.user == user && !was.revoked && was.absolute > at && was.idle > at
                                    then was.(idle := Min(was.idle, Min(was.absolute, limit))) else was
    {
      if minutes < MIN_IDLE || minutes > MAX_IDLE {
        return Some(InvalidIdleTimeout);
      }
      if session !in sessions || !Live(sessions[session], at) {
        return Some(Unauthorized);
      }
      var user := sessions[session].user;
      if user !in users || !users[user].active || users[user].mustChange {
        return Some(Unauthorized);
      }
      users := users[user := users[user].(idleMinutes := minutes)];
      ghost var was := sessions;
      var limit := RoundMs(at) + minutes * MINUTE;
      var todo := sessions.Keys;
      while todo != {}
        invariant todo <= was.Keys && sessions.Keys == was.Keys
        invariant users == old(users)[user := old(users)[user].(idleMinutes := minutes)]
        invariant forall s :: s in was ==>
                    sessions[s] == if s in todo then was[s] else Shorten(was, user, minutes, at)[s]
        decreases todo
      {
        var s :| s in todo;
        if sessions[s].user == user && Live(sessions[s], at) {
          sessions := sessions[s := sessions[s].(idle := Min(sessions[s].idle, Min(sessions[s].absolute, limit)))];
        }
        todo := todo - {s};
      }
      assert sessions == Shorten(was, user, minutes, at);
      return None;
    }

    /** `CleanupExpiredSessions`: how many rows went. */
    method Cleanup(at: Time) returns (removed: nat)
      modifies this`sessions
      ensures Current() == Cleaned(old(Current()), at)
      ensures removed == |old(sessions)| - |sessions|
      ensures forall s :: s in sessions <==> s in old(sessions) && !old(sessions)[s].revoked && old(sessions)[s].absolute > at && old(sessions)[s].idle > at
      ensures forall s :: s in sessions ==> sessions[s] == old(sessions)[s]
    {
      ghost var was := sessions;
      var todo := sessions.Keys;
      removed := 0;
      while todo != {}
        invariant todo <= sessions.Keys <= was.Keys && users == old(users)
        invariant forall s :: s in was ==> (s in sessions <==> s in todo || Live(was[s], at))
        invariant forall s :: s in sessions ==> sessions[s] == was[s]
        invariant removed + |sessions| == |was|
        decreases todo
      {
        var s :| s in todo;
        if sessions[s].revoked || sessions[s].absolute <= at || sessions[s].idle <= at {
          assert |sessions - {s}| == |sessions| - 1 by {
            assert sessions == (sessions - {s})[s := sessions[s]];
          }
          sessions := sessions - {s};
          removed := removed + 1;
        }
        todo := todo - {s};
      }
      assert sessions == DropDead(was, at);
    }

    // ----- administration -----

    method AuthorizeWrite(a: Actor, at: Time) returns (ok: bool)
      ensures ok == Authorised(Current(), a, at)
      ensures ok <==> (&& Accepts(Current(), a.session, at) && sessions[a.session].user == a.user
                       && users[a.user].role == Admin && !users[a.user].mustChange)
    {
      if a.user !in users || users[a.user].role != Admin || !users[a.user].active || users[a.user].mustChange {
        return false;
      }
      return a.session in sessions && sessions[a.session].user == a.user && Live(sessions[a.session], at);
    }

    method Create(a: Actor, id: Id, name: Text, hash: Hash, at: Time, audited: bool) returns (r: Result<Id, Error>)
      requires id !in users && UniqueNames(users)
      modifies this`users
      ensures Current() == Created(old(Current()), a, id, name, hash, at, audited)
      ensures r.Ok? <==> a.role == Admin && Authorised(old(Current()), a, at) && audited
                         && forall u :: u in old(users) ==> old(users)[u].name != name
      ensures UniqueNames(users)
      ensures users == if r.Ok? then old(users)[id := User(name, Member, true, true, hash, 15)] else old(users)
    {
      if a.role != Admin {
        return Err(Forbidden);
      }
      var allowed := AuthorizeWrite(a, at);
      if !allowed {
        return Err(Unauthorized);
      }
      var taken := FindUser(name);
      if taken.Some? {
        return Err(UsernameTaken);
      }
      if !audited {
        return Err(AuditFailed);
      }
      users := users[id := User(name, Member, true, true, hash, DEFAULT_IDLE)];
      return Ok(id);
    }

    /** Disabling again is no error and no change. */
    method Disable(a: Actor, target: Id, at: Time, audited: bool) returns (r: Option<Error>)
      modifies this`users, this`sessions
      ensures Current() == Disabled(old(Current()), a, target, at, audited)
      ensures r.None? ==> target in users && !users[target].active
      ensures r == Some(LastAdminProtected) <==>
                && a.role == Admin && Authorised(old(Current()), a, at)
                && target in old(users) && old(users)[target].active && !MayLose(old(users), target)
      // In terms of the rows.
      ensures r == Some(LastAdminProtected) ==>
                old(users)[target].role == Admin
                && forall other :: other in old(users) && other != target ==> old(users)[other].role == Member || !old(users)[other].active
      ensures r.Some? ==> users == old(users) && sessions == old(sessions)
      ensures r.None? && old(users)[target].active ==>
                && audited && users == old(users)[target := old(users)[target].(active := false)]
                && sessions.Keys == old(sessions).Keys && RevokedOf(old(sessions), sessions, target)
      ensures r.None? && !old(users)[target].active ==> users == old(users) && sessions == old(sessions)
    {
      var wasUsers, wasSessions := users, sessions;
      if a.role != Admin {
        return Some(Forbidden);
      }
      var allowed := AuthorizeWrite(a, at);
      if !allowed {
        return Some(Unauthorized);
      }
      if target in users && users[target].active && (users[target].role == Member || OtherActiveAdmin(users, target)) {
        users := users[target := users[target].(active := false)];
        sessions := RevokeOf(sessions, target);
        if !audited {
          users, sessions := wasUsers, wasSessions;
          return Some(AuditFailed);
        }
        return None;
      }
      if target !in users {
        return Some(NotFound);
      }
      if !users[target].active {
        return None;
      }
      return Some(LastAdminProtected);
    }

    method Enable(a: Actor, target: Id, at: Time, audited: bool) returns (r: Option<Error>)
      modifies this`users
      ensures Current() == Enabled(old(Current()), a, target, at, audited)
      ensures r.None? ==> target in users && users[target].active
      ensures users == if r.None? then old(users)[target := old(users)[target].(active := true)] else old(users)
      ensures r.None? <==> a.role == Admin && Authorised(old(Current()), a, at) && target in old(users) && (old(users)[target].active || audited)
    {
      if a.role != Admin {
        return Some(Forbidden);
      }
      var allowed := AuthorizeWrite(a, at);
      if !allowed {
        return Some(Unauthorized);
      }
      if target !in users {
        return Some(NotFound);
      }
      if users[target].active {
        return None;
      }
      var was := users;
      users := users[target := users[target].(active := true)];
      if !audited {
        users := was;
        return Some(AuditFailed);
      }
      return None;
    }

    method RevokeSessions(a: Actor, target: Id, at: Time, audited: bool) returns (r: Result<nat, Error>)
      modifies this`sessions
      ensures r != Err(NotFound) ==> Current() == AllRevoked(old(Current()), a, target, at, audited)
      ensures r.Err? ==> sessions == old(sessions)
      ensures r.Ok? ==> r.value == |set s | s in old(sessions) && old(sessions)[s].user == target && !old(sessions)[s].revoked|
      ensures r == Err(NotFound) <==> a.role == Admin && target !in users
      ensures r.Ok? <==> a.role == Admin && target in users && Authorised(old(Current()), a, at) && audited
      ensures r.Ok? ==> sessions.Keys == old(sessions).Keys && RevokedOf(old(sessions), sessions, target)
    {
      if a.role != Admin {
        return Err(Forbidden);
      }
      if target !in users {
        return Err(NotFound);
      }
      var allowed := AuthorizeWrite(a, at);
      if !allowed {
        return Err(Unauthorized);
      }
      var hit := set s | s in sessions && sessions[s].user == target && !sessions[s].revoked;
      var was := sessions;
      sessions := RevokeOf(sessions, target);
      if !audited {
        sessions := was;
        return Err(AuditFailed);
      }
      r := Ok(|hit|);
    }

    /** Deletes the member, their sessions, every item they own or created and
        their idempotency keys. */
    method Delete(a: Actor, target: Id, confirmed: bool, at: Time, audited: bool) returns (r: Option<Error>)
      modifies this
      ensures Current() == if confirmed then Deleted(old(Current()), a, target, at, audited) else old(Current())
      ensures r.None? <==> confirmed && audited && DeleteGuard(old(Current()), a, target, at)
      ensures r.None? ==> target != a.user && target in old(users) && a.user in users && users[a.user].role == Admin && users[a.user].active
      ensures r.None? ==> users == old(users) - {target}
                          && forall s :: s in sessions <==> s in old(sessions) && old(sessions)[s].user != target
      ensures forall s :: s in sessions ==> sessions[s] == old(sessions)[s]
      ensures r.None? ==>
                && items == (map i | i in old(items) && !ItemOf(old(items)[i], target) :: old(items)[i])
                && claims == (set c | c in old(claims) && c.actor != target)
      ensures r.Some? ==> items == old(items) && claims == old(claims)
    {
      var wasUsers, wasSessions, wasItems, wasClaims := users, sessions, items, claims;
      if a.role != Admin || target == a.user {
        return Some(Forbidden);
      }
      if target !in users {
        return Some(NotFound);
      }
      if !confirmed {
        return Some(ConfirmationMismatch);
      }
      var allowed := AuthorizeWrite(a, at);
      if !allowed {
        return Some(Unauthorized);
      }
      if users[target].role != Member && !OtherActiveAdmin(users, target) {
        return Some(LastAdminProtected);
      }
      users := users - {target};
      sessions := DropOf(sessions, target);
      items := map i | i in items && !ItemOf(items[i], target) :: items[i];
      claims := set c | c in claims && c.actor != target;
      if !audited {
        users, sessions, items, claims := wasUsers, wasSessions, wasItems, wasClaims;
        return Some(AuditFailed);
      }
      return None;
    }
  }

  predicate ItemOf(b: Belongs, user: Id) { b.owner == Some(user) || b.creator == Some(user) }

  /** The account's sessions are revoked, nothing else about them or any other
      has changed. */
  ghost predicate RevokedOf(before: Sessions, after: Sessions, user: Id) {
    forall s :: s in before ==>
      s in after && after[s] == if before[s].user == user then before[s].(revoked := true) else before[s]
  }
}
