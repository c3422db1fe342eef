/** Every interleaving of logins, password changes, revocations, member
    administration and clean-up: what they all keep.

    The expensive password work of a login or a change runs outside its
    transaction, so either may be overtaken by anything between the hash it
    read and its commit. */
module AuthRuns {
  import opened Bytes
  import opened Wrappers
  import opened AuthState

  /** `issued` holds every token ever drawn; `flights` the operations between
      their reads and their transaction. */
  datatype State = State(db: Db, issued: set<Id>, flights: map<nat, Flight>)

  datatype Event =
    | BeginLogin(thread: nat, user: Id, password: Text, salted: Hash, token: Id)
    | BeginChange(thread: nat, user: Id, caller: Id, current: Text, salted: Hash, token: Id)
    | Commit(thread: nat, at: Time, audited: bool)
    | Abandon(thread: nat)
    | Logout(session: Id, at: Time, audited: bool)
    | RevokeOwn(caller: Id, target: Id, at: Time, audited: bool)
    | SetIdle(session: Id, minutes: int, at: Time)
    | Touch(session: Id, at: Time)
    | Create(actor: Actor, id: Id, name: Text, hash: Hash, at: Time, audited: bool)
    | Disable(actor: Actor, target: Id, at: Time, audited: bool)
    | Enable(actor: Actor, target: Id, at: Time, audited: bool)
    | RevokeAll(actor: Actor, target: Id, at: Time, audited: bool)
    | Delete(actor: Actor, target: Id, at: Time, audited: bool)
    | Cleanup(at: Time)

  /** The hash a login leaves behind: `salted` is what the present policy makes
      of the same password. */
  function Rehash(hash: Hash, salted: Hash): Hash {
    if hash.params != salted.params then salted else hash
  }

  /** Tokens are fresh, and a flight starts only past its password check. A
      change is not asked here whether its session is live: its transaction
      asks. */
  predicate CanHappen(s: State, e: Event) {
    match e
    case BeginLogin(thread, user, password, salted, token) =>
      && thread !in s.flights && token !in s.issued && salted.password == password
      && user in s.db.users && s.db.users[user].active && Verify(password, s.db.users[user].hash)
    case BeginChange(thread, user, caller, current, salted, token) =>
      && thread !in s.flights && token !in s.issued && current != salted.password
      && user in s.db.users && Verify(current, s.db.users[user].hash)
    case _ => true
  }

  function Launch(s: State, thread: nat, f: Flight): State {
    s.(issued := s.issued + {f.token}, flights := s.flights[thread := f])
  }

  function Next(s: State, e: Event): State
    requires CanHappen(s, e)
  {
    match e
    case BeginLogin(thread, user, password, salted, token) =>
      var hash := s.db.users[user].hash;
      Launch(s, thread, LoginFlight(user, password, hash, Rehash(hash, salted), token))
    case BeginChange(thread, user, caller, current, salted, token) =>
      Launch(s, thread, ChangeFlight(user, caller, s.db.users[user].hash, salted, token))
    case Commit(thread, at, audited) =>
      if thread !in s.flights then s
      else
        var f := s.flights[thread];
        State(if f.LoginFlight? then LoginDone(s.db, f, at, audited) else ChangeDone(s.db, f, at, audited),
              s.issued, s.flights - {thread})
    case Abandon(thread) => s.(flights := s.flights - {thread})
    case Logout(session, at, audited) => s.(db := LoggedOut(s.db, session, at, audited))
    case RevokeOwn(caller, target, at, audited) => s.(db := OwnRevoked(s.db, caller, target, at, audited))
    case SetIdle(session, minutes, at) => s.(db := IdleSet(s.db, session, minutes, at))
    case Touch(session, at) => s.(db := Touched(s.db, session, at))
    case Create(a, id, name, hash, at, audited) => s.(db := Created(s.db, a, id, name, hash, at, audited))
    case Disable(a, target, at, audited) => s.(db := Disabled(s.db, a, target, at, audited))
    case Enable(a, target, at, audited) => s.(db := Enabled(s.db, a, target, at, audited))
    case RevokeAll(a, target, at, audited) => s.(db := AllRevoked(s.db, a, target, at, audited))
    case Delete(a, target, at, audited) => s.(db := Deleted(s.db, a, target, at, audited))
    case Cleanup(at) => s.(db := Cleaned(s.db, at))
  }

  ghost predicate Possible(s: State, run: seq<Event>)
    decreases |run|
  {
    run != [] ==> CanHappen(s, run[0]) && Possible(Next(s, run[0]), run[1..])
  }

  function After(s: State, run: seq<Event>): State
    requires Possible(s, run)
    decreases |run|
  {
    if run == [] then s else After(Next(s, run[0]), run[1..])
  }

  // ----- what every run keeps -----

  /** A session row is one that was issued, its idle expiry is within its
      absolute one, and while unrevoked it speaks for an active account and
      the password that account has now. */
  ghost predicate GoodSession(users: Users, row: Session) {
    && row.user in users
    && row.absolute == row.created + ABSOLUTE_LIFETIME && row.idle <= row.absolute
    && (!row.revoked ==> users[row.user].active && users[row.user].hash.password == row.proof)
  }

  ghost predicate GoodDb(db: Db) {
    && (forall u :: u in db.users ==> MIN_IDLE <= db.users[u].idleMinutes <= MAX_IDLE)
    && (forall x :: x in db.sessions ==> GoodSession(db.users, db.sessions[x]))
  }

  ghost predicate AdminLeft(users: Users) {
    exists u :: u in users && users[u].role == Admin && users[u].active
  }

  ghost predicate FreshTokens(s: State) {
    && (forall x :: x in s.db.sessions ==> x in s.issued)
    && (forall t :: t in s.flights ==> s.flights[t].token in s.issued && s.flights[t].token !in s.db.sessions)
    && (forall t, u :: t in s.flights && u in s.flights && t != u ==> s.flights[t].token != s.flights[u].token)
  }

  ghost predicate Good(s: State) {
    && GoodDb(s.db) && AdminLeft(s.db.users) && FreshTokens(s)
    && (forall t :: t in s.flights ==> Proven(s.flights[t]))
  }

  /** Setup leaves one administrator and nobody signed in. */
  lemma SetupGood(name: Text, hash: Hash)
    ensures Good(State(Db(map[0 := User(name, Admin, true, false, hash, DEFAULT_IDLE)], map[]), {}, map[]))
  {
    var users := map[0 := User(name, Admin, true, false, hash, DEFAULT_IDLE)];
    assert 0 in users && users[0].role == Admin && users[0].active;
  }

  lemma LoginKeeps(db: Db, f: Flight, at: Time, audited: bool)
    requires GoodDb(db) && f.LoginFlight? && Proven(f)
    ensures GoodDb(LoginDone(db, f, at, audited))
  {
  }

  lemma ChangeKeeps(db: Db, f: Flight, at: Time, audited: bool)
    requires GoodDb(db) && f.ChangeFlight?
    ensures GoodDb(ChangeDone(db, f, at, audited))
  {
  }

  lemma IdleSetKeeps(db: Db, session: Id, minutes: int, at: Time)
    requires GoodDb(db)
    ensures GoodDb(IdleSet(db, session, minutes, at))
  {
  }

  lemma ReactivationKeeps(db: Db, a: Actor, target: Id, at: Time, audited: bool)
    requires GoodDb(db)
    ensures GoodDb(Disabled(db, a, target, at, audited))
    ensures GoodDb(Enabled(db, a, target, at, audited))
  {
    hide Authorised, MayLose;
  }

  lemma RemovalKeeps(db: Db, a: Actor, target: Id, at: Time, audited: bool)
    requires GoodDb(db)
    ensures GoodDb(AllRevoked(db, a, target, at, audited))
    ensures GoodDb(Deleted(db, a, target, at, audited))
  {
    hide Authorised, MayLose;
  }

  lemma StepGoodDb(s: State, e: Event)
    requires Good(s) && CanHappen(s, e)
    ensures GoodDb(Next(s, e).db)
  {
    hide LoginDone, ChangeDone, IdleSet, Disabled, Enabled, AllRevoked, Deleted;
    match e
    case Commit(thread, at, audited) =>
      if thread in s.flights {
        var f := s.flights[thread];
        if f.LoginFlight? {
          LoginKeeps(s.db, f, at, audited);
        } else {
          ChangeKeeps(s.db, f, at, audited);
        }
      }
    case SetIdle(session, minutes, at) => IdleSetKeeps(s.db, session, minutes, at);
    case Disable(a, target, at, audited) => ReactivationKeeps(s.db, a, target, at, audited);
    case Enable(a, target, at, audited) => ReactivationKeeps(s.db, a, target, at, audited);
    case RevokeAll(a, target, at, audited) => RemovalKeeps(s.db, a, target, at, audited);
    case Delete(a, target, at, audited) => RemovalKeeps(s.db, a, target, at, audited);
    case _ =>
  }

  /** No transaction brings a session into being but a flight's own. */
  lemma StepSessions(s: State, e: Event, x: Id)
    requires CanHappen(s, e) && x in Next(s, e).db.sessions
    ensures x in s.db.sessions
            || (e.Commit? && e.thread in s.flights && s.flights[e.thread].token == x)
  {
  }

  lemma StepFreshTokens(s: State, e: Event)
    requires Good(s) && CanHappen(s, e)
    ensures FreshTokens(Next(s, e))
  {
    var n := Next(s, e);
    forall x | x in n.db.sessions
      ensures x in n.issued && forall t :: t in n.flights ==> n.flights[t].token != x
    {
      StepSessions(s, e, x);
    }
  }

  /** The guard of `Disable` and `Delete` leaves an administrator. */
  lemma StepAdminLeft(s: State, e: Event)
    requires Good(s) && CanHappen(s, e)
    ensures AdminLeft(Next(s, e).db.users)
  {
    hide GoodDb, FreshTokens, DropOf, DropDead, RevokeOf, RevokeOne, Shorten;
    var was, users := s.db.users, Next(s, e).db.users;
    var u :| u in was && was[u].role == Admin && was[u].active;
    if u in users && users[u].active {
      assert users[u].role == Admin;
    } else {
      var other :| other in was && other != u && was[other].role == Admin && was[other].active;
      assert other in users;
    }
  }

  lemma StepKeeps(s: State, e: Event)
    requires Good(s) && CanHappen(s, e)
    ensures Good(Next(s, e))
  {
    StepGoodDb(s, e);
    StepFreshTokens(s, e);
    StepAdminLeft(s, e);
  }

  lemma {:induction false} RunKeeps(s: State, run: seq<Event>)
    requires Good(s) && Possible(s, run)
    ensures Good(After(s, run))
    decreases |run|
  {
    if run != [] {
      StepKeeps(s, run[0]);
      RunKeeps(Next(s, run[0]), run[1..]);
    }
  }

  // ----- the properties themselves -----

  /** Whatever was in flight: an unrevoked session was authenticated with the
      password its account has now, and that account may act. */
  lemma SessionsMatchPassword(s: State, run: seq<Event>, x: Id)
    requires Good(s) && Possible(s, run)
    ensures var db := After(s, run).db;
            x in db.sessions && !db.sessions[x].revoked ==>
              var row := db.sessions[x];
              && row.user in db.users && db.users[row.user].active
              && Verify(row.proof, db.users[row.user].hash)
    ensures var db := After(s, run).db;
            x in db.sessions ==> db.sessions[x].idle <= db.sessions[x].absolute == db.sessions[x].created + ABSOLUTE_LIFETIME
    ensures AdminLeft(After(s, run).db.users)
  {
    RunKeeps(s, run);
  }

  /** A committed change leaves its account one unrevoked session, its own, and
      no login in flight under another password can still commit. */
  lemma ChangeLeavesOne(s: State, thread: nat, at: Time)
    requires Good(s) && thread in s.flights && s.flights[thread].ChangeFlight?
    requires ChangeGuard(s.db, s.flights[thread], at)
    ensures var f, n := s.flights[thread], Next(s, Commit(thread, at, true));
            && Verify(f.newHash.password, n.db.users[f.user].hash) && n.db.users[f.user].active
            && (forall x :: x in n.db.sessions && n.db.sessions[x].user == f.user && !n.db.sessions[x].revoked <==> x == f.token)
            && (forall t :: (t in n.flights && n.flights[t].LoginFlight? && n.flights[t].user == f.user
                             && n.flights[t].password != f.newHash.password) ==> !LoginGuard(n.db, n.flights[t]))
  {
    var f, n := s.flights[thread], Next(s, Commit(thread, at, true));
    forall t | t in n.flights && n.flights[t].LoginFlight? && n.flights[t].user == f.user
               && n.flights[t].password != f.newHash.password
      ensures !LoginGuard(n.db, n.flights[t])
    {
      assert Proven(s.flights[t]);
    }
  }

  /** A committed login holds a session of the account, for the password the
      account has, that is accepted at once. */
  lemma LoginIsAccepted(s: State, thread: nat, at: Time)
    requires Good(s) && thread in s.flights && s.flights[thread].LoginFlight?
    ensures var f, n := s.flights[thread], Next(s, Commit(thread, at, true));
            Accepts(n.db, f.token, at) <==> f.user in s.db.users && s.db.users[f.user].active && s.db.users[f.user].hash == f.hash
  {
  }

  /** A login by itself: the session it leaves, and a hash made anew exactly when
      the old one has other parameters than the present policy's. */
  lemma UndisturbedLogin(s: State, thread: nat, user: Id, password: Text, salted: Hash, token: Id, at: Time)
    requires CanHappen(s, BeginLogin(thread, user, password, salted, token))
    ensures var begun := Next(s, BeginLogin(thread, user, password, salted, token));
            var was, n := s.db.users[user], Next(begun, Commit(thread, at, true));
            && begun.db == s.db
            && n.flights == s.flights && n.issued == s.issued + {token}
            && n.db.sessions == s.db.sessions[token :=
                 Session(user, at, at + 24 * 3600 * 1_000_000_000, at + was.idleMinutes * 60 * 1_000_000_000, false, password)]
            && n.db.users == s.db.users[user := was.(hash := if was.hash.params == salted.params then was.hash else salted)]
  {
  }

  /** A login or change that is given up leaves nothing to commit. */
  lemma AbandonedDoesNothing(s: State, thread: nat, at: Time, audited: bool)
    ensures var n := Next(Next(s, Abandon(thread)), Commit(thread, at, audited));
            n.db == s.db && n.flights == s.flights - {thread}
  {
  }

  // ----- a rejected session stays rejected -----

  /** A token in its owner's hands: issued, and not one a flight has yet to
      use. */
  ghost predicate Delivered(s: State, x: Id) {
    x in s.issued && forall t :: t in s.flights ==> s.flights[t].token != x
  }

  lemma StepDelivered(s: State, e: Event, x: Id)
    requires CanHappen(s, e) && Delivered(s, x)
    ensures Delivered(Next(s, e), x)
  {
  }

  /** The one way a rejected session comes back: a touch that read the clock
      before the rejection and committed after it. */
  predicate Revives(db: Db, e: Event, x: Id, later: Time) {
    && e.Touch? && e.session == x && AcceptsSettled(db, x, e.at)
    && db.sessions[x].absolute > later && TouchedIdle(db, db.sessions[x], e.at) > later
  }

  /** Revoking, shortening, touching and dropping: what a transaction may make
      of a row it finds. */
  lemma StepRow(s: State, e: Event, x: Id)
    requires Good(s) && CanHappen(s, e) && Delivered(s, x) && x in Next(s, e).db.sessions
    ensures x in s.db.sessions
    ensures var row, now := s.db.sessions[x], Next(s, e).db.sessions[x];
            && now.absolute == row.absolute && (row.revoked ==> now.revoked)
            && (|| now.idle <= row.idle
                || (e.Touch? && e.session == x && AcceptsSettled(s.db, x, e.at) && now.idle == TouchedIdle(s.db, row, e.at)))
  {
    hide GoodDb, AdminLeft, Authorised, MayLose, LoginGuard, ChangeGuard;
    StepSessions(s, e, x);
  }

  lemma GoodAccepts(s: State, x: Id, at: Time)
    requires Good(s)
    ensures Accepts(s.db, x, at) <==> x in s.db.sessions && Live(s.db.sessions[x], at)
  {
  }

  lemma RevivedOnlyByStaleTouch(s: State, e: Event, x: Id, t: Time, later: Time)
    requires Good(s) && CanHappen(s, e) && Delivered(s, x)
    requires !Accepts(s.db, x, t) && t <= later
    ensures Accepts(Next(s, e).db, x, later) <==> Revives(s.db, e, x, later)
    ensures Revives(s.db, e, x, later) ==> e.at < t
  {
    StepKeeps(s, e);
    GoodAccepts(s, x, t);
    GoodAccepts(Next(s, e), x, later);
    if x in Next(s, e).db.sessions {
      StepRow(s, e, x);
    }
  }

  /** No event of the run brings x back at t. */
  ghost predicate NeverRevived(s: State, run: seq<Event>, x: Id, t: Time)
    requires Possible(s, run)
    decreases |run|
  {
    run != [] ==> !Revives(s.db, run[0], x, t) && NeverRevived(Next(s, run[0]), run[1..], x, t)
  }

  /** At every moment of the run x is rejected, asked at t or later. */
  ghost predicate RejectedThroughout(s: State, run: seq<Event>, x: Id, t: Time)
    requires Possible(s, run)
    decreases |run|
  {
    && (forall later :: t <= later ==> !Accepts(s.db, x, later))
    && (run != [] ==> RejectedThroughout(Next(s, run[0]), run[1..], x, t))
  }

  /** Touching, raising the idle timeout, disabling then enabling, changing the
      password: a rejected session stays rejected, at every later time and
      through the whole run, exactly when no touch of it that read the clock
      before t is among the events. */
  lemma {:induction false} RejectionLasts(s: State, run: seq<Event>, x: Id, t: Time)
    requires Good(s) && Possible(s, run) && Delivered(s, x)
    requires !Accepts(s.db, x, t)
    ensures RejectedThroughout(s, run, x, t) <==> NeverRevived(s, run, x, t)
    ensures NeverRevived(s, run, x, t) ==> forall later :: t <= later ==> !Accepts(After(s, run).db, x, later)
    decreases |run|
  {
    if run != [] {
      hide Good, Delivered, Next;
      var n := Next(s, run[0]);
      RevivedOnlyByStaleTouch(s, run[0], x, t, t);
      StepKeeps(s, run[0]);
      StepDelivered(s, run[0], x);
      if Accepts(n.db, x, t) {
        assert !RejectedThroughout(n, run[1..], x, t);
      } else {
        RejectionLasts(n, run[1..], x, t);
      }
    }
  }

  // ----- what ends a session ends it for good -----

  /** The event revokes or deletes x: its owner logs it out or revokes it, the
      account is disabled or deleted, its sessions are all revoked, or its
      password is changed. */
  predicate Ends(s: State, e: Event, x: Id) {
    x in s.db.sessions &&
    var owner := s.db.sessions[x].user;
    match e
    case Logout(y, at, audited) => y == x && audited && Accepts(s.db, x, at)
    case RevokeOwn(y, z, at, audited) => z == x && audited && AcceptsSettled(s.db, y, at) && s.db.sessions[y].user == owner && !s.db.sessions[x].revoked
    case Disable(who, target, at, audited) =>
      target == owner && audited && who.role == Admin && Authorised(s.db, who, at)
      && owner in s.db.users && s.db.users[owner].active && (s.db.users[owner].role == Member || OtherActiveAdmin(s.db.users, owner))
    case RevokeAll(who, target, at, audited) => target == owner && audited && who.role == Admin && Authorised(s.db, who, at)
    case Delete(who, target, at, audited) =>
      target == owner && target != who.user && audited && who.role == Admin && Authorised(s.db, who, at)
      && owner in s.db.users && (s.db.users[owner].role == Member || OtherActiveAdmin(s.db.users, owner))
    case Commit(thread, at, audited) =>
      thread in s.flights && s.flights[thread].ChangeFlight? && s.flights[thread].user == owner && audited
      && ChangeGuard(s.db, s.flights[thread], at)
    case _ => false
  }

  /** A session of which nothing is left but a revoked row, or nothing at all. */
  predicate Over(db: Db, x: Id) { x in db.sessions ==> db.sessions[x].revoked }

  lemma EndsMeansOver(s: State, e: Event, x: Id)
    requires Good(s) && CanHappen(s, e) && Delivered(s, x) && Ends(s, e, x)
    ensures Over(Next(s, e).db, x) && Delivered(Next(s, e), x)
  {
    hide GoodDb, AdminLeft, Authorised;
  }

  /** Asked at any time whatever, at every moment of the run, x is rejected. */
  ghost predicate RejectedForGood(s: State, run: seq<Event>, x: Id)
    requires Possible(s, run)
    decreases |run|
  {
    && (forall at :: !Accepts(s.db, x, at))
    && (run != [] ==> RejectedForGood(Next(s, run[0]), run[1..], x))
  }

  lemma {:induction false} OverIsForGood(s: State, run: seq<Event>, x: Id)
    requires Good(s) && Possible(s, run) && Delivered(s, x) && Over(s.db, x)
    ensures RejectedForGood(s, run, x)
    decreases |run|
  {
    if run != [] {
      hide Good, Delivered, Next;
      var n := Next(s, run[0]);
      if x in n.db.sessions {
        StepRow(s, run[0], x);
      }
      StepKeeps(s, run[0]);
      StepDelivered(s, run[0], x);
      OverIsForGood(n, run[1..], x);
    }
  }

  /** A session that was ended is rejected throughout every continuation, late
      touches included. */
  lemma EndedForGood(s: State, e: Event, run: seq<Event>, x: Id)
    requires Good(s) && CanHappen(s, e) && Delivered(s, x) && Ends(s, e, x)
    requires Possible(Next(s, e), run)
    ensures RejectedForGood(Next(s, e), run, x)
  {
    EndsMeansOver(s, e, x);
    StepKeeps(s, e);
    OverIsForGood(Next(s, e), run, x);
  }

  /** A touch waiting for the writer lock does bring one back: rejected at t,
      accepted from t on once the touch of a moment before t commits. */
  lemma StaleTouchRevives(s: State, x: Id, at: Time)
    requires Good(s) && AcceptsSettled(s.db, x, at) && s.db.sessions[x].absolute > at + MINUTE
    ensures var t := s.db.sessions[x].idle;
            && !Accepts(s.db, x, t)
            && (t <= at + MINUTE ==> Accepts(Next(s, Touch(x, at)).db, x, t))
  {
  }

  // ----- cleaning up is not observable -----

  /** The run without its clean-ups. */
  function Erased(run: seq<Event>): (r: seq<Event>)
    ensures forall e :: e in r ==> e in run && !e.Cleanup?
  {
    if run == [] then [] else (if run[0].Cleanup? then [] else [run[0]]) + Erased(run[1..])
  }

  /** The cleaned tables are the others less rows dead at t. */
  ghost predicate Cleaner(a: Db, b: Db, t: Time) {
    && a.users == b.users
    && (forall x :: x in a.sessions ==> x in b.sessions && a.sessions[x] == b.sessions[x])
    && (forall x :: x in b.sessions && x !in a.sessions ==> !Live(b.sessions[x], t))
  }

  /** x was cleaned up, yet is live on the clock reading `at`. */
  predicate Missing(a: Db, b: Db, x: Id, at: Time) {
    x !in a.sessions && x in b.sessions && Live(b.sessions[x], at)
  }

  ghost predicate CleanerState(a: State, b: State, t: Time) {
    Cleaner(a.db, b.db, t) && a.issued == b.issued && a.flights == b.flights
  }

  /** The session by whose authority an event acts. */
  function Presented(s: State, e: Event): Option<Id> {
    match e
    case Commit(thread, _, _) =>
      if thread in s.flights && s.flights[thread].ChangeFlight? then Some(s.flights[thread].caller) else None
    case Logout(x, _, _) => Some(x)
    case RevokeOwn(x, _, _, _) => Some(x)
    case SetIdle(x, _, _) => Some(x)
    case Touch(x, _) => Some(x)
    case Create(who, _, _, _, _, _) => Some(who.session)
    case Disable(who, _, _, _) => Some(who.session)
    case Enable(who, _, _, _) => Some(who.session)
    case RevokeAll(who, _, _, _) => Some(who.session)
    case Delete(who, _, _, _) => Some(who.session)
    case _ => None
  }

  /** Shortening to this limit touches a live session of the account. */
  ghost predicate Shortens(sessions: Sessions, user: Id, minutes: int, at: Time) {
    exists y :: y in sessions && sessions[y].user == user && Live(sessions[y], at)
                && sessions[y].idle > RoundMs(at) + minutes * MINUTE
  }

  ghost predicate RevokesAny(sessions: Sessions, user: Id) {
    exists y :: y in sessions && sessions[y].user == user && !sessions[y].revoked
  }

  /** The event passes its checks on the tables that were not cleaned, and does
      more there than to change rows that are dead at t. */
  ghost predicate Takes(a: Db, b: State, e: Event, t: Time) {
    match e
    case Commit(thread, at, audited) =>
      audited && thread in b.flights && b.flights[thread].ChangeFlight? && ChangeGuard(b.db, b.flights[thread], at)
    case Touch(x, at) => AcceptsSettled(b.db, x, at) && TouchedIdle(b.db, b.db.sessions[x], at) > t
    case RevokeOwn(x, y, at, audited) => audited && RevokeGuard(b.db, x, y, at) && y in a.sessions
    case SetIdle(x, minutes, at) =>
      && IdleGuard(b.db, x, minutes, at)
      && var user := b.db.sessions[x].user;
         b.db.users[user].idleMinutes != minutes || Shortens(a.sessions, user, minutes, at)
    case Create(who, id, name, _, at, audited) => audited && CreateGuard(b.db, who, id, name, at)
    case Disable(who, target, at, audited) => audited && DisableGuard(b.db, who, target, at)
    case Enable(who, target, at, audited) => audited && EnableGuard(b.db, who, target, at)
    case RevokeAll(who, target, at, audited) =>
      audited && who.role == Admin && Authorised(b.db, who, at) && RevokesAny(a.sessions, target)
    case Delete(who, target, at, audited) => audited && DeleteGuard(b.db, who, target, at)
    case _ => false
  }

  /** The event tells the cleaned tables from the others: it presents a session
      that was cleaned up but is live on its older clock reading, and takes. */
  ghost predicate Telling(a: State, b: State, e: Event, t: Time) {
    && Presented(b, e).Some? && Missing(a.db, b.db, Presented(b, e).value, e.at)
    && Takes(a.db, b, e, t)
  }

  lemma LoginCleaner(a: Db, b: Db, f: Flight, at: Time, audited: bool, t: Time)
    requires Cleaner(a, b, t) && f.LoginFlight?
    ensures Cleaner(LoginDone(a, f, at, audited), LoginDone(b, f, at, audited), t)
  {
  }

  lemma ChangeCleaner(a: Db, b: Db, f: Flight, at: Time, audited: bool, t: Time)
    requires Cleaner(a, b, t) && f.ChangeFlight? && Proven(f)
    ensures Cleaner(ChangeDone(a, f, at, audited), ChangeDone(b, f, at, audited), t)
            <==> !(audited && Missing(a, b, f.caller, at) && ChangeGuard(b, f, at))
  {
    if audited && Missing(a, b, f.caller, at) && ChangeGuard(b, f, at) {
      assert ChangeDone(b, f, at, audited).users[f.user].hash != a.users[f.user].hash;
    }
  }

  lemma LogoutCleaner(a: Db, b: Db, x: Id, at: Time, audited: bool, t: Time)
    requires Cleaner(a, b, t)
    ensures Cleaner(LoggedOut(a, x, at, audited), LoggedOut(b, x, at, audited), t)
  {
  }

  lemma RevokeCleaner(a: Db, b: Db, x: Id, y: Id, at: Time, audited: bool, t: Time)
    requires Cleaner(a, b, t)
    ensures Cleaner(OwnRevoked(a, x, y, at, audited), OwnRevoked(b, x, y, at, audited), t)
            <==> !(audited && Missing(a, b, x, at) && RevokeGuard(b, x, y, at) && y in a.sessions)
  {
    if audited && Missing(a, b, x, at) && RevokeGuard(b, x, y, at) && y in a.sessions {
      assert OwnRevoked(b, x, y, at, audited).sessions[y].revoked && !a.sessions[y].revoked;
    }
  }

  lemma TouchCleaner(a: Db, b: Db, x: Id, at: Time, t: Time)
    requires Cleaner(a, b, t)
    ensures Cleaner(Touched(a, x, at), Touched(b, x, at), t)
            <==> !(Missing(a, b, x, at) && AcceptsSettled(b, x, at) && TouchedIdle(b, b.sessions[x], at) > t)
  {
    if Missing(a, b, x, at) && AcceptsSettled(b, x, at) && TouchedIdle(b, b.sessions[x], at) > t {
      assert Live(Touched(b, x, at).sessions[x], t);
    }
  }

  lemma IdleCleaner(a: Db, b: Db, x: Id, minutes: int, at: Time, t: Time)
    requires Cleaner(a, b, t) && GoodDb(b)
    ensures Cleaner(IdleSet(a, x, minutes, at), IdleSet(b, x, minutes, at), t)
            <==> !(Missing(a, b, x, at) && IdleGuard(b, x, minutes, at)
                   && (b.users[b.sessions[x].user].idleMinutes != minutes || Shortens(a.sessions, b.sessions[x].user, minutes, at)))
  {
    if Missing(a, b, x, at) && IdleGuard(b, x, minutes, at) {
      var user, n := b.sessions[x].user, IdleSet(b, x, minutes, at);
      assert IdleSet(a, x, minutes, at) == a;
      assert n.users[user].idleMinutes == minutes;
      if Shortens(a.sessions, user, minutes, at) {
        var y :| y in a.sessions && a.sessions[y].user == user && Live(a.sessions[y], at)
                 && a.sessions[y].idle > RoundMs(at) + minutes * MINUTE;
        assert n.sessions[y].idle < a.sessions[y].idle;
      } else if b.users[user].idleMinutes == minutes {
        assert n.users == a.users;
        forall y | y in a.sessions ensures n.sessions[y] == a.sessions[y] {
        }
      }
    }
  }

  lemma AuthorisedCleaner(a: Db, b: Db, who: Actor, at: Time, t: Time)
    requires Cleaner(a, b, t)
    ensures Authorised(a, who, at) <==> Authorised(b, who, at) && !Missing(a, b, who.session, at)
  {
  }

  lemma AccountsCleaner(a: Db, b: Db, who: Actor, target: Id, name: Text, hash: Hash, at: Time, audited: bool, t: Time)
    requires Cleaner(a, b, t)
    ensures Cleaner(Created(a, who, target, name, hash, at, audited), Created(b, who, target, name, hash, at, audited), t)
            <==> !(audited && Missing(a, b, who.session, at) && CreateGuard(b, who, target, name, at))
    ensures Cleaner(Enabled(a, who, target, at, audited), Enabled(b, who, target, at, audited), t)
            <==> !(audited && Missing(a, b, who.session, at) && EnableGuard(b, who, target, at))
  {
    AuthorisedCleaner(a, b, who, at, t);
    hide Authorised, Missing;
    if audited && CreateGuard(b, who, target, name, at) {
      assert target in Created(b, who, target, name, hash, at, audited).users;
    }
    if audited && EnableGuard(b, who, target, at) {
      assert Enabled(b, who, target, at, audited).users[target].active && !a.users[target].active;
    }
  }

  lemma DisableCleaner(a: Db, b: Db, who: Actor, target: Id, at: Time, audited: bool, t: Time)
    requires Cleaner(a, b, t)
    ensures Cleaner(Disabled(a, who, target, at, audited), Disabled(b, who, target, at, audited), t)
            <==> !(audited && Missing(a, b, who.session, at) && DisableGuard(b, who, target, at))
  {
    AuthorisedCleaner(a, b, who, at, t);
    hide Authorised, Missing, MayLose;
    if audited && DisableGuard(b, who, target, at) {
      assert !Disabled(b, who, target, at, audited).users[target].active && a.users[target].active;
    }
  }

  lemma DeleteCleaner(a: Db, b: Db, who: Actor, target: Id, at: Time, audited: bool, t: Time)
    requires Cleaner(a, b, t)
    ensures Cleaner(Deleted(a, who, target, at, audited), Deleted(b, who, target, at, audited), t)
            <==> !(audited && Missing(a, b, who.session, at) && DeleteGuard(b, who, target, at))
  {
    AuthorisedCleaner(a, b, who, at, t);
    hide Authorised, Missing, MayLose;
    if audited && DeleteGuard(b, who, target, at) {
      assert target !in Deleted(b, who, target, at, audited).users && target in a.users;
    }
  }

  lemma RevokeAllCleaner(a: Db, b: Db, who: Actor, target: Id, at: Time, audited: bool, t: Time)
    requires Cleaner(a, b, t)
    ensures Cleaner(AllRevoked(a, who, target, at, audited), AllRevoked(b, who, target, at, audited), t)
            <==> !(audited && Missing(a, b, who.session, at) && who.role == Admin && Authorised(b, who, at)
                   && RevokesAny(a.sessions, target))
  {
    AuthorisedCleaner(a, b, who, at, t);
    hide Authorised, Missing;
    if audited && who.role == Admin && Authorised(b, who, at) && RevokesAny(a.sessions, target) {
      var y :| y in a.sessions && a.sessions[y].user == target && !a.sessions[y].revoked;
      assert AllRevoked(b, who, target, at, audited).sessions[y].revoked;
    }
  }

  predicate Administers(e: Event) { e.Create? || e.Disable? || e.Enable? || e.RevokeAll? || e.Delete? }

  lemma AdministrationCleaner(a: State, b: State, e: Event, t: Time)
    requires CleanerState(a, b, t) && Administers(e)
    ensures CleanerState(Next(a, e), Next(b, e), t) <==> !Telling(a, b, e, t)
  {
    hide LoginDone, ChangeDone, LoggedOut, OwnRevoked, Touched, IdleSet, Created, Disabled, Enabled, AllRevoked, Deleted;
    hide Authorised, RevokeGuard, ChangeGuard, CreateGuard, DisableGuard, EnableGuard, DeleteGuard, IdleGuard;
    hide AcceptsSettled, Cleaner, Missing, Shortens, RevokesAny;
    match e
    case Create(who, id, name, hash, at, audited) => AccountsCleaner(a.db, b.db, who, id, name, hash, at, audited, t);
    case Disable(who, target, at, audited) => DisableCleaner(a.db, b.db, who, target, at, audited, t);
    case Enable(who, target, at, audited) => AccountsCleaner(a.db, b.db, who, target, [], Hash([], 0, Params(0, 0, 0)), at, audited, t);
    case RevokeAll(who, target, at, audited) => RevokeAllCleaner(a.db, b.db, who, target, at, audited, t);
    case Delete(who, target, at, audited) => DeleteCleaner(a.db, b.db, who, target, at, audited, t);
  }

  lemma CommitCleaner(a: State, b: State, e: Event, t: Time)
    requires Good(b) && CleanerState(a, b, t) && e.Commit?
    ensures CleanerState(Next(a, e), Next(b, e), t) <==> !Telling(a, b, e, t)
  {
    hide LoginDone, ChangeDone, LoggedOut, OwnRevoked, Touched, IdleSet, Created, Disabled, Enabled, AllRevoked, Deleted;
    hide Authorised, RevokeGuard, ChangeGuard, CreateGuard, DisableGuard, EnableGuard, DeleteGuard, IdleGuard;
    hide AcceptsSettled, Cleaner, Missing, Shortens, RevokesAny;
    if e.thread in a.flights {
      var f := a.flights[e.thread];
      if f.LoginFlight? {
        LoginCleaner(a.db, b.db, f, e.at, e.audited, t);
      } else {
        ChangeCleaner(a.db, b.db, f, e.at, e.audited, t);
      }
    }
  }

  lemma OwnerCleaner(a: State, b: State, e: Event, t: Time)
    requires Good(b) && CleanerState(a, b, t) && (e.Logout? || e.RevokeOwn? || e.SetIdle? || e.Touch?)
    ensures CleanerState(Next(a, e), Next(b, e), t) <==> !Telling(a, b, e, t)
  {
    hide LoginDone, ChangeDone, LoggedOut, OwnRevoked, Touched, IdleSet, Created, Disabled, Enabled, AllRevoked, Deleted;
    hide Authorised, RevokeGuard, ChangeGuard, CreateGuard, DisableGuard, EnableGuard, DeleteGuard, IdleGuard;
    hide AcceptsSettled, Cleaner, Missing, Shortens, RevokesAny;
    match e
    case Logout(x, at, audited) => LogoutCleaner(a.db, b.db, x, at, audited, t);
    case RevokeOwn(x, y, at, audited) => RevokeCleaner(a.db, b.db, x, y, at, audited, t);
    case SetIdle(x, minutes, at) => IdleCleaner(a.db, b.db, x, minutes, at, t);
    case Touch(x, at) => TouchCleaner(a.db, b.db, x, at, t);
  }

  /** Exactly the telling events tell: any other leaves the cleaned tables short
      of dead rows only, a telling one does not. */
  lemma StepCleaner(a: State, b: State, e: Event, t: Time)
    requires Good(b) && CleanerState(a, b, t) && !e.Cleanup?
    ensures CanHappen(a, e) <==> CanHappen(b, e)
    ensures CanHappen(b, e) ==> (CleanerState(Next(a, e), Next(b, e), t) <==> !Telling(a, b, e, t))
  {
    assert a.db.users == b.db.users;
    if Administers(e) {
      AdministrationCleaner(a, b, e, t);
    } else if e.Commit? {
      CommitCleaner(a, b, e, t);
    } else if e.Logout? || e.RevokeOwn? || e.SetIdle? || e.Touch? {
      OwnerCleaner(a, b, e, t);
    } else {
      assert !Telling(a, b, e, t);
    }
    hide Cleaner, Telling, Good;
  }

  /** An event that presents a cleaned-up session does nothing on the cleaned
      tables; one whose clock reading is not older than the clean-up never
      presents one it could use. */
  lemma MissingDoesNothing(a: State, b: State, e: Event, t: Time)
    requires CleanerState(a, b, t) && CanHappen(a, e) && Presented(b, e).Some?
    ensures Missing(a.db, b.db, Presented(b, e).value, e.at) ==> Next(a, e).db == a.db && e.at < t
  {
    hide LoginDone, RevokeOf, DropOf, Shorten, MayLose;
  }

  function Max(a: int, b: int): int { if a >= b then a else b }

  lemma StepErased(a: State, b: State, at: Time, t: Time)
    requires CleanerState(a, b, t)
    ensures CleanerState(Next(a, Cleanup(at)), b, Max(t, at))
  {
  }

  /** No event of the run tells the tables that were cleaned, a, from those that
      were not, b; t is the latest clean-up so far. */
  ghost predicate Discreet(a: State, b: State, run: seq<Event>, t: Time)
    requires Possible(a, run)
    decreases |run|
  {
    run != [] ==>
      var e := run[0];
      if e.Cleanup? then Discreet(Next(a, e), b, run[1..], Max(t, e.at))
      else CanHappen(b, e) ==> !Telling(a, b, e, t) && Discreet(Next(a, e), Next(b, e), run[1..], t)
  }

  /** At every moment of the two runs the cleaned tables are the others less dead
      rows. */
  ghost predicate AlwaysCleaner(a: State, b: State, run: seq<Event>, t: Time)
    requires Possible(a, run)
    decreases |run|
  {
    && CleanerState(a, b, t)
    && (run != [] ==>
          var e := run[0];
          if e.Cleanup? then AlwaysCleaner(Next(a, e), b, run[1..], Max(t, e.at))
          else CanHappen(b, e) ==> AlwaysCleaner(Next(a, e), Next(b, e), run[1..], t))
  }

  lemma ErasedHead(run: seq<Event>)
    requires run != []
    ensures Erased(run) == if run[0].Cleanup? then Erased(run[1..]) else [run[0]] + Erased(run[1..])
    ensures !run[0].Cleanup? ==> Erased(run)[1..] == Erased(run[1..])
  {
  }

  /** The latest clean-up of the run, or t. */
  function Latest(run: seq<Event>, t: Time): Time {
    if run == [] then t else Latest(run[1..], if run[0].Cleanup? then Max(t, run[0].at) else t)
  }

  predicate Timed(e: Event) { !e.BeginLogin? && !e.BeginChange? && !e.Abandon? }

  /** Clock readings never older than an earlier clean-up's. */
  ghost predicate InOrder(run: seq<Event>, t: Time)
    decreases |run|
  {
    run != [] ==>
      && (Timed(run[0]) ==> t <= run[0].at)
      && InOrder(run[1..], if run[0].Cleanup? then run[0].at else t)
  }

  lemma {:induction false} InOrderIsDiscreet(a: State, b: State, run: seq<Event>, t: Time)
    requires Good(b) && CleanerState(a, b, t) && Possible(a, run) && InOrder(run, t)
    ensures Discreet(a, b, run, t)
    decreases |run|
  {
    hide Good, Takes;
    if run != [] {
      var e := run[0];
      if e.Cleanup? {
        StepErased(a, b, e.at, t);
        InOrderIsDiscreet(Next(a, e), b, run[1..], Max(t, e.at));
      } else if CanHappen(b, e) {
        assert !Telling(a, b, e, t);
        StepCleaner(a, b, e, t);
        StepKeeps(b, e);
        InOrderIsDiscreet(Next(a, e), Next(b, e), run[1..], t);
      }
    }
  }

  /** The runs stay alike at every moment exactly when no event tells. */
  lemma {:induction false} DiscreetIsCleaner(a: State, b: State, run: seq<Event>, t: Time)
    requires Good(b) && CleanerState(a, b, t) && Possible(a, run)
    ensures Discreet(a, b, run, t) <==> AlwaysCleaner(a, b, run, t)
    ensures Discreet(a, b, run, t) ==>
              Possible(b, Erased(run)) && CleanerState(After(a, run), After(b, Erased(run)), Latest(run, t))
    decreases |run|
  {
    hide CleanerState, Telling, Good, Next;
    if run != [] {
      ErasedHead(run);
      var e := run[0];
      if e.Cleanup? {
        StepErased(a, b, e.at, t);
        DiscreetIsCleaner(Next(a, e), b, run[1..], Max(t, e.at));
      } else {
        StepCleaner(a, b, e, t);
        StepKeeps(b, e);
        if CleanerState(Next(a, e), Next(b, e), t) {
          DiscreetIsCleaner(Next(a, e), Next(b, e), run[1..], t);
        } else {
          assert !AlwaysCleaner(Next(a, e), Next(b, e), run[1..], t);
        }
      }
    }
  }

  /** Cleaning up, at any moments and on any clock readings, changes no later
      authentication as long as no event tells: the run with and the run without
      its clean-ups answer every session alike from the latest clean-up on, hold
      the same accounts and the same work in flight. */
  lemma CleanupInvisible(s: State, run: seq<Event>, first: Time, x: Id, at: Time)
    requires Good(s) && Possible(s, run) && Discreet(s, s, run, first) && Latest(run, first) <= at
    ensures Possible(s, Erased(run))
    ensures Accepts(After(s, run).db, x, at) <==> Accepts(After(s, Erased(run)).db, x, at)
    ensures After(s, run).db.users == After(s, Erased(run)).db.users
    ensures After(s, run).flights == After(s, Erased(run)).flights
  {
    DiscreetIsCleaner(s, s, run, first);
  }

  /** One event that tells, and what it makes of the accounts and sessions. A
      touch: the session is renewed only where nothing was cleaned up. */
  lemma CleanupShowsUnderStaleTouch(s: State, x: Id, at: Time, cleaned: Time)
    requires Good(s) && Delivered(s, x) && !Accepts(s.db, x, cleaned) && Revives(s.db, Touch(x, at), x, cleaned)
    ensures Telling(Next(s, Cleanup(cleaned)), s, Touch(x, at), cleaned)
    ensures Accepts(Next(s, Touch(x, at)).db, x, cleaned)
    ensures !Accepts(Next(Next(s, Cleanup(cleaned)), Touch(x, at)).db, x, cleaned)
  {
  }

  /** The one request that a clean-up makes fail: an owner revoking a session of
      theirs that has already expired. (An administrator revoking all sessions
      of a member may be told a smaller number.) */
  lemma CleanupHidesExpired(db: Db, caller: Id, target: Id, cleaned: Time, at: Time)
    requires cleaned <= at
    ensures RevokeGuard(Cleaned(db, cleaned), caller, target, at)
            <==> RevokeGuard(db, caller, target, at) && Live(db.sessions[target], cleaned)
  {
  }
}
