/** Accounts, login sessions and what each transaction makes of them, one
    function per transaction (internal/auth, internal/users).

    Times are nanoseconds. A session's bearer token and its public id are both
    random and unique, so one identity stands for the two. */
module AuthState {
  import opened Bytes
  import opened Wrappers

  type Id = nat
  type Time = int

  const MINUTE: Time := 60_000_000_000
  const MILLISECOND: Time := 1_000_000
  const ABSOLUTE_LIFETIME: Time := 24 * 60 * MINUTE
  const MIN_IDLE := 5
  const MAX_IDLE := 30
  const DEFAULT_IDLE := 15

  datatype Params = Params(memoryKiB: nat, iterations: nat, parallelism: nat)

  /** An ideal Argon2id hash: it answers for its password alone. */
  datatype Hash = Hash(password: Text, salt: nat, params: Params)

  predicate Verify(password: Text, hash: Hash) { hash.password == password }

  datatype Role = Admin | Member

  datatype User = User(name: Text, role: Role, active: bool, mustChange: bool, hash: Hash, idleMinutes: int)

  /** `proof` is the password the session was authenticated with; no column
      holds it. */
  datatype Session = Session(user: Id, created: Time, absolute: Time, idle: Time, revoked: bool, proof: Text)

  type Users = map<Id, User>
  type Sessions = map<Id, Session>
  datatype Db = Db(users: Users, sessions: Sessions)

  predicate Live(row: Session, at: Time) { !row.revoked && row.absolute > at && row.idle > at }

  /** The session's owner is an account that may act. */
  predicate OwnerActive(db: Db, row: Session) { row.user in db.users && db.users[row.user].active }

  /** `Authenticate`: the answer at one instant. */
  predicate Accepts(db: Db, session: Id, at: Time) {
    session in db.sessions && Live(db.sessions[session], at) && OwnerActive(db, db.sessions[session])
  }

  /** The row checks of requests that need a settled account. */
  predicate AcceptsSettled(db: Db, session: Id, at: Time) {
    Accepts(db, session, at) && !db.users[db.sessions[session].user].mustChange
  }

  /** `strftime('%f')` keeps milliseconds. */
  function RoundMs(at: Time): Time { (at + MILLISECOND / 2) / MILLISECOND * MILLISECOND }

  function Min(a: int, b: int): int { if a <= b then a else b }

  // ----- statements -----

  function RevokeOne(sessions: Sessions, id: Id): Sessions {
    if id in sessions then sessions[id := sessions[id].(revoked := true)] else sessions
  }

  function RevokeOf(sessions: Sessions, user: Id): Sessions {
    map s | s in sessions :: if sessions[s].user == user then sessions[s].(revoked := true) else sessions[s]
  }

  function DropOf(sessions: Sessions, user: Id): Sessions {
    map s | s in sessions && sessions[s].user != user :: sessions[s]
  }

  function DropDead(sessions: Sessions, at: Time): Sessions {
    map s | s in sessions && Live(sessions[s], at) :: sessions[s]
  }

  function Shorten(sessions: Sessions, user: Id, minutes: int, at: Time): Sessions {
    map s | s in sessions ::
      if sessions[s].user == user && Live(sessions[s], at)
      then sessions[s].(idle := Min(sessions[s].idle, Min(sessions[s].absolute, RoundMs(at) + minutes * MINUTE)))
      else sessions[s]
  }

  predicate OtherActiveAdmin(users: Users, user: Id) {
    exists other :: other in users && other != user && users[other].role == Admin && users[other].active
  }

  // ----- work that is in flight between reading a hash and committing -----

  /** What an operation carries from its reads into its transaction. */
  datatype Flight =
    | LoginFlight(user: Id, password: Text, hash: Hash, sessionHash: Hash, token: Id)
    | ChangeFlight(user: Id, caller: Id, oldHash: Hash, newHash: Hash, token: Id)

  /** A flight that got past the password check, whatever hash it read; a change
      is to another password. */
  predicate Proven(f: Flight) {
    match f
    case LoginFlight(_, password, hash, sessionHash, _) => Verify(password, hash) && Verify(password, sessionHash)
    case ChangeFlight(_, _, oldHash, newHash, _) => oldHash.password != newHash.password
  }

  function Minted(users: Users, user: Id, at: Time, proof: Text): Session
    requires user in users
  {
    Session(user, at, at + ABSOLUTE_LIFETIME, at + users[user].idleMinutes * MINUTE, false, proof)
  }

  predicate LoginGuard(db: Db, f: Flight)
    requires f.LoginFlight?
  {
    f.user in db.users && db.users[f.user].active && db.users[f.user].hash == f.hash
  }

  function LoginDone(db: Db, f: Flight, at: Time, audited: bool): Db
    requires f.LoginFlight?
  {
    if LoginGuard(db, f) && audited
    then Db(db.users[f.user := db.users[f.user].(hash := f.sessionHash)],
            db.sessions[f.token := Minted(db.users, f.user, at, f.password)])
    else db
  }

  predicate ChangeGuard(db: Db, f: Flight, at: Time)
    requires f.ChangeFlight?
  {
    && f.user in db.users && db.users[f.user].active && db.users[f.user].hash == f.oldHash
    && f.caller in db.sessions && db.sessions[f.caller].user == f.user && Live(db.sessions[f.caller], at)
  }

  function ChangeDone(db: Db, f: Flight, at: Time, audited: bool): Db
    requires f.ChangeFlight?
  {
    if ChangeGuard(db, f, at) && audited
    then Db(db.users[f.user := db.users[f.user].(hash := f.newHash, mustChange := false)],
            RevokeOf(db.sessions, f.user)[f.token := Minted(db.users, f.user, at, f.newHash.password)])
    else db
  }

  // ----- session owners -----

  function LoggedOut(db: Db, session: Id, at: Time, audited: bool): Db {
    if Accepts(db, session, at) && audited then db.(sessions := RevokeOne(db.sessions, session)) else db
  }

  /** The target is matched whether or not it has expired. */
  predicate RevokeGuard(db: Db, caller: Id, target: Id, at: Time) {
    && AcceptsSettled(db, caller, at)
    && target in db.sessions && !db.sessions[target].revoked
    && db.sessions[target].user == db.sessions[caller].user
  }

  function OwnRevoked(db: Db, caller: Id, target: Id, at: Time, audited: bool): Db {
    if RevokeGuard(db, caller, target, at) && audited then db.(sessions := RevokeOne(db.sessions, target)) else db
  }

  predicate IdleGuard(db: Db, session: Id, minutes: int, at: Time) {
    MIN_IDLE <= minutes <= MAX_IDLE && AcceptsSettled(db, session, at)
  }

  function IdleSet(db: Db, session: Id, minutes: int, at: Time): Db {
    if IdleGuard(db, session, minutes, at)
    then var user := db.sessions[session].user;
         Db(db.users[user := db.users[user].(idleMinutes := minutes)], Shorten(db.sessions, user, minutes, at))
    else db
  }

  function TouchedIdle(db: Db, row: Session, at: Time): Time
    requires row.user in db.users
  {
    Min(row.absolute, RoundMs(at) + db.users[row.user].idleMinutes * MINUTE)
  }

  function Touched(db: Db, session: Id, at: Time): Db {
    if AcceptsSettled(db, session, at)
    then var row := db.sessions[session];
         db.(sessions := db.sessions[session := row.(idle := TouchedIdle(db, row, at))])
    else db
  }

  function Cleaned(db: Db, at: Time): Db { db.(sessions := DropDead(db.sessions, at)) }

  // ----- administration -----

  /** Who is acting, as `Authenticate` reported it earlier. */
  datatype Actor = Actor(user: Id, session: Id, role: Role)

  predicate Authorised(db: Db, a: Actor, at: Time) {
    && a.user in db.users && db.users[a.user].role == Admin && db.users[a.user].active
    && !db.users[a.user].mustChange
    && a.session in db.sessions && db.sessions[a.session].user == a.user && Live(db.sessions[a.session], at)
  }

  predicate MayLose(users: Users, target: Id)
    requires target in users
  {
    users[target].role == Member || OtherActiveAdmin(users, target)
  }

  predicate CreateGuard(db: Db, a: Actor, id: Id, name: Text, at: Time) {
    a.role == Admin && Authorised(db, a, at) && (forall u :: u in db.users ==> db.users[u].name != name) && id !in db.users
  }

  function Created(db: Db, a: Actor, id: Id, name: Text, hash: Hash, at: Time, audited: bool): Db {
    if CreateGuard(db, a, id, name, at) && audited
    then db.(users := db.users[id := User(name, Member, true, true, hash, DEFAULT_IDLE)])
    else db
  }

  predicate DisableGuard(db: Db, a: Actor, target: Id, at: Time) {
    && a.role == Admin && Authorised(db, a, at)
    && target in db.users && db.users[target].active && MayLose(db.users, target)
  }

  function Disabled(db: Db, a: Actor, target: Id, at: Time, audited: bool): Db {
    if DisableGuard(db, a, target, at) && audited
    then Db(db.users[target := db.users[target].(active := false)], RevokeOf(db.sessions, target))
    else db
  }

  predicate EnableGuard(db: Db, a: Actor, target: Id, at: Time) {
    a.role == Admin && Authorised(db, a, at) && target in db.users && !db.users[target].active
  }

  function Enabled(db: Db, a: Actor, target: Id, at: Time, audited: bool): Db {
    if EnableGuard(db, a, target, at) && audited
    then db.(users := db.users[target := db.users[target].(active := true)])
    else db
  }

  function AllRevoked(db: Db, a: Actor, target: Id, at: Time, audited: bool): Db {
    if a.role == Admin && Authorised(db, a, at) && audited
    then db.(sessions := RevokeOf(db.sessions, target))
    else db
  }

  predicate DeleteGuard(db: Db, a: Actor, target: Id, at: Time) {
    && a.role == Admin && target != a.user && Authorised(db, a, at)
    && target in db.users && MayLose(db.users, target)
  }

  function Deleted(db: Db, a: Actor, target: Id, at: Time, audited: bool): Db {
    if DeleteGuard(db, a, target, at) && audited
    then Db(db.users - {target}, DropOf(db.sessions, target))
    else db
  }
}
