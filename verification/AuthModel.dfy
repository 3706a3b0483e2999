/** The tables behind login, heartbeat and logout, and what each call makes of
    them when its statements run without another call in between. Bearer tokens
    stand for their SHA-256 hashes and are issued from a counter; a password
    hash is matched by exactly the password it was made from. */
module AuthModel {
  import opened Results
  import opened Presence

  const THRESHOLD: nat := 5
  const LOCKOUT: int := 15 * 60 * 1_000_000
  const NON_ADMIN_TTL: int := 12 * 3600 * 1_000_000
  const ADMIN_TTL: int := 8 * 3600 * 1_000_000
  const MAX_FAILURES: nat := 2
  const SILENCE: int := 90 * 1_000_000

  /** `admin`: the employee holds the position named admin. */
  datatype Employee = Employee(active: bool, password: Option<nat>, attempts: nat, lockedUntil: Option<int>,
                               admin: bool)

  datatype Session = Session(store: Option<nat>, token: nat, issuedAt: int, expiresAt: int, lastHeartbeat: int,
                             failures: nat)

  /** `sessions` is keyed by its UNIQUE employee_id; tokens below `next` were issued. */
  datatype Db = Db(employees: map<nat, Employee>, sessions: map<nat, Session>, next: nat)

  /** The statements that may fail; a call gives up at the first that does. */
  datatype Statement =
    | FindEmployee | RecordFailure | ResetFailures | ReadAdmin | ListStores | MakeToken | SaveSession
    | FindSession | ReadStore | RecordBeat | DeleteSession

  /** The clock as a call reads it: at its check, when it computes a deadline,
      and as now() in the statement that writes. */
  datatype Times = Times(check: int, deadline: int, write: int)

  datatype LoginReply =
    | InvalidCredentials | NotActivated | NoStoreMatch | LoginError | LoggedIn(token: nat, session: Session)

  datatype Reason = LoggedOutElsewhere | SessionExpired | LeftPremises

  datatype BeatReply = Active | Ended(reason: Reason) | BeatError

  // ---- lockout ----

  predicate Locked(e: Employee, now: int) {
    e.lockedUntil.Some? && e.lockedUntil.value > now
  }

  /** RecordFailedLoginAttempt's UPDATE, with the row its subquery read: an older
      one than the row it writes, if the UPDATE had to wait for that row. */
  function AfterFailureFrom(e: Employee, read: Employee, t: Times): Employee {
    var attempts := if read.lockedUntil.Some? && read.lockedUntil.value <= t.write then 1 else read.attempts + 1;
    e.(attempts := attempts, lockedUntil := if attempts >= THRESHOLD then Some(t.deadline + LOCKOUT) else None)
  }

  function AfterFailure(e: Employee, t: Times): Employee {
    AfterFailureFrom(e, e, t)
  }

  /** ResetFailedLoginAttempts' UPDATE. */
  function AfterReset(e: Employee): Employee {
    e.(attempts := 0, lockedUntil := None)
  }

  // ---- sessions ----

  function NewSession(db: Db, store: Option<nat>, ttl: int, t: Times): Session {
    Session(store, db.next, t.write, t.deadline + ttl, t.write, 0)
  }

  predicate Holds(sessions: map<nat, Session>, e: nat, token: nat) {
    e in sessions && sessions[e].token == token
  }

  /** token_hash is UNIQUE, and every stored token was issued. */
  ghost predicate TokensOk(db: Db) {
    && (forall e :: e in db.sessions ==> db.sessions[e].token < db.next)
    && forall e, e' :: e in db.sessions && e' in db.sessions && e != e' ==>
                         db.sessions[e].token != db.sessions[e'].token
  }

  /** GetSessionByTokenHash: whose session the token names. */
  ghost function Owner(sessions: map<nat, Session>, token: nat): (r: Option<nat>)
    ensures r.Some? ==> Holds(sessions, r.value, token)
    ensures r.None? ==> forall e :: !Holds(sessions, e, token)
  {
    if e: nat :| Holds(sessions, e, token) then Some(e) else None
  }

  function WithoutToken(sessions: map<nat, Session>, token: nat): map<nat, Session> {
    map e | e in sessions && sessions[e].token != token :: sessions[e]
  }

  function Beaten(s: Session, present: bool, now: int): Session {
    s.(lastHeartbeat := now, failures := if present then 0 else s.failures + 1)
  }

  function BeatenWhere(sessions: map<nat, Session>, token: nat, present: bool, now: int): map<nat, Session> {
    map e | e in sessions :: if sessions[e].token == token then Beaten(sessions[e], present, now) else sessions[e]
  }

  /** WHERE token_hash = .. reaches the owner's row and no other. */
  lemma TokenNamesOneRow(db: Db, e: nat, token: nat)
    requires TokensOk(db) && Holds(db.sessions, e, token)
    ensures Owner(db.sessions, token) == Some(e)
    ensures WithoutToken(db.sessions, token) == db.sessions - {e}
    ensures forall present, now ::
              BeatenWhere(db.sessions, token, present, now) == db.sessions[e := Beaten(db.sessions[e], present, now)]
  {}

  // ---- the calls ----

  /** Login's last part: store the new session over any older one. */
  ghost function Issue(db: Db, e: nat, store: Option<nat>, ttl: int, t: Times, down: set<Statement>): (Db, LoginReply) {
    if MakeToken in down then (db, LoginError)
    else if SaveSession in down then (db.(next := db.next + 1), LoginError)
    else
      var session := NewSession(db, store, ttl, t);
      (db.(sessions := db.sessions[e := session], next := db.next + 1), LoggedIn(db.next, session))
  }

  /** Login after the password was found right. */
  ghost function Enter(db: Db, e: nat, cs: seq<Candidate>, d: Device, t: Times, down: set<Statement>): (Db, LoginReply)
    requires e in db.employees
  {
    if ReadAdmin in down then (db, LoginError)
    else if db.employees[e].admin then Issue(db, e, None, ADMIN_TTL, t, down)
    else if ListStores in down then (db, LoginError)
    else
      match Best(cs, d)
      case None => (db, NoStoreMatch)
      case Some(c) => Issue(db, e, Some(c.id), NON_ADMIN_TTL, t, down)
  }

  /** Whether the call gets as far as comparing e's password, and counts. */
  ghost predicate Compares(db: Db, who: Option<nat>, t: Times, down: set<Statement>) {
    && FindEmployee !in down && who.Some? && who.value in db.employees
    && db.employees[who.value].password.Some? && db.employees[who.value].active
    && !Locked(db.employees[who.value], t.check)
  }

  /** `who` is the employee with the submitted username, if any. */
  ghost function Login(db: Db, who: Option<nat>, password: nat, cs: seq<Candidate>, d: Device, t: Times,
                       down: set<Statement>): (Db, LoginReply) {
    if !Compares(db, who, t, down) then
      (db, if FindEmployee in down then LoginError
       else if who.Some? && who.value in db.employees && db.employees[who.value].password.None? then NotActivated
       else InvalidCredentials)
    else
      var e := who.value;
      if db.employees[e].password.value != password then
        if RecordFailure in down then (db, LoginError)
        else (db.(employees := db.employees[e := AfterFailure(db.employees[e], t)]), InvalidCredentials)
      else if ResetFailures in down then (db, LoginError)
      else Enter(db.(employees := db.employees[e := AfterReset(db.employees[e])]), e, cs, d, t, down)
  }

  /** One heartbeat as it reaches an open session: `store` is the session's
      store as its three SELECTs found it. */
  datatype Beat = Beat(store: Option<Candidate>, device: Device, read: int, write: int, down: set<Statement>)

  predicate BeatPresent(b: Beat) {
    b.store.Some? && Present(b.store.value, b.device)
  }

  /** The presence check ran and its outcome was stored. */
  predicate Writes(b: Beat) {
    ReadStore !in b.down && b.store.Some? && RecordBeat !in b.down
  }

  predicate Late(s: Session, b: Beat) {
    s.expiresAt < b.read || b.read - s.lastHeartbeat > SILENCE
  }

  /** The presence check, its record, and what a second failure leads to. */
  function Recheck(s: Session, b: Beat): (Option<Session>, BeatReply) {
    if !Writes(b) then (Some(s), BeatError)
    else
      var s' := Beaten(s, BeatPresent(b), b.write);
      if s'.failures < MAX_FAILURES || BeatPresent(b) then (Some(s'), Active)
      else if DeleteSession in b.down then (Some(s'), BeatError)
      else (None, Ended(LeftPremises))
  }

  function BeatSession(s: Session, b: Beat): (Option<Session>, BeatReply) {
    if s.store.None? then (Some(s), Active)
    else if !Late(s, b) then Recheck(s, b)
    else if DeleteSession in b.down then (Some(s), BeatError)
    else (None, Ended(SessionExpired))
  }

  /** e's row set to what is left of it. */
  function Put(sessions: map<nat, Session>, e: nat, left: Option<Session>): map<nat, Session> {
    if left.Some? then sessions[e := left.value] else sessions - {e}
  }

  ghost function Heartbeat(db: Db, token: nat, b: Beat): (Db, BeatReply) {
    if FindSession in b.down then (db, BeatError)
    else
      match Owner(db.sessions, token)
      case None => (db, Ended(LoggedOutElsewhere))
      case Some(e) =>
        var (left, reply) := BeatSession(db.sessions[e], b);
        (db.(sessions := Put(db.sessions, e, left)), reply)
  }

  function Logout(db: Db, token: nat, down: set<Statement>): Db {
    if DeleteSession in down then db else db.(sessions := WithoutToken(db.sessions, token))
  }

  /** A CompleteActivation that committed. */
  function Complete(db: Db, e: nat, password: nat): Db {
    if e in db.employees
    then db.(employees := db.employees[e := AfterReset(db.employees[e].(password := Some(password)))],
         sessions := db.sessions - {e})
    else db
  }

  /** ValidateSession: the employee and whether they are an admin. */
  ghost function Validated(db: Db, token: nat, now: int): Option<(nat, bool)> {
    match Owner(db.sessions, token)
    case None => None
    case Some(e) =>
      if db.sessions[e].expiresAt < now then None else Some((e, e in db.employees && db.employees[e].admin))
  }

  // ---- runs of whole calls ----

  datatype Op =
    | DoLogin(who: Option<nat>, password: nat, cs: seq<Candidate>, device: Device, times: Times, down: set<Statement>)
    | DoHeartbeat(token: nat, beat: Beat)
    | DoLogout(token: nat, down: set<Statement>)
    | DoComplete(employee: nat, password: nat)

  ghost function Do(db: Db, op: Op): Db {
    match op
    case DoLogin(who, password, cs, device, times, down) => Login(db, who, password, cs, device, times, down).0
    case DoHeartbeat(token, beat) => Heartbeat(db, token, beat).0
    case DoLogout(token, down) => Logout(db, token, down)
    case DoComplete(e, password) => Complete(db, e, password)
  }

  /** The states a run passes through. */
  ghost predicate Trace(run: seq<Op>, dbs: seq<Db>) {
    |dbs| == |run| + 1 && forall n: nat :: n < |run| ==> dbs[n + 1] == Do(dbs[n], run[n])
  }

  lemma LoginKeepsTokens(db: Db, op: Op)
    requires TokensOk(db) && op.DoLogin?
    ensures TokensOk(Do(db, op)) && db.next <= Do(db, op).next
  {}

  lemma HeartbeatKeepsTokens(db: Db, op: Op)
    requires TokensOk(db) && op.DoHeartbeat?
    ensures TokensOk(Do(db, op)) && db.next == Do(db, op).next
  {}

  lemma OpKeepsTokens(db: Db, op: Op)
    requires TokensOk(db)
    ensures TokensOk(Do(db, op)) && db.next <= Do(db, op).next
  {
    match op
    case DoLogin(_, _, _, _, _, _) => LoginKeepsTokens(db, op);
    case DoHeartbeat(_, _) => HeartbeatKeepsTokens(db, op);
    case DoLogout(_, _) =>
    case DoComplete(_, _) =>
  }

  /** No call adds or removes an employee, or changes who is an admin. */
  lemma OpKeepsEmployees(db: Db, op: Op)
    ensures Do(db, op).employees.Keys == db.employees.Keys
    ensures forall e :: e in db.employees ==> Do(db, op).employees[e].admin == db.employees[e].admin
  {}

  lemma {:induction false} TraceKeepsEmployees(run: seq<Op>, dbs: seq<Db>, i: nat, n: nat)
    requires Trace(run, dbs) && i <= n <= |run|
    ensures dbs[n].employees.Keys == dbs[i].employees.Keys
    decreases n
  {
    if i < n {
      TraceKeepsEmployees(run, dbs, i, n - 1);
      OpKeepsEmployees(dbs[n - 1], run[n - 1]);
    }
  }

  lemma {:induction false} TraceKeepsTokens(run: seq<Op>, dbs: seq<Db>, n: nat)
    requires Trace(run, dbs) && TokensOk(dbs[0]) && n <= |run|
    ensures TokensOk(dbs[n])
  {
    if n > 0 {
      TraceKeepsTokens(run, dbs, n - 1);
      OpKeepsTokens(dbs[n - 1], run[n - 1]);
    }
  }
}
