/** What the answers of Login, Heartbeat and CompleteActivation mean for the
    employee, written out in the columns of the tables. */
module LoginMeaning {
  import opened Results
  import opened Presence
  import opened AuthModel

  // ---- when Login gives which answer ----

  /** A token is given exactly to an active, unlocked employee who sent the right
      password, and is an admin or in one of their stores, when all the statements
      on the way work. */
  lemma LoggedInIff(db: Db, who: Option<nat>, password: nat, cs: seq<Candidate>, d: Device, t: Times,
                    down: set<Statement>)
    ensures Login(db, who, password, cs, d, t, down).1.LoggedIn? <==>
            && FindEmployee !in down && who.Some? && who.value in db.employees
            && var x := db.employees[who.value];
            && x.active && x.password == Some(password) && !(x.lockedUntil.Some? && x.lockedUntil.value > t.check)
            && ResetFailures !in down && ReadAdmin !in down && MakeToken !in down && SaveSession !in down
            && (x.admin || (ListStores !in down && exists i: nat :: i < |cs| && Present(cs[i], d)))
  {
    BestIsLeast(cs, d);
  }

  /** An unknown, deactivated or locked employee and a recorded wrong password all
      get the same answer, and nobody else does. */
  lemma InvalidCredentialsIff(db: Db, who: Option<nat>, password: nat, cs: seq<Candidate>, d: Device, t: Times,
                              down: set<Statement>)
    ensures Login(db, who, password, cs, d, t, down).1 == InvalidCredentials <==>
            && FindEmployee !in down
            && (who.Some? && who.value in db.employees ==>
                  var x := db.employees[who.value];
                  && x.password.Some?
                  && (!x.active || (x.lockedUntil.Some? && x.lockedUntil.value > t.check)
                      || (x.password != Some(password) && RecordFailure !in down)))
  {}

  lemma NotActivatedIff(db: Db, who: Option<nat>, password: nat, cs: seq<Candidate>, d: Device, t: Times,
                        down: set<Statement>)
    ensures Login(db, who, password, cs, d, t, down).1 == NotActivated <==>
            FindEmployee !in down && who.Some? && who.value in db.employees && db.employees[who.value].password == None
  {}

  /** Right password, not an admin, and none of the stores is where the device is. */
  lemma NoStoreMatchIff(db: Db, who: Option<nat>, password: nat, cs: seq<Candidate>, d: Device, t: Times,
                        down: set<Statement>)
    ensures Login(db, who, password, cs, d, t, down).1 == NoStoreMatch <==>
            && FindEmployee !in down && who.Some? && who.value in db.employees
            && var x := db.employees[who.value];
            && x.active && x.password == Some(password) && !(x.lockedUntil.Some? && x.lockedUntil.value > t.check)
            && ResetFailures !in down && ReadAdmin !in down && !x.admin && ListStores !in down
            && forall i: nat :: i < |cs| ==> !Present(cs[i], d)
  {
    BestIsLeast(cs, d);
  }

  /** An error is a statement that fails where the call reaches it. */
  lemma LoginErrorIff(db: Db, who: Option<nat>, password: nat, cs: seq<Candidate>, d: Device, t: Times,
                      down: set<Statement>)
    ensures Login(db, who, password, cs, d, t, down).1 == LoginError <==>
            || FindEmployee in down
            || (&& who.Some? && who.value in db.employees
                && var x := db.employees[who.value];
                && x.active && x.password.Some? && !(x.lockedUntil.Some? && x.lockedUntil.value > t.check)
                && if x.password != Some(password) then RecordFailure in down
                   else || ResetFailures in down || ReadAdmin in down || (!x.admin && ListStores in down)
                        || ((MakeToken in down || SaveSession in down)
                            && (x.admin || exists i: nat :: i < |cs| && Present(cs[i], d))))
  {
    BestIsLeast(cs, d);
  }

  // ---- what Login leaves behind ----

  /** A wrong password that is compared is counted, or, if the count cannot be
      written, changes nothing; the sessions and tokens stay in either case. */
  lemma WrongPasswordCounts(db: Db, e: nat, password: nat, cs: seq<Candidate>, d: Device, t: Times,
                            down: set<Statement>)
    requires FindEmployee !in down && e in db.employees && db.employees[e].active
    requires db.employees[e].password.Some? && db.employees[e].password != Some(password)
    requires !(db.employees[e].lockedUntil.Some? && db.employees[e].lockedUntil.value > t.check)
    ensures var db', x := Login(db, Some(e), password, cs, d, t, down).0, db.employees[e];
            && db'.sessions == db.sessions && db'.next == db.next && db'.employees.Keys == db.employees.Keys
            && (forall e' :: e' in db.employees && e' != e ==> db'.employees[e'] == db.employees[e'])
            && var y := db'.employees[e];
            && y.active == x.active && y.password == x.password && y.admin == x.admin
            && if RecordFailure in down then y == x
               else && y.attempts ==
                       (if x.lockedUntil.Some? && x.lockedUntil.value <= t.write then 1 else x.attempts + 1)
                    && y.lockedUntil == (if y.attempts >= 5 then Some(t.deadline + 15 * 60 * 1_000_000)
                                         else None)
  {}

  /** A right one clears the count and the lock as soon as that can be written,
      whatever becomes of the presence check. */
  lemma RightPasswordClears(db: Db, e: nat, password: nat, cs: seq<Candidate>, d: Device, t: Times,
                            down: set<Statement>)
    requires FindEmployee !in down && e in db.employees && db.employees[e].active
    requires db.employees[e].password == Some(password)
    requires !(db.employees[e].lockedUntil.Some? && db.employees[e].lockedUntil.value > t.check)
    ensures var db', x := Login(db, Some(e), password, cs, d, t, down).0, db.employees[e];
            && db'.employees.Keys == db.employees.Keys
            && (forall e' :: e' in db.employees && e' != e ==> db'.employees[e'] == db.employees[e'])
            && var y := db'.employees[e];
            && y.active == x.active && y.password == x.password && y.admin == x.admin
            && if ResetFailures in down then y == x else y.attempts == 0 && y.lockedUntil == None
  {}

  /** A call that compares no password changes nothing. */
  lemma UncomparedChangesNothing(db: Db, who: Option<nat>, password: nat, cs: seq<Candidate>, d: Device, t: Times,
                                 down: set<Statement>)
    requires FindEmployee !in down && who.Some? && who.value in db.employees ==>
               var x := db.employees[who.value];
               x.password == None || !x.active || (x.lockedUntil.Some? && x.lockedUntil.value > t.check)
    ensures Login(db, who, password, cs, d, t, down).0 == db
  {}

  /** Only an answer with a token touches the sessions, and only the employee's
      own: an admin's session has no store, any other one the store of the least
      qualifying tier and position. */
  lemma SessionOfLogin(db: Db, who: Option<nat>, password: nat, cs: seq<Candidate>, d: Device, t: Times,
                       down: set<Statement>)
    ensures var (db', reply) := Login(db, who, password, cs, d, t, down);
            if !reply.LoggedIn? then db'.sessions == db.sessions
            else
              && who.Some? && who.value in db.employees
              && reply.token == db.next && db'.next == db.next + 1 && reply.session.token == reply.token
              && db'.sessions == db.sessions[who.value := reply.session]
              && reply.session.issuedAt == t.write && reply.session.lastHeartbeat == t.write
              && reply.session.failures == 0
              && reply.session.expiresAt ==
                 t.deadline + (if db.employees[who.value].admin then 8 else 12) * 3600 * 1_000_000
              && (db.employees[who.value].admin ==> reply.session.store == None)
              && (!db.employees[who.value].admin ==>
                    exists tier: Tier, i: nat :: IsBest(cs, d, tier, i) && reply.session.store == Some(cs[i].id))
  {
    BestIsLeast(cs, d);
  }

  // ---- a reset password ----

  /** What a completed reset does to e: the new password, no lockout, no session. */
  lemma CompletedColumns(db: Db, e: nat, password: nat)
    requires e in db.employees
    ensures var db', x := Complete(db, e, password), db.employees[e];
            && db'.employees.Keys == db.employees.Keys && db'.next == db.next
            && db'.employees[e] == Employee(x.active, Some(password), 0, None, x.admin)
            && (forall e' :: e' in db.employees && e' != e ==> db'.employees[e'] == db.employees[e'])
            && e !in db'.sessions
            && (forall e' :: e' != e ==> (e' in db'.sessions <==> e' in db.sessions))
            && (forall e' :: e' in db.sessions && e' != e ==> db'.sessions[e'] == db.sessions[e'])
  {}

  /** Right after a reset, any other password is refused. */
  lemma OtherPasswordIsRefused(db: Db, e: nat, password: nat, other: nat, cs: seq<Candidate>, d: Device, t: Times,
                               down: set<Statement>)
    requires e in db.employees && other != password && FindEmployee !in down && RecordFailure !in down
    ensures Login(Complete(db, e, password), Some(e), other, cs, d, t, down).1 == InvalidCredentials
  {
    CompletedColumns(db, e, password);
    InvalidCredentialsIff(Complete(db, e, password), Some(e), other, cs, d, t, down);
  }

  /** And the new one brings an active employee to the presence check, which alone
      decides when no statement fails, however often and long they were locked out. */
  lemma NewPasswordReachesPresence(db: Db, e: nat, password: nat, cs: seq<Candidate>, d: Device, t: Times)
    requires e in db.employees && db.employees[e].active
    ensures var reply := Login(Complete(db, e, password), Some(e), password, cs, d, t, {}).1;
            if db.employees[e].admin || exists i: nat :: i < |cs| && Present(cs[i], d) then reply.LoggedIn?
            else reply == NoStoreMatch
  {
    CompletedColumns(db, e, password);
    LoggedInIff(Complete(db, e, password), Some(e), password, cs, d, t, {});
    NoStoreMatchIff(Complete(db, e, password), Some(e), password, cs, d, t, {});
  }

  // ---- heartbeats ----

  /** A session without a store is never ended, nor even touched, by a heartbeat. */
  lemma StorelessBeatDoesNothing(db: Db, e: nat, token: nat, b: Beat)
    requires TokensOk(db) && e in db.sessions && db.sessions[e].token == token && db.sessions[e].store == None
    requires FindSession !in b.down
    ensures Heartbeat(db, token, b).1 == Active && Heartbeat(db, token, b).0 == db
  {
    TokenNamesOneRow(db, e, token);
    assert db.sessions[e := db.sessions[e]] == db.sessions;
  }

  /** A token that names no session is told so, whatever else fails. */
  lemma UnknownBeat(db: Db, token: nat, b: Beat)
    requires FindSession !in b.down && forall e :: e in db.sessions ==> db.sessions[e].token != token
    ensures Heartbeat(db, token, b) == (db, Ended(LoggedOutElsewhere))
  {
    assert forall e :: e in db.sessions ==> !Holds(db.sessions, e, token);
  }

  /** A heartbeat past the expiry or after 90 seconds of silence ends the session,
      wherever the device is. */
  lemma LateBeat(db: Db, e: nat, token: nat, b: Beat)
    requires TokensOk(db) && e in db.sessions && db.sessions[e].token == token && db.sessions[e].store.Some?
    requires FindSession !in b.down && DeleteSession !in b.down
    requires b.read > db.sessions[e].expiresAt || b.read - db.sessions[e].lastHeartbeat > 90 * 1_000_000
    ensures Heartbeat(db, token, b) == (db.(sessions := db.sessions - {e}), Ended(SessionExpired))
  {
    TokenNamesOneRow(db, e, token);
  }

  /** A timely heartbeat of a session with a store, when no statement fails: a device
      in the store clears the failures, an absent one adds one, and the second in a
      row ends the session. */
  lemma TimelyBeat(db: Db, e: nat, token: nat, b: Beat)
    requires TokensOk(db) && e in db.sessions && db.sessions[e].token == token && db.sessions[e].store.Some?
    requires b.down == {} && b.store.Some?
    requires b.read <= db.sessions[e].expiresAt && b.read - db.sessions[e].lastHeartbeat <= 90 * 1_000_000
    ensures var (db', reply) := Heartbeat(db, token, b);
            && db'.employees == db.employees && db'.next == db.next
            && (forall e' :: e' in db.sessions && e' != e ==> e' in db'.sessions && db'.sessions[e'] == db.sessions[e'])
            && if Present(b.store.value, b.device) then
                 reply == Active && e in db'.sessions
                 && db'.sessions[e] == db.sessions[e].(lastHeartbeat := b.write, failures := 0)
               else if db.sessions[e].failures + 1 < 2 then
                 reply == Active && e in db'.sessions
                 && db'.sessions[e] == db.sessions[e].(lastHeartbeat := b.write,
                                       failures := db.sessions[e].failures + 1)
               else reply == Ended(LeftPremises) && e !in db'.sessions
  {
    TokenNamesOneRow(db, e, token);
  }
}
