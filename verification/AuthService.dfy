/** auth.service over its tables: Login, Heartbeat, Logout, ValidateSession, and
    the part of CompleteActivation that touches the same tables. Each method
    leaves the tables as its function in AuthModel says. */
module AuthService {
  import opened Results
  import opened Presence
  import opened AuthModel
  import opened LoginMeaning

  function Rows(stores: map<nat, Candidate>, ids: seq<nat>): seq<Candidate>
    requires forall i: nat :: i < |ids| ==> ids[i] in stores
  {
    seq(|ids|, i requires 0 <= i < |ids| => stores[ids[i]])
  }

  class Auth {
    /** employees.username, UNIQUE. */
    var ids: map<string, nat>
    var employees: map<nat, Employee>
    var sessions: map<nat, Session>
    var next: nat
    var stores: map<nat, Candidate>
    /** Each employee's stores in id order. */
    var storeIds: map<nat, seq<nat>>

    ghost predicate Valid()
      reads this
    {
      && TokensOk(Tables())
      && forall e :: e in storeIds ==> forall i: nat :: i < |storeIds[e]| ==> storeIds[e][i] in stores
    }

    ghost function Tables(): Db
      reads this
    {
      Db(employees, sessions, next)
    }

    function FindId(username: string): (r: Option<nat>)
      reads this
      ensures r.Some? <==> username in ids
      ensures r.Some? ==> r.value == ids[username]
    {
      if username in ids then Some(ids[username]) else None
    }

    /** ListStoresForLoginByEmployeeID: the employee's stores, in their order. */
    function StoresOf(e: nat): (r: seq<Candidate>)
      requires Valid()
      reads this
      ensures e !in storeIds ==> r == []
      ensures e in storeIds ==>
                |r| == |storeIds[e]| && forall i: nat :: i < |r| ==> r[i] == stores[storeIds[e][i]]
    {
      if e in storeIds then Rows(stores, storeIds[e]) else []
    }

    function StoresFor(who: Option<nat>): (r: seq<Candidate>)
      requires Valid()
      reads this
      ensures r == if who.Some? then StoresOf(who.value) else []
    {
      if who.Some? then StoresOf(who.value) else []
    }

    method DeleteSessionByToken(token: nat)
      requires Valid()
      modifies this`sessions
      ensures Valid() && sessions == WithoutToken(old(sessions), token)
    {
      sessions := map e | e in sessions && sessions[e].token != token :: sessions[e];
    }

    /** The owner of the token, as the UNIQUE index on token_hash finds it. */
    method GetSessionByToken(token: nat) returns (r: Option<nat>)
      requires Valid()
      ensures r == Owner(sessions, token)
    {
      if e :| e in sessions && sessions[e].token == token {
        TokenNamesOneRow(Tables(), e, token);
        return Some(e);
      }
      return None;
    }

    method Login(username: string, password: nat, d: Device, t: Times, down: set<Statement>) returns (r: LoginReply)
      requires Valid()
      modifies this`employees, this`sessions, this`next
      ensures Valid()
      ensures (Tables(), r) == AuthModel.Login(old(Tables()), FindId(username), password, StoresFor(FindId(username)),
                                               d, t, down)
      ensures r.LoggedIn? <==>
              && FindEmployee !in down && username in ids && ids[username] in old(employees)
              && var e := ids[username];
              var x := old(employees)[e];
              && x.active && x.password == Some(password) && !(x.lockedUntil.Some? && x.lockedUntil.value > t.check)
              && ResetFailures !in down && ReadAdmin !in down && MakeToken !in down && SaveSession !in down
              && (x.admin || (ListStores !in down
                              && exists i: nat :: i < |StoresOf(e)| && Present(StoresOf(e)[i], d)))
    {
      LoggedInIff(Tables(), FindId(username), password, StoresFor(FindId(username)), d, t, down);
      if FindEmployee in down {
        return LoginError;
      }
      var found := username in ids && ids[username] in employees;
      if !found {
        return InvalidCredentials;
      }
      var e := ids[username];
      var employee := employees[e];
      if employee.password == None {
        return NotActivated;
      }
      if !employee.active {
        return InvalidCredentials;
      }
      if employee.lockedUntil.Some? && employee.lockedUntil.value > t.check {
        return InvalidCredentials;
      }
      if employee.password.value != password {
        if RecordFailure in down {
          return LoginError;
        }
        employees := employees[e := AfterFailure(employee, t)];
        return InvalidCredentials;
      }
      if ResetFailures in down {
        return LoginError;
      }
      employees := employees[e := AfterReset(employee)];
      r := EnterStore(e, d, t, down);
    }

    /** The rest of Login: the presence check, which an admin skips, and the session. */
    method EnterStore(e: nat, d: Device, t: Times, down: set<Statement>) returns (r: LoginReply)
      requires Valid() && e in employees
      modifies this`sessions, this`next
      ensures Valid() && (Tables(), r) == Enter(old(Tables()), e, StoresOf(e), d, t, down)
    {
      if ReadAdmin in down {
        return LoginError;
      }
      var store: Option<nat> := None;
      var ttl := NON_ADMIN_TTL;
      if employees[e].admin {
        ttl := ADMIN_TTL;
      } else {
        if ListStores in down {
          return LoginError;
        }
        var candidates := StoresOf(e);
        var chosen := MatchStore(candidates, d);
        if chosen == None {
          return NoStoreMatch;
        }
        store := Some(chosen.value.id);
      }
      r := IssueSession(e, store, ttl, t, down);
    }

    /** The token and UpsertSession. */
    method IssueSession(e: nat, store: Option<nat>, ttl: int, t: Times, down: set<Statement>) returns (r: LoginReply)
      requires Valid()
      modifies this`sessions, this`next
      ensures Valid() && (Tables(), r) == Issue(old(Tables()), e, store, ttl, t, down)
    {
      if MakeToken in down {
        return LoginError;
      }
      var token := next;
      next := next + 1;
      if SaveSession in down {
        return LoginError;
      }
      sessions := sessions[e := Session(store, token, t.write, t.deadline + ttl, t.write, 0)];
      return LoggedIn(token, sessions[e]);
    }

    method Heartbeat(token: nat, d: Device, read: int, write: int, down: set<Statement>) returns (r: BeatReply)
      requires Valid()
      modifies this`sessions
      ensures Valid()
      ensures (Tables(), r) == AuthModel.Heartbeat(old(Tables()), token,
                                                   BeatOf(old(sessions), token, d, read, write, down))
    {
      if FindSession in down {
        return BeatError;
      }
      var owner := GetSessionByToken(token);
      if owner == None {
        return Ended(LoggedOutElsewhere);
      }
      TokenNamesOneRow(Tables(), owner.value, token);
      var session := sessions[owner.value];
      assert Put(sessions, owner.value, Some(session)) == sessions;
      if session.store == None {
        return Active;
      }
      var silent := read - session.lastHeartbeat > SILENCE;
      if session.expiresAt < read || silent {
        if DeleteSession in down {
          return BeatError;
        }
        DeleteSessionByToken(token);
        return Ended(SessionExpired);
      }
      r := CheckAgain(owner.value, d, read, write, down);
    }

    /** The rest of Heartbeat, on e's session: presence, its record, its end. */
    method CheckAgain(e: nat, d: Device, read: int, write: int, down: set<Statement>) returns (r: BeatReply)
      requires Valid() && e in sessions && sessions[e].store.Some?
      modifies this`sessions
      ensures Valid()
      ensures var (left, reply) := Recheck(old(sessions[e]), Beat(StoreRow(old(sessions[e])), d, read, write, down));
              sessions == Put(old(sessions), e, left) && r == reply
    {
      var token := sessions[e].token;
      TokenNamesOneRow(Tables(), e, token);
      assert Put(sessions, e, Some(sessions[e])) == sessions;
      if ReadStore in down || sessions[e].store.value !in stores {
        return BeatError;
      }
      var candidate := stores[sessions[e].store.value];
      var matched := MatchStore([candidate], d);
      SingleMatch(candidate, d);
      if RecordBeat in down {
        return BeatError;
      }
      sessions := BeatenWhere(sessions, token, matched.Some?, write);
      if matched.Some? {
        return Active;
      }
      if sessions[e].failures >= MAX_FAILURES {
        if DeleteSession in down {
          return BeatError;
        }
        TokenNamesOneRow(Tables(), e, token);
        DeleteSessionByToken(token);
        return Ended(LeftPremises);
      }
      return Active;
    }

    /** What the heartbeat's SELECTs on the session's store find. */
    function StoreRow(s: Session): (r: Option<Candidate>)
      reads this
      ensures r.Some? <==> s.store.Some? && s.store.value in stores
      ensures r.Some? ==> r.value == stores[s.store.value]
    {
      if s.store.Some? && s.store.value in stores then Some(stores[s.store.value]) else None
    }

    /** The heartbeat as it meets the session of its token. */
    ghost function BeatOf(rows: map<nat, Session>, token: nat, d: Device, read: int, write: int,
                          down: set<Statement>): Beat
      reads this
    {
      var owner := Owner(rows, token);
      Beat(if owner.Some? then StoreRow(rows[owner.value]) else None, d, read, write, down)
    }

    method Logout(token: nat, down: set<Statement>) returns (ok: bool)
      requires Valid()
      modifies this`sessions
      ensures Valid() && Tables() == AuthModel.Logout(old(Tables()), token, down) && ok == (DeleteSession !in down)
      ensures !ok ==> sessions == old(sessions)
      ensures ok ==> (forall e :: e in sessions <==> e in old(sessions) && old(sessions)[e].token != token)
                     && forall e :: e in sessions ==> sessions[e] == old(sessions)[e]
    {
      ok := DeleteSession !in down;
      if ok {
        DeleteSessionByToken(token);
      }
    }

    /** Who stands behind an unexpired token, and whether they are an admin. `ok`
        is false when one of the two lookups fails. */
    method ValidateSession(token: nat, now: int, down: set<Statement>) returns (ok: bool, r: Option<(nat, bool)>)
      requires Valid()
      ensures ok <==> FindSession !in down && (Validated(Tables(), token, now).Some? ==> ReadAdmin !in down)
      ensures r == if ok then Validated(Tables(), token, now) else None
      ensures r.Some? ==>
                var (e, admin) := r.value;
                && e in sessions && sessions[e].token == token && now <= sessions[e].expiresAt
                && (admin <==> e in employees && employees[e].admin)
      ensures ok && r.None? ==> forall e :: e in sessions && sessions[e].token == token ==> sessions[e].expiresAt < now
    {
      if FindSession in down {
        return false, None;
      }
      var owner := GetSessionByToken(token);
      if owner == None {
        assert forall e :: e in sessions ==> !Holds(sessions, e, token);
        return true, None;
      }
      TokenNamesOneRow(Tables(), owner.value, token);
      var session := sessions[owner.value];
      if session.expiresAt < now {
        return true, None;
      }
      if ReadAdmin in down {
        return false, None;
      }
      return true, Some((owner.value, owner.value in employees && employees[owner.value].admin));
    }

    /** SetEmployeePassword, DeleteSessionByEmployeeID and ResetFailedLoginAttempts,
        as a redeemed token's transaction commits them. */
    method CompleteActivation(e: nat, password: nat)
      requires Valid() && e in employees
      modifies this`employees, this`sessions
      ensures Valid() && Tables() == Complete(old(Tables()), e, password)
      ensures employees.Keys == old(employees).Keys && e !in sessions
      ensures employees[e] == Employee(old(employees)[e].active, Some(password), 0, None, old(employees)[e].admin)
      ensures forall e' :: e' in employees && e' != e ==> employees[e'] == old(employees)[e']
      ensures forall e' :: e' != e ==> (e' in sessions <==> e' in old(sessions))
      ensures forall e' :: e' in sessions ==> sessions[e'] == old(sessions)[e']
    {
      employees := employees[e := employees[e].(password := Some(password))];
      sessions := sessions - {e};
      employees := employees[e := AfterReset(employees[e])];
    }
  }
}
