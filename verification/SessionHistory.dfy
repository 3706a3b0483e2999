/** The session table as a function of the calls made so far: who is logged in
    with which token follows from the replies the calls gave. */
module SessionHistory {
  import opened Results
  import opened AuthModel
  import opened LoginMeaning

  ghost function LoginReplyOf(db: Db, op: Op): LoginReply
    requires op.DoLogin?
  {
    Login(db, op.who, op.password, op.cs, op.device, op.times, op.down).1
  }

  /** The call is a Login of e that answered with a token. */
  ghost predicate LogsIn(db: Db, op: Op, e: nat) {
    op.DoLogin? && op.who == Some(e) && LoginReplyOf(db, op).LoggedIn?
  }

  ghost predicate Issues(db: Db, op: Op, e: nat, token: nat) {
    LogsIn(db, op, e) && LoginReplyOf(db, op).token == token
  }

  /** The call ends e's session under the token: a newer Login, a Logout, a
      Heartbeat that says so, or a completed activation. */
  ghost predicate Ends(db: Db, op: Op, e: nat, token: nat) {
    || LogsIn(db, op, e)
    || (op.DoLogout? && op.token == token && DeleteSession !in op.down)
    || (op.DoHeartbeat? && op.token == token && Heartbeat(db, token, op.beat).1.Ended?)
    || (op.DoComplete? && op.employee == e && e in db.employees)
  }

  lemma LoginOnlyIssues(db: Db, op: Op, e: nat, token: nat)
    requires op.DoLogin?
    ensures Holds(Do(db, op).sessions, e, token) <==>
            Issues(db, op, e, token) || (Holds(db.sessions, e, token) && !LogsIn(db, op, e))
    ensures Issues(db, op, e, token) ==> Do(db, op).sessions[e] == LoginReplyOf(db, op).session
    ensures !LogsIn(db, op, e) && e in db.sessions ==>
              e in Do(db, op).sessions && Do(db, op).sessions[e] == db.sessions[e]
  {}

  lemma OneStep(db: Db, op: Op, e: nat, token: nat)
    requires TokensOk(db)
    ensures Holds(Do(db, op).sessions, e, token) <==>
            Issues(db, op, e, token) || (Holds(db.sessions, e, token) && !Ends(db, op, e, token))
    ensures Issues(db, op, e, token) ==> Do(db, op).sessions[e] == LoginReplyOf(db, op).session
    ensures Holds(db.sessions, e, token) && !Ends(db, op, e, token) ==>
              Do(db, op).sessions[e].expiresAt == db.sessions[e].expiresAt
  {
    if op.DoLogin? {
      LoginOnlyIssues(db, op, e, token);
    }
  }

  /** Call i gave e the token, and no call from i + 1 up to n ended it. */
  ghost predicate Stands(run: seq<Op>, dbs: seq<Db>, n: nat, e: nat, token: nat, i: nat)
    requires Trace(run, dbs) && n <= |run|
  {
    i < n && Issues(dbs[i], run[i], e, token) && forall j: nat :: i < j < n ==> !Ends(dbs[j], run[j], e, token)
  }

  lemma StandsNext(run: seq<Op>, dbs: seq<Db>, n: nat, e: nat, token: nat, i: nat)
    requires Trace(run, dbs) && 0 < n <= |run|
    ensures Stands(run, dbs, n, e, token, i) <==>
            if i == n - 1 then Issues(dbs[i], run[i], e, token)
            else Stands(run, dbs, n - 1, e, token, i) && !Ends(dbs[n - 1], run[n - 1], e, token)
  {}

  /** Whoever gets a token has sent the right password of an active, unlocked employee. */
  lemma TokenNeedsPassword(db: Db, op: Op, e: nat, token: nat)
    requires Issues(db, op, e, token)
    ensures e in db.employees && db.employees[e].active && db.employees[e].password == Some(op.password)
    ensures !(db.employees[e].lockedUntil.Some? && db.employees[e].lockedUntil.value > op.times.check)
  {
    LoggedInIff(db, op.who, op.password, op.cs, op.device, op.times, op.down);
  }

  /** The table after n calls, row by row. */
  lemma {:induction false} TableIsHistory(run: seq<Op>, dbs: seq<Db>, n: nat, e: nat, token: nat)
    requires Trace(run, dbs) && n <= |run| && TokensOk(dbs[0]) && dbs[0].sessions == map[]
    ensures Holds(dbs[n].sessions, e, token) <==> exists i: nat :: Stands(run, dbs, n, e, token, i)
    ensures forall i: nat :: Stands(run, dbs, n, e, token, i) ==>
                               && Holds(dbs[n].sessions, e, token)
                               && dbs[n].sessions[e].expiresAt == LoginReplyOf(dbs[i], run[i]).session.expiresAt
  {
    if n > 0 {
      TableIsHistory(run, dbs, n - 1, e, token);
      TraceKeepsTokens(run, dbs, n - 1);
      OneStep(dbs[n - 1], run[n - 1], e, token);
      forall i: nat
        ensures Stands(run, dbs, n, e, token, i) <==>
                if i == n - 1 then Issues(dbs[i], run[i], e, token)
                else Stands(run, dbs, n - 1, e, token, i) && !Ends(dbs[n - 1], run[n - 1], e, token)
      {
        StandsNext(run, dbs, n, e, token, i);
      }
      if Issues(dbs[n - 1], run[n - 1], e, token) {
        assert Stands(run, dbs, n, e, token, n - 1);
      }
    }
  }

  /** Every row rests on a standing Login that sent the password the employee had then. */
  lemma RowRestsOnPassword(run: seq<Op>, dbs: seq<Db>, n: nat, e: nat, token: nat) returns (i: nat)
    requires Trace(run, dbs) && n <= |run| && TokensOk(dbs[0]) && dbs[0].sessions == map[]
    requires Holds(dbs[n].sessions, e, token)
    ensures Stands(run, dbs, n, e, token, i)
    ensures run[i].DoLogin? && e in dbs[i].employees && dbs[i].employees[e].password == Some(run[i].password)
  {
    TableIsHistory(run, dbs, n, e, token);
    i :| Stands(run, dbs, n, e, token, i);
    TokenNeedsPassword(dbs[i], run[i], e, token);
  }

  /** ValidateSession accepts a token at `now` exactly when its employee's last
      successful Login issued it, nothing ended it since, and `now` is not past
      the expiry that Login set. It names that employee, and says admin exactly if
      they are one. */
  lemma ValidatedIsHistory(run: seq<Op>, dbs: seq<Db>, token: nat, now: int)
    requires Trace(run, dbs) && TokensOk(dbs[0]) && dbs[0].sessions == map[]
    ensures Validated(dbs[|run|], token, now).Some? <==>
            exists e: nat, i: nat :: Stands(run, dbs, |run|, e, token, i)
                                     && now <= LoginReplyOf(dbs[i], run[i]).session.expiresAt
    ensures forall e: nat, i: nat :: Stands(run, dbs, |run|, e, token, i) && Validated(dbs[|run|], token, now).Some? ==>
                                       var (who, admin) := Validated(dbs[|run|], token, now).value;
                                       && who == e && e in dbs[|run|].employees
                                       && (admin <==> dbs[|run|].employees[e].admin)
  {
    var n := |run|;
    TraceKeepsTokens(run, dbs, n);
    forall e: nat, i: nat | Stands(run, dbs, n, e, token, i)
      ensures Owner(dbs[n].sessions, token) == Some(e)
      ensures dbs[n].sessions[e].expiresAt == LoginReplyOf(dbs[i], run[i]).session.expiresAt
      ensures e in dbs[n].employees
    {
      TableIsHistory(run, dbs, n, e, token);
      TraceKeepsEmployees(run, dbs, i, n);
    }
    var owner := Owner(dbs[n].sessions, token);
    if owner.Some? {
      TableIsHistory(run, dbs, n, owner.value, token);
    }
  }

  /** At most one Login per employee stands: one session each. */
  lemma OneSessionEach(run: seq<Op>, dbs: seq<Db>, n: nat, e: nat, token: nat, token': nat, i: nat, j: nat)
    requires Trace(run, dbs) && n <= |run| && Stands(run, dbs, n, e, token, i) && Stands(run, dbs, n, e, token', j)
    ensures i == j && token == token'
  {}

  /** Two calls never issue one token, so "the Login that issued it" is unique. */
  lemma {:induction false} TokensAreFresh(run: seq<Op>, dbs: seq<Db>, i: nat, j: nat, e: nat, e': nat, token: nat)
    requires Trace(run, dbs) && i < j < |run|
    requires Issues(dbs[i], run[i], e, token)
    ensures !Issues(dbs[j], run[j], e', token)
  {
    NextGrows(run, dbs, i + 1, j);
  }

  lemma {:induction false} NextGrows(run: seq<Op>, dbs: seq<Db>, i: nat, j: nat)
    requires Trace(run, dbs) && i <= j <= |run|
    ensures dbs[i].next <= dbs[j].next
    decreases j
  {
    if i < j {
      NextGrows(run, dbs, i, j - 1);
    }
  }
}
