/** The login lockout: five wrong passwords lock an employee for 15 minutes, so
    wrong guesses are recorded at a bounded rate. */
module Lockout {
  import opened Results
  import opened Presence
  import opened AuthModel

  /** locked_until is set exactly when the count has reached the threshold. */
  predicate LockOk(e: Employee) {
    e.lockedUntil.Some? <==> e.attempts >= THRESHOLD
  }

  ghost predicate LocksOk(db: Db) {
    forall e :: e in db.employees ==> LockOk(db.employees[e])
  }

  // ---- the count and the lock agree, however calls overlap ----

  /** The two statements that write the lockout columns. */
  datatype LockWrite = Failed(times: Times, read: Employee) | Reset

  function Written(e: Employee, writes: seq<LockWrite>): Employee
    decreases |writes|
  {
    if writes == [] then e
    else Written(match writes[0] case Failed(t, read) => AfterFailureFrom(e, read, t) case Reset => AfterReset(e),
                 writes[1..])
  }

  /** Any interleaving of calls is some sequence of these statements, each with
      clock readings of its own, a failure with whatever row its subquery read: the
      lock follows the count in all of them. */
  lemma {:induction false} LockFollowsCount(e: Employee, writes: seq<LockWrite>)
    requires LockOk(e)
    ensures LockOk(Written(e, writes))
    decreases |writes|
  {
    if writes != [] {
      LockFollowsCount(match writes[0] case Failed(t, read) => AfterFailureFrom(e, read, t) case Reset => AfterReset(e),
                       writes[1..]);
    }
  }

  lemma OpKeepsLocks(db: Db, op: Op)
    requires LocksOk(db)
    ensures LocksOk(Do(db, op)) && Do(db, op).employees.Keys == db.employees.Keys
  {}

  lemma {:induction false} TraceKeepsLocks(run: seq<Op>, dbs: seq<Db>, n: nat)
    requires Trace(run, dbs) && LocksOk(dbs[0]) && n <= |run|
    ensures LocksOk(dbs[n]) && dbs[n].employees.Keys == dbs[0].employees.Keys
  {
    if n > 0 {
      TraceKeepsLocks(run, dbs, n - 1);
      OpKeepsLocks(dbs[n - 1], run[n - 1]);
    }
  }

  // ---- the rate of recorded failures ----

  predicate LoginOf(op: Op, e: nat) {
    op.DoLogin? && op.who == Some(e)
  }

  /** A wrong password that was compared and recorded. */
  ghost predicate Records(db: Db, op: Op, e: nat) {
    && LoginOf(op, e) && Compares(db, Some(e), op.times, op.down)
    && db.employees[e].password.value != op.password && RecordFailure !in op.down
  }

  /** A right password, or a completed reset. */
  ghost predicate Clears(db: Db, op: Op, e: nat) {
    || (op.DoComplete? && op.employee == e)
    || (LoginOf(op, e) && Compares(db, Some(e), op.times, op.down) && db.employees[e].password.value == op.password)
  }

  /** Failures recorded for e by the calls from k on. */
  ghost function Recorded(run: seq<Op>, dbs: seq<Db>, e: nat, k: nat): nat
    requires Trace(run, dbs) && k <= |run|
    decreases |run| - k
  {
    if k == |run| then 0 else (if Records(dbs[k], run[k], e) then 1 else 0) + Recorded(run, dbs, e, k + 1)
  }

  /** e's logins from k on read the clock within [a, b], one call after another. */
  ghost predicate OneAfterAnother(run: seq<Op>, e: nat, k: nat, a: int, b: int) {
    && (forall j: nat :: k <= j < |run| && LoginOf(run[j], e) ==>
                           a <= run[j].times.check <= run[j].times.deadline <= run[j].times.write <= b)
    && (forall i: nat, j: nat :: k <= i < j < |run| && LoginOf(run[i], e) && LoginOf(run[j], e) ==>
                                   run[i].times.write <= run[j].times.check)
  }

  /** Lock periods that end within [from, b]. */
  function Periods(from: int, b: int): nat {
    if from <= b then (b - from) / LOCKOUT else 0
  }

  /** How many failures can still be recorded between a and b. */
  function Budget(x: Employee, a: int, b: int): nat {
    if x.lockedUntil.None? then
      (if x.attempts < THRESHOLD then THRESHOLD - x.attempts else 0) + THRESHOLD * Periods(a, b)
    else
      var free := if x.lockedUntil.value > a then x.lockedUntil.value else a;
      if free <= b then THRESHOLD * (1 + Periods(free, b)) else 0
  }

  lemma PeriodsShrink(a: int, a': int, b: int)
    requires a <= a'
    ensures Periods(a', b) <= Periods(a, b)
  {}

  /** A failure costs at least one of the budget. */
  lemma FailureSpends(x: Employee, a: int, b: int, t: Times)
    requires LockOk(x) && a <= t.check <= t.deadline <= t.write <= b && !Locked(x, t.check)
    ensures 1 + Budget(AfterFailure(x, t), t.write, b) <= Budget(x, a, b)
  {}

  /** What one call does to e's lockout columns when it does not clear them. */
  lemma OpOnEmployee(db: Db, op: Op, e: nat)
    requires e in db.employees && !Clears(db, op, e)
    ensures Records(db, op, e) ==> Do(db, op).employees == db.employees[e := AfterFailure(db.employees[e], op.times)]
    ensures Records(db, op, e) ==> !Locked(db.employees[e], op.times.check)
    ensures !Records(db, op, e) ==> e in Do(db, op).employees && Do(db, op).employees[e] == db.employees[e]
  {}

  lemma {:induction false} RecordedWithinBudget(run: seq<Op>, dbs: seq<Db>, e: nat, k: nat, a: int, b: int)
    requires Trace(run, dbs) && k <= |run| && e in dbs[k].employees && LockOk(dbs[k].employees[e])
    requires OneAfterAnother(run, e, k, a, b)
    requires forall j: nat :: k <= j < |run| ==> !Clears(dbs[j], run[j], e)
    ensures Recorded(run, dbs, e, k) <= Budget(dbs[k].employees[e], a, b)
    decreases |run| - k
  {
    if k < |run| {
      OpOnEmployee(dbs[k], run[k], e);
      if Records(dbs[k], run[k], e) {
        FailureSpends(dbs[k].employees[e], a, b, run[k].times);
        RecordedWithinBudget(run, dbs, e, k + 1, run[k].times.write, b);
      } else {
        RecordedWithinBudget(run, dbs, e, k + 1, a, b);
      }
    }
  }

  /** In any interval [a, b] without a right password or a completed reset, at
      most five failures are recorded for e, and five more per whole 15 minutes. */
  lemma FailureRateIsBounded(run: seq<Op>, dbs: seq<Db>, e: nat, a: int, b: int)
    requires Trace(run, dbs) && e in dbs[0].employees && LockOk(dbs[0].employees[e]) && a <= b
    requires OneAfterAnother(run, e, 0, a, b)
    requires forall j: nat :: j < |run| ==> !Clears(dbs[j], run[j], e)
    ensures Recorded(run, dbs, e, 0) <= THRESHOLD * (1 + (b - a) / LOCKOUT)
  {
    RecordedWithinBudget(run, dbs, e, 0, a, b);
    var x := dbs[0].employees[e];
    if x.lockedUntil.Some? {
      PeriodsShrink(a, if x.lockedUntil.value > a then x.lockedUntil.value else a, b);
    }
  }

  // ---- the bound is reached ----

  /** Five wrong logins at each lock's end: login i happens here. */
  function Moment(i: nat): int {
    (i / THRESHOLD) * LOCKOUT
  }

  function Guess(e: nat, password: nat, d: Device, i: nat): Op {
    DoLogin(Some(e), password, [], d, Times(Moment(i), Moment(i), Moment(i)), {})
  }

  /** e after i such logins. */
  function Guessed(x: Employee, i: nat): Employee {
    if i == 0 then x
    else if i % THRESHOLD == 0 then x.(attempts := THRESHOLD, lockedUntil := Some(Moment(i)))
    else x.(attempts := i % THRESHOLD, lockedUntil := None)
  }

  lemma NextGuess(db: Db, e: nat, x: Employee, password: nat, d: Device, i: nat)
    requires x.active && x.password.Some? && x.password.value != password && x.attempts == 0 && x.lockedUntil == None
    ensures var now := db.(employees := db.employees[e := Guessed(x, i)]);
            && Records(now, Guess(e, password, d, i), e) && !Clears(now, Guess(e, password, d, i), e)
            && Do(now, Guess(e, password, d, i)) == db.(employees := db.employees[e := Guessed(x, i + 1)])
  {}

  lemma {:induction false} AllRecorded(run: seq<Op>, dbs: seq<Db>, e: nat, k: nat)
    requires Trace(run, dbs) && k <= |run| && forall j: nat :: k <= j < |run| ==> Records(dbs[j], run[j], e)
    ensures Recorded(run, dbs, e, k) == |run| - k
    decreases |run| - k
  {
    if k < |run| {
      AllRecorded(run, dbs, e, k + 1);
    }
  }

  /** For every number of whole lock periods some run records exactly the bound. */
  lemma BoundIsReached(db: Db, e: nat, password: nat, d: Device, periods: nat) returns (run: seq<Op>, dbs: seq<Db>)
    requires e in db.employees && db.employees[e].attempts == 0 && db.employees[e].lockedUntil == None
    requires db.employees[e].active && db.employees[e].password.Some? && db.employees[e].password.value != password
    ensures Trace(run, dbs) && dbs[0] == db && OneAfterAnother(run, e, 0, 0, periods * LOCKOUT)
    ensures forall j: nat :: j < |run| ==> !Clears(dbs[j], run[j], e)
    ensures Recorded(run, dbs, e, 0) == THRESHOLD * (1 + periods)
  {
    var x := db.employees[e];
    var n := THRESHOLD * (1 + periods);
    run := seq(n, i requires 0 <= i < n => Guess(e, password, d, i));
    dbs := seq(n + 1, i requires 0 <= i <= n => db.(employees := db.employees[e := Guessed(x, i)]));
    assert db.employees[e := Guessed(x, 0)] == db.employees;
    forall j: nat | j < |run|
      ensures dbs[j + 1] == Do(dbs[j], run[j]) && Records(dbs[j], run[j], e) && !Clears(dbs[j], run[j], e)
      ensures 0 <= Moment(j) <= periods * LOCKOUT
    {
      NextGuess(db, e, x, password, d, j);
      assert j / THRESHOLD <= periods;
    }
    forall i: nat, j: nat | i < j < |run| ensures Moment(i) <= Moment(j) {
      assert i / THRESHOLD <= j / THRESHOLD;
    }
    AllRecorded(run, dbs, e, 0);
  }
}
