/** allowPasswordResetRequest as the one transaction it is, with the call
    that decides, and its agreement with the interleaved protocol. */
module ResetRequests {
  import opened Results
  import opened ResetThrottle

  /** The statements that may fail; a failure rolls the transaction back. */
  datatype Statement = TakeEmailLock | TakeIpLock | DeleteOld | CountByEmail | CountByIp | InsertRow | CommitTx

  function Recent(rows: map<nat, Row>, since: int): map<nat, Row> {
    map j | j in rows && rows[j].created >= since :: rows[j]
  }

  function EmailRows(rows: map<nat, Row>, email: string, since: int): set<nat> {
    set j | j in rows && rows[j].email == email && rows[j].created >= since
  }

  function IpRows(rows: map<nat, Row>, ip: string, since: int): set<nat> {
    set j | j in rows && rows[j].ip == ip && rows[j].created >= since
  }

  /** The verdict on the table as it was before the call. */
  predicate Allowed(rows: map<nat, Row>, email: string, ip: string, since: int) {
    |EmailRows(rows, email, since)| < EMAIL_LIMIT && |IpRows(rows, ip, since)| < IP_LIMIT
  }

  /** Old rows go, the call's own row comes, whatever the verdict. */
  function Logged(rows: map<nat, Row>, email: string, ip: string, since: int, begin: int, id: nat): map<nat, Row> {
    Recent(rows, since)[id := Row(email, ip, begin)]
  }

  lemma PurgeKeepsCounts(rows: map<nat, Row>, email: string, ip: string, since: int)
    ensures EmailRows(Recent(rows, since), email, since) == EmailRows(rows, email, since)
    ensures IpRows(Recent(rows, since), ip, since) == IpRows(rows, ip, since)
  {}

  lemma NoStatementFails(down: set<Statement>)
    requires TakeEmailLock !in down && TakeIpLock !in down && DeleteOld !in down && CountByEmail !in down
    requires CountByIp !in down && InsertRow !in down && CommitTx !in down
    ensures down == {}
  {
    forall x: Statement ensures x !in down {
      match x
      case TakeEmailLock =>
      case TakeIpLock =>
      case DeleteOld =>
      case CountByEmail =>
      case CountByIp =>
      case InsertRow =>
      case CommitTx =>
    }
  }

  class Requests {
    var rows: map<nat, Row>
    var next: nat

    /** `stamp` is the clock before the transaction, `begin` its now(). */
    method Allow(email: string, ip: string, lower: string -> string, stamp: int, begin: int, down: set<Statement>)
      returns (r: Option<bool>)
      modifies this
      ensures r == None <==> down != {}
      ensures r == None ==> rows == old(rows)
      ensures r.Some? ==> (r.value <==> Allowed(old(rows), lower(email), ip, stamp - WINDOW))
      ensures r.Some? ==> rows == Logged(old(rows), lower(email), ip, stamp - WINDOW, begin, old(next))
    {
      var key := lower(email);
      var since := stamp - WINDOW;
      if TakeEmailLock in down || TakeIpLock in down {
        return None;
      }
      if DeleteOld in down {
        return None;
      }
      var table := Recent(rows, since);
      PurgeKeepsCounts(rows, key, ip, since);
      if CountByEmail in down {
        return None;
      }
      var emailCount := |EmailRows(table, key, since)|;
      if CountByIp in down {
        return None;
      }
      var ipCount := |IpRows(table, ip, since)|;
      if InsertRow in down || CommitTx in down {
        return None;
      }
      NoStatementFails(down);
      rows := table[next := Row(key, ip, begin)];
      next := next + 1;
      return Some(emailCount < EMAIL_LIMIT && ipCount < IP_LIMIT);
    }
  }

  // ---- the protocol, run by one request alone ----

  function Serial(i: nat): seq<Action> {
    [Stamp(i), Begin(i), LockEmail(i), LockIp(i), Purge(i), CountEmail(i), CountIp(i), Insert(i), Commit(i)]
  }

  /** i at its counts, having waited for nothing. */
  ghost function PurgedAlone(s: State, i: nat): State
    requires i < |s.reqs|
  {
    With(s, i, s.reqs[i].(phase := Purged, stamp := s.now, begin := s.now, purged := RowsBefore(s, s.now - WINDOW)))
  }

  /** i gets its locks. */
  lemma SerialUpToLocks(s: State, i: nat) returns (run: seq<Action>)
    requires i < |s.reqs| && s.reqs[i].phase == Idle && Quiet(s, i)
    ensures run == Serial(i)[..4] && ValidRun(s, run)
    ensures Final(s, run) == With(s, i, s.reqs[i].(phase := BothLocked, stamp := s.now, begin := s.now))
  {
    run := [];
    AppendAction(s, run, Stamp(i));
    run := run + [Stamp(i)];
    AppendAction(s, run, Begin(i));
    run := run + [Begin(i)];
    AppendAction(s, run, LockEmail(i));
    run := run + [LockEmail(i)];
    AppendAction(s, run, LockIp(i));
    run := run + [LockIp(i)];
  }

  /** i gets to the counts. */
  lemma SerialUpToPurge(s: State, i: nat) returns (run: seq<Action>)
    requires i < |s.reqs| && s.reqs[i].phase == Idle && Quiet(s, i)
    ensures run == Serial(i)[..5] && ValidRun(s, run) && Final(s, run) == PurgedAlone(s, i)
  {
    run := SerialUpToLocks(s, i);
    assert RowsBefore(Final(s, run), s.now - WINDOW) == RowsBefore(s, s.now - WINDOW);
    AppendAction(s, run, Purge(i));
    run := run + [Purge(i)];
  }

  /** Both counts, taken in the transaction's own view. */
  lemma CountsAlone(s: State, p: State, i: nat)
    requires i < |s.reqs| && p == PurgedAlone(s, i)
    ensures var r, since := s.reqs[i], s.now - WINDOW;
            && RowsByEmail(p, p.reqs[i], r.email) == EmailRows(s.rows, r.email, since)
            && RowsByIp(p, p.reqs[i].(phase := EmailCounted, emailAt := s.now,
                        emailCount := |EmailRows(s.rows, r.email, since)|))
               == IpRows(s.rows, r.ip, since)
            && p.rows - p.reqs[i].purged == Recent(s.rows, since)
  {}

  lemma FourSteps(s: State, a: Action, b: Action, c: Action, d: Action)
    requires Enabled(s, a) && Enabled(Do(s, a), b) && Enabled(Do(Do(s, a), b), c) && Enabled(Do(Do(Do(s, a), b), c), d)
    ensures ValidRun(s, [a, b, c, d]) && Final(s, [a, b, c, d]) == Do(Do(Do(Do(s, a), b), c), d)
  {
    var s1 := Do(s, a);
    var s2 := Do(s1, b);
    var s3 := Do(s2, c);
    assert [a, b, c, d][1..] == [b, c, d] && [b, c, d][1..] == [c, d] && [c, d][1..] == [d] && [d][1..] == [];
    assert ValidRun(Do(s3, d), []) && Final(Do(s3, d), []) == Do(s3, d);
    assert ValidRun(s3, [d]) && Final(s3, [d]) == Do(s3, d);
    assert ValidRun(s2, [c, d]) && Final(s2, [c, d]) == Do(s3, d);
    assert ValidRun(s1, [b, c, d]) && Final(s1, [b, c, d]) == Do(s3, d);
  }

  lemma {:induction false} RunAppend(s: State, run: seq<Action>, more: seq<Action>)
    requires ValidRun(s, run) && ValidRun(Final(s, run), more)
    ensures ValidRun(s, run + more) && Final(s, run + more) == Final(Final(s, run), more)
    decreases |run|
  {
    if run == [] {
      assert run + more == more;
    } else {
      RunAppend(Do(s, run[0]), run[1..], more);
      assert (run + more)[1..] == run[1..] + more;
    }
  }

  lemma FinishAlone(s: State, p: State, i: nat)
    requires i < |s.reqs| && p == PurgedAlone(s, i)
    ensures ValidRun(p, [CountEmail(i), CountIp(i), Insert(i), Commit(i)])
    ensures var r, s' := s.reqs[i], Final(p, [CountEmail(i), CountIp(i), Insert(i), Commit(i)]);
            && s'.rows == Logged(s.rows, r.email, r.ip, s.now - WINDOW, s.now, i)
            && i < |s'.reqs| && s'.reqs[i].phase == Committed
            && (s'.reqs[i].allow <==> Allowed(s.rows, r.email, r.ip, s.now - WINDOW))
  {
    CountsAlone(s, p, i);
    var c := Do(p, CountEmail(i));
    var d := Do(c, CountIp(i));
    var e := Do(d, Insert(i));
    FourSteps(p, CountEmail(i), CountIp(i), Insert(i), Commit(i));
  }

  /** A request that nobody overlaps decides and writes as the transaction does. */
  lemma SerialIsAllow(s: State, i: nat)
    requires i < |s.reqs| && s.reqs[i].phase == Idle && Quiet(s, i)
    ensures ValidRun(s, Serial(i))
    ensures var r, s' := s.reqs[i], Final(s, Serial(i));
            && s'.rows == Logged(s.rows, r.email, r.ip, s.now - WINDOW, s.now, i)
            && i < |s'.reqs| && s'.reqs[i].phase == Committed
            && (s'.reqs[i].allow <==> Allowed(s.rows, r.email, r.ip, s.now - WINDOW))
  {
    var run := SerialUpToPurge(s, i);
    FinishAlone(s, Final(s, run), i);
    RunAppend(s, run, [CountEmail(i), CountIp(i), Insert(i), Commit(i)]);
    assert Serial(i) == run + [CountEmail(i), CountIp(i), Insert(i), Commit(i)];
  }
}
