/** Heartbeats, logouts, logins and completed resets interleaved statement by
    statement on the session table. A statement may fail, and one that has taken
    effect may still lose its reply. */
module SessionRaces {
  import opened Results
  import opened AuthModel

  /** Where a Heartbeat call stands: its SELECT, the clock and presence checks,
      its UPDATE, one of its two DELETEs, or its end. A call that never learns
      what its UPDATE returned ends at RecordLost. */
  datatype BeatAt =
    | Finding | Judging(seen: Session) | Recording(present: bool)
    | DeletingLate | DeletingAbsent | DeleteFailed | RecordLost(present: bool) | Replied(reply: BeatReply)

  /** Where a Login stands: before its SELECT of the employee, with the password
      found right, the lockout cleared, the token generated, saved, or turned away. */
  datatype EnterAt = Checking | Entitled | Unlocked | Pending(token: nat) | Saved(token: nat) | Refused

  /** Where the transaction of CompleteActivation stands: SetEmployeePassword keeps
      the employee's row locked, and the DELETE e's session, if it `hit` one. */
  datatype ResetAt = Waiting | Written | Deleted(hit: bool) | Committed | RolledBack

  /** `seen` is the password that the Login compared with. */
  datatype Call =
    | Beating(token: nat, at: BeatAt)
    | Leaving(token: nat, done: bool)
    | Entering(employee: nat, store: Option<nat>, seen: nat, stage: EnterAt)
    | Resetting(employee: nat, step: ResetAt)

  /** `passwords` counts each employee's committed passwords. */
  datatype State = State(sessions: map<nat, Session>, passwords: map<nat, nat>, next: nat, calls: seq<Call>)

  /** LoseRecord and LoseDelete are an UPDATE and a DELETE that take effect and
      whose reply is lost; the other calls look the same with and without theirs. */
  datatype Action =
    | Find(i: nat) | Judge(i: nat, read: int, present: bool) | Record(i: nat, now: int) | Delete(i: nat)
    | LoseRecord(i: nat, now: int) | LoseDelete(i: nat)
    | Check(i: nat) | Unlock(i: nat) | Generate(i: nat) | Save(i: nat, times: Times, ttl: int)
    | Leave(i: nat)
    | WritePassword(i: nat) | DropSession(i: nat) | CommitReset(i: nat)
    | Fail(i: nat)

  predicate Finished(c: Call) {
    match c
    case Beating(_, at) => at.Replied? || at == DeleteFailed || at.RecordLost?
    case Leaving(_, done) => done
    case Entering(_, _, _, stage) => stage.Saved? || stage == Refused
    case Resetting(_, step) => step == Committed || step == RolledBack
  }

  /** A Heartbeat that ended without its DELETE, or without the reply that would
      have told it to delete. */
  predicate CutShort(c: Call) {
    c.Beating? && (c.at == DeleteFailed || c.at == RecordLost(false))
  }

  /** Which password of e is the committed one. */
  function Password(s: State, e: nat): nat {
    if e in s.passwords then s.passwords[e] else 0
  }

  // ---- the locks of open resets ----

  predicate HoldsEmployee(c: Call, e: nat) {
    c.Resetting? && c.employee == e && (c.step == Written || c.step.Deleted?)
  }

  predicate HoldsSession(c: Call, e: nat) {
    c.Resetting? && c.employee == e && c.step == Deleted(true)
  }

  /** An UPDATE of e's employee row does not have to wait. A foreign-key check
      never does. */
  ghost predicate EmployeeFree(s: State, e: nat) {
    forall j: nat :: j < |s.calls| ==> !HoldsEmployee(s.calls[j], e)
  }

  ghost predicate SessionFree(s: State, e: nat) {
    forall j: nat :: j < |s.calls| ==> !HoldsSession(s.calls[j], e)
  }

  /** A statement on the token's row does not have to wait. */
  ghost predicate RowFree(s: State, token: nat) {
    forall e :: Holds(s.sessions, e, token) ==> SessionFree(s, e)
  }

  ghost predicate Enabled(s: State, a: Action) {
    a.i < |s.calls| && !Finished(s.calls[a.i]) &&
    var c := s.calls[a.i];
    match a
    case Find(_) => c.Beating? && c.at == Finding && c.token < s.next
    case Judge(_, _, _) => c.Beating? && c.at.Judging?
    case Record(_, _) => c.Beating? && c.at.Recording? && RowFree(s, c.token)
    case LoseRecord(_, _) => c.Beating? && c.at.Recording? && RowFree(s, c.token)
    case Delete(_) => c.Beating? && (c.at == DeletingLate || c.at == DeletingAbsent) && RowFree(s, c.token)
    case LoseDelete(_) => c.Beating? && (c.at == DeletingLate || c.at == DeletingAbsent) && RowFree(s, c.token)
    case Check(_) => c.Entering? && c.stage == Checking
    case Unlock(_) => c.Entering? && c.stage == Entitled && EmployeeFree(s, c.employee)
    case Generate(_) => c.Entering? && c.stage == Unlocked
    case Save(_, _, _) => c.Entering? && c.stage.Pending? && SessionFree(s, c.employee)
    case Leave(_) => c.Leaving? && c.token < s.next && RowFree(s, c.token)
    case WritePassword(_) => c.Resetting? && c.step == Waiting && EmployeeFree(s, c.employee)
    case DropSession(_) => c.Resetting? && c.step == Written
    case CommitReset(_) => c.Resetting? && c.step.Deleted?
    case Fail(_) => true
  }

  function At(s: State, i: nat, c: Call): State
    requires i < |s.calls|
  {
    s.(calls := s.calls[i := c])
  }

  /** Where the UPDATE's RETURNING row sends the call. */
  ghost function AfterRecord(sessions: map<nat, Session>, token: nat, present: bool): BeatAt {
    match Owner(sessions, token)
    case None => Replied(BeatError)
    case Some(e) => if !present && sessions[e].failures >= MAX_FAILURES then DeletingAbsent else Replied(Active)
  }

  /** A call whose next statement failed. */
  function GivenUp(c: Call): Call {
    match c
    case Beating(token, at) => Beating(token, if at == DeletingAbsent then DeleteFailed else Replied(BeatError))
    case Leaving(token, _) => Leaving(token, true)
    case Entering(e, store, seen, _) => Entering(e, store, seen, Refused)
    case Resetting(e, _) => Resetting(e, RolledBack)
  }

  ghost function Do(s: State, a: Action): State
    requires Enabled(s, a)
  {
    var c := s.calls[a.i];
    match a
    case Find(i) =>
      var owner := Owner(s.sessions, c.token);
      At(s, i, Beating(c.token, if owner.None? then Replied(Ended(LoggedOutElsewhere))
                       else Judging(s.sessions[owner.value])))
    case Judge(i, read, present) =>
      var seen := c.at.seen;
      At(s, i, Beating(c.token, if seen.store.None? then Replied(Active)
                       else if seen.expiresAt < read || read - seen.lastHeartbeat > SILENCE then DeletingLate
                       else Recording(present)))
    case Record(i, now) =>
      var sessions := BeatenWhere(s.sessions, c.token, c.at.present, now);
      At(s, i, Beating(c.token, AfterRecord(sessions, c.token, c.at.present))).(sessions := sessions)
    case Delete(i) =>
      At(s, i, Beating(c.token, Replied(Ended(if c.at == DeletingLate then SessionExpired else LeftPremises))))
      .(sessions := WithoutToken(s.sessions, c.token))
    case LoseRecord(i, now) =>
      At(s, i, Beating(c.token, RecordLost(c.at.present)))
      .(sessions := BeatenWhere(s.sessions, c.token, c.at.present, now))
    case LoseDelete(i) => At(s, i, Beating(c.token, Replied(BeatError))).(sessions := WithoutToken(s.sessions, c.token))
    case Check(i) => At(s, i, Entering(c.employee, c.store, Password(s, c.employee), Entitled))
    case Unlock(i) => At(s, i, Entering(c.employee, c.store, c.seen, Unlocked))
    case Generate(i) => At(s, i, Entering(c.employee, c.store, c.seen, Pending(s.next))).(next := s.next + 1)
    case Save(i, t, ttl) =>
      At(s, i, Entering(c.employee, c.store, c.seen, Saved(c.stage.token)))
      .(sessions := s.sessions[c.employee := Session(c.store, c.stage.token, t.write, t.deadline + ttl, t.write, 0)])
    case Leave(i) => At(s, i, Leaving(c.token, true)).(sessions := WithoutToken(s.sessions, c.token))
    case WritePassword(i) => At(s, i, Resetting(c.employee, Written))
    case DropSession(i) => At(s, i, Resetting(c.employee, Deleted(c.employee in s.sessions)))
    case CommitReset(i) =>
      At(s, i, Resetting(c.employee, Committed))
      .(passwords := s.passwords[c.employee := Password(s, c.employee) + 1],
      sessions := if c.step.hit then s.sessions - {c.employee} else s.sessions)
    case Fail(i) => At(s, i, GivenUp(c))
  }

  // ---- the invariant ----

  predicate WillSave(s: State, i: nat, token: nat) {
    i < |s.calls| && s.calls[i].Entering? && s.calls[i].stage == Pending(token)
  }

  /** Call i stored this token for e. */
  predicate SavedBy(s: State, i: nat, e: nat, token: nat) {
    i < |s.calls| && s.calls[i].Entering? && s.calls[i].employee == e && s.calls[i].stage == Saved(token)
  }

  predicate Carries(s: State, i: nat, token: nat) {
    i < |s.calls| && s.calls[i].Entering? && (s.calls[i].stage == Pending(token) || s.calls[i].stage == Saved(token))
  }

  ghost predicate RowSaved(s: State, e: nat)
    requires e in s.sessions
  {
    exists i: nat :: SavedBy(s, i, e, s.sessions[e].token)
  }

  /** Every token was issued to one Login, and a stored one by a Login that saved it. */
  ghost predicate TokensApart(s: State) {
    && (forall i: nat, x: nat :: Carries(s, i, x) ==> x < s.next)
    && (forall i: nat, j: nat, x: nat :: Carries(s, i, x) && Carries(s, j, x) ==> i == j)
    && (forall e :: e in s.sessions ==> RowSaved(s, e))
  }

  /** A Heartbeat on the token that has seen the failures reach the limit, or
      that cannot know. */
  predicate Deleter(s: State, i: nat, token: nat) {
    && i < |s.calls| && s.calls[i].Beating? && s.calls[i].token == token
    && (s.calls[i].at == DeletingAbsent || CutShort(s.calls[i]))
  }

  ghost predicate FailuresOk(s: State, e: nat)
    requires e in s.sessions
  {
    s.sessions[e].failures >= MAX_FAILURES ==> exists i: nat :: Deleter(s, i, s.sessions[e].token)
  }

  ghost predicate Inv(s: State) {
    TokensApart(s) && forall e :: e in s.sessions ==> FailuresOk(s, e)
  }

  ghost predicate Init(s: State) {
    && s.sessions == map[]
    && forall i: nat :: i < |s.calls| ==>
                          match s.calls[i]
                          case Beating(_, at) => at == Finding
                          case Leaving(_, done) => !done
                          case Entering(_, _, seen, stage) => stage == Checking && seen == 0
                          case Resetting(_, step) => step == Waiting
  }

  /** Where a row of the next table comes from. */
  lemma RowOrigin(s: State, a: Action, e: nat)
    requires Enabled(s, a) && e in Do(s, a).sessions
    ensures var x := Do(s, a).sessions[e].token;
            || Holds(s.sessions, e, x)
            || (a.Save? && s.calls[a.i].employee == e && WillSave(s, a.i, x)
                && SavedBy(Do(s, a), a.i, e, x))
  {}

  lemma CarrierOrigin(s: State, a: Action, i: nat, x: nat)
    requires Enabled(s, a) && Carries(Do(s, a), i, x)
    ensures Carries(s, i, x) || (a == Generate(i) && x == s.next)
  {}

  lemma SavedStays(s: State, a: Action, i: nat, e: nat, x: nat)
    requires Enabled(s, a) && SavedBy(s, i, e, x)
    ensures SavedBy(Do(s, a), i, e, x)
  {}

  lemma StepKeepsTokens(s: State, a: Action)
    requires TokensApart(s) && Enabled(s, a)
    ensures TokensApart(Do(s, a))
  {
    var s' := Do(s, a);
    forall i: nat, x: nat | Carries(s', i, x) ensures Carries(s, i, x) || (a == Generate(i) && x == s.next) {
      CarrierOrigin(s, a, i, x);
    }
    forall e | e in s'.sessions ensures RowSaved(s', e) {
      RowOrigin(s, a, e);
      var x := s'.sessions[e].token;
      if Holds(s.sessions, e, x) {
        assert RowSaved(s, e);
        var i: nat :| SavedBy(s, i, e, x);
        SavedStays(s, a, i, e, x);
      }
    }
  }

  /** The token of a row names that row. */
  lemma OwnerIsHolder(s: State, e: nat, x: nat)
    requires TokensApart(s) && Holds(s.sessions, e, x)
    ensures forall e' :: Holds(s.sessions, e', x) ==> e' == e
    ensures Owner(s.sessions, x) == Some(e)
  {
    assert RowSaved(s, e);
    var i: nat :| SavedBy(s, i, e, x);
    forall e': nat | Holds(s.sessions, e', x) ensures e' == e {
      assert RowSaved(s, e');
      var j: nat :| SavedBy(s, j, e', x);
      assert Carries(s, i, x) && Carries(s, j, x);
    }
  }

  lemma OnlyHolder(s: State, a: Action, e: nat, x: nat)
    requires TokensApart(s) && Enabled(s, a) && (a.Record? || a.LoseRecord?) && Holds(Do(s, a).sessions, e, x)
    ensures Owner(Do(s, a).sessions, x) == Some(e)
  {
    StepKeepsTokens(s, a);
    OwnerIsHolder(Do(s, a), e, x);
  }

  lemma StepKeepsFailures(s: State, a: Action, e: nat)
    requires TokensApart(s) && Enabled(s, a) && (e in s.sessions ==> FailuresOk(s, e)) && e in Do(s, a).sessions
    ensures FailuresOk(Do(s, a), e)
  {
    var s' := Do(s, a);
    if s'.sessions[e].failures >= MAX_FAILURES {
      var x := s'.sessions[e].token;
      if (a.Record? || a.LoseRecord?) && s.calls[a.i].token == x && !s.calls[a.i].at.present {
        OnlyHolder(s, a, e, x);
        assert Deleter(s', a.i, x);
      } else {
        var i: nat :| Deleter(s, i, x);
        assert Deleter(s', i, x);
      }
    }
  }

  lemma StepKeepsInv(s: State, a: Action)
    requires Inv(s) && Enabled(s, a)
    ensures Inv(Do(s, a))
  {
    StepKeepsTokens(s, a);
    forall e | e in Do(s, a).sessions ensures FailuresOk(Do(s, a), e) {
      StepKeepsFailures(s, a, e);
    }
  }

  ghost predicate ValidRun(s: State, run: seq<Action>)
    decreases |run|
  {
    run == [] || (Enabled(s, run[0]) && ValidRun(Do(s, run[0]), run[1..]))
  }

  ghost function Final(s: State, run: seq<Action>): State
    requires ValidRun(s, run)
    decreases |run|
  {
    if run == [] then s else Final(Do(s, run[0]), run[1..])
  }

  lemma {:induction false} RunKeepsInv(s: State, run: seq<Action>)
    requires Inv(s) && ValidRun(s, run)
    ensures Inv(Final(s, run))
    decreases |run|
  {
    if run != [] {
      StepKeepsInv(s, run[0]);
      RunKeepsInv(Do(s, run[0]), run[1..]);
    }
  }

  // ---- two failures have a deleter ----

  /** A stored session with two failures in a row has a Heartbeat on its own
      token that is about to delete it, or one whose DELETE failed, or one that
      lost the reply to its UPDATE. */
  lemma TwoFailuresHaveDeleter(s0: State, run: seq<Action>, e: nat)
    requires Init(s0) && ValidRun(s0, run)
    requires var s := Final(s0, run); e in s.sessions && s.sessions[e].failures >= MAX_FAILURES
    ensures exists i: nat :: Deleter(Final(s0, run), i, Final(s0, run).sessions[e].token)
  {
    RunKeepsInv(s0, run);
    assert FailuresOk(Final(s0, run), e);
  }

  // ---- a superseded token is harmless ----

  /** An issued token that is in no row and will never be in one again. */
  ghost predicate Dead(s: State, token: nat) {
    && token < s.next && (forall e :: !Holds(s.sessions, e, token)) && forall i: nat :: !WillSave(s, i, token)
  }

  /** The call works on this token: a Heartbeat or a Logout that was sent it. */
  predicate On(s: State, i: nat, token: nat) {
    i < |s.calls| && (s.calls[i].Beating? || s.calls[i].Leaving?) && s.calls[i].token == token
  }

  /** A Heartbeat or Logout changes no session but the one under its own token. */
  lemma OnlyOwnToken(s: State, a: Action, token: nat, e: nat)
    requires Enabled(s, a) && On(s, a.i, token) && !Holds(s.sessions, e, token)
    ensures e in Do(s, a).sessions <==> e in s.sessions
    ensures e in s.sessions ==> Do(s, a).sessions[e] == s.sessions[e]
  {}

  /** A Login that replaces a session kills its token, and so does every DELETE. */
  lemma LosingItsRowKills(s: State, a: Action, token: nat, e: nat)
    requires Inv(s) && Enabled(s, a) && Holds(s.sessions, e, token) && !Holds(Do(s, a).sessions, e, token)
    ensures Dead(Do(s, a), token)
  {
    var s' := Do(s, a);
    assert RowSaved(s, e);
    var i: nat :| SavedBy(s, i, e, token);
    OwnerIsHolder(s, e, token);
    assert Carries(s, i, token);
    assert WillSave(s, a.i, token) ==> Carries(s, a.i, token);
    forall e': nat ensures !Holds(s'.sessions, e', token) {
      if Holds(s'.sessions, e', token) {
        RowOrigin(s, a, e');
      }
    }
    forall j: nat ensures !WillSave(s', j, token) {
      if WillSave(s', j, token) {
        assert Carries(s', j, token);
        CarrierOrigin(s, a, j, token);
        SavedStays(s, a, i, e, token);
      }
    }
  }

  lemma DeadStaysDead(s: State, a: Action, token: nat)
    requires Enabled(s, a) && Dead(s, token)
    ensures Dead(Do(s, a), token)
  {
    var s' := Do(s, a);
    forall e: nat ensures !Holds(s'.sessions, e, token) {
      if Holds(s'.sessions, e, token) {
        RowOrigin(s, a, e);
      }
    }
    forall i: nat ensures !WillSave(s', i, token) {
      assert !WillSave(s, i, token);
    }
  }

  /** Steps of calls on the token leave the table as it is, all through the run. */
  ghost predicate CallsOnItAreIdle(s: State, run: seq<Action>, token: nat)
    requires ValidRun(s, run)
    decreases |run|
  {
    run == [] || ((On(s, run[0].i, token) ==> Do(s, run[0]).sessions == s.sessions)
                  && CallsOnItAreIdle(Do(s, run[0]), run[1..], token))
  }

  lemma {:induction false} DeadTokenIsIdle(s: State, run: seq<Action>, token: nat)
    requires ValidRun(s, run) && Dead(s, token)
    ensures Dead(Final(s, run), token) && CallsOnItAreIdle(s, run, token)
    decreases |run|
  {
    if run != [] {
      if On(s, run[0].i, token) {
        forall e: nat
          ensures e in Do(s, run[0]).sessions <==> e in s.sessions
          ensures e in s.sessions ==> Do(s, run[0]).sessions[e] == s.sessions[e]
        {
          OnlyOwnToken(s, run[0], token, e);
        }
      }
      DeadStaysDead(s, run[0], token);
      DeadTokenIsIdle(Do(s, run[0]), run[1..], token);
    }
  }

  /** Once e's session has passed to another token, whatever is still in flight
      on the old one changes nothing, in every continuation. */
  lemma SupersededTokenIsHarmless(s0: State, before: seq<Action>, a: Action, after: seq<Action>, e: nat, token: nat)
    requires Init(s0) && ValidRun(s0, before) && Enabled(Final(s0, before), a)
    requires ValidRun(Do(Final(s0, before), a), after)
    requires Holds(Final(s0, before).sessions, e, token) && !Holds(Do(Final(s0, before), a).sessions, e, token)
    ensures CallsOnItAreIdle(Do(Final(s0, before), a), after, token)
  {
    RunKeepsInv(s0, before);
    LosingItsRowKills(Final(s0, before), a, token, e);
    DeadTokenIsIdle(Do(Final(s0, before), a), after, token);
  }
}
