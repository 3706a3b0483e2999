/** Completed resets against Logins of the same employee. The reset writes the
    password, deletes the session and commits in three statements; a DELETE that
    finds no session locks nothing, so a Login that compared with the old
    password may save between it and the commit, or after the commit. */
module ResetRaces {
  import AuthModel
  import opened SessionRaces

  predicate EntersFor(c: Call, e: nat) {
    c.Entering? && c.employee == e
  }

  /** A Login of e that has found a password right and not saved yet. */
  predicate Unsaved(s: State, i: nat, e: nat) {
    i < |s.calls| && EntersFor(s.calls[i], e)
    && (s.calls[i].stage == Entitled || s.calls[i].stage == Unlocked || s.calls[i].stage.Pending?)
  }

  // ---- what stays and what only grows ----

  /** One reset at a time has e's row, and nobody has seen a password to come. */
  ghost predicate ResetsOk(s: State) {
    && (forall j: nat, k: nat, e: nat ::
          j < |s.calls| && k < |s.calls| && HoldsEmployee(s.calls[j], e) && HoldsEmployee(s.calls[k], e) ==> j == k)
    && (forall i: nat :: i < |s.calls| && s.calls[i].Entering? ==> s.calls[i].seen <= Password(s, s.calls[i].employee))
  }

  lemma HolderOrigin(s: State, a: Action, j: nat, e: nat)
    requires Enabled(s, a) && j < |s.calls| && HoldsEmployee(Do(s, a).calls[j], e)
    ensures HoldsEmployee(s.calls[j], e) || (a == WritePassword(j) && EmployeeFree(s, e))
  {}

  lemma SeenOrigin(s: State, a: Action, i: nat)
    requires Enabled(s, a) && i < |s.calls| && s.calls[i].Entering?
    requires s.calls[i].seen <= Password(s, s.calls[i].employee)
    ensures var c := Do(s, a).calls[i]; c.Entering? && c.seen <= Password(Do(s, a), c.employee)
  {}

  lemma StepKeepsResets(s: State, a: Action)
    requires ResetsOk(s) && Enabled(s, a)
    ensures ResetsOk(Do(s, a))
  {
    var s' := Do(s, a);
    assert |s'.calls| == |s.calls|;
    assert forall i: nat :: i < |s.calls| ==> (s'.calls[i].Entering? <==> s.calls[i].Entering?);
    forall j: nat, e: nat | j < |s'.calls| && HoldsEmployee(s'.calls[j], e)
      ensures HoldsEmployee(s.calls[j], e) || (a == WritePassword(j) && EmployeeFree(s, e))
    {
      HolderOrigin(s, a, j, e);
    }
    forall i: nat | i < |s'.calls| && s'.calls[i].Entering?
      ensures s'.calls[i].seen <= Password(s', s'.calls[i].employee)
    {
      SeenOrigin(s, a, i);
    }
  }

  lemma {:induction false} RunKeepsResets(s: State, run: seq<Action>)
    requires ResetsOk(s) && ValidRun(s, run)
    ensures ResetsOk(Final(s, run))
    decreases |run|
  {
    if run != [] {
      StepKeepsResets(s, run[0]);
      RunKeepsResets(Do(s, run[0]), run[1..]);
    }
  }

  lemma {:induction false} RunKeepsCalls(s: State, run: seq<Action>, i: nat)
    requires ValidRun(s, run) && i < |s.calls|
    ensures |Final(s, run).calls| == |s.calls|
    ensures forall e :: EntersFor(Final(s, run).calls[i], e) <==> EntersFor(s.calls[i], e)
    ensures Finished(s.calls[i]) ==> Final(s, run).calls[i] == s.calls[i]
    decreases |run|
  {
    if run != [] {
      RunKeepsCalls(Do(s, run[0]), run[1..], i);
    }
  }

  /** Call i, if it saves at all, has compared with password v of e or a later one. */
  ghost predicate ComparesFrom(s: State, i: nat, e: nat, v: nat) {
    && i < |s.calls| && EntersFor(s.calls[i], e) && v <= Password(s, e)
    && (s.calls[i].stage == Checking || s.calls[i].stage == Refused || v <= s.calls[i].seen)
  }

  lemma {:induction false} RunKeepsCompares(s: State, run: seq<Action>, i: nat, e: nat, v: nat)
    requires ValidRun(s, run) && ComparesFrom(s, i, e, v)
    ensures ComparesFrom(Final(s, run), i, e, v)
    decreases |run|
  {
    if run != [] {
      RunKeepsCompares(Do(s, run[0]), run[1..], i, e, v);
    }
  }

  // ---- an employee without a session ----

  /** While e has no session, every token ever saved for e is dead. */
  lemma NoSessionNoToken(s: State, i: nat, e: nat, token: nat)
    requires Inv(s) && e !in s.sessions && SavedBy(s, i, e, token)
    ensures Dead(s, token)
  {
    assert Carries(s, i, token);
    forall e': nat ensures !AuthModel.Holds(s.sessions, e', token) {
      if AuthModel.Holds(s.sessions, e', token) {
        assert RowSaved(s, e');
        var j: nat :| SavedBy(s, j, e', token);
        assert Carries(s, j, token);
      }
    }
    forall j: nat ensures !WillSave(s, j, token) {
      assert WillSave(s, j, token) ==> Carries(s, j, token);
    }
  }

  /** So a session that e has later was saved by a call that is unfinished now. */
  lemma SaverIsUnfinished(s: State, after: seq<Action>, i: nat, e: nat)
    requires Inv(s) && e !in s.sessions && ValidRun(s, after)
    requires var f := Final(s, after); e in f.sessions && SavedBy(f, i, e, f.sessions[e].token)
    ensures i < |s.calls| && EntersFor(s.calls[i], e) && (s.calls[i].stage == Checking || Unsaved(s, i, e))
  {
    var f := Final(s, after);
    LengthStays(s, after);
    RunKeepsCalls(s, after, i);
    assert EntersFor(f.calls[i], e) && EntersFor(s.calls[i], e);
    assert AuthModel.Holds(f.sessions, e, f.sessions[e].token);
    if s.calls[i].stage.Saved? {
      NoSessionNoToken(s, i, e, s.calls[i].stage.token);
      DeadTokenIsIdle(s, after, s.calls[i].stage.token);
    }
  }

  lemma {:induction false} LengthStays(s: State, run: seq<Action>)
    requires ValidRun(s, run)
    ensures |Final(s, run).calls| == |s.calls|
    decreases |run|
  {
    if run != [] {
      LengthStays(Do(s, run[0]), run[1..]);
    }
  }

  // ---- sessions that rest on an old password ----

  /** e's session was saved by a Login that compared with an older password than v. */
  ghost predicate RestsOnOlder(f: State, e: nat, v: nat) {
    e in f.sessions && exists i: nat :: SavedBy(f, i, e, f.sessions[e].token) && f.calls[i].seen < v
  }

  /** s is reachable, and reset c of e is about to commit. */
  ghost predicate AtCommit(s0: State, before: seq<Action>, s: State, c: nat, e: nat) {
    && Init(s0) && ValidRun(s0, before) && Final(s0, before) == s
    && Enabled(s, CommitReset(c)) && s.calls[c].employee == e
  }

  /** Some continuation of the commit leads to a session of e that rests on a
      password older than the one just set. */
  ghost predicate OldPasswordComesUp(s: State, c: nat, e: nat)
    requires Enabled(s, CommitReset(c))
  {
    exists after :: ComesUpAfter(s, c, e, after)
  }

  ghost predicate ComesUpAfter(s: State, c: nat, e: nat, after: seq<Action>)
    requires Enabled(s, CommitReset(c))
  {
    ComesUpIn(Do(s, CommitReset(c)), e, Password(s, e) + 1, after)
  }

  ghost predicate ComesUpIn(s: State, e: nat, v: nat, after: seq<Action>) {
    ValidRun(s, after) && RestsOnOlder(Final(s, after), e, v)
  }

  /** The session of e that the commit leaves: one the DELETE did not hit. */
  predicate Escaped(s: State, c: nat, e: nat) {
    c < |s.calls| && s.calls[c] == Resetting(e, Deleted(false)) && e in s.sessions
  }

  lemma AtCommitFacts(s0: State, before: seq<Action>, s: State, c: nat, e: nat)
    requires AtCommit(s0, before, s, c, e)
    ensures Inv(s) && ResetsOk(s) && Inv(Do(s, CommitReset(c))) && ResetsOk(Do(s, CommitReset(c)))
  {
    RunKeepsInv(s0, before);
    RunKeepsResets(s0, before);
    StepKeepsInv(s, CommitReset(c));
    StepKeepsResets(s, CommitReset(c));
  }

  /** Only the two kinds of Login can be behind it: a call that has still to
      check a password will see the new one. */
  lemma OldPasswordNeedsOldLogin(s: State, c: nat, e: nat, after: seq<Action>)
    requires Inv(s) && Enabled(s, CommitReset(c)) && Inv(Do(s, CommitReset(c))) && s.calls[c].employee == e
    requires ComesUpAfter(s, c, e, after)
    ensures Escaped(s, c, e) || exists i: nat :: Unsaved(s, i, e)
  {
    var s' := Do(s, CommitReset(c));
    var f := Final(s', after);
    var i: nat :| SavedBy(f, i, e, f.sessions[e].token) && f.calls[i].seen < Password(s, e) + 1;
    if e !in s'.sessions {
      SaverIsUnfinished(s', after, i, e);
      if s'.calls[i].stage == Checking {
        RunKeepsCompares(s', after, i, e, Password(s, e) + 1);
      } else {
        assert Unsaved(s, i, e);
      }
    }
  }

  lemma EscapedComesUp(s: State, c: nat, e: nat)
    requires Inv(s) && ResetsOk(s) && Enabled(s, CommitReset(c)) && Escaped(s, c, e)
    ensures ComesUpAfter(s, c, e, [])
  {
    var s' := Do(s, CommitReset(c));
    assert RowSaved(s, e);
    var i: nat :| SavedBy(s, i, e, s.sessions[e].token);
    assert SavedBy(s', i, e, s'.sessions[e].token) && s'.calls[i].seen == s.calls[i].seen;
  }

  /** An unsaved Login can go on as soon as the reset lets the row go. */
  lemma UnsavedComesUp(s: State, c: nat, e: nat, i: nat) returns (after: seq<Action>)
    requires ResetsOk(s) && Enabled(s, CommitReset(c)) && s.calls[c].employee == e && Unsaved(s, i, e)
    ensures ComesUpAfter(s, c, e, after)
  {
    var s' := Do(s, CommitReset(c));
    RowsAreReleased(s, c, e);
    after := SaveFrom(s', i, e, Password(s, e) + 1);
  }

  lemma RowsAreReleased(s: State, c: nat, e: nat)
    requires ResetsOk(s) && Enabled(s, CommitReset(c)) && s.calls[c].employee == e
    ensures EmployeeFree(Do(s, CommitReset(c)), e)
  {
    var s' := Do(s, CommitReset(c));
    forall j: nat | j < |s'.calls| ensures !HoldsEmployee(s'.calls[j], e) {
      assert HoldsEmployee(s.calls[c], e);
      assert j != c ==> s'.calls[j] == s.calls[j];
    }
  }

  lemma PrependAction(s: State, a: Action, e: nat, v: nat, after: seq<Action>)
    requires Enabled(s, a) && ComesUpIn(Do(s, a), e, v, after)
    ensures ComesUpIn(s, e, v, [a] + after)
  {
    assert ([a] + after)[1..] == after;
  }

  lemma SaveFrom(s: State, i: nat, e: nat, v: nat) returns (after: seq<Action>)
    requires EmployeeFree(s, e) && Unsaved(s, i, e) && s.calls[i].seen < v
    ensures ComesUpIn(s, e, v, after)
    decreases match s.calls[i].stage case Entitled => 2 case Unlocked => 1 case _ => 0
  {
    var save := Save(i, AuthModel.Times(0, 0, 0), 0);
    var a := match s.calls[i].stage case Entitled => Unlock(i) case Unlocked => Generate(i) case _ => save;
    assert SessionFree(s, e);
    var s' := Do(s, a);
    if a.Save? {
      assert SavedBy(s', i, e, s'.sessions[e].token);
      assert ComesUpIn(s', e, v, []);
      after := [a] + [];
      PrependAction(s, a, e, v, []);
    } else {
      OwnStepKeepsFree(s, a, e);
      var rest := SaveFrom(s', i, e, v);
      after := [a] + rest;
      PrependAction(s, a, e, v, rest);
    }
  }

  lemma OwnStepKeepsFree(s: State, a: Action, e: nat)
    requires Enabled(s, a) && (a.Unlock? || a.Generate?) && EmployeeFree(s, e)
    ensures EmployeeFree(Do(s, a), e)
  {
    forall j: nat | j < |Do(s, a).calls| ensures !HoldsEmployee(Do(s, a).calls[j], e) {
      assert !HoldsEmployee(s.calls[j], e);
    }
  }

  /** After a reset commits, a session of the employee that rests on an older
      password can come up, in some continuation, if and only if at the commit
      a Login of theirs that found a password right has not saved yet, or they
      have a session that the reset's DELETE did not hit. */
  lemma OldPasswordComesUpIff(s0: State, before: seq<Action>, s: State, c: nat, e: nat)
    requires AtCommit(s0, before, s, c, e)
    ensures OldPasswordComesUp(s, c, e) <==> Escaped(s, c, e) || exists i: nat :: Unsaved(s, i, e)
  {
    AtCommitFacts(s0, before, s, c, e);
    if after: seq<Action> :| ComesUpAfter(s, c, e, after) {
      OldPasswordNeedsOldLogin(s, c, e, after);
    }
    if Escaped(s, c, e) {
      EscapedComesUp(s, c, e);
    } else if i: nat :| Unsaved(s, i, e) {
      var after := UnsavedComesUp(s, c, e, i);
      assert ComesUpAfter(s, c, e, after);
    }
  }

  /** A session that the DELETE did not hit was saved between the DELETE and the
      commit, by a Login that was unfinished at the DELETE. */
  lemma EscapedWasSavedSince(s0: State, before: seq<Action>, c: nat, between: seq<Action>, e: nat)
    requires Init(s0) && ValidRun(s0, before) && Enabled(Final(s0, before), DropSession(c))
    requires Final(s0, before).calls[c].employee == e && ValidRun(Do(Final(s0, before), DropSession(c)), between)
    requires Escaped(Final(Do(Final(s0, before), DropSession(c)), between), c, e)
    ensures var d := Final(s0, before);
            var s := Final(Do(d, DropSession(c)), between);
            exists i: nat :: SavedBy(s, i, e, s.sessions[e].token) && i < |d.calls| && !Finished(d.calls[i])
  {
    var d := Final(s0, before);
    var d' := Do(d, DropSession(c));
    RunKeepsInv(s0, before);
    StepKeepsInv(d, DropSession(c));
    RunKeepsInv(d', between);
    DeletedStays(d', between, c);
    EscapedIsNew(d, c, between, e);
  }

  lemma EscapedIsNew(d: State, c: nat, between: seq<Action>, e: nat)
    requires Enabled(d, DropSession(c)) && Inv(Do(d, DropSession(c))) && ValidRun(Do(d, DropSession(c)), between)
    requires var s := Final(Do(d, DropSession(c)), between); Inv(s) && e in s.sessions
    requires e !in d.sessions
    ensures var s := Final(Do(d, DropSession(c)), between);
            exists i: nat :: SavedBy(s, i, e, s.sessions[e].token) && i < |d.calls| && !Finished(d.calls[i])
  {
    var d' := Do(d, DropSession(c));
    var s := Final(d', between);
    assert RowSaved(s, e);
    var i: nat :| SavedBy(s, i, e, s.sessions[e].token);
    SaverIsUnfinished(d', between, i, e);
    assert d'.calls[i] == d.calls[i];
  }

  lemma {:induction false} DeletedStays(s: State, run: seq<Action>, c: nat)
    requires ValidRun(s, run) && c < |s.calls| && s.calls[c].Resetting? && s.calls[c].step.Deleted?
    ensures c < |Final(s, run).calls|
    ensures var x := Final(s, run).calls[c];
            x == s.calls[c] || (x.Resetting? && (x.step == Committed || x.step == RolledBack))
    decreases |run|
  {
    if run != [] {
      var s' := Do(s, run[0]);
      if run[0].i == c {
        RunKeepsCalls(s', run[1..], c);
      } else {
        DeletedStays(s', run[1..], c);
      }
    }
  }
}
