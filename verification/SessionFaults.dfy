/** When a session survives two failed presence checks in a row: exactly when the
    DELETE after the second check may fail, or the reply to its UPDATE may be lost. */
module SessionFaults {
  import opened Results
  import AuthModel
  import opened SessionRaces

  datatype Fault = DeleteFails | ReplyLost

  /** A Heartbeat that has seen the second absence and not deleted yet. */
  predicate AboutToDelete(c: Call) {
    c.Beating? && c.at == DeletingAbsent
  }

  /** The fault that the step is, if it is one of the two. */
  function FaultOf(s: State, a: Action): Option<Fault>
    requires a.i < |s.calls|
  {
    var c := s.calls[a.i];
    if a.Fail? && AboutToDelete(c) then Some(DeleteFails)
    else if a.LoseRecord? && c.Beating? && c.at == Recording(false) then Some(ReplyLost)
    else None
  }

  /** Statements may fail and replies be lost anywhere else; of the two faults
      only the allowed ones happen. */
  predicate AllowedStep(faults: set<Fault>, s: State, a: Action)
    requires a.i < |s.calls|
  {
    FaultOf(s, a).None? || FaultOf(s, a).value in faults
  }

  ghost predicate AllowedRun(faults: set<Fault>, s: State, run: seq<Action>)
    decreases |run|
  {
    run == [] || (Enabled(s, run[0]) && AllowedStep(faults, s, run[0]) && AllowedRun(faults, Do(s, run[0]), run[1..]))
  }

  lemma {:induction false} AllowedIsValid(faults: set<Fault>, s: State, run: seq<Action>)
    requires AllowedRun(faults, s, run)
    ensures ValidRun(s, run)
    decreases |run|
  {
    if run != [] {
      AllowedIsValid(faults, Do(s, run[0]), run[1..]);
    }
  }

  ghost predicate Reaches(faults: set<Fault>, s: State, s': State) {
    exists run: seq<Action> :: RunsTo(faults, s, run, s')
  }

  ghost predicate RunsTo(faults: set<Fault>, s: State, run: seq<Action>, s': State) {
    AllowedRun(faults, s, run) && ValidRun(s, run) && Final(s, run) == s'
  }

  predicate Quiet(s: State) {
    forall i: nat :: i < |s.calls| ==> Finished(s.calls[i])
  }

  /** A stored session with two failures in a row. */
  predicate Absentee(s: State, e: nat) {
    e in s.sessions && s.sessions[e].failures >= AuthModel.MAX_FAILURES
  }

  /** Whatever run comes to an end leaves no such session. */
  ghost predicate AlwaysSweptOut(faults: set<Fault>, s0: State) {
    forall s, e :: Reaches(faults, s0, s) && Quiet(s) ==> !Absentee(s, e)
  }

  // ---- without the two faults ----

  ghost predicate NoneCutShort(s: State) {
    forall i: nat :: i < |s.calls| ==> !CutShort(s.calls[i])
  }

  lemma {:induction false} RunCutsNoneShort(s: State, run: seq<Action>)
    requires NoneCutShort(s) && AllowedRun({}, s, run) && ValidRun(s, run)
    ensures NoneCutShort(Final(s, run))
    decreases |run|
  {
    if run != [] {
      RunCutsNoneShort(Do(s, run[0]), run[1..]);
    }
  }

  /** When every call has finished and none was cut short, no session with two
      failures is left. */
  lemma QuietTableHasNoAbsentee(s0: State, run: seq<Action>, e: nat)
    requires Init(s0) && ValidRun(s0, run) && e in Final(s0, run).sessions
    requires Quiet(Final(s0, run)) && NoneCutShort(Final(s0, run))
    ensures Final(s0, run).sessions[e].failures < AuthModel.MAX_FAILURES
  {
    RunKeepsInv(s0, run);
    assert FailuresOk(Final(s0, run), e);
  }

  lemma FaultlessIsSweptOut(s0: State)
    requires Init(s0)
    ensures AlwaysSweptOut({}, s0)
  {
    forall s, e | Reaches({}, s0, s) && Quiet(s) ensures !Absentee(s, e) {
      var run: seq<Action> :| RunsTo({}, s0, run, s);
      RunCutsNoneShort(s0, run);
      if e in s.sessions {
        QuietTableHasNoAbsentee(s0, run, e);
      }
    }
  }

  // ---- with one of them ----

  lemma {:induction false} AppendStep(faults: set<Fault>, s: State, run: seq<Action>, a: Action)
    requires AllowedRun(faults, s, run) && ValidRun(s, run)
    requires Enabled(Final(s, run), a) && AllowedStep(faults, Final(s, run), a)
    ensures AllowedRun(faults, s, run + [a]) && ValidRun(s, run + [a]) && Final(s, run + [a]) == Do(Final(s, run), a)
    decreases |run|
  {
    if run == [] {
      assert run + [a] == [a] && [a][1..] == [];
      assert AllowedRun(faults, Do(s, a), []) && ValidRun(Do(s, a), []) && Final(Do(s, a), []) == Do(s, a);
    } else {
      AppendStep(faults, Do(s, run[0]), run[1..], a);
      assert (run + [a])[1..] == run[1..] + [a];
    }
  }

  lemma Step(faults: set<Fault>, s0: State, s: State, a: Action) returns (s': State)
    requires Reaches(faults, s0, s) && Enabled(s, a) && AllowedStep(faults, s, a)
    ensures s' == Do(s, a) && Reaches(faults, s0, s')
  {
    s' := Do(s, a);
    var run: seq<Action> :| RunsTo(faults, s0, run, s);
    AppendStep(faults, s0, run, a);
    assert RunsTo(faults, s0, run + [a], s');
  }

  /** A Login and two Heartbeats on the token it will be given, none started. */
  ghost predicate Cast(s: State, l: nat, h: nat, k: nat, e: nat, store: nat) {
    && l < |s.calls| && h < |s.calls| && k < |s.calls| && h != k
    && s.calls[l] == Entering(e, Some(store), 0, Checking)
    && s.calls[h] == Beating(s.next, Finding) && s.calls[k] == Beating(s.next, Finding)
  }

  const NOW := AuthModel.Times(0, 0, 0)

  function Opened(store: nat, token: nat, failures: nat): AuthModel.Session {
    AuthModel.Session(Some(store), token, 0, 0, 0, failures)
  }

  /** No call but the three has started, and the table holds e's session only. */
  ghost predicate Stage(s0: State, s: State, l: nat, h: nat, k: nat, e: nat, session: AuthModel.Session) {
    && |s.calls| == |s0.calls| && s.sessions == map[e := session] && session.token < s.next
    && forall j: nat :: j < |s.calls| && j != l && j != h && j != k ==> s.calls[j] == s0.calls[j]
  }

  ghost predicate NothingHeld(s: State) {
    forall e: nat :: EmployeeFree(s, e) && SessionFree(s, e)
  }

  /** Resets that have not started hold nothing. */
  lemma NobodyHolds(s0: State, s: State, l: nat, h: nat, k: nat)
    requires Init(s0) && |s.calls| == |s0.calls| && l < |s.calls| && h < |s.calls| && k < |s.calls|
    requires s.calls[l].Entering? && s.calls[h].Beating? && s.calls[k].Beating?
    requires forall j: nat :: j < |s.calls| && j != l && j != h && j != k ==> s.calls[j] == s0.calls[j]
    ensures NothingHeld(s)
  {}

  /** s0 with the Login at a stage past its password check. */
  function WithLogin(s0: State, l: nat, e: nat, store: nat, stage: EnterAt): State
    requires l < |s0.calls|
  {
    At(s0, l, Entering(e, Some(store), Password(s0, e), stage))
  }

  /** The Login past its password check. */
  lemma PassCheck(faults: set<Fault>, s0: State, l: nat, h: nat, k: nat, e: nat, store: nat) returns (s: State)
    requires Init(s0) && Cast(s0, l, h, k, e, store)
    ensures Reaches(faults, s0, s) && s == WithLogin(s0, l, e, store, Entitled)
  {
    assert RunsTo(faults, s0, [], s0);
    s := Step(faults, s0, s0, Check(l));
  }

  lemma ClearLockout(faults: set<Fault>, s0: State, l: nat, h: nat, k: nat, e: nat, store: nat) returns (s: State)
    requires Init(s0) && Cast(s0, l, h, k, e, store)
    ensures Reaches(faults, s0, s) && s == WithLogin(s0, l, e, store, Unlocked)
  {
    var a := PassCheck(faults, s0, l, h, k, e, store);
    NobodyHolds(s0, a, l, h, k);
    s := Step(faults, s0, a, Unlock(l));
  }

  /** The Login up to its token. */
  lemma GetToken(faults: set<Fault>, s0: State, l: nat, h: nat, k: nat, e: nat, store: nat) returns (s: State)
    requires Init(s0) && Cast(s0, l, h, k, e, store)
    ensures Reaches(faults, s0, s) && s == WithLogin(s0, l, e, store, Pending(s0.next)).(next := s0.next + 1)
  {
    var a := ClearLockout(faults, s0, l, h, k, e, store);
    s := Step(faults, s0, a, Generate(l));
  }

  lemma LogIn(faults: set<Fault>, s0: State, l: nat, h: nat, k: nat, e: nat, store: nat) returns (s: State)
    requires Init(s0) && Cast(s0, l, h, k, e, store)
    ensures Reaches(faults, s0, s) && Stage(s0, s, l, h, k, e, Opened(store, s0.next, 0))
    ensures s.calls[l].Entering? && Finished(s.calls[l]) && s.calls[h] == s0.calls[h] && s.calls[k] == s0.calls[k]
  {
    var a := GetToken(faults, s0, l, h, k, e, store);
    NobodyHolds(s0, a, l, h, k);
    s := Step(faults, s0, a, Save(l, NOW, 0));
  }

  /** A Heartbeat finds the session and sees that its device is absent. */
  lemma LookAround(faults: set<Fault>, s0: State, s: State, l: nat, h: nat, k: nat, i: nat, e: nat,
                   session: AuthModel.Session)
    returns (s': State)
    requires Init(s0) && Reaches(faults, s0, s) && Stage(s0, s, l, h, k, e, session) && (i == h || i == k)
    requires i < |s.calls|
    requires session.store.Some? && session.expiresAt == 0 && session.lastHeartbeat == 0
    requires s.calls[i] == Beating(session.token, Finding)
    ensures Reaches(faults, s0, s') && Stage(s0, s', l, h, k, e, session)
    ensures s'.calls == s.calls[i := Beating(session.token, Recording(false))]
  {
    OnlyRow(s.sessions, e, session);
    var a := Step(faults, s0, s, Find(i));
    s' := Step(faults, s0, a, Judge(i, 0, false));
  }

  lemma OnlyRow(sessions: map<nat, AuthModel.Session>, e: nat, session: AuthModel.Session)
    requires sessions == map[e := session]
    ensures AuthModel.Owner(sessions, session.token) == Some(e)
    ensures forall present, now ::
              AuthModel.BeatenWhere(sessions, session.token, present, now)
              == map[e := AuthModel.Beaten(session, present, now)]
  {
    assert AuthModel.Holds(sessions, e, session.token);
  }

  /** The first absent check, which is forgiven. */
  lemma FirstAbsence(faults: set<Fault>, s0: State, s: State, l: nat, h: nat, k: nat, e: nat,
                     session: AuthModel.Session)
    returns (s': State)
    requires Init(s0) && Reaches(faults, s0, s) && Stage(s0, s, l, h, k, e, session) && h != k
    requires l < |s.calls| && h < |s.calls| && k < |s.calls| && s.calls[l].Entering? && s.calls[k].Beating?
    requires session.failures == 0 && s.calls[h] == Beating(session.token, Recording(false))
    ensures Reaches(faults, s0, s') && Stage(s0, s', l, h, k, e, AuthModel.Beaten(session, false, 0))
    ensures Finished(s'.calls[h]) && s'.calls == s.calls[h := s'.calls[h]] && s'.calls[h].Beating?
  {
    OnlyRow(s.sessions, e, session);
    NobodyHolds(s0, s, l, h, k);
    var after := AuthModel.Beaten(session, false, 0);
    OnlyRow(map[e := after], e, after);
    s' := Step(faults, s0, s, Record(h, 0));
  }

  /** The second, after which the Heartbeat means to delete. */
  lemma SecondAbsence(faults: set<Fault>, s0: State, s: State, l: nat, h: nat, k: nat, e: nat,
                      session: AuthModel.Session)
    returns (s': State)
    requires Init(s0) && Reaches(faults, s0, s) && Stage(s0, s, l, h, k, e, session) && h != k
    requires l < |s.calls| && h < |s.calls| && k < |s.calls| && s.calls[l].Entering? && s.calls[h].Beating?
    requires session.failures == 1 && s.calls[k] == Beating(session.token, Recording(false))
    ensures Reaches(faults, s0, s') && Stage(s0, s', l, h, k, e, AuthModel.Beaten(session, false, 0))
    ensures s'.calls == s.calls[k := Beating(session.token, DeletingAbsent)]
  {
    OnlyRow(s.sessions, e, session);
    NobodyHolds(s0, s, l, h, k);
    var after := AuthModel.Beaten(session, false, 0);
    OnlyRow(map[e := after], e, after);
    s' := Step(faults, s0, s, Record(k, 0));
  }

  /** And whose DELETE fails. */
  lemma FailToDelete(faults: set<Fault>, s0: State, s: State, l: nat, h: nat, k: nat, e: nat,
                     session: AuthModel.Session)
    returns (s': State)
    requires Init(s0) && Reaches(faults, s0, s) && Stage(s0, s, l, h, k, e, session) && h != k && DeleteFails in faults
    requires l < |s.calls| && h < |s.calls| && k < |s.calls| && s.calls[l].Entering? && s.calls[h].Beating?
    requires session.failures == 1 && s.calls[k] == Beating(session.token, Recording(false))
    ensures Reaches(faults, s0, s') && Stage(s0, s', l, h, k, e, AuthModel.Beaten(session, false, 0))
    ensures Finished(s'.calls[k]) && s'.calls == s.calls[k := s'.calls[k]]
  {
    var a := SecondAbsence(faults, s0, s, l, h, k, e, session);
    assert GivenUp(a.calls[k]) == Beating(session.token, DeleteFailed);
    s' := Step(faults, s0, a, Fail(k));
    assert s' == At(a, k, Beating(session.token, DeleteFailed));
  }

  /** The second, with the reply to its UPDATE lost. */
  lemma LoseTheReply(faults: set<Fault>, s0: State, s: State, l: nat, h: nat, k: nat, e: nat,
                     session: AuthModel.Session)
    returns (s': State)
    requires Init(s0) && Reaches(faults, s0, s) && Stage(s0, s, l, h, k, e, session) && h != k && ReplyLost in faults
    requires l < |s.calls| && h < |s.calls| && k < |s.calls| && s.calls[l].Entering? && s.calls[h].Beating?
    requires session.failures == 1 && s.calls[k] == Beating(session.token, Recording(false))
    ensures Reaches(faults, s0, s') && Stage(s0, s', l, h, k, e, AuthModel.Beaten(session, false, 0))
    ensures Finished(s'.calls[k]) && s'.calls == s.calls[k := s'.calls[k]]
  {
    OnlyRow(s.sessions, e, session);
    NobodyHolds(s0, s, l, h, k);
    s' := Step(faults, s0, s, LoseRecord(k, 0));
  }

  /** Every call that has not started can be given up, without effect. */
  lemma {:induction false} GiveUpRest(faults: set<Fault>, s0: State, s: State, n: nat) returns (s': State)
    requires Reaches(faults, s0, s) && n <= |s.calls| && forall j: nat :: j < n ==> Finished(s.calls[j])
    requires forall j: nat :: n <= j < |s.calls| ==> Finished(s.calls[j]) || !AboutToDelete(s.calls[j])
    ensures Reaches(faults, s0, s') && Quiet(s') && s'.sessions == s.sessions
    decreases |s.calls| - n
  {
    if n == |s.calls| {
      s' := s;
    } else if Finished(s.calls[n]) {
      s' := GiveUpRest(faults, s0, s, n + 1);
    } else {
      var a := Step(faults, s0, s, Fail(n));
      s' := GiveUpRest(faults, s0, a, n + 1);
    }
  }

  /** Both checks, the second with one of the faults. */
  lemma TwoAbsences(faults: set<Fault>, s0: State, l: nat, h: nat, k: nat, e: nat, store: nat) returns (s: State)
    requires Init(s0) && Cast(s0, l, h, k, e, store) && faults != {}
    ensures Reaches(faults, s0, s) && Stage(s0, s, l, h, k, e, AuthModel.Beaten(Once(store, s0.next), false, 0))
    ensures Finished(s.calls[l]) && Finished(s.calls[h]) && Finished(s.calls[k])
  {
    var open := Opened(store, s0.next, 0);
    var a := LogIn(faults, s0, l, h, k, e, store);
    var b := LookAround(faults, s0, a, l, h, k, h, e, open);
    var c := FirstAbsence(faults, s0, b, l, h, k, e, open);
    var d := LookAround(faults, s0, c, l, h, k, k, e, Once(store, s0.next));
    if DeleteFails in faults {
      s := FailToDelete(faults, s0, d, l, h, k, e, Once(store, s0.next));
    } else {
      OneFault(faults);
      s := LoseTheReply(faults, s0, d, l, h, k, e, Once(store, s0.next));
    }
  }

  function Once(store: nat, token: nat): AuthModel.Session {
    AuthModel.Beaten(Opened(store, token, 0), false, 0)
  }

  /** A run that ends with the session still there after two absent checks, under
      either fault. */
  lemma AbsenteeStays(faults: set<Fault>, s0: State, l: nat, h: nat, k: nat, e: nat, store: nat) returns (s: State)
    requires Init(s0) && Cast(s0, l, h, k, e, store) && faults != {}
    ensures Reaches(faults, s0, s) && Quiet(s) && Absentee(s, e)
  {
    var f := TwoAbsences(faults, s0, l, h, k, e, store);
    forall j: nat | j < |f.calls| ensures Finished(f.calls[j]) || !AboutToDelete(f.calls[j]) {
      assert j != l && j != h && j != k ==> f.calls[j] == s0.calls[j];
    }
    s := GiveUpRest(faults, s0, f, 0);
  }

  lemma OneFault(faults: set<Fault>)
    requires faults != {} && DeleteFails !in faults
    ensures ReplyLost in faults
  {
    var x :| x in faults;
    match x
    case DeleteFails =>
    case ReplyLost =>
  }

  /** From any start that has a Login and two Heartbeats on its token among its
      calls, all finished runs leave no session with two failures in a row if and
      only if neither fault is allowed. */
  lemma SweptOutIffNoFault(faults: set<Fault>, s0: State, l: nat, h: nat, k: nat, e: nat, store: nat)
    requires Init(s0) && Cast(s0, l, h, k, e, store)
    ensures AlwaysSweptOut(faults, s0) <==> faults == {}
  {
    if faults == {} {
      FaultlessIsSweptOut(s0);
    } else {
      var s := AbsenteeStays(faults, s0, l, h, k, e, store);
    }
  }
}
