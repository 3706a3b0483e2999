/** syncx.Guard: a flag under a mutex that lets one background run in at a time. */
module SyncGuard {
  class Guard {
    var syncing: bool

    constructor ()
      ensures !syncing
    {
      syncing := false;
    }

    method TryStart() returns (started: bool)
      modifies this
      ensures started == !old(syncing) && syncing
    {
      if syncing {
        return false;
      }
      syncing := true;
      return true;
    }

    method Finish()
      modifies this
      ensures !syncing
    {
      syncing := false;
    }
  }

  // ---- callers that finish what they started, in any interleaving ----

  datatype Job = Waiting | Running | Refused | Finished

  datatype State = State(syncing: bool, jobs: seq<Job>)

  datatype Action = TryStart(i: nat) | Finish(i: nat)

  predicate Enabled(s: State, a: Action) {
    a.i < |s.jobs| && s.jobs[a.i] == if a.TryStart? then Waiting else Running
  }

  function Do(s: State, a: Action): State
    requires Enabled(s, a)
  {
    match a
    case TryStart(i) => State(true, s.jobs[i := if s.syncing then Refused else Running])
    case Finish(i) => State(false, s.jobs[i := Finished])
  }

  ghost predicate ValidRun(s: State, run: seq<Action>)
    decreases |run|
  {
    run == [] || (Enabled(s, run[0]) && ValidRun(Do(s, run[0]), run[1..]))
  }

  ghost function Final(s: State, run: seq<Action>): State
    requires ValidRun(s, run)
    decreases |run|
  {
    if run == [] then s else Final(Do(s, run[0]), run[1..])
  }

  ghost predicate Runs(s: State, i: nat) {
    i < |s.jobs| && s.jobs[i] == Running
  }

  /** The flag is up exactly while a run is in flight, and there is one at most. */
  ghost predicate Inv(s: State) {
    (s.syncing <==> exists i: nat :: Runs(s, i)) && forall i: nat, j: nat :: Runs(s, i) && Runs(s, j) ==> i == j
  }

  lemma StepKeepsInv(s: State, a: Action)
    requires Inv(s) && Enabled(s, a)
    ensures Inv(Do(s, a))
  {
    var s' := Do(s, a);
    forall i: nat ensures Runs(s', i) <==> if i == a.i then a.TryStart? && !s.syncing else Runs(s, i) {}
    if a.Finish? {
      assert Runs(s, a.i);
    } else if !s.syncing {
      assert Runs(s', a.i);
    } else {
      var i: nat :| Runs(s, i);
      assert Runs(s', i);
    }
  }

  lemma {:induction false} RunKeepsInv(s: State, run: seq<Action>)
    requires Inv(s) && ValidRun(s, run)
    ensures Inv(Final(s, run))
    decreases |run|
  {
    if run != [] {
      StepKeepsInv(s, run[0]);
      RunKeepsInv(Do(s, run[0]), run[1..]);
    }
  }

  /** Nobody is turned away while the guard is free, and no two run at once. */
  lemma OneRunAtATime(s0: State, run: seq<Action>, i: nat)
    requires !s0.syncing && (forall j: nat :: j < |s0.jobs| ==> s0.jobs[j] == Waiting) && ValidRun(s0, run)
    requires Enabled(Final(s0, run), TryStart(i))
    ensures var s := Final(s0, run);
            Do(s, TryStart(i)).jobs[i] == Running <==> forall j: nat :: !Runs(s, j)
    ensures var s' := Do(Final(s0, run), TryStart(i));
            forall j: nat, k: nat :: Runs(s', j) && Runs(s', k) ==> j == k
  {
    RunKeepsInv(s0, run);
    StepKeepsInv(Final(s0, run), TryStart(i));
  }
}
