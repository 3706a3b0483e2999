/** How far apart the throttle keeps decisions and rows, exactly, as a function
    of how long requests wait for their locks. The design notes call 3 requests
    per 15 minutes an exact ceiling (ADR 0017). A row carries its transaction's
    begin, so every microsecond between a request's begin and its count is one
    that the window may shrink by, and some run loses all of it.
 */
module ThrottleBounds {
  import opened ResetThrottle

  // ---- commits of one key are in the order of their counts ----

  /** The two kinds of key that the throttle counts by. */
  datatype Kind = Email | Ip

  function Limit(d: Kind): nat {
    match d
    case Email => EMAIL_LIMIT
    case Ip => IP_LIMIT
  }

  predicate SameKey(d: Kind, r: Request, r': Request) {
    match d
    case Email => r.email == r'.email
    case Ip => r.ip == r'.ip
  }

  predicate Counted(d: Kind, r: Request) {
    Reached(r, match d case Email => EmailCounted case Ip => BothCounted)
  }

  function CountedAt(d: Kind, r: Request): int {
    match d
    case Email => r.emailAt
    case Ip => r.ipAt
  }

  ghost predicate Same(s: State, d: Kind, i: nat, j: nat) {
    i < |s.reqs| && j < |s.reqs| && SameKey(d, s.reqs[i], s.reqs[j])
  }

  ghost predicate HistoryInOrder(s: State, d: Kind) {
    forall p: nat, q: nat :: p < q < |s.history| && Same(s, d, s.history[p], s.history[q]) ==>
                               CountedAt(d, s.reqs[s.history[p]]) <= CountedAt(d, s.reqs[s.history[q]])
  }

  /** Whoever has counted and not yet committed counted after every commit. */
  ghost predicate CountedAfterCommits(s: State, d: Kind, i: nat)
    requires i < |s.reqs|
  {
    InFlight(s.reqs[i]) && Counted(d, s.reqs[i]) ==>
      forall j: nat :: CommittedRequest(s, j) && Same(s, d, j, i) ==> CountedAt(d, s.reqs[j]) <= CountedAt(d, s.reqs[i])
  }

  ghost predicate CountsInOrder(s: State, d: Kind) {
    HistoryInOrder(s, d) && forall i: nat :: i < |s.reqs| ==> CountedAfterCommits(s, d, i)
  }

  lemma CommitKeepsOrder(s: State, d: Kind, i: nat)
    requires LocksInv(s) && HistoryInv(s) && CountsInOrder(s, d) && i < |s.reqs| && s.reqs[i].phase == Inserted
    ensures CountsInOrder(AfterCommit(s, i), d)
  {
    forall k: nat | k < |s.reqs| ensures CountedAfterCommits(AfterCommit(s, i), d, k) {
      if k != i {
        CommitKeepsCounted(s, d, i, k);
      }
    }
    CommitKeepsHistory(s, d, i);
  }

  lemma CommitKeepsCounted(s: State, d: Kind, i: nat, k: nat)
    requires i < |s.reqs| && s.reqs[i].phase == Inserted && k < |s.reqs| && k != i
    requires Apart(s.reqs[i], s.reqs[k]) && CountedAfterCommits(s, d, k)
    ensures CountedAfterCommits(AfterCommit(s, i), d, k)
  {
    var s' := AfterCommit(s, i);
    assert forall j: nat :: CommittedRequest(s', j) ==> CommittedRequest(s, j) || j == i;
  }

  lemma CommitKeepsHistory(s: State, d: Kind, i: nat)
    requires HistoryInv(s) && HistoryInOrder(s, d) && i < |s.reqs| && s.reqs[i].phase == Inserted
    requires CountedAfterCommits(s, d, i)
    ensures HistoryInOrder(AfterCommit(s, i), d)
  {
    var s' := AfterCommit(s, i);
    forall p: nat, q: nat | p < q < |s'.history| && Same(s', d, s'.history[p], s'.history[q])
      ensures CountedAt(d, s'.reqs[s'.history[p]]) <= CountedAt(d, s'.reqs[s'.history[q]])
    {
      assert s.history[p] in s.history;
      assert q < |s.history| ==> Same(s, d, s.history[p], s.history[q]);
    }
  }

  /** A step of request i before its commit: it keeps its count, or counts now. */
  lemma OwnStepKeepsOrder(s: State, d: Kind, i: nat, r': Request)
    requires TimesInv(s) && HistoryInv(s) && CountsInOrder(s, d) && i < |s.reqs| && InFlight(s.reqs[i])
    requires r'.phase != Committed && r'.email == s.reqs[i].email && r'.ip == s.reqs[i].ip
    requires Counted(d, r') ==>
               CountedAt(d, r') == s.now || (Counted(d, s.reqs[i]) && CountedAt(d, r') == CountedAt(d, s.reqs[i]))
    ensures CountsInOrder(With(s, i, r'), d)
  {
    forall j: nat | CommittedRequest(s, j) ensures CountedAt(d, s.reqs[j]) <= s.now {
      assert TimesOk(s.now, s.reqs[j]);
    }
    forall k: nat | k < |s.reqs| ensures CountedAfterCommits(With(s, i, r'), d, k) {
      OwnStepKeepsCounted(s, d, i, r', k);
    }
    OldHistoryInOrder(s, d, i, r');
  }

  lemma OwnStepKeepsCounted(s: State, d: Kind, i: nat, r': Request, k: nat)
    requires i < |s.reqs| && InFlight(s.reqs[i]) && k < |s.reqs| && CountedAfterCommits(s, d, k)
    requires r'.phase != Committed && r'.email == s.reqs[i].email && r'.ip == s.reqs[i].ip
    requires Counted(d, r') ==>
               CountedAt(d, r') == s.now || (Counted(d, s.reqs[i]) && CountedAt(d, r') == CountedAt(d, s.reqs[i]))
    requires forall j: nat :: CommittedRequest(s, j) ==> CountedAt(d, s.reqs[j]) <= s.now
    ensures CountedAfterCommits(With(s, i, r'), d, k)
  {
    assert forall j: nat :: CommittedRequest(With(s, i, r'), j) <==> CommittedRequest(s, j);
  }

  lemma OldHistoryInOrder(s: State, d: Kind, i: nat, r': Request)
    requires HistoryInv(s) && HistoryInOrder(s, d) && i < |s.reqs| && s.reqs[i].phase != Committed
    ensures HistoryInOrder(With(s, i, r'), d)
  {
    var s' := With(s, i, r');
    forall p: nat, q: nat | p < q < |s.history| && Same(s', d, s.history[p], s.history[q])
      ensures CountedAt(d, s'.reqs[s.history[p]]) <= CountedAt(d, s'.reqs[s.history[q]])
    {
      assert s.history[p] in s.history && s.history[q] in s.history;
      assert Same(s, d, s.history[p], s.history[q]);
    }
  }

  lemma TickKeepsOrder(s: State, d: Kind, to: int)
    requires CountsInOrder(s, d)
    ensures CountsInOrder(s.(now := to), d)
  {
    var s' := s.(now := to);
    forall k: nat | k < |s.reqs| ensures CountedAfterCommits(s', d, k) {
      assert CountedAfterCommits(s, d, k);
    }
    assert forall i: nat, j: nat :: Same(s', d, i, j) <==> Same(s, d, i, j);
  }

  lemma StepKeepsOrder(s: State, d: Kind, a: Action)
    requires Inv(s) && CountsInOrder(s, d) && Enabled(s, a)
    ensures CountsInOrder(Do(s, a), d)
  {
    match a
    case Tick(to) => TickKeepsOrder(s, d, to);
    case Commit(i) => CommitKeepsOrder(s, d, i);
    case _ =>
      CountOfStep(s, d, a);
      OwnStepKeepsOrder(s, d, a.i, Do(s, a).reqs[a.i]);
  }

  lemma CountOfStep(s: State, d: Kind, a: Action)
    requires Enabled(s, a) && !a.Tick? && !a.Commit?
    ensures InFlight(s.reqs[a.i]) && a.i < |Do(s, a).reqs|
    ensures var r, r' := s.reqs[a.i], Do(s, a).reqs[a.i];
            && Do(s, a) == With(s, a.i, r') && r'.phase != Committed && r'.email == r.email && r'.ip == r.ip
            && (Counted(d, r') ==>
                  CountedAt(d, r') == s.now || (Counted(d, r) && CountedAt(d, r') == CountedAt(d, r)))
  {}

  lemma {:induction false} RunKeepsOrder(s: State, d: Kind, run: seq<Action>)
    requires Inv(s) && CountsInOrder(s, d) && ValidRun(s, run)
    ensures CountsInOrder(Final(s, run), d)
    decreases |run|
  {
    if run != [] {
      StepKeepsInv(s, run[0]);
      StepKeepsOrder(s, d, run[0]);
      RunKeepsOrder(Do(s, run[0]), d, run[1..]);
    }
  }

  /** For one address, and for one IP, the order of commits is that of the counts. */
  lemma CommitsFollowDecisions(env: Env, raw: seq<string>, s: State, d: Kind, p: nat, q: nat)
    requires Reachable(env, raw, s) && p < q < |s.history| && Same(s, d, s.history[p], s.history[q])
    ensures CountedAt(d, s.reqs[s.history[p]]) <= CountedAt(d, s.reqs[s.history[q]])
  {
    var s0, run :| Init(env, raw, s0) && ValidRun(s0, run) && Final(s0, run) == s;
    InitInv(env, raw, s0);
    RunKeepsOrder(s0, d, run);
  }

  // ---- the spacing every run keeps ----

  /** The q-th commit was allowed, and the three others precede it at its address. */
  ghost predicate Fourth(s: State, p1: nat, p2: nat, p3: nat, q: nat) {
    && p1 < p2 < p3 < q < |s.history|
    && Same(s, Email, s.history[p1], s.history[q]) && Same(s, Email, s.history[p2], s.history[q])
    && Same(s, Email, s.history[p3], s.history[q])
    && s.reqs[s.history[q]].allow
  }

  /** When the p-th committed request counted, which decides it. */
  ghost function DecidedAt(s: State, p: nat): int
    requires p < |s.history| && s.history[p] < |s.reqs|
  {
    s.reqs[s.history[p]].emailAt
  }

  /** created_at of its row. */
  ghost function RowAt(s: State, p: nat): int
    requires p < |s.history| && s.history[p] < |s.reqs|
  {
    s.reqs[s.history[p]].begin
  }

  ghost predicate WaitsAtMost(s: State, wait: int) {
    forall p: nat :: p < |s.history| && s.history[p] < |s.reqs| ==> DecidedAt(s, p) - RowAt(s, p) <= wait
  }

  /** An allowed fourth decision is at least this long after the first. */
  ghost predicate DecisionsApart(s: State, d: int) {
    forall p1: nat, p2: nat, p3: nat, q: nat :: Fourth(s, p1, p2, p3, q) ==> DecidedAt(s, q) - DecidedAt(s, p1) >= d
  }

  /** An allowed fourth decision is at least this long after the first one's row. */
  ghost predicate RowsApart(s: State, d: int) {
    forall p1: nat, p2: nat, p3: nat, q: nat :: Fourth(s, p1, p2, p3, q) ==> DecidedAt(s, q) - RowAt(s, p1) >= d
  }

  /** The least distance left when requests wait at most this long. */
  function Spacing(wait: nat): nat {
    if wait <= WINDOW then WINDOW + 1 - wait else 0
  }

  /** The q-th commit was allowed, and as many as the limit precede it with its key. */
  ghost predicate Follows(s: State, d: Kind, ps: seq<nat>, q: nat) {
    && |ps| == Limit(d) && q < |s.history| && s.history[q] < |s.reqs| && s.reqs[s.history[q]].allow
    && (forall k: nat, l: nat :: k < l < |ps| ==> ps[k] < ps[l])
    && forall k: nat :: k < |ps| ==> ps[k] < q && Same(s, d, s.history[ps[k]], s.history[q])
  }

  /** The requests behind the first n of these commits. */
  ghost function Behind(s: State, ps: seq<nat>, n: nat): set<nat>
    requires n <= |ps| && forall k: nat :: k < |ps| ==> ps[k] < |s.history|
  {
    if n == 0 then {} else Behind(s, ps, n - 1) + {s.history[ps[n - 1]]}
  }

  lemma {:induction false} BehindCount(s: State, ps: seq<nat>, n: nat)
    requires HistoryInv(s) && n <= |ps| && forall k: nat :: k < |ps| ==> ps[k] < |s.history|
    requires forall k: nat, l: nat :: k < l < |ps| ==> ps[k] < ps[l]
    ensures |Behind(s, ps, n)| == n
    ensures forall j :: j in Behind(s, ps, n) ==> exists k: nat :: k < n && s.history[ps[k]] == j
  {
    if n > 0 {
      BehindCount(s, ps, n - 1);
      assert s.history[ps[n - 1]] !in Behind(s, ps, n - 1);
    }
  }

  /** The earlier requests with r's key whose rows are not older than the cutoff. */
  ghost function InWindow(d: Kind, reqs: seq<Request>, h: seq<nat>, r: Request, cutoff: int): set<nat> {
    match d
    case Email => ByEmail(reqs, h, r.email, cutoff)
    case Ip => ByIp(reqs, h, r.ip, cutoff)
  }

  lemma AllInWindow(s: State, d: Kind, ps: seq<nat>, q: nat, cutoff: int)
    requires HistoryInv(s) && Follows(s, d, ps, q)
    requires forall k: nat :: k < |ps| ==> RowAt(s, ps[k]) >= cutoff
    ensures |InWindow(d, s.reqs, s.history[..q], s.reqs[s.history[q]], cutoff)| >= Limit(d)
  {
    var recent := InWindow(d, s.reqs, s.history[..q], s.reqs[s.history[q]], cutoff);
    BehindCount(s, ps, |ps|);
    forall j | j in Behind(s, ps, |ps|) ensures j in recent {
      var k: nat :| k < |ps| && s.history[ps[k]] == j;
      OneInWindow(s, d, ps, q, cutoff, k);
    }
    SubsetCard(Behind(s, ps, |ps|), recent);
  }

  lemma OneInWindow(s: State, d: Kind, ps: seq<nat>, q: nat, cutoff: int, k: nat)
    requires Follows(s, d, ps, q) && k < |ps| && RowAt(s, ps[k]) >= cutoff
    ensures s.history[ps[k]] in InWindow(d, s.reqs, s.history[..q], s.reqs[s.history[q]], cutoff)
  {
    assert s.history[..q][ps[k]] == s.history[ps[k]];
    assert Same(s, d, s.history[ps[k]], s.history[q]);
  }

  /** Not all of them can lie in the window that ends at the allowed one's count. */
  lemma SomeRowIsOld(env: Env, raw: seq<string>, s: State, d: Kind, ps: seq<nat>, q: nat)
    requires Reachable(env, raw, s) && Follows(s, d, ps, q)
    ensures exists k: nat :: k < |ps| && RowAt(s, ps[k]) < CountedAt(d, s.reqs[s.history[q]]) - WINDOW
  {
    var cutoff := CountedAt(d, s.reqs[s.history[q]]) - WINDOW;
    if forall k: nat :: k < |ps| ==> RowAt(s, ps[k]) >= cutoff {
      HistoryIsSound(env, raw, s);
      VerdictMeaning(env, raw, s, q);
      AllInWindow(s, d, ps, q, cutoff);
    }
  }

  lemma HistoryIsSound(env: Env, raw: seq<string>, s: State)
    requires Reachable(env, raw, s)
    ensures HistoryInv(s)
  {
    ReachableInv(env, raw, s);
  }

  /** For either kind of key: one of the rows is outside the window, and the first
      count was not after that row's; so it, and its own row, are only the wait
      closer to the allowed request's count. */
  lemma CountsSpread(env: Env, raw: seq<string>, s: State, d: Kind, ps: seq<nat>, q: nat, wait: nat)
    requires Reachable(env, raw, s) && Follows(s, d, ps, q)
    requires forall k: nat :: k < |ps| ==> CountedAt(d, s.reqs[s.history[ps[k]]]) - RowAt(s, ps[k]) <= wait
    ensures CountedAt(d, s.reqs[s.history[q]]) - CountedAt(d, s.reqs[s.history[ps[0]]]) >= Spacing(wait)
    ensures CountedAt(d, s.reqs[s.history[q]]) - RowAt(s, ps[0]) >= Spacing(wait)
  {
    SomeRowIsOld(env, raw, s, d, ps, q);
    var k: nat :| k < |ps| && RowAt(s, ps[k]) < CountedAt(d, s.reqs[s.history[q]]) - WINDOW;
    CommitsFollowDecisions(env, raw, s, d, ps[0], q);
    if k > 0 {
      SameAsFirst(s, d, ps, q, k);
      CommitsFollowDecisions(env, raw, s, d, ps[0], ps[k]);
    }
    DecisionTimes(env, raw, s, ps[0]);
  }

  lemma SameAsFirst(s: State, d: Kind, ps: seq<nat>, q: nat, k: nat)
    requires Follows(s, d, ps, q) && 0 < k < |ps|
    ensures ps[0] < ps[k] && Same(s, d, s.history[ps[0]], s.history[ps[k]])
  {
    assert Same(s, d, s.history[ps[0]], s.history[q]) && Same(s, d, s.history[ps[k]], s.history[q]);
  }

  /** Ten earlier requests of one IP and an allowed eleventh. */
  lemma IpCountsSpread(env: Env, raw: seq<string>, s: State, ps: seq<nat>, q: nat, wait: nat)
    requires Reachable(env, raw, s) && Follows(s, Ip, ps, q)
    requires forall k: nat :: k < |ps| ==> s.reqs[s.history[ps[k]]].ipAt - RowAt(s, ps[k]) <= wait
    ensures s.reqs[s.history[q]].ipAt - s.reqs[s.history[ps[0]]].ipAt >= Spacing(wait)
    ensures s.reqs[s.history[q]].ipAt - RowAt(s, ps[0]) >= Spacing(wait)
  {
    CountsSpread(env, raw, s, Ip, ps, q, wait);
  }

  /** Three earlier requests of one address and an allowed fourth. */
  lemma DecisionsSpread(env: Env, raw: seq<string>, s: State, p1: nat, p2: nat, p3: nat, q: nat, wait: nat)
    requires Reachable(env, raw, s) && Fourth(s, p1, p2, p3, q)
    requires forall p :: p in {p1, p2, p3} ==> DecidedAt(s, p) - RowAt(s, p) <= wait
    ensures DecidedAt(s, q) - DecidedAt(s, p1) >= Spacing(wait)
    ensures DecidedAt(s, q) - RowAt(s, p1) >= Spacing(wait)
  {
    CountsSpread(env, raw, s, Email, [p1, p2, p3], q, wait);
  }

  lemma SpacingIsKept(env: Env, raw: seq<string>, s: State, wait: nat)
    requires Reachable(env, raw, s) && WaitsAtMost(s, wait)
    ensures DecisionsApart(s, Spacing(wait)) && RowsApart(s, Spacing(wait))
  {
    forall p1: nat, p2: nat, p3: nat, q: nat | Fourth(s, p1, p2, p3, q)
      ensures DecidedAt(s, q) - DecidedAt(s, p1) >= Spacing(wait) && DecidedAt(s, q) - RowAt(s, p1) >= Spacing(wait)
    {
      DecisionsSpread(env, raw, s, p1, p2, p3, q, wait);
    }
  }

  // ---- runs that use the whole wait ----

  lemma Step(env: Env, raw: seq<string>, s: State, a: Action) returns (s': State)
    requires Reachable(env, raw, s) && Enabled(s, a)
    ensures s' == Do(s, a) && Reachable(env, raw, s')
  {
    s' := Do(s, a);
    var s0, run :| Init(env, raw, s0) && ValidRun(s0, run) && Final(s0, run) == s;
    AppendAction(s0, run, a);
  }

  lemma LockAndPurge(env: Env, raw: seq<string>, s: State, i: nat) returns (s': State)
    requires Reachable(env, raw, s) && Quiet(s, i) && i < |s.reqs| && s.reqs[i].phase == Begun
    ensures Reachable(env, raw, s')
    ensures s' == With(s, i, s.reqs[i].(phase := Purged, purged := RowsBefore(s, s.reqs[i].stamp - WINDOW)))
  {
    var s1 := Step(env, raw, s, LockEmail(i));
    var s2 := Step(env, raw, s1, LockIp(i));
    s' := Step(env, raw, s2, Purge(i));
    assert RowsBefore(s2, s2.reqs[i].stamp - WINDOW) == RowsBefore(s, s.reqs[i].stamp - WINDOW);
  }

  lemma CountBoth(env: Env, raw: seq<string>, s: State, i: nat, recent: set<nat>) returns (s': State)
    requires Reachable(env, raw, s) && i < |s.reqs| && s.reqs[i].phase == Purged
    requires |recent| < EMAIL_LIMIT
    requires forall j :: j in s.rows && s.rows[j].created >= s.reqs[i].stamp - WINDOW ==> j in recent
    ensures Reachable(env, raw, s') && i < |s'.reqs| && s' == With(s, i, s'.reqs[i])
    ensures s'.reqs[i].phase == BothCounted && s'.reqs[i].emailAt == s.now && s'.reqs[i].begin == s.reqs[i].begin
    ensures s'.reqs[i].email == s.reqs[i].email
    ensures s'.reqs[i].emailCount < EMAIL_LIMIT && s'.reqs[i].ipCount < EMAIL_LIMIT
  {
    SubsetCard(RowsByEmail(s, s.reqs[i], s.reqs[i].email), recent);
    var s1 := Step(env, raw, s, CountEmail(i));
    SubsetCard(RowsByIp(s1, s1.reqs[i]), recent);
    s' := Step(env, raw, s1, CountIp(i));
  }

  /** A request that runs alone is allowed when at most two rows lie in its window. */
  lemma RunAlone(env: Env, raw: seq<string>, s: State, i: nat, recent: set<nat>) returns (s': State)
    requires Reachable(env, raw, s) && Quiet(s, i) && i < |s.reqs| && s.reqs[i].phase == Begun
    requires |recent| < EMAIL_LIMIT
    requires forall j :: j in s.rows && s.rows[j].created >= s.reqs[i].stamp - WINDOW ==> j in recent
    ensures Reachable(env, raw, s') && |s'.reqs| == |s.reqs| && s'.now == s.now
    ensures s'.reqs[i].phase == Committed && s'.reqs[i].allow && s'.reqs[i].emailAt == s.now
    ensures forall j: nat :: j < |s.reqs| && j != i ==> s'.reqs[j] == s.reqs[j]
    ensures forall j :: j in s'.rows && j != i ==> j in s.rows && s'.rows[j] == s.rows[j]
    ensures s'.reqs[i].begin == s.reqs[i].begin && s'.reqs[i].email == s.reqs[i].email
    ensures i in s'.rows && s'.rows[i].created == s.reqs[i].begin
    ensures s'.history == s.history + [i]
  {
    var s1 := LockAndPurge(env, raw, s, i);
    var s2 := CountBoth(env, raw, s1, i, recent);
    var s3 := Step(env, raw, s2, Insert(i));
    s' := Step(env, raw, s3, Commit(i));
  }

  lemma ArriveAndRun(env: Env, raw: seq<string>, s: State, i: nat, recent: set<nat>) returns (s': State)
    requires Reachable(env, raw, s) && Quiet(s, i) && i < |s.reqs| && s.reqs[i].phase == Idle
    requires |recent| < EMAIL_LIMIT
    requires forall j :: j in s.rows && s.rows[j].created >= s.now - WINDOW ==> j in recent
    ensures Reachable(env, raw, s') && |s'.reqs| == |s.reqs| && s'.now == s.now
    ensures s'.reqs[i].phase == Committed && s'.reqs[i].allow && s'.reqs[i].emailAt == s.now
    ensures forall j: nat :: j < |s.reqs| && j != i ==> s'.reqs[j] == s.reqs[j]
    ensures forall j :: j in s'.rows && j != i ==> j in s.rows && s'.rows[j] == s.rows[j]
    ensures s'.reqs[i].begin == s.now && s'.reqs[i].email == s.reqs[i].email
    ensures i in s'.rows && s'.rows[i].created == s.now
    ensures s'.history == s.history + [i]
  {
    var s1 := Step(env, raw, s, Stamp(i));
    var s2 := Step(env, raw, s1, Begin(i));
    s' := RunAlone(env, raw, s2, i, recent);
  }

  ghost function Waiting(env: Env, email: string, ip: string): Request {
    var key := env.lower(email);
    Request(key, ip, env.hash(key), env.hash(ip), Idle, 0, 0, {}, 0, 0, 0, 0, false)
  }

  lemma LetTimePass(env: Env, raw: seq<string>, s: State, to: int) returns (s': State)
    requires Reachable(env, raw, s) && s.now <= to
    ensures Reachable(env, raw, s') && s' == s.(now := to)
  {
    s' := Step(env, raw, s, Tick(to));
  }

  /** Request 0 begins at time 0 and waits; nobody else has arrived. */
  lemma OneWaits(env: Env, email: string, ip: string, raw: seq<string>, wait: nat) returns (s: State)
    requires raw == [email, email, email, email]
    ensures Reachable(env, raw, s) && |s.reqs| == 4 && s.now == wait && s.history == [] && s.rows == map[]
    ensures s.reqs[0].phase == Begun && s.reqs[0].begin == 0 && s.reqs[0].stamp == 0
    ensures forall i: nat :: 0 < i < 4 ==> s.reqs[i].phase == Idle
    ensures forall i: nat :: i < 4 ==> s.reqs[i].email == env.lower(email)
  {
    var r := Waiting(env, email, ip);
    FourIdle(env, email, ip, raw);
    var s1 := Step(env, raw, State(0, [r, r, r, r], map[], []), Stamp(0));
    var s2 := Step(env, raw, s1, Begin(0));
    s := LetTimePass(env, raw, s2, wait);
  }

  lemma FourIdle(env: Env, email: string, ip: string, raw: seq<string>)
    requires raw == [email, email, email, email]
    ensures var r := Waiting(env, email, ip); Reachable(env, raw, State(0, [r, r, r, r], map[], []))
  {
    var r := Waiting(env, email, ip);
    var s0 := State(0, [r, r, r, r], map[], []);
    assert Init(env, raw, s0);
    assert ValidRun(s0, []) && Final(s0, []) == s0;
  }

  /** Request i has committed, allowed, with this row and this decision. */
  ghost predicate Served(s: State, i: nat, begin: int, decided: int) {
    && i < |s.reqs| && s.reqs[i].phase == Committed && s.reqs[i].allow
    && s.reqs[i].begin == begin && s.reqs[i].emailAt == decided
  }

  /** Requests 0 and 1 are served at time `wait`, one after the other; 0 began at 0. */
  ghost predicate TwoServed(env: Env, raw: seq<string>, s: State, email: string, wait: nat) {
    && Reachable(env, raw, s) && |s.reqs| == 4 && s.now == wait
    && Served(s, 0, 0, wait) && Served(s, 1, wait, wait) && s.reqs[2].phase == Idle && s.reqs[3].phase == Idle
    && (forall i: nat :: i < 4 ==> s.reqs[i].email == env.lower(email))
    && (forall j :: j in s.rows ==> j in {0, 1}) && (0 in s.rows ==> s.rows[0].created == 0)
  }

  /** The fourth request comes when row 0 has just left the window. */
  lemma TwoMore(env: Env, raw: seq<string>, s: State, email: string, wait: nat) returns (s': State)
    requires TwoServed(env, raw, s, email, wait) && wait <= WINDOW + 1
    ensures Reachable(env, raw, s') && |s'.reqs| == 4 && s'.history == s.history + [2, 3]
    ensures Served(s', 0, 0, wait) && Served(s', 1, wait, wait) && Served(s', 2, wait, wait)
    ensures Served(s', 3, WINDOW + 1, WINDOW + 1)
    ensures forall i: nat :: i < 4 ==> s'.reqs[i].email == env.lower(email)
  {
    ServedIsQuiet(env, raw, s, email, wait);
    var a := ArriveAndRun(env, raw, s, 2, {0, 1});
    var b := LetTimePass(env, raw, a, WINDOW + 1);
    s' := ArriveAndRun(env, raw, b, 3, {1, 2});
    assert s'.history == s.history + [2, 3];
  }

  lemma ServedIsQuiet(env: Env, raw: seq<string>, s: State, email: string, wait: nat)
    requires TwoServed(env, raw, s, email, wait)
    ensures Quiet(s, 2)
  {}

  /** Four requests for one address, all allowed; the first waited, and lost that
      much of the distance to the fourth. */
  lemma TightDecisions(env: Env, email: string, ip: string, wait: nat) returns (raw: seq<string>, s: State)
    requires wait <= WINDOW + 1
    ensures raw == [email, email, email, email]
    ensures Reachable(env, raw, s) && |s.reqs| == 4 && s.history == [0, 1, 2, 3]
    ensures Served(s, 0, 0, wait) && Served(s, 1, wait, wait) && Served(s, 2, wait, wait)
    ensures Served(s, 3, WINDOW + 1, WINDOW + 1)
    ensures forall i: nat :: i < 4 ==> s.reqs[i].email == env.lower(email)
  {
    raw := [email, email, email, email];
    var waiting := OneWaits(env, email, ip, raw, wait);
    var a := RunAlone(env, raw, waiting, 0, {});
    var b := ArriveAndRun(env, raw, a, 1, {0});
    s := TwoMore(env, raw, b, email, wait);
    assert s.history == [0, 1, 2, 3];
  }

  /** The same with request 1 overtaking the waiting one: the row that is old is
      the second, and the first is young by the whole wait. */
  lemma TightRows(env: Env, email: string, ip: string, wait: nat) returns (raw: seq<string>, s: State)
    requires wait <= WINDOW + 1
    ensures raw == [email, email, email, email]
    ensures Reachable(env, raw, s) && |s.reqs| == 4 && s.history == [1, 0, 2, 3]
    ensures Served(s, 0, 0, wait) && Served(s, 1, wait, wait) && Served(s, 2, wait, wait)
    ensures Served(s, 3, WINDOW + 1, WINDOW + 1)
    ensures forall i: nat :: i < 4 ==> s.reqs[i].email == env.lower(email)
  {
    raw := [email, email, email, email];
    var waiting := OneWaits(env, email, ip, raw, wait);
    var a := ArriveAndRun(env, raw, waiting, 1, {});
    var b := RunAlone(env, raw, a, 0, {1});
    s := TwoMore(env, raw, b, email, wait);
    assert s.history == [1, 0, 2, 3];
  }

  /** The longest wait that matters is one past the window: then four requests
      for one address are allowed at the same instant. */
  lemma FourAllowedAtOneInstant(env: Env, email: string, ip: string) returns (raw: seq<string>, s: State)
    ensures raw == [email, email, email, email]
    ensures Reachable(env, raw, s) && |s.reqs| == 4 && s.history == [0, 1, 2, 3]
    ensures forall i: nat :: i < 4 ==>
                               s.reqs[i].phase == Committed && s.reqs[i].allow && s.reqs[i].emailAt == WINDOW + 1
  {
    raw, s := TightDecisions(env, email, ip, WINDOW + 1);
  }

  /** And the first of the three earlier rows can be as young as the fourth decision. */
  lemma FirstRowMayBeRecent(env: Env, email: string, ip: string) returns (raw: seq<string>, s: State)
    ensures raw == [email, email, email, email]
    ensures Reachable(env, raw, s) && |s.reqs| == 4 && s.history == [1, 0, 2, 3]
    ensures forall i: nat :: i < 4 ==> s.reqs[i].phase == Committed && s.reqs[i].allow
    ensures s.reqs[1].begin == s.reqs[3].emailAt
  {
    raw, s := TightRows(env, email, ip, WINDOW + 1);
  }

  // ---- the exact bounds ----

  ghost predicate AlwaysDecisionsApart(env: Env, wait: nat, d: int) {
    forall raw, s :: Reachable(env, raw, s) && WaitsAtMost(s, wait) ==> DecisionsApart(s, d)
  }

  ghost predicate AlwaysRowsApart(env: Env, wait: nat, d: int) {
    forall raw, s :: Reachable(env, raw, s) && WaitsAtMost(s, wait) ==> RowsApart(s, d)
  }

  /** The first and an allowed fourth decision are at least d apart in every run
      whose waits are at most `wait` if and only if d is at most Spacing(wait). */
  lemma DecisionSpacingIsExact(env: Env, wait: nat, d: int)
    ensures AlwaysDecisionsApart(env, wait, d) <==> d <= Spacing(wait)
  {
    if d <= Spacing(wait) {
      forall raw, s | Reachable(env, raw, s) && WaitsAtMost(s, wait) ensures DecisionsApart(s, d) {
        SpacingIsKept(env, raw, s, wait);
      }
    } else {
      var raw, s := TightDecisions(env, "", "", if wait <= WINDOW then wait else WINDOW + 1);
      assert Fourth(s, 0, 1, 2, 3);
    }
  }

  /** The same for the age of the first one's row. */
  lemma RowSpacingIsExact(env: Env, wait: nat, d: int)
    ensures AlwaysRowsApart(env, wait, d) <==> d <= Spacing(wait)
  {
    if d <= Spacing(wait) {
      forall raw, s | Reachable(env, raw, s) && WaitsAtMost(s, wait) ensures RowsApart(s, d) {
        SpacingIsKept(env, raw, s, wait);
      }
    } else {
      var raw, s := TightRows(env, "", "", if wait <= WINDOW then wait else WINDOW + 1);
      assert Fourth(s, 0, 1, 2, 3);
    }
  }

  /** Hence the documented ceiling, more than 15 minutes between a first and an
      allowed fourth decision, and more than 15 minutes between the first row and
      that decision, both hold exactly when no request waits at all. */
  lemma CeilingIffNoWait(env: Env, wait: nat)
    ensures AlwaysDecisionsApart(env, wait, WINDOW + 1) <==> wait == 0
    ensures AlwaysRowsApart(env, wait, WINDOW + 1) <==> wait == 0
  {
    DecisionSpacingIsExact(env, wait, WINDOW + 1);
    RowSpacingIsExact(env, wait, WINDOW + 1);
  }
}
