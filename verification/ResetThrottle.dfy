/** The password-reset throttle as an interleaving of any number of requests.
    Every request stamps `since`, opens its transaction, takes the email lock,
    then the IP lock, purges, counts twice, inserts and commits; it may roll
    back anywhere. Statements see committed rows only (READ COMMITTED) and the
    advisory locks are held until the transaction ends. Times are microseconds
    of one clock that never runs backwards.
 */
module ResetThrottle {
  const WINDOW: int := 15 * 60 * 1_000_000
  const EMAIL_LIMIT := 3
  const IP_LIMIT := 10

  datatype Phase =
    | Idle | Stamped | Begun | EmailLocked | BothLocked | Purged
    | EmailCounted | BothCounted | Inserted | Committed | RolledBack

  /** One call of allowPasswordResetRequest with its local variables: `purged`
      holds the rows its uncommitted DELETE hit, `email` is the lowercased
      address, `emailLock` and `ipLock` are the hashed lock keys, and `begin` is the transaction's
      now(), which the inserted row's created_at defaults to. */
  datatype Request = Request(
    email: string, ip: string, emailLock: int, ipLock: int, phase: Phase, stamp: int, begin: int, purged: set<nat>,
    emailCount: nat, emailAt: int, ipCount: nat, ipAt: int, allow: bool)

  datatype Row = Row(email: string, ip: string, created: int)

  /** `rows` are the committed rows of password_reset_requests, keyed by the
      request that wrote them; `history` lists the committed requests in order. */
  datatype State = State(now: int, reqs: seq<Request>, rows: map<nat, Row>, history: seq<nat>)

  /** strings.ToLower and Postgres' hashtext; hashtext may collide. */
  datatype Env = Env(lower: string -> string, hash: string -> int)

  datatype Action =
    | Tick(to: int) | Stamp(i: nat) | Begin(i: nat) | LockEmail(i: nat) | LockIp(i: nat) | Purge(i: nat)
    | CountEmail(i: nat) | CountIp(i: nat) | Insert(i: nat) | Commit(i: nat) | Rollback(i: nat)

  function Rank(p: Phase): nat {
    match p
    case Idle => 0
    case Stamped => 1
    case Begun => 2
    case EmailLocked => 3
    case BothLocked => 4
    case Purged => 5
    case EmailCounted => 6
    case BothCounted => 7
    case Inserted => 8
    case Committed => 9
    case RolledBack => 9
  }

  predicate Reached(r: Request, p: Phase) {
    r.phase != RolledBack && Rank(p) <= Rank(r.phase)
  }

  predicate InFlight(r: Request) {
    Rank(r.phase) < 9
  }

  predicate HoldsEmailLock(r: Request) {
    Reached(r, EmailLocked) && InFlight(r)
  }

  predicate HoldsIpLock(r: Request) {
    Reached(r, BothLocked) && InFlight(r)
  }

  ghost predicate EmailLockFree(s: State, i: nat)
    requires i < |s.reqs|
  {
    forall j :: 0 <= j < |s.reqs| && j != i && HoldsEmailLock(s.reqs[j]) ==>
                  s.reqs[j].emailLock != s.reqs[i].emailLock
  }

  ghost predicate IpLockFree(s: State, i: nat)
    requires i < |s.reqs|
  {
    forall j :: 0 <= j < |s.reqs| && j != i && HoldsIpLock(s.reqs[j]) ==>
                  s.reqs[j].ipLock != s.reqs[i].ipLock
  }

  // ---- the statements ----

  /** DELETE ... WHERE created_at < since, on the committed rows. */
  ghost function RowsBefore(s: State, since: int): set<nat> {
    set j | j in s.rows && s.rows[j].created < since
  }

  /** SELECT count(*) ... WHERE email = key AND created_at >= since, inside r's transaction. */
  ghost function RowsByEmail(s: State, r: Request, key: string): set<nat> {
    set j | j in s.rows && j !in r.purged && s.rows[j].email == key && s.rows[j].created >= r.stamp - WINDOW
  }

  ghost function RowsByIp(s: State, r: Request): set<nat> {
    set j | j in s.rows && j !in r.purged && s.rows[j].ip == r.ip && s.rows[j].created >= r.stamp - WINDOW
  }

  ghost predicate Enabled(s: State, a: Action) {
    match a
    case Tick(to) => s.now <= to
    case Stamp(i) => i < |s.reqs| && s.reqs[i].phase == Idle
    case Begin(i) => i < |s.reqs| && s.reqs[i].phase == Stamped
    case LockEmail(i) => i < |s.reqs| && s.reqs[i].phase == Begun && EmailLockFree(s, i)
    case LockIp(i) => i < |s.reqs| && s.reqs[i].phase == EmailLocked && IpLockFree(s, i)
    case Purge(i) => i < |s.reqs| && s.reqs[i].phase == BothLocked
    case CountEmail(i) => i < |s.reqs| && s.reqs[i].phase == Purged
    case CountIp(i) => i < |s.reqs| && s.reqs[i].phase == EmailCounted
    case Insert(i) => i < |s.reqs| && s.reqs[i].phase == BothCounted
    case Commit(i) => i < |s.reqs| && s.reqs[i].phase == Inserted
    case Rollback(i) => i < |s.reqs| && Reached(s.reqs[i], Stamped) && InFlight(s.reqs[i])
  }

  ghost function With(s: State, i: nat, r: Request): State
    requires i < |s.reqs|
  {
    s.(reqs := s.reqs[i := r])
  }

  ghost function EmailCountedBy(s: State, r: Request): Request {
    r.(phase := EmailCounted, emailAt := s.now, emailCount := |RowsByEmail(s, r, r.email)|)
  }

  ghost function IpCountedBy(s: State, r: Request): Request {
    r.(phase := BothCounted, ipAt := s.now, ipCount := |RowsByIp(s, r)|)
  }

  ghost function AfterCommit(s: State, i: nat): State
    requires i < |s.reqs|
  {
    var r := s.reqs[i];
    State(s.now, s.reqs[i := r.(phase := Committed)],
          (s.rows - r.purged)[i := Row(r.email, r.ip, r.begin)],
          s.history + [i])
  }

  ghost function Do(s: State, a: Action): State
    requires Enabled(s, a)
  {
    match a
    case Tick(to) => s.(now := to)
    case Stamp(i) => With(s, i, s.reqs[i].(phase := Stamped, stamp := s.now))
    case Begin(i) => With(s, i, s.reqs[i].(phase := Begun, begin := s.now))
    case LockEmail(i) => With(s, i, s.reqs[i].(phase := EmailLocked))
    case LockIp(i) => With(s, i, s.reqs[i].(phase := BothLocked))
    case Purge(i) => With(s, i, s.reqs[i].(phase := Purged, purged := RowsBefore(s, s.reqs[i].stamp - WINDOW)))
    case CountEmail(i) => With(s, i, EmailCountedBy(s, s.reqs[i]))
    case CountIp(i) => With(s, i, IpCountedBy(s, s.reqs[i]))
    case Insert(i) =>
      With(s, i, s.reqs[i].(phase := Inserted,
           allow := s.reqs[i].emailCount < EMAIL_LIMIT && s.reqs[i].ipCount < IP_LIMIT))
    case Commit(i) => AfterCommit(s, i)
    case Rollback(i) => With(s, i, s.reqs[i].(phase := RolledBack))
  }

  /** No request has started and the table is empty. `raw` are the addresses
      as submitted. */
  ghost predicate Init(env: Env, raw: seq<string>, s: State) {
    && s.rows == map[] && s.history == [] && |raw| == |s.reqs|
    && forall i: nat :: i < |s.reqs| ==>
                          && s.reqs[i].phase == Idle
                          && s.reqs[i].email == env.lower(raw[i])
                          && s.reqs[i].emailLock == env.hash(s.reqs[i].email)
                          && s.reqs[i].ipLock == env.hash(s.reqs[i].ip)
  }

  ghost predicate ValidRun(s: State, run: seq<Action>)
    decreases |run|
  {
    run == [] || (Enabled(s, run[0]) && ValidRun(Do(s, run[0]), run[1..]))
  }

  ghost function Final(s: State, run: seq<Action>): State
    requires ValidRun(s, run)
    decreases |run|
  {
    if run == [] then s else Final(Do(s, run[0]), run[1..])
  }

  /** s occurs in some interleaving. */
  ghost predicate Reachable(env: Env, raw: seq<string>, s: State) {
    exists s0, run :: Init(env, raw, s0) && ValidRun(s0, run) && Final(s0, run) == s
  }

  // ---- what the counts mean ----

  /** The requests of h for the email `key` whose row is not older than `cutoff`. */
  ghost function ByEmail(reqs: seq<Request>, h: seq<nat>, key: string, cutoff: int): set<nat> {
    set j | j in h && j < |reqs| && reqs[j].email == key && reqs[j].begin >= cutoff
  }

  ghost function ByIp(reqs: seq<Request>, h: seq<nat>, ip: string, cutoff: int): set<nat> {
    set j | j in h && j < |reqs| && reqs[j].ip == ip && reqs[j].begin >= cutoff
  }

  /** r's email count lies between the committed requests of h within the
      window that ends at the count and those within the window that ends at
      r's own arrival. */
  ghost predicate EmailWindow(reqs: seq<Request>, h: seq<nat>, r: Request) {
    var key := r.email;
    |ByEmail(reqs, h, key, r.emailAt - WINDOW)| <= r.emailCount <= |ByEmail(reqs, h, key, r.stamp - WINDOW)|
  }

  ghost predicate IpWindow(reqs: seq<Request>, h: seq<nat>, r: Request) {
    |ByIp(reqs, h, r.ip, r.ipAt - WINDOW)| <= r.ipCount <= |ByIp(reqs, h, r.ip, r.stamp - WINDOW)|
  }

  ghost predicate Decided(r: Request) {
    r.allow <==> r.emailCount < EMAIL_LIMIT && r.ipCount < IP_LIMIT
  }

  // ---- the invariant ----

  ghost predicate TimesOk(now: int, r: Request) {
    && (Reached(r, Stamped) ==> r.stamp <= now)
    && (Reached(r, Begun) ==> r.stamp <= r.begin <= now)
    && (Reached(r, EmailCounted) ==> r.begin <= r.emailAt <= now)
    && (Reached(r, BothCounted) ==> r.emailAt <= r.ipAt <= now)
  }

  ghost predicate TimesInv(s: State) {
    forall i: nat :: i < |s.reqs| ==> TimesOk(s.now, s.reqs[i])
  }

  ghost predicate CommittedRequest(s: State, j: nat) {
    j < |s.reqs| && s.reqs[j].phase == Committed
  }

  ghost predicate RowsInv(s: State) {
    && (forall j: nat :: j in s.rows ==>
                           CommittedRequest(s, j)
                           && s.rows[j] == Row(s.reqs[j].email, s.reqs[j].ip, s.reqs[j].begin))
    && (forall j: nat :: CommittedRequest(s, j) && j !in s.rows ==> s.reqs[j].begin < s.now - WINDOW)
  }

  ghost predicate PurgedOk(s: State, r: Request) {
    Reached(r, Purged) ==>
      forall j: nat :: j in r.purged ==> CommittedRequest(s, j) && s.reqs[j].begin < r.stamp - WINDOW
  }

  ghost predicate PurgedInv(s: State) {
    forall i: nat :: i < |s.reqs| ==> PurgedOk(s, s.reqs[i])
  }

  /** Equal keys hash to equal locks, and the two requests do not hold the same lock. */
  ghost predicate Apart(r: Request, r': Request) {
    && (r.email == r'.email ==> r.emailLock == r'.emailLock)
    && (r.ip == r'.ip ==> r.ipLock == r'.ipLock)
    && (HoldsEmailLock(r) && HoldsEmailLock(r') ==> r.emailLock != r'.emailLock)
    && (HoldsIpLock(r) && HoldsIpLock(r') ==> r.ipLock != r'.ipLock)
  }

  ghost predicate LocksInv(s: State) {
    forall i: nat, j: nat :: i < |s.reqs| && j < |s.reqs| && i != j ==> Apart(s.reqs[i], s.reqs[j])
  }

  ghost predicate HistoryInv(s: State) {
    && (forall j: nat :: j in s.history <==> CommittedRequest(s, j))
    && (forall p: nat, q: nat :: p < q < |s.history| ==> s.history[p] != s.history[q])
  }

  ghost predicate CountsOk(reqs: seq<Request>, h: seq<nat>, r: Request) {
    && (Reached(r, EmailCounted) ==> EmailWindow(reqs, h, r))
    && (Reached(r, BothCounted) ==> IpWindow(reqs, h, r))
    && (Reached(r, Inserted) ==> Decided(r))
  }

  ghost predicate CountsInv(s: State) {
    forall i: nat :: i < |s.reqs| && InFlight(s.reqs[i]) ==> CountsOk(s.reqs, s.history, s.reqs[i])
  }

  /** What the q-th committed request counted, relative to those before it. */
  ghost predicate Verdict(s: State, q: nat) {
    q < |s.history| && s.history[q] < |s.reqs| && CountsOk(s.reqs, s.history[..q], s.reqs[s.history[q]])
  }

  ghost predicate VerdictsInv(s: State) {
    forall q: nat :: q < |s.history| ==> Verdict(s, q)
  }

  ghost predicate TableInv(s: State) {
    TimesInv(s) && RowsInv(s) && PurgedInv(s) && HistoryInv(s)
  }

  ghost predicate Inv(s: State) {
    TableInv(s) && LocksInv(s) && CountsInv(s) && VerdictsInv(s)
  }

  // ---- every step keeps it ----

  lemma SubsetCard<T>(a: set<T>, b: set<T>)
    requires a <= b
    ensures |a| <= |b|
  {
    assert b == a + (b - a);
  }

  /** Windows over h look only at the email, ip and begin of h's requests. */
  lemma FrameCounts(reqs: seq<Request>, reqs': seq<Request>, h: seq<nat>, r: Request)
    requires |reqs| == |reqs'|
    requires forall j: nat :: j in h && j < |reqs| ==>
                                reqs'[j].email == reqs[j].email && reqs'[j].ip == reqs[j].ip
                                && reqs'[j].begin == reqs[j].begin
    ensures CountsOk(reqs', h, r) == CountsOk(reqs, h, r)
  {
    var key := r.email;
    assert ByEmail(reqs', h, key, r.emailAt - WINDOW) == ByEmail(reqs, h, key, r.emailAt - WINDOW);
    assert ByEmail(reqs', h, key, r.stamp - WINDOW) == ByEmail(reqs, h, key, r.stamp - WINDOW);
    assert ByIp(reqs', h, r.ip, r.ipAt - WINDOW) == ByIp(reqs, h, r.ip, r.ipAt - WINDOW);
    assert ByIp(reqs', h, r.ip, r.stamp - WINDOW) == ByIp(reqs, h, r.ip, r.stamp - WINDOW);
  }

  /** A request that is not among them, or keeps its email, ip and begin, can
      change without any earlier verdict changing. */
  lemma FrameVerdicts(s: State, i: nat, r': Request)
    requires HistoryInv(s) && VerdictsInv(s) && i < |s.reqs| && s.reqs[i].phase != Committed
    ensures VerdictsInv(With(s, i, r'))
  {
    var s' := With(s, i, r');
    forall q: nat | q < |s.history| ensures Verdict(s', q) {
      assert Verdict(s, q);
      assert i !in s.history;
      assert s.history[q] in s.history;
      FrameCounts(s.reqs, s'.reqs, s.history[..q], s.reqs[s.history[q]]);
    }
  }

  /** A step that touches only request i, before its commit. */
  lemma LocalStep(s: State, i: nat, r': Request)
    requires Inv(s) && i < |s.reqs| && InFlight(s.reqs[i]) && r'.phase != Committed
    requires TimesOk(s.now, r') && PurgedOk(s, r')
    requires forall j: nat :: j < |s.reqs| && j != i ==> Apart(r', s.reqs[j])
    requires InFlight(r') ==> CountsOk(s.reqs, s.history, r')
    ensures Inv(With(s, i, r'))
  {
    var s' := With(s, i, r');
    assert forall j: nat :: CommittedRequest(s', j) <==> CommittedRequest(s, j);
    LocalTable(s, i, r');
    assert LocksInv(s') by {
      forall j: nat, k: nat | j < |s.reqs| && k < |s.reqs| && j != k
        ensures Apart(s'.reqs[j], s'.reqs[k])
      {
        assert Apart(s.reqs[j], s.reqs[k]);
      }
    }
    forall j: nat | j < |s.reqs| && InFlight(s'.reqs[j])
      ensures CountsOk(s'.reqs, s'.history, s'.reqs[j])
    {
      assert i !in s.history;
      FrameCounts(s.reqs, s'.reqs, s.history, s'.reqs[j]);
    }
    FrameVerdicts(s, i, r');
  }

  lemma LocalTable(s: State, i: nat, r': Request)
    requires TableInv(s) && i < |s.reqs| && InFlight(s.reqs[i]) && r'.phase != Committed
    requires TimesOk(s.now, r') && PurgedOk(s, r')
    ensures TableInv(With(s, i, r'))
  {
    var s' := With(s, i, r');
    assert forall j: nat :: CommittedRequest(s', j) <==> CommittedRequest(s, j);
    forall j: nat | j < |s.reqs| ensures PurgedOk(s', s'.reqs[j]) {
      assert PurgedOk(s, s.reqs[j]);
    }
  }

  /** The email count, taken under the lock, is within its two windows:
      purges of other requests only remove rows that are too old for both, and
      rows too old for `since` are not counted. */
  lemma CountEmailInWindow(s: State, r: Request, key: string)
    requires RowsInv(s) && HistoryInv(s) && PurgedOk(s, r)
    requires Reached(r, Purged) && r.stamp <= s.now
    ensures |ByEmail(s.reqs, s.history, key, s.now - WINDOW)|
         <= |RowsByEmail(s, r, key)|
         <= |ByEmail(s.reqs, s.history, key, r.stamp - WINDOW)|
  {
    var seen := RowsByEmail(s, r, key);
    var recent := ByEmail(s.reqs, s.history, key, s.now - WINDOW);
    var arrived := ByEmail(s.reqs, s.history, key, r.stamp - WINDOW);
    forall j | j in recent ensures j in seen {
      assert CommittedRequest(s, j);
    }
    forall j | j in seen ensures j in arrived {
      assert CommittedRequest(s, j);
    }
    SubsetCard(recent, seen);
    SubsetCard(seen, arrived);
  }

  lemma CountIpInWindow(s: State, r: Request)
    requires RowsInv(s) && HistoryInv(s) && PurgedOk(s, r)
    requires Reached(r, Purged) && r.stamp <= s.now
    ensures |ByIp(s.reqs, s.history, r.ip, s.now - WINDOW)|
         <= |RowsByIp(s, r)|
         <= |ByIp(s.reqs, s.history, r.ip, r.stamp - WINDOW)|
  {
    var seen := RowsByIp(s, r);
    var recent := ByIp(s.reqs, s.history, r.ip, s.now - WINDOW);
    var arrived := ByIp(s.reqs, s.history, r.ip, r.stamp - WINDOW);
    forall j | j in recent ensures j in seen {
      assert CommittedRequest(s, j);
    }
    forall j | j in seen ensures j in arrived {
      assert CommittedRequest(s, j);
    }
    SubsetCard(recent, seen);
    SubsetCard(seen, arrived);
  }

  /** Appending a request of another email (another IP) changes no count. */
  lemma AppendCounts(reqs: seq<Request>, h: seq<nat>, i: nat, r: Request)
    requires i < |reqs|
    requires Reached(r, EmailCounted) ==> reqs[i].email != r.email
    requires Reached(r, BothCounted) ==> reqs[i].ip != r.ip
    ensures CountsOk(reqs, h + [i], r) == CountsOk(reqs, h, r)
  {
    if Reached(r, EmailCounted) {
      var key := r.email;
      assert ByEmail(reqs, h + [i], key, r.emailAt - WINDOW) == ByEmail(reqs, h, key, r.emailAt - WINDOW);
      assert ByEmail(reqs, h + [i], key, r.stamp - WINDOW) == ByEmail(reqs, h, key, r.stamp - WINDOW);
    }
    if Reached(r, BothCounted) {
      assert ByIp(reqs, h + [i], r.ip, r.ipAt - WINDOW) == ByIp(reqs, h, r.ip, r.ipAt - WINDOW);
      assert ByIp(reqs, h + [i], r.ip, r.stamp - WINDOW) == ByIp(reqs, h, r.ip, r.stamp - WINDOW);
    }
  }

  /** A commit adds no row of an email (or IP) that somebody else has counted
      and not yet released. */
  lemma CommitKeepsCounts(s: State, i: nat, k: nat)
    requires i < |s.reqs| && s.reqs[i].phase == Inserted
    requires k < |s.reqs| && k != i && InFlight(s.reqs[k])
    requires Apart(s.reqs[k], s.reqs[i]) && CountsOk(s.reqs, s.history, s.reqs[k])
    ensures var s' := AfterCommit(s, i); CountsOk(s'.reqs, s'.history, s'.reqs[k])
  {
    var r, s' := s.reqs[k], AfterCommit(s, i);
    FrameCounts(s.reqs, s'.reqs, s.history, r);
    AppendCounts(s'.reqs, s.history, i, r);
  }

  lemma CommitKeepsVerdict(s: State, i: nat, q: nat)
    requires HistoryInv(s) && Verdict(s, q)
    requires i < |s.reqs| && s.reqs[i].phase == Inserted
    ensures Verdict(AfterCommit(s, i), q)
  {
    var s' := AfterCommit(s, i);
    assert s'.history[..q] == s.history[..q];
    assert s.history[q] in s.history && !CommittedRequest(s, i);
    FrameCounts(s.reqs, s'.reqs, s.history[..q], s.reqs[s.history[q]]);
  }

  lemma CommitVerdict(s: State, i: nat)
    requires i < |s.reqs| && s.reqs[i].phase == Inserted && CountsOk(s.reqs, s.history, s.reqs[i])
    requires i !in s.history
    ensures Verdict(AfterCommit(s, i), |s.history|)
  {
    var s' := AfterCommit(s, i);
    assert s'.history[..|s.history|] == s.history;
    FrameCounts(s.reqs, s'.reqs, s.history, s'.reqs[i]);
  }

  lemma CommitKeepsVerdicts(s: State, i: nat)
    requires HistoryInv(s) && VerdictsInv(s)
    requires i < |s.reqs| && s.reqs[i].phase == Inserted && CountsOk(s.reqs, s.history, s.reqs[i])
    ensures VerdictsInv(AfterCommit(s, i))
  {
    var s' := AfterCommit(s, i);
    forall q: nat | q < |s'.history| ensures Verdict(s', q) {
      if q < |s.history| {
        CommitKeepsVerdict(s, i, q);
      } else {
        CommitVerdict(s, i);
      }
    }
  }

  lemma CommitKeepsTable(s: State, i: nat)
    requires TableInv(s) && i < |s.reqs| && s.reqs[i].phase == Inserted
    ensures TableInv(AfterCommit(s, i))
  {
    var s' := AfterCommit(s, i);
    assert TimesOk(s.now, s.reqs[i]) && PurgedOk(s, s.reqs[i]);
    assert forall j: nat :: CommittedRequest(s', j) <==> CommittedRequest(s, j) || j == i;
    forall j: nat | j < |s.reqs| ensures PurgedOk(s', s'.reqs[j]) && TimesOk(s'.now, s'.reqs[j]) {
      assert PurgedOk(s, s.reqs[j]) && TimesOk(s.now, s.reqs[j]);
    }
    assert i !in s.history;
    CommitKeepsRows(s, i);
  }

  lemma CommitKeepsRows(s: State, i: nat)
    requires RowsInv(s) && i < |s.reqs| && s.reqs[i].phase == Inserted
    requires TimesOk(s.now, s.reqs[i]) && PurgedOk(s, s.reqs[i])
    ensures RowsInv(AfterCommit(s, i))
  {}

  lemma CommitKeepsInv(s: State, i: nat)
    requires Inv(s) && i < |s.reqs| && s.reqs[i].phase == Inserted
    ensures Inv(AfterCommit(s, i))
  {
    CommitKeepsTable(s, i);
    CommitKeepsVerdicts(s, i);
    CommitKeepsAllCounts(s, i);
    CommitKeepsLocks(s, i);
  }

  lemma CommitKeepsAllCounts(s: State, i: nat)
    requires CountsInv(s) && LocksInv(s) && i < |s.reqs| && s.reqs[i].phase == Inserted
    ensures CountsInv(AfterCommit(s, i))
  {
    var s' := AfterCommit(s, i);
    forall k: nat | k < |s'.reqs| && InFlight(s'.reqs[k]) ensures CountsOk(s'.reqs, s'.history, s'.reqs[k]) {
      CommitKeepsCounts(s, i, k);
    }
  }

  lemma CommitKeepsLocks(s: State, i: nat)
    requires LocksInv(s) && i < |s.reqs| && s.reqs[i].phase == Inserted
    ensures LocksInv(AfterCommit(s, i))
  {
    var s' := AfterCommit(s, i);
    forall j: nat, k: nat | j < |s'.reqs| && k < |s'.reqs| && j != k ensures Apart(s'.reqs[j], s'.reqs[k]) {
      assert Apart(s.reqs[j], s.reqs[k]);
    }
  }

  lemma TickKeepsInv(s: State, to: int)
    requires Inv(s) && Enabled(s, Tick(to))
    ensures Inv(Do(s, Tick(to)))
  {
    var s' := Do(s, Tick(to));
    assert forall j: nat :: CommittedRequest(s', j) <==> CommittedRequest(s, j);
    forall j: nat | j < |s.reqs| ensures PurgedOk(s', s'.reqs[j]) && TimesOk(s'.now, s'.reqs[j]) {
      assert PurgedOk(s, s.reqs[j]) && TimesOk(s.now, s.reqs[j]);
    }
    forall q: nat | q < |s.history| ensures Verdict(s', q) {
      assert Verdict(s, q);
    }
  }

  ghost predicate RequestOk(s: State, r: Request) {
    TimesOk(s.now, r) && PurgedOk(s, r) && CountsOk(s.reqs, s.history, r)
  }

  lemma StampingStep(s: State, a: Action)
    requires Enabled(s, a) && (a.Stamp? || a.Begin? || a.LockEmail? || a.LockIp? || a.Insert? || a.Rollback?)
    requires RequestOk(s, s.reqs[a.i])
    ensures RequestOk(s, Do(s, a).reqs[a.i])
  {}

  lemma PurgeStep(s: State, i: nat)
    requires Enabled(s, Purge(i)) && RequestOk(s, s.reqs[i]) && RowsInv(s)
    ensures RequestOk(s, Do(s, Purge(i)).reqs[i])
  {}

  lemma CountEmailStep(s: State, r: Request)
    requires r.phase == Purged && RequestOk(s, r) && RowsInv(s) && HistoryInv(s)
    ensures RequestOk(s, EmailCountedBy(s, r))
  {
    CountEmailInWindow(s, r, r.email);
  }

  lemma CountIpStep(s: State, r: Request)
    requires r.phase == EmailCounted && RequestOk(s, r) && RowsInv(s) && HistoryInv(s)
    ensures RequestOk(s, IpCountedBy(s, r))
  {
    CountIpInWindow(s, r);
  }

  /** What a statement other than the commit makes of its own request. */
  lemma StepOfRequest(s: State, a: Action)
    requires TableInv(s) && Enabled(s, a) && !a.Tick? && !a.Commit?
    requires RequestOk(s, s.reqs[a.i])
    ensures RequestOk(s, Do(s, a).reqs[a.i])
  {
    match a
    case CountEmail(i) => CountEmailStep(s, s.reqs[i]);
    case CountIp(i) => CountIpStep(s, s.reqs[i]);
    case Purge(i) => PurgeStep(s, i);
    case _ => StampingStep(s, a);
  }

  lemma StepKeepsLocks(s: State, a: Action, j: nat)
    requires LocksInv(s) && Enabled(s, a) && !a.Tick? && !a.Commit?
    requires j < |s.reqs| && j != a.i
    ensures Apart(Do(s, a).reqs[a.i], s.reqs[j])
  {}

  lemma RequestStepKeepsInv(s: State, a: Action)
    requires Inv(s) && Enabled(s, a) && !a.Tick? && !a.Commit?
    ensures Inv(Do(s, a))
  {
    var r' := Do(s, a).reqs[a.i];
    StepOfRequest(s, a);
    forall j: nat | j < |s.reqs| && j != a.i ensures Apart(r', s.reqs[j]) {
      StepKeepsLocks(s, a, j);
    }
    assert Do(s, a) == With(s, a.i, r');
    LocalStep(s, a.i, r');
  }

  lemma StepKeepsInv(s: State, a: Action)
    requires Inv(s) && Enabled(s, a)
    ensures Inv(Do(s, a))
  {
    match a
    case Tick(to) => TickKeepsInv(s, to);
    case Commit(i) => CommitKeepsInv(s, i);
    case _ => RequestStepKeepsInv(s, a);
  }

  lemma {:induction false} RunKeepsInv(s: State, run: seq<Action>)
    requires Inv(s) && ValidRun(s, run)
    ensures Inv(Final(s, run))
    decreases |run|
  {
    if run != [] {
      StepKeepsInv(s, run[0]);
      RunKeepsInv(Do(s, run[0]), run[1..]);
    }
  }

  lemma InitInv(env: Env, raw: seq<string>, s: State)
    requires Init(env, raw, s)
    ensures Inv(s)
  {
    assert forall j: nat :: !CommittedRequest(s, j);
    forall i: nat | i < |s.reqs| ensures RequestOk(s, s.reqs[i]) {
      IdleOk(s, s.reqs[i]);
    }
    forall i: nat, j: nat | i < |s.reqs| && j < |s.reqs| ensures Apart(s.reqs[i], s.reqs[j]) {
      IdleApart(env, s.reqs[i], s.reqs[j]);
    }
  }

  lemma IdleOk(s: State, r: Request)
    requires r.phase == Idle
    ensures RequestOk(s, r)
  {}

  lemma IdleApart(env: Env, r: Request, r': Request)
    requires r.phase == Idle && r'.phase == Idle
    requires r.emailLock == env.hash(r.email) && r'.emailLock == env.hash(r'.email)
    requires r.ipLock == env.hash(r.ip) && r'.ipLock == env.hash(r'.ip)
    ensures Apart(r, r')
  {}

  lemma ReachableInv(env: Env, raw: seq<string>, s: State)
    requires Reachable(env, raw, s)
    ensures Inv(s)
  {
    var s0, run :| Init(env, raw, s0) && ValidRun(s0, run) && Final(s0, run) == s;
    InitInv(env, raw, s0);
    RunKeepsInv(s0, run);
  }

  // ---- the throttle's guarantee ----

  ghost predicate Keyed(env: Env, raw: seq<string>, s: State) {
    |raw| == |s.reqs| && forall i: nat :: i < |raw| ==> s.reqs[i].email == env.lower(raw[i])
  }

  lemma {:induction false} RunKeepsKeys(env: Env, raw: seq<string>, s: State, run: seq<Action>)
    requires Keyed(env, raw, s) && ValidRun(s, run)
    ensures Keyed(env, raw, Final(s, run))
    decreases |run|
  {
    if run != [] {
      RunKeepsKeys(env, raw, Do(s, run[0]), run[1..]);
    }
  }

  lemma ReachableKeyed(env: Env, raw: seq<string>, s: State)
    requires Reachable(env, raw, s)
    ensures Keyed(env, raw, s)
  {
    var s0, run :| Init(env, raw, s0) && ValidRun(s0, run) && Final(s0, run) == s;
    RunKeepsKeys(env, raw, s0, run);
  }

  /** In every interleaving: an allowed request saw fewer than 3 earlier
      requests of its email (10 of its IP) within the window that ends at its
      count, and a refused one had 3 (10) within the window that ends at its
      arrival. "Earlier" is the order of commits, which for one email or one IP
      is the order in which the lock was won. */
  lemma VerdictMeaning(env: Env, raw: seq<string>, s: State, q: nat)
    requires Reachable(env, raw, s) && q < |s.history|
    ensures s.history[q] < |s.reqs|
    ensures var r, h := s.reqs[s.history[q]], s.history[..q];
            && r.phase == Committed
            && (r.allow ==> && |ByEmail(s.reqs, h, r.email, r.emailAt - WINDOW)| < EMAIL_LIMIT
                            && |ByIp(s.reqs, h, r.ip, r.ipAt - WINDOW)| < IP_LIMIT)
            && (!r.allow ==> || |ByEmail(s.reqs, h, r.email, r.stamp - WINDOW)| >= EMAIL_LIMIT
                             || |ByIp(s.reqs, h, r.ip, r.stamp - WINDOW)| >= IP_LIMIT)
  {
    ReachableInv(env, raw, s);
    assert Verdict(s, q);
    assert s.history[q] in s.history;
  }

  /** When no clock tick falls between the arrival and the counts, the verdict
      is exactly the limit. */
  lemma PromptVerdictIsExact(env: Env, raw: seq<string>, s: State, q: nat)
    requires Reachable(env, raw, s) && q < |s.history|
    ensures s.history[q] < |s.reqs|
    ensures var r, h := s.reqs[s.history[q]], s.history[..q];
            r.stamp == r.ipAt ==>
              (r.allow <==> && |ByEmail(s.reqs, h, r.email, r.stamp - WINDOW)| < EMAIL_LIMIT
                            && |ByIp(s.reqs, h, r.ip, r.stamp - WINDOW)| < IP_LIMIT)
  {
    DecisionTimes(env, raw, s, q);
    VerdictMeaning(env, raw, s, q);
  }

  lemma DecisionTimes(env: Env, raw: seq<string>, s: State, q: nat)
    requires Reachable(env, raw, s) && q < |s.history|
    ensures s.history[q] < |s.reqs|
    ensures var r := s.reqs[s.history[q]]; r.stamp <= r.begin <= r.emailAt <= r.ipAt
  {
    ReachableInv(env, raw, s);
    assert s.history[q] in s.history;
    assert TimesOk(s.now, s.reqs[s.history[q]]);
  }

  /** Of any three earlier requests for an allowed one's address, whatever
      the casing they were submitted in, the oldest row is more than 15 minutes
      older than the decision. */
  lemma OldestOfThreeIsOutside(env: Env, raw: seq<string>, s: State, p1: nat, p2: nat, p3: nat, q: nat)
    requires Reachable(env, raw, s) && p1 < p2 < p3 < q < |s.history|
    requires forall p: nat :: p < |s.history| ==> s.history[p] < |raw|
    requires forall p :: p in {p1, p2, p3} ==> env.lower(raw[s.history[p]]) == env.lower(raw[s.history[q]])
    requires s.history[q] < |s.reqs| && s.reqs[s.history[q]].allow
    ensures exists p :: p in {p1, p2, p3} && s.history[p] < |s.reqs|
                        && s.reqs[s.history[p]].begin < s.reqs[s.history[q]].emailAt - WINDOW
  {
    ReachableKeyed(env, raw, s);
    VerdictMeaning(env, raw, s, q);
    var r := s.reqs[s.history[q]];
    if forall p :: p in {p1, p2, p3} ==> s.reqs[s.history[p]].begin >= r.emailAt - WINDOW {
      HistoryHasNoRepeats(env, raw, s, p1, p2);
      HistoryHasNoRepeats(env, raw, s, p1, p3);
      HistoryHasNoRepeats(env, raw, s, p2, p3);
      ThreeInWindow(s.reqs, s.history[..q], r.email, r.emailAt - WINDOW, p1, p2, p3);
      assert false;
    }
  }

  lemma HistoryHasNoRepeats(env: Env, raw: seq<string>, s: State, p: nat, q: nat)
    requires Reachable(env, raw, s) && p < q < |s.history|
    ensures s.history[p] != s.history[q]
  {
    ReachableInv(env, raw, s);
  }

  lemma ThreeInWindow(reqs: seq<Request>, h: seq<nat>, key: string, cutoff: int, p1: nat, p2: nat, p3: nat)
    requires p1 < |h| && p2 < |h| && p3 < |h| && h[p1] != h[p2] && h[p1] != h[p3] && h[p2] != h[p3]
    requires forall p :: p in {p1, p2, p3} ==> h[p] < |reqs| && reqs[h[p]].email == key && reqs[h[p]].begin >= cutoff
    ensures |ByEmail(reqs, h, key, cutoff)| >= 3
  {
    var recent := ByEmail(reqs, h, key, cutoff);
    var three := {h[p1], h[p2], h[p3]};
    assert h[p1] in recent && h[p2] in recent && h[p3] in recent;
    SubsetCard(three, recent);
  }

  // ---- composing runs ----

  lemma {:induction false} AppendAction(s: State, run: seq<Action>, a: Action)
    requires ValidRun(s, run) && Enabled(Final(s, run), a)
    ensures ValidRun(s, run + [a]) && Final(s, run + [a]) == Do(Final(s, run), a)
    decreases |run|
  {
    if run == [] {
      assert run + [a] == [a];
      assert [a][1..] == [];
    } else {
      AppendAction(Do(s, run[0]), run[1..], a);
      assert (run + [a])[1..] == run[1..] + [a];
    }
  }

  /** Nobody but i holds a lock or is about to count. */
  ghost predicate Quiet(s: State, i: nat) {
    forall j: nat :: j < |s.reqs| && j != i ==> s.reqs[j].phase in {Idle, Stamped, Begun, Committed, RolledBack}
  }

  // ---- no deadlock, and every request finishes ----

  /** i waits for an advisory lock that j holds. */
  ghost predicate WaitsFor(s: State, i: nat, j: nat) {
    i < |s.reqs| && j < |s.reqs| && i != j &&
    ((s.reqs[i].phase == Begun && HoldsEmailLock(s.reqs[j]) && s.reqs[i].emailLock == s.reqs[j].emailLock) ||
     (s.reqs[i].phase == EmailLocked && HoldsIpLock(s.reqs[j]) && s.reqs[i].ipLock == s.reqs[j].ipLock))
  }

  ghost predicate WaitChain(s: State, chain: seq<nat>) {
    forall k: nat :: k + 1 < |chain| ==> WaitsFor(s, chain[k], chain[k + 1])
  }

  /** Along a wait edge the number of locks held goes up. */
  function LocksHeld(r: Request): nat {
    if HoldsIpLock(r) then 2 else if HoldsEmailLock(r) then 1 else 0
  }

  lemma WaitEdge(s: State, chain: seq<nat>, k: nat)
    requires WaitChain(s, chain) && k + 1 < |chain|
    ensures chain[k] < |s.reqs| && chain[k + 1] < |s.reqs|
    ensures LocksHeld(s.reqs[chain[k]]) < LocksHeld(s.reqs[chain[k + 1]])
  {}

  lemma {:induction false} WaitChainClimbs(s: State, chain: seq<nat>, k: nat)
    requires WaitChain(s, chain) && |chain| > 1 && 0 < k < |chain|
    ensures chain[0] < |s.reqs| && chain[k] < |s.reqs|
    ensures LocksHeld(s.reqs[chain[0]]) + k <= LocksHeld(s.reqs[chain[k]])
  {
    WaitEdge(s, chain, k - 1);
    if k > 1 {
      WaitChainClimbs(s, chain, k - 1);
    }
  }

  /** The wait-for graph has no cycle, and a chain has at most three members. */
  lemma WaitChainsAreShort(s: State, chain: seq<nat>)
    requires WaitChain(s, chain) && |chain| > 1
    ensures |chain| <= 3
    ensures chain[0] != chain[|chain| - 1]
  {
    WaitChainClimbs(s, chain, |chain| - 1);
  }

  ghost predicate Forward(a: Action) {
    !a.Tick? && !a.Rollback?
  }

  /** As long as a request is unfinished, some request can take its next step,
      with colliding hashes too. */
  lemma SomebodyCanStep(s: State, i: nat)
    requires i < |s.reqs| && InFlight(s.reqs[i])
    ensures exists a :: Forward(a) && Enabled(s, a)
  {
    if j: nat :| j < |s.reqs| && HoldsIpLock(s.reqs[j]) {
      match s.reqs[j].phase
      case BothLocked => assert Enabled(s, Purge(j));
      case Purged => assert Enabled(s, CountEmail(j));
      case EmailCounted => assert Enabled(s, CountIp(j));
      case BothCounted => assert Enabled(s, Insert(j));
      case Inserted => assert Enabled(s, Commit(j));
    } else if j: nat :| j < |s.reqs| && HoldsEmailLock(s.reqs[j]) {
      assert Enabled(s, LockIp(j));
    } else {
      match s.reqs[i].phase
      case Idle => assert Enabled(s, Stamp(i));
      case Stamped => assert Enabled(s, Begin(i));
      case Begun => assert Enabled(s, LockEmail(i));
    }
  }

  ghost function Remaining(reqs: seq<Request>): nat {
    if reqs == [] then 0 else 9 - Rank(reqs[0].phase) + Remaining(reqs[1..])
  }

  lemma {:induction false} RemainingDrops(reqs: seq<Request>, i: nat, r': Request)
    requires i < |reqs|
    ensures Remaining(reqs[i := r']) == Remaining(reqs) + Rank(reqs[i].phase) - Rank(r'.phase)
  {
    if i > 0 {
      RemainingDrops(reqs[1..], i - 1, r');
      assert reqs[i := r'][1..] == reqs[1..][i - 1 := r'];
    } else {
      assert reqs[0 := r'][1..] == reqs[1..];
    }
  }

  ghost function RequestSteps(run: seq<Action>): nat {
    if run == [] then 0 else (if run[0].Tick? then 0 else 1) + RequestSteps(run[1..])
  }

  /** Every statement, rollbacks included, uses up remaining work: no run takes
      more steps than there is work left, so with the lemma above every run
      that is not cut short ends with all requests finished. */
  lemma {:induction false} RunsAreBounded(s: State, run: seq<Action>)
    requires ValidRun(s, run)
    ensures RequestSteps(run) + Remaining(Final(s, run).reqs) <= Remaining(s.reqs)
    decreases |run|
  {
    if run != [] {
      StepUsesWork(s, run[0]);
      RunsAreBounded(Do(s, run[0]), run[1..]);
    }
  }

  lemma StepUsesWork(s: State, a: Action)
    ensures Enabled(s, a) && !a.Tick? ==> 1 + Remaining(Do(s, a).reqs) <= Remaining(s.reqs)
  {
    if Enabled(s, a) && !a.Tick? {
      RemainingDrops(s.reqs, a.i, Do(s, a).reqs[a.i]);
    }
  }
}
