/** Issuing and redeeming password-reset tokens, interleaved. An issuance holds
    its employee's KeyedMutex of its own process around a transaction that
    invalidates the unused tokens and inserts a new one; a redemption is a
    transaction that claims one unused, unexpired token. A row written by an open
    transaction is locked until it ends, and transactions may roll back anywhere.
 */
module ResetTokens {
  import opened Results

  const TTL: int := 30 * 60 * 1_000_000

  /** A row of password_reset_tokens. `issuer` stands for the hash of the raw
      token that one issuance generated. */
  datatype Token = Token(employee: nat, issuer: nat, expires: int, used: bool, redeemedBy: Option<nat>)

  datatype IssuePhase = Idle | Locked | Begun | Cleared | Inserted | Ended(ok: bool) | Released(succeeded: bool)

  /** One call of issuePasswordResetToken; `cleared` are the rows its UPDATE hit. */
  datatype Issuer = Issuer(process: nat, employee: nat, phase: IssuePhase, cleared: set<nat>, expires: int)

  datatype RedeemPhase = Waiting | Open | Claimed | Redeemed | Failed

  /** One call of CompleteActivation with the raw token of issuance `secret`. */
  datatype Redeemer = Redeemer(secret: nat, phase: RedeemPhase, begin: int, token: nat)

  datatype State = State(now: int, tokens: seq<Token>, issuers: seq<Issuer>, redeemers: seq<Redeemer>)

  datatype Action =
    | Tick(to: int)
    | Lock(i: nat) | BeginIssue(i: nat) | Invalidate(i: nat) | Insert(i: nat)
    | CommitIssue(i: nat) | RollbackIssue(i: nat) | Unlock(i: nat)
    | BeginRedeem(r: nat) | Claim(r: nat, k: nat) | Reject(r: nat) | CommitRedeem(r: nat) | RollbackRedeem(r: nat)

  predicate HoldsMutex(x: Issuer) {
    x.phase != Idle && !x.phase.Released?
  }

  predicate HasCleared(x: Issuer) {
    x.phase == Cleared || x.phase == Inserted
  }

  predicate IssueOpen(x: Issuer) {
    x.phase == Begun || HasCleared(x)
  }

  /** No other goroutine of the same process holds the employee's mutex. */
  predicate MutexFree(s: State, i: nat)
    requires i < |s.issuers|
  {
    forall j: nat :: j < |s.issuers| && j != i && HoldsMutex(s.issuers[j]) ==>
                       s.issuers[j].process != s.issuers[i].process || s.issuers[j].employee != s.issuers[i].employee
  }

  predicate LockedByIssuer(s: State, k: nat) {
    exists j: nat :: j < |s.issuers| && HasCleared(s.issuers[j]) && k in s.issuers[j].cleared
  }

  predicate LockedByRedeemer(s: State, k: nat) {
    exists r: nat :: r < |s.redeemers| && s.redeemers[r].phase == Claimed && s.redeemers[r].token == k
  }

  /** WHERE employee_id = e AND used_at IS NULL. */
  function Unused(tokens: seq<Token>, e: nat): set<nat> {
    set k: nat | k < |tokens| && tokens[k].employee == e && !tokens[k].used
  }

  /** WHERE token_hash = .. AND used_at IS NULL AND expires_at > now(). */
  predicate Redeemable(t: Token, secret: nat, now: int) {
    t.issuer == secret && !t.used && t.expires > now
  }

  ghost predicate Enabled(s: State, a: Action) {
    match a
    case Tick(to) => s.now <= to
    case Lock(i) => i < |s.issuers| && s.issuers[i].phase == Idle && MutexFree(s, i)
    case BeginIssue(i) => i < |s.issuers| && s.issuers[i].phase == Locked
    case Invalidate(i) =>
      i < |s.issuers| && s.issuers[i].phase == Begun
      && forall k :: k in Unused(s.tokens, s.issuers[i].employee) ==> !LockedByIssuer(s, k) && !LockedByRedeemer(s, k)
    case Insert(i) => i < |s.issuers| && s.issuers[i].phase == Cleared
    case CommitIssue(i) => i < |s.issuers| && s.issuers[i].phase == Inserted
    case RollbackIssue(i) => i < |s.issuers| && (s.issuers[i].phase == Locked || IssueOpen(s.issuers[i]))
    case Unlock(i) => i < |s.issuers| && s.issuers[i].phase.Ended?
    case BeginRedeem(r) => r < |s.redeemers| && s.redeemers[r].phase == Waiting
    case Claim(r, k) =>
      r < |s.redeemers| && s.redeemers[r].phase == Open && k < |s.tokens|
      && Redeemable(s.tokens[k], s.redeemers[r].secret, s.redeemers[r].begin)
      && !LockedByIssuer(s, k) && !LockedByRedeemer(s, k)
    case Reject(r) =>
      r < |s.redeemers| && s.redeemers[r].phase == Open
      && forall k: nat :: k < |s.tokens| ==> !Redeemable(s.tokens[k], s.redeemers[r].secret, s.redeemers[r].begin)
    case CommitRedeem(r) => r < |s.redeemers| && s.redeemers[r].phase == Claimed
    case RollbackRedeem(r) => r < |s.redeemers| && (s.redeemers[r].phase == Open || s.redeemers[r].phase == Claimed)
  }

  function WithIssuer(s: State, i: nat, x: Issuer): State
    requires i < |s.issuers|
  {
    s.(issuers := s.issuers[i := x])
  }

  function WithRedeemer(s: State, r: nat, x: Redeemer): State
    requires r < |s.redeemers|
  {
    s.(redeemers := s.redeemers[r := x])
  }

  function MarkUsed(tokens: seq<Token>, ks: set<nat>): (r: seq<Token>)
    ensures |r| == |tokens|
    ensures forall k: nat :: k < |tokens| ==> r[k] == if k in ks then tokens[k].(used := true) else tokens[k]
  {
    seq(|tokens|, k requires 0 <= k < |tokens| => if k in ks then tokens[k].(used := true) else tokens[k])
  }

  function AfterIssue(s: State, i: nat): seq<Token>
    requires i < |s.issuers|
  {
    var x := s.issuers[i];
    MarkUsed(s.tokens, x.cleared) + [Token(x.employee, i, x.expires, false, None)]
  }

  function AfterRedeem(s: State, r: nat): seq<Token>
    requires r < |s.redeemers|
  {
    var k := s.redeemers[r].token;
    if k < |s.tokens| then s.tokens[k := s.tokens[k].(used := true, redeemedBy := Some(r))] else s.tokens
  }

  ghost function Do(s: State, a: Action): State
    requires Enabled(s, a)
  {
    match a
    case Tick(to) => s.(now := to)
    case Lock(i) => WithIssuer(s, i, s.issuers[i].(phase := Locked))
    case BeginIssue(i) => WithIssuer(s, i, s.issuers[i].(phase := Begun))
    case Invalidate(i) => WithIssuer(s, i, s.issuers[i].(phase := Cleared,
                                     cleared := Unused(s.tokens, s.issuers[i].employee)))
    case Insert(i) => WithIssuer(s, i, s.issuers[i].(phase := Inserted, expires := s.now + TTL))
    case CommitIssue(i) => WithIssuer(s, i, s.issuers[i].(phase := Ended(true))).(tokens := AfterIssue(s, i))
    case RollbackIssue(i) => WithIssuer(s, i, s.issuers[i].(phase := Ended(false)))
    case Unlock(i) => WithIssuer(s, i, s.issuers[i].(phase := Released(s.issuers[i].phase.ok)))
    case BeginRedeem(r) => WithRedeemer(s, r, s.redeemers[r].(phase := Open, begin := s.now))
    case Claim(r, k) => WithRedeemer(s, r, s.redeemers[r].(phase := Claimed, token := k))
    case Reject(r) => WithRedeemer(s, r, s.redeemers[r].(phase := Failed))
    case CommitRedeem(r) => WithRedeemer(s, r, s.redeemers[r].(phase := Redeemed)).(tokens := AfterRedeem(s, r))
    case RollbackRedeem(r) => WithRedeemer(s, r, s.redeemers[r].(phase := Failed))
  }

  ghost predicate Init(s: State) {
    && s.tokens == []
    && (forall i: nat :: i < |s.issuers| ==> s.issuers[i].phase == Idle)
    && (forall r: nat :: r < |s.redeemers| ==> s.redeemers[r].phase == Waiting)
  }

  ghost predicate ValidRun(s: State, run: seq<Action>)
    decreases |run|
  {
    run == [] || (Enabled(s, run[0]) && ValidRun(Do(s, run[0]), run[1..]))
  }

  ghost function Final(s: State, run: seq<Action>): State
    requires ValidRun(s, run)
    decreases |run|
  {
    if run == [] then s else Final(Do(s, run[0]), run[1..])
  }

  /** All issuances for one employee run in one process, as the mutex assumes. */
  ghost predicate OneProcess(issuers: seq<Issuer>) {
    forall i: nat, j: nat :: i < |issuers| && j < |issuers| && issuers[i].employee == issuers[j].employee ==>
                               issuers[i].process == issuers[j].process
  }

  // ---- what holds however many processes there are ----

  /** The rows that i's UPDATE hit are its own employee's and nobody else's to claim. */
  ghost predicate RowsApart(s: State, i: nat)
    requires i < |s.issuers|
  {
    HasCleared(s.issuers[i]) ==>
      forall k :: k in s.issuers[i].cleared ==>
                    !LockedByRedeemer(s, k) && k < |s.tokens| && s.tokens[k].employee == s.issuers[i].employee
  }

  ghost predicate RedeemerOk(s: State, r: nat)
    requires r < |s.redeemers|
  {
    var x := s.redeemers[r];
    && (x.phase == Claimed ==> x.token < |s.tokens| && Redeemable(s.tokens[x.token], x.secret, x.begin))
    && (x.phase == Redeemed ==>
          && x.token < |s.tokens| && s.tokens[x.token].redeemedBy == Some(r) && s.tokens[x.token].issuer == x.secret
          && s.tokens[x.token].expires > x.begin)
  }

  ghost predicate ClaimsApart(s: State) {
    forall r: nat, q: nat :: r < |s.redeemers| && q < |s.redeemers| && r != q
                             && s.redeemers[r].phase == Claimed && s.redeemers[q].phase == Claimed ==>
                               s.redeemers[r].token != s.redeemers[q].token
  }

  predicate Succeeded(p: IssuePhase) {
    p == Ended(true) || p == Released(true)
  }

  ghost predicate TokenOk(s: State, k: nat)
    requires k < |s.tokens|
  {
    var t := s.tokens[k];
    && t.issuer < |s.issuers| && t.employee == s.issuers[t.issuer].employee && Succeeded(s.issuers[t.issuer].phase)
    && (t.redeemedBy.Some? ==> t.used)
  }

  ghost predicate IssuersApart(tokens: seq<Token>) {
    forall k: nat, k': nat :: k < k' < |tokens| ==> tokens[k].issuer != tokens[k'].issuer
  }

  ghost predicate Consistent(s: State) {
    && ClaimsApart(s) && IssuersApart(s.tokens)
    && (forall i: nat :: i < |s.issuers| ==> RowsApart(s, i))
    && (forall r: nat :: r < |s.redeemers| ==> RedeemerOk(s, r))
    && (forall k: nat :: k < |s.tokens| ==> TokenOk(s, k))
  }

  lemma IssueStepConsistent(s: State, a: Action)
    requires Consistent(s) && Enabled(s, a)
    requires a.Lock? || a.BeginIssue? || a.Insert? || a.RollbackIssue? || a.Unlock? || a.Invalidate?
    ensures Consistent(Do(s, a))
  {
    var s' := Do(s, a);
    assert s'.redeemers == s.redeemers && s'.tokens == s.tokens;
    forall i: nat | i < |s'.issuers| ensures RowsApart(s', i) {
      assert RowsApart(s, i);
    }
    forall r: nat | r < |s'.redeemers| ensures RedeemerOk(s', r) {
      assert RedeemerOk(s, r);
    }
    forall k: nat | k < |s'.tokens| ensures TokenOk(s', k) {
      assert TokenOk(s, k);
    }
  }

  lemma RedeemStepConsistent(s: State, a: Action)
    requires Consistent(s) && Enabled(s, a) && (a.BeginRedeem? || a.Claim? || a.Reject? || a.RollbackRedeem?)
    ensures Consistent(Do(s, a))
  {
    var s' := Do(s, a);
    forall i: nat | i < |s'.issuers| ensures RowsApart(s', i) {
      assert RowsApart(s, i);
      if HasCleared(s.issuers[i]) {
        forall k | k in s.issuers[i].cleared ensures !LockedByRedeemer(s', k) {
          assert !LockedByRedeemer(s, k);
          assert LockedByIssuer(s, k);
        }
      }
    }
    forall r: nat | r < |s'.redeemers| ensures RedeemerOk(s', r) {
      assert RedeemerOk(s, r);
    }
    forall k: nat | k < |s'.tokens| ensures TokenOk(s', k) {
      assert TokenOk(s, k);
    }
    forall r: nat, q: nat | r < |s'.redeemers| && q < |s'.redeemers| && r != q
                            && s'.redeemers[r].phase == Claimed && s'.redeemers[q].phase == Claimed
      ensures s'.redeemers[r].token != s'.redeemers[q].token
    {
      if a.Claim? {
        assert !LockedByRedeemer(s, a.k);
      }
    }
  }

  lemma CommitIssueConsistent(s: State, i: nat)
    requires Consistent(s) && Enabled(s, CommitIssue(i))
    ensures Consistent(Do(s, CommitIssue(i)))
  {
    var s' := Do(s, CommitIssue(i));
    assert RowsApart(s, i);
    forall j: nat | j < |s'.issuers| ensures RowsApart(s', j) {
      assert RowsApart(s, j);
    }
    forall r: nat | r < |s'.redeemers| ensures RedeemerOk(s', r) {
      assert RedeemerOk(s, r);
      assert s.redeemers[r].phase == Claimed ==> LockedByRedeemer(s, s.redeemers[r].token);
    }
    forall k: nat | k < |s'.tokens| ensures TokenOk(s', k) && (k < |s.tokens| ==> s'.tokens[k].issuer != i) {
      assert k < |s.tokens| ==> TokenOk(s, k);
    }
  }

  lemma CommitRedeemConsistent(s: State, r: nat)
    requires Consistent(s) && Enabled(s, CommitRedeem(r))
    ensures Consistent(Do(s, CommitRedeem(r)))
  {
    var s' := Do(s, CommitRedeem(r));
    assert RedeemerOk(s, r);
    forall j: nat | j < |s'.issuers| ensures RowsApart(s', j) {
      assert RowsApart(s, j);
    }
    forall q: nat | q < |s'.redeemers| ensures RedeemerOk(s', q) {
      assert RedeemerOk(s, q);
      assert TokenOk(s, s.redeemers[r].token);
    }
    forall k: nat | k < |s'.tokens| ensures TokenOk(s', k) {
      assert TokenOk(s, k);
    }
  }

  lemma StepConsistent(s: State, a: Action)
    requires Consistent(s) && Enabled(s, a)
    ensures Consistent(Do(s, a))
  {
    match a
    case Tick(_) =>
      forall i: nat | i < |s.issuers| ensures RowsApart(Do(s, a), i) { assert RowsApart(s, i); }
      forall r: nat | r < |s.redeemers| ensures RedeemerOk(Do(s, a), r) { assert RedeemerOk(s, r); }
      forall k: nat | k < |s.tokens| ensures TokenOk(Do(s, a), k) { assert TokenOk(s, k); }
    case CommitIssue(i) => CommitIssueConsistent(s, i);
    case CommitRedeem(r) => CommitRedeemConsistent(s, r);
    case BeginRedeem(_) => RedeemStepConsistent(s, a);
    case Claim(_, _) => RedeemStepConsistent(s, a);
    case Reject(_) => RedeemStepConsistent(s, a);
    case RollbackRedeem(_) => RedeemStepConsistent(s, a);
    case _ => IssueStepConsistent(s, a);
  }

  lemma {:induction false} RunConsistent(s: State, run: seq<Action>)
    requires Consistent(s) && ValidRun(s, run)
    ensures Consistent(Final(s, run))
    decreases |run|
  {
    if run != [] {
      StepConsistent(s, run[0]);
      RunConsistent(Do(s, run[0]), run[1..]);
    }
  }

  // ---- what holds when the mutex covers every issuance for an employee ----

  /** The last token of its employee in commit order. */
  ghost predicate Latest(tokens: seq<Token>, k: nat)
    requires k < |tokens|
  {
    forall k': nat :: k < k' < |tokens| ==> tokens[k'].employee != tokens[k].employee
  }

  /** Unused means: latest, and not redeemed. */
  ghost predicate UsedOk(tokens: seq<Token>, k: nat)
    requires k < |tokens|
  {
    !tokens[k].used <==> Latest(tokens, k) && tokens[k].redeemedBy == None
  }

  ghost predicate UsedIsHistory(tokens: seq<Token>) {
    forall k: nat :: k < |tokens| ==> UsedOk(tokens, k)
  }

  ghost predicate MutexOk(s: State) {
    forall i: nat, j: nat :: i < |s.issuers| && j < |s.issuers| && i != j
                             && HoldsMutex(s.issuers[i]) && HoldsMutex(s.issuers[j]) ==>
                               s.issuers[i].employee != s.issuers[j].employee
  }

  ghost predicate ClearedOk(s: State, i: nat)
    requires i < |s.issuers|
  {
    HasCleared(s.issuers[i]) ==> s.issuers[i].cleared == Unused(s.tokens, s.issuers[i].employee)
  }

  ghost predicate Inv(s: State) {
    && Consistent(s) && OneProcess(s.issuers) && UsedIsHistory(s.tokens) && MutexOk(s)
    && forall i: nat :: i < |s.issuers| ==> ClearedOk(s, i)
  }

  lemma PlainStepKeepsInv(s: State, a: Action)
    requires Inv(s) && Enabled(s, a) && !a.CommitIssue? && !a.CommitRedeem?
    ensures Inv(Do(s, a))
  {
    StepConsistent(s, a);
    var s' := Do(s, a);
    assert s'.tokens == s.tokens;
    forall i: nat | i < |s'.issuers| ensures ClearedOk(s', i) {
      assert ClearedOk(s, i);
    }
  }

  lemma CommitIssueUsed(s: State, i: nat)
    requires Inv(s) && Enabled(s, CommitIssue(i))
    ensures UsedIsHistory(AfterIssue(s, i))
  {
    var tokens := AfterIssue(s, i);
    var n := |s.tokens|;
    assert ClearedOk(s, i);
    forall k: nat | k < |tokens| ensures UsedOk(tokens, k) {
      if k < n {
        assert UsedOk(s.tokens, k) && TokenOk(s, k);
        if s.tokens[k].employee != tokens[n].employee {
          assert forall k': nat :: k < k' < n ==> tokens[k'].employee == s.tokens[k'].employee;
          assert Latest(s.tokens, k) ==> Latest(tokens, k);
          assert Latest(tokens, k) ==> Latest(s.tokens, k);
        }
      }
    }
  }

  lemma CommitIssueKeepsInv(s: State, i: nat)
    requires Inv(s) && Enabled(s, CommitIssue(i))
    ensures Inv(Do(s, CommitIssue(i)))
  {
    CommitIssueConsistent(s, i);
    CommitIssueUsed(s, i);
    var s' := Do(s, CommitIssue(i));
    assert ClearedOk(s, i);
    forall j: nat | j < |s'.issuers| ensures ClearedOk(s', j) {
      assert ClearedOk(s, j);
    }
  }

  lemma CommitRedeemUsed(s: State, r: nat)
    requires Inv(s) && Enabled(s, CommitRedeem(r))
    ensures UsedIsHistory(AfterRedeem(s, r))
  {
    assert RedeemerOk(s, r);
    var tokens := AfterRedeem(s, r);
    assert forall k: nat :: k < |tokens| ==> tokens[k].employee == s.tokens[k].employee;
    forall k: nat | k < |tokens| ensures UsedOk(tokens, k) {
      assert UsedOk(s.tokens, k);
      assert Latest(tokens, k) <==> Latest(s.tokens, k);
    }
  }

  lemma CommitRedeemKeepsInv(s: State, r: nat)
    requires Inv(s) && Enabled(s, CommitRedeem(r))
    ensures Inv(Do(s, CommitRedeem(r)))
  {
    CommitRedeemConsistent(s, r);
    CommitRedeemUsed(s, r);
    assert RedeemerOk(s, r);
    var s' := Do(s, CommitRedeem(r));
    var k := s.redeemers[r].token;
    assert LockedByRedeemer(s, k);
    forall j: nat | j < |s'.issuers| ensures ClearedOk(s', j) {
      assert ClearedOk(s, j) && RowsApart(s, j);
    }
  }

  lemma StepKeepsInv(s: State, a: Action)
    requires Inv(s) && Enabled(s, a)
    ensures Inv(Do(s, a))
  {
    match a
    case CommitIssue(i) => CommitIssueKeepsInv(s, i);
    case CommitRedeem(r) => CommitRedeemKeepsInv(s, r);
    case _ => PlainStepKeepsInv(s, a);
  }

  lemma {:induction false} RunKeepsInv(s: State, run: seq<Action>)
    requires Inv(s) && ValidRun(s, run)
    ensures Inv(Final(s, run))
    decreases |run|
  {
    if run != [] {
      StepKeepsInv(s, run[0]);
      RunKeepsInv(Do(s, run[0]), run[1..]);
    }
  }

  // ---- the guarantees ----

  ghost predicate OneUnusedEach(tokens: seq<Token>) {
    forall k: nat, k': nat ::
      k < |tokens| && k' < |tokens| && !tokens[k].used && !tokens[k'].used
      && tokens[k].employee == tokens[k'].employee ==>
        k == k'
  }

  /** A token is unused exactly when it is the last one committed for its
      employee and no committed redemption took it. */
  lemma UnusedIsLatestUnredeemed(s0: State, run: seq<Action>, k: nat)
    requires Init(s0) && OneProcess(s0.issuers) && ValidRun(s0, run) && k < |Final(s0, run).tokens|
    ensures var tokens := Final(s0, run).tokens;
            !tokens[k].used <==> Latest(tokens, k) && tokens[k].redeemedBy == None
  {
    RunKeepsInv(s0, run);
    assert UsedOk(Final(s0, run).tokens, k);
  }

  /** A redemption that commits takes the latest token issued to that employee,
      the one its secret names. */
  lemma RedeemedIsLatest(s0: State, run: seq<Action>, r: nat)
    requires Init(s0) && OneProcess(s0.issuers) && ValidRun(s0, run) && Enabled(Final(s0, run), CommitRedeem(r))
    ensures var s := Final(s0, run);
            var k := s.redeemers[r].token;
            && k < |s.tokens| && Redeemable(s.tokens[k], s.redeemers[r].secret, s.redeemers[r].begin)
            && Latest(s.tokens, k) && s.tokens[k].redeemedBy == None
  {
    RunKeepsInv(s0, run);
    var s := Final(s0, run);
    assert RedeemerOk(s, r) && UsedOk(s.tokens, s.redeemers[r].token);
  }

  /** No two committed redemptions used one secret, in one process or many. */
  lemma RedeemedOnce(s0: State, run: seq<Action>, r: nat, q: nat)
    requires Init(s0) && ValidRun(s0, run)
    requires var s := Final(s0, run);
             r < |s.redeemers| && q < |s.redeemers| && s.redeemers[r].phase == Redeemed
             && s.redeemers[q].phase == Redeemed
             && s.redeemers[r].secret == s.redeemers[q].secret
    ensures r == q
  {
    RunConsistent(s0, run);
    var s := Final(s0, run);
    assert RedeemerOk(s, r) && RedeemerOk(s, q);
  }

  /** An issuance that has not committed left no row. */
  lemma FailedIssueLeavesNoToken(s0: State, run: seq<Action>, i: nat, k: nat)
    requires Init(s0) && ValidRun(s0, run) && i < |Final(s0, run).issuers|
    requires !Succeeded(Final(s0, run).issuers[i].phase)
    requires k < |Final(s0, run).tokens|
    ensures Final(s0, run).tokens[k].issuer != i
  {
    RunConsistent(s0, run);
    assert TokenOk(Final(s0, run), k);
  }

  /** The step a commits an issuance for k's employee or a redemption of k. */
  ghost predicate Settles(s: State, a: Action, k: nat)
    requires Enabled(s, a) && k < |s.tokens|
  {
    || (a.CommitIssue? && s.issuers[a.i].employee == s.tokens[k].employee)
    || (a.CommitRedeem? && s.redeemers[a.r].token == k)
  }

  ghost predicate Unsettled(s: State, run: seq<Action>, k: nat)
    requires ValidRun(s, run) && k < |s.tokens|
    decreases |run|
  {
    run == [] || (!Settles(s, run[0], k) && Unsettled(Do(s, run[0]), run[1..], k))
  }

  /** Nothing else changes a token: failed issuances, failed redemptions and the
      whole traffic of other employees leave it as it is. */
  lemma {:induction false} TokenLivesUntilSettled(s: State, run: seq<Action>, k: nat)
    requires Consistent(s) && ValidRun(s, run) && k < |s.tokens| && Unsettled(s, run, k)
    ensures k < |Final(s, run).tokens| && Final(s, run).tokens[k] == s.tokens[k]
    decreases |run|
  {
    if run != [] {
      var a := run[0];
      StepConsistent(s, a);
      if a.CommitIssue? {
        assert RowsApart(s, a.i);
      }
      TokenLivesUntilSettled(Do(s, a), run[1..], k);
    }
  }

  // ---- exactly when at most one token is redeemable ----

  function IssueRun(i: nat): seq<Action> {
    [Lock(i), BeginIssue(i), Invalidate(i), Insert(i)]
  }

  lemma {:induction false} ValidRunAppend(s: State, run: seq<Action>, more: seq<Action>)
    requires ValidRun(s, run) && ValidRun(Final(s, run), more)
    ensures ValidRun(s, run + more) && Final(s, run + more) == Final(Final(s, run), more)
    decreases |run|
  {
    if run == [] {
      assert run + more == more;
    } else {
      ValidRunAppend(Do(s, run[0]), run[1..], more);
      assert (run + more)[1..] == run[1..] + more;
    }
  }

  /** With no tokens yet, an issuance may run up to its insert. */
  lemma IssueUpToInsert(s: State, i: nat)
    requires s.tokens == [] && Enabled(s, Lock(i))
    ensures ValidRun(s, IssueRun(i))
    ensures Final(s, IssueRun(i)) == WithIssuer(s, i, s.issuers[i].(phase := Inserted, cleared := {},
                                                expires := s.now + TTL))
  {
    var s1 := Do(s, Lock(i));
    var s2 := Do(s1, BeginIssue(i));
    assert Unused([], s.issuers[i].employee) == {};
    var s3 := Do(s2, Invalidate(i));
    var s4 := Do(s3, Insert(i));
    assert s4 == WithIssuer(s, i, s.issuers[i].(phase := Inserted, cleared := {}, expires := s.now + TTL));
    var run := IssueRun(i);
    assert run[1..] == [BeginIssue(i), Invalidate(i), Insert(i)];
    assert run[1..][1..] == [Invalidate(i), Insert(i)];
    assert run[1..][1..][1..] == [Insert(i)];
    assert [Insert(i)][1..] == [];
    assert ValidRun(s4, []) && Final(s4, []) == s4;
    assert ValidRun(s3, [Insert(i)]) && Final(s3, [Insert(i)]) == s4;
    assert ValidRun(s2, run[1..][1..]) && Final(s2, run[1..][1..]) == s4;
    assert ValidRun(s1, run[1..]) && Final(s1, run[1..]) == s4;
  }

  /** i's token and, after it, j's are unused, and nothing else has changed since s0. */
  ghost predicate TwoStand(s0: State, s: State, i: nat, j: nat)
    requires i < |s0.issuers| && j < |s0.issuers|
  {
    && |s.tokens| == 2 && s.redeemers == s0.redeemers && s.now == s0.now
    && (forall x: nat :: x < |s.issuers| ==> !HasCleared(s.issuers[x]))
    && s.tokens[0] == Token(s0.issuers[i].employee, i, s0.issuers[i].expires, false, None)
    && s.tokens[1] == Token(s0.issuers[j].employee, j, s0.issuers[j].expires, false, None)
  }

  lemma BothCommit(s: State, i: nat, j: nat)
    requires s.tokens == [] && i < |s.issuers| && j < |s.issuers| && i != j
    requires s.issuers[i].phase == Inserted && s.issuers[j].phase == Inserted
    requires s.issuers[i].employee == s.issuers[j].employee && s.issuers[j].cleared == {}
    requires forall x: nat :: x < |s.issuers| && x != i && x != j ==> !HasCleared(s.issuers[x])
    ensures ValidRun(s, [CommitIssue(i), CommitIssue(j)])
    ensures TwoStand(s, Final(s, [CommitIssue(i), CommitIssue(j)]), i, j)
  {
    var s1 := Do(s, CommitIssue(i));
    var s2 := Do(s1, CommitIssue(j));
    var run := [CommitIssue(i), CommitIssue(j)];
    assert run[1..] == [CommitIssue(j)] && [CommitIssue(j)][1..] == [];
    assert ValidRun(s2, []) && Final(s2, []) == s2;
    assert ValidRun(s1, [CommitIssue(j)]) && Final(s1, [CommitIssue(j)]) == s2;
    assert |s2.tokens| == 2 && !s2.tokens[0].used && !s2.tokens[1].used;
  }

  /** Two processes that issue for one employee can leave two redeemable tokens:
      each clears before the other inserts, and their mutexes are different. */
  lemma TwoProcessesLeaveTwoTokens(s0: State, i: nat, j: nat) returns (run: seq<Action>)
    requires Init(s0) && i < |s0.issuers| && j < |s0.issuers|
    requires s0.issuers[i].employee == s0.issuers[j].employee && s0.issuers[i].process != s0.issuers[j].process
    ensures ValidRun(s0, run) && !OneUnusedEach(Final(s0, run).tokens)
    ensures var s := Final(s0, run);
            && |s.tokens| == 2 && s.redeemers == s0.redeemers && s.now == s0.now
            && (forall x: nat :: x < |s.issuers| ==> !HasCleared(s.issuers[x]))
            && s.tokens[0] == Token(s0.issuers[i].employee, i, s0.now + TTL, false, None)
            && s.tokens[1].employee == s.tokens[0].employee && !s.tokens[1].used
  {
    IssueUpToInsert(s0, i);
    var s4 := Final(s0, IssueRun(i));
    assert Enabled(s4, Lock(j));
    IssueUpToInsert(s4, j);
    var s8 := Final(s4, IssueRun(j));
    BothCommit(s8, i, j);
    ValidRunAppend(s0, IssueRun(i), IssueRun(j));
    ValidRunAppend(s0, IssueRun(i) + IssueRun(j), [CommitIssue(i), CommitIssue(j)]);
    run := IssueRun(i) + IssueRun(j) + [CommitIssue(i), CommitIssue(j)];
  }

  ghost predicate AlwaysOneUnused(s0: State) {
    forall run: seq<Action> :: ValidRun(s0, run) ==> OneUnusedEach(Final(s0, run).tokens)
  }

  /** The in-process mutex gives at most one redeemable token per employee in
      every run if and only if no employee's issuances are spread over processes. */
  lemma OneUnusedIffOneProcess(s0: State)
    requires Init(s0)
    ensures AlwaysOneUnused(s0) <==> OneProcess(s0.issuers)
  {
    if OneProcess(s0.issuers) {
      forall run: seq<Action> | ValidRun(s0, run) ensures OneUnusedEach(Final(s0, run).tokens) {
        RunKeepsInv(s0, run);
        var tokens := Final(s0, run).tokens;
        forall k: nat, k': nat | k < |tokens| && k' < |tokens| && !tokens[k].used && !tokens[k'].used
                                 && tokens[k].employee == tokens[k'].employee
          ensures k == k'
        {
          assert UsedOk(tokens, k) && UsedOk(tokens, k');
        }
      }
    } else {
      var i: nat, j: nat :| i < |s0.issuers| && j < |s0.issuers| && s0.issuers[i].employee == s0.issuers[j].employee
                            && s0.issuers[i].process != s0.issuers[j].process;
      var run := TwoProcessesLeaveTwoTokens(s0, i, j);
    }
  }

  ghost predicate AlwaysUnusedIsLatest(s0: State) {
    forall run: seq<Action> :: ValidRun(s0, run) ==> UsedIsHistory(Final(s0, run).tokens)
  }

  /** Redemptions only ever commit on the latest token of the employee. */
  ghost predicate AlwaysTakesLatest(s0: State) {
    forall run: seq<Action>, r: nat :: !TakesOld(s0, run, r)
  }

  ghost predicate TakesOld(s0: State, run: seq<Action>, r: nat) {
    ValidRun(s0, run) && Enabled(Final(s0, run), CommitRedeem(r))
    && var s := Final(s0, run);
    s.redeemers[r].token < |s.tokens| ==> !Latest(s.tokens, s.redeemers[r].token)
  }

  predicate Tried(s: State, i: nat) {
    exists r: nat :: r < |s.redeemers| && s.redeemers[r].secret == i
  }

  /** Some redemption will present each token that may be issued. */
  predicate EveryTokenTried(s: State) {
    forall i: nat :: i < |s.issuers| ==> Tried(s, i)
  }

  /** Unused means latest and not redeemed in every run, and, if every issued
      token may be presented, redemptions take the latest token in every run, both
      if and only if each employee's issuances run in one process. */
  lemma LatestIffOneProcess(s0: State)
    requires Init(s0)
    ensures AlwaysUnusedIsLatest(s0) <==> OneProcess(s0.issuers)
    ensures EveryTokenTried(s0) ==> (AlwaysTakesLatest(s0) <==> OneProcess(s0.issuers))
  {
    if OneProcess(s0.issuers) {
      forall run: seq<Action> | ValidRun(s0, run) ensures UsedIsHistory(Final(s0, run).tokens) {
        RunKeepsInv(s0, run);
      }
      forall run: seq<Action>, r: nat | ValidRun(s0, run) && Enabled(Final(s0, run), CommitRedeem(r))
        ensures !TakesOld(s0, run, r)
      {
        RedeemedIsLatest(s0, run, r);
      }
    } else {
      var i: nat, j: nat :| i < |s0.issuers| && j < |s0.issuers| && s0.issuers[i].employee == s0.issuers[j].employee
                            && s0.issuers[i].process != s0.issuers[j].process;
      var run := TwoProcessesLeaveTwoTokens(s0, i, j);
      var s := Final(s0, run);
      assert !UsedOk(s.tokens, 0) && !LockedByIssuer(s, 0) && !LockedByRedeemer(s, 0);
      if Tried(s0, i) {
        var r: nat :| r < |s0.redeemers| && s0.redeemers[r].secret == i;
        var more := RedeemTheFirst(s, r);
        ValidRunAppend(s0, run, more);
        assert TakesOld(s0, run + more, r);
      }
    }
  }

  /** With two tokens standing, the older one can be claimed. */
  lemma RedeemTheFirst(s: State, r: nat) returns (more: seq<Action>)
    requires |s.tokens| == 2 && s.tokens[1].employee == s.tokens[0].employee && s.tokens[0].expires == s.now + TTL
    requires r < |s.redeemers| && s.redeemers[r].phase == Waiting && s.redeemers[r].secret == s.tokens[0].issuer
    requires !s.tokens[0].used && !LockedByIssuer(s, 0) && !LockedByRedeemer(s, 0)
    ensures ValidRun(s, more) && Enabled(Final(s, more), CommitRedeem(r))
    ensures var f := Final(s, more); f.redeemers[r].token == 0 && f.tokens == s.tokens && !Latest(f.tokens, 0)
  {
    more := [BeginRedeem(r), Claim(r, 0)];
    var s1 := Do(s, BeginRedeem(r));
    assert !LockedByIssuer(s1, 0) && !LockedByRedeemer(s1, 0);
    var s2 := Do(s1, Claim(r, 0));
    assert more[1..] == [Claim(r, 0)] && [Claim(r, 0)][1..] == [];
    assert ValidRun(s2, []) && Final(s2, []) == s2;
    assert ValidRun(s1, [Claim(r, 0)]) && Final(s1, [Claim(r, 0)]) == s2;
    assert s2.tokens[1].employee == s2.tokens[0].employee;
  }
}
