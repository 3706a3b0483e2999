/** What the heartbeats on one token amount to: whether the session is still
    open, and what each call answers, as predicates over the history of checks. */
module HeartbeatHistory {
  import opened Results
  import opened Presence
  import opened AuthModel

  /** A Heartbeat call on a token whose session is s, if it is still there. */
  function Answer(s: Option<Session>, b: Beat): (Option<Session>, BeatReply) {
    if FindSession in b.down then (s, BeatError)
    else if s.None? then (None, Ended(LoggedOutElsewhere))
    else BeatSession(s.value, b)
  }

  /** The session after the first n heartbeats. */
  function After(s: Session, beats: seq<Beat>, n: nat): Option<Session>
    requires n <= |beats|
  {
    if n == 0 then Some(s) else Answer(After(s, beats, n - 1), beats[n - 1]).0
  }

  function Reply(s: Session, beats: seq<Beat>, k: nat): BeatReply
    requires k < |beats|
  {
    Answer(After(s, beats, k), beats[k]).1
  }

  // ---- the history predicates, when any statement may fail ----

  /** When the last check before call k was stored. */
  function LastWrite(s: Session, beats: seq<Beat>, k: nat): int
    requires k <= |beats|
    decreases k, 0
  {
    if k == 0 then s.lastHeartbeat
    else if Lands(s, beats, k - 1) then beats[k - 1].write
    else LastWrite(s, beats, k - 1)
  }

  predicate TooLate(s: Session, beats: seq<Beat>, k: nat)
    requires k < |beats|
    decreases k, 1
  {
    s.expiresAt < beats[k].read || beats[k].read - LastWrite(s, beats, k) > SILENCE
  }

  /** Call k stored the outcome of its presence check. */
  predicate Lands(s: Session, beats: seq<Beat>, k: nat)
    requires k < |beats|
    decreases k, 2
  {
    FindSession !in beats[k].down && !TooLate(s, beats, k) && Writes(beats[k])
  }

  /** The last stored check before call k failed. */
  predicate FailedBefore(s: Session, beats: seq<Beat>, k: nat)
    requires k <= |beats|
  {
    k > 0 && if Lands(s, beats, k - 1) then !BeatPresent(beats[k - 1]) else FailedBefore(s, beats, k - 1)
  }

  /** Call k deletes the session if it is still open. */
  predicate EndsAt(s: Session, beats: seq<Beat>, k: nat)
    requires k < |beats|
  {
    && FindSession !in beats[k].down && DeleteSession !in beats[k].down
    && (TooLate(s, beats, k) || (Writes(beats[k]) && !BeatPresent(beats[k]) && FailedBefore(s, beats, k)))
  }

  predicate Monitored(s: Session) {
    s.store.Some? && s.failures == 0
  }

  /** After n calls the session is open exactly when none of them ended it; its
      clock and its failure count then say what the history says. */
  lemma {:induction false} OpenIsHistory(s: Session, beats: seq<Beat>, n: nat)
    requires Monitored(s) && n <= |beats|
    ensures After(s, beats, n).Some? <==> forall k: nat :: k < n ==> !EndsAt(s, beats, k)
    ensures After(s, beats, n).Some? ==>
              var x := After(s, beats, n).value;
              && x.store == s.store && x.token == s.token && x.expiresAt == s.expiresAt
              && x.lastHeartbeat == LastWrite(s, beats, n) && (x.failures > 0 <==> FailedBefore(s, beats, n))
  {
    if n > 0 {
      OpenIsHistory(s, beats, n - 1);
      if After(s, beats, n - 1).Some? {
        assert TooLate(s, beats, n - 1) <==> Late(After(s, beats, n - 1).value, beats[n - 1]);
        assert Lands(s, beats, n - 1) ==> LastWrite(s, beats, n) == beats[n - 1].write;
        assert !Lands(s, beats, n - 1) ==> LastWrite(s, beats, n) == LastWrite(s, beats, n - 1);
      }
      assert (forall k: nat :: k < n ==> !EndsAt(s, beats, k)) <==>
             (forall k: nat :: k < n - 1 ==> !EndsAt(s, beats, k)) && !EndsAt(s, beats, n - 1);
    }
  }

  /** The call that ends the session says why, expiry before absence; later
      calls say logged out elsewhere; and no call answers Active past the cap. */
  lemma RepliesAreHistory(s: Session, beats: seq<Beat>, k: nat)
    requires Monitored(s) && k < |beats| && FindSession !in beats[k].down
    ensures Reply(s, beats, k) == Ended(LoggedOutElsewhere) <==> exists j: nat :: j < k && EndsAt(s, beats, j)
    ensures Reply(s, beats, k) == Ended(SessionExpired) <==>
            TooLate(s, beats, k) && EndsAt(s, beats, k) && forall j: nat :: j < k ==> !EndsAt(s, beats, j)
    ensures Reply(s, beats, k) == Ended(LeftPremises) <==>
            !TooLate(s, beats, k) && EndsAt(s, beats, k) && forall j: nat :: j < k ==> !EndsAt(s, beats, j)
    ensures Reply(s, beats, k) == Active ==> beats[k].read <= s.expiresAt && Lands(s, beats, k)
  {
    OpenIsHistory(s, beats, k);
  }

  // ---- the promise: no statement fails ----

  predicate Clean(beats: seq<Beat>) {
    forall k: nat :: k < |beats| ==> beats[k].down == {} && beats[k].store.Some?
  }

  /** The time of the check before call k, or of the login. */
  function Previous(s: Session, beats: seq<Beat>, k: nat): int
    requires k < |beats|
  {
    if k == 0 then s.issuedAt else beats[k - 1].write
  }

  /** Call k came in time, before the cap, and is not the second failed check in a row. */
  predicate Passes(s: Session, beats: seq<Beat>, k: nat)
    requires k < |beats|
  {
    && beats[k].read - Previous(s, beats, k) <= 90 * 1_000_000 && beats[k].read <= s.expiresAt
    && (BeatPresent(beats[k]) || k == 0 || BeatPresent(beats[k - 1]))
  }

  lemma {:induction false} CleanHistory(s: Session, beats: seq<Beat>, k: nat)
    requires Monitored(s) && s.lastHeartbeat == s.issuedAt && Clean(beats) && k < |beats|
    requires forall j: nat :: j < k ==> !EndsAt(s, beats, j)
    ensures LastWrite(s, beats, k) == Previous(s, beats, k)
    ensures FailedBefore(s, beats, k) <==> k > 0 && !BeatPresent(beats[k - 1])
    ensures EndsAt(s, beats, k) <==> !Passes(s, beats, k)
  {
    if k > 0 {
      assert !EndsAt(s, beats, k - 1) && Lands(s, beats, k - 1);
    }
  }

  /** A Store-bound session is open after n heartbeats exactly when every gap
      since its issue is at most 90 seconds, none came past its expiry, and no
      two neighbouring checks failed. */
  lemma {:induction false} OpenIffEveryBeatPasses(s: Session, beats: seq<Beat>, n: nat)
    requires Monitored(s) && s.lastHeartbeat == s.issuedAt && Clean(beats) && n <= |beats|
    ensures After(s, beats, n).Some? <==> forall k: nat :: k < n ==> Passes(s, beats, k)
  {
    OpenIsHistory(s, beats, n);
    if n > 0 {
      OpenIffEveryBeatPasses(s, beats, n - 1);
      OpenIsHistory(s, beats, n - 1);
      if After(s, beats, n - 1).Some? {
        CleanHistory(s, beats, n - 1);
      }
      assert (forall k: nat :: k < n ==> Passes(s, beats, k)) <==>
             (forall k: nat :: k < n - 1 ==> Passes(s, beats, k)) && Passes(s, beats, n - 1);
    }
  }

  // ---- exactly where a failing DELETE breaks the promise ----

  /** Two checks in a row fail, the DELETE after the second fails too, and the
      device comes back: the session goes on as if nothing had happened. */
  lemma UndeletedSessionGoesOn(s: Session, away: Beat, back: Beat)
    requires Monitored(s) && s.lastHeartbeat == s.issuedAt
    requires away.down == {} && away.store.Some? && !BeatPresent(away) && back.down == {} && BeatPresent(back)
    requires away.read == away.write && s.issuedAt <= away.read <= back.read <= s.expiresAt
    requires away.read - s.issuedAt <= SILENCE && back.read - away.write <= SILENCE
    ensures var beats := [away, away.(down := {DeleteSession}), back];
            && Reply(s, beats, 1) == BeatError && Reply(s, beats, 2) == Active
            && After(s, beats, 3) == Some(s.(lastHeartbeat := back.write))
  {
    var beats := [away, away.(down := {DeleteSession}), back];
    var s1 := Beaten(s, false, away.write);
    assert After(s, beats, 1) == Some(s1);
    assert After(s, beats, 2) == Some(Beaten(s1, false, away.write));
  }

  // ---- heartbeats within a run of calls of every kind ----

  /** The heartbeats on the token among the first n calls. */
  function BeatsOn(run: seq<Op>, token: nat, n: nat): seq<Beat>
    requires n <= |run|
  {
    if n == 0 then []
    else if run[n - 1].DoHeartbeat? && run[n - 1].token == token then BeatsOn(run, token, n - 1) + [run[n - 1].beat]
    else BeatsOn(run, token, n - 1)
  }

  lemma {:induction false} AfterPrefix(s: Session, beats: seq<Beat>, b: Beat, n: nat)
    requires n <= |beats|
    ensures After(s, beats + [b], n) == After(s, beats, n)
  {
    if n > 0 {
      AfterPrefix(s, beats, b, n - 1);
    }
  }

  /** The call may touch e's session only as a heartbeat. */
  ghost predicate OnlyBeats(db: Db, op: Op, e: nat, token: nat) {
    match op
    case DoLogin(who, password, cs, device, times, down) =>
      !(who == Some(e) && Login(db, who, password, cs, device, times, down).1.LoggedIn?)
    case DoLogout(t, _) => t != token
    case DoComplete(e', _) => e' != e
    case DoHeartbeat(_, _) => true
  }

  /** What e's session looks like when its token's heartbeats left x of it. */
  ghost predicate LeftWith(db: Db, e: nat, token: nat, x: Option<Session>) {
    && (x.Some? ==> Holds(db.sessions, e, token) && db.sessions[e] == x.value)
    && (x.None? ==> forall e' :: !Holds(db.sessions, e', token))
  }

  lemma StepIsAnswer(db: Db, op: Op, e: nat, token: nat, x: Option<Session>)
    requires TokensOk(db) && token < db.next && LeftWith(db, e, token, x) && OnlyBeats(db, op, e, token)
    ensures LeftWith(Do(db, op), e, token, if op.DoHeartbeat? && op.token == token then Answer(x, op.beat).0 else x)
    ensures op.DoHeartbeat? && op.token == token ==> Heartbeat(db, token, op.beat).1 == Answer(x, op.beat).1
  {
    var x' := if op.DoHeartbeat? && op.token == token then Answer(x, op.beat).0 else x;
    if x'.None? {
      forall e': nat ensures !Holds(Do(db, op).sessions, e', token) {
        assert !Holds(db.sessions, e', token) || e' == e;
      }
    }
  }

  /** Whatever else happens in between, e's session is what its own heartbeats make of it. */
  lemma {:induction false} RunIsItsBeats(run: seq<Op>, dbs: seq<Db>, n: nat, e: nat, token: nat, s: Session)
    requires Trace(run, dbs) && n <= |run| && TokensOk(dbs[0]) && e in dbs[0].sessions && dbs[0].sessions[e] == s
    requires s.token == token
    requires forall k: nat :: k < n ==> OnlyBeats(dbs[k], run[k], e, token)
    ensures token < dbs[n].next
    ensures LeftWith(dbs[n], e, token, After(s, BeatsOn(run, token, n), |BeatsOn(run, token, n)|))
  {
    if n > 0 {
      RunIsItsBeats(run, dbs, n - 1, e, token, s);
      TraceKeepsTokens(run, dbs, n - 1);
      var beats := BeatsOn(run, token, n - 1);
      StepIsAnswer(dbs[n - 1], run[n - 1], e, token, After(s, beats, |beats|));
      OpKeepsTokens(dbs[n - 1], run[n - 1]);
      if run[n - 1].DoHeartbeat? && run[n - 1].token == token {
        AfterPrefix(s, beats, run[n - 1].beat, |beats|);
      }
    }
  }

  /** A Login starts a session with a clean slate: its own fresh token, the clock
      at its issue, no failures, and the cap of its kind. Only an admin's carries
      no store, so every other session is monitored. */
  lemma NewSessionIsClean(db: Db, who: Option<nat>, password: nat, cs: seq<Candidate>, d: Device, t: Times,
                          down: set<Statement>)
    requires Login(db, who, password, cs, d, t, down).1.LoggedIn?
    ensures var (db', reply) := Login(db, who, password, cs, d, t, down);
            && Holds(db'.sessions, who.value, reply.token) && db'.sessions[who.value] == reply.session
            && reply.token == db.next && reply.session.issuedAt == t.write && reply.session.lastHeartbeat == t.write
            && (if db.employees[who.value].admin
                then reply.session.store == None && reply.session.expiresAt == t.deadline + ADMIN_TTL
                else Monitored(reply.session) && reply.session.expiresAt == t.deadline + NON_ADMIN_TTL)
  {}

  /** The store a Login chose passes the first heartbeat from the same device,
      when the store has not changed and the beat comes in time. */
  lemma LoginStorePassesHeartbeat(db: Db, who: Option<nat>, password: nat, cs: seq<Candidate>, d: Device, t: Times,
                                  down: set<Statement>,
                                  i: nat, b: Beat)
    requires TokensOk(db) && Login(db, who, password, cs, d, t, down).1.LoggedIn?
    requires forall i: nat, j: nat :: i < j < |cs| ==> cs[i].id != cs[j].id
    requires var session := Login(db, who, password, cs, d, t, down).1.session;
             i < |cs| && session.store == Some(cs[i].id) && b.read <= session.expiresAt
    requires b.store == Some(cs[i]) && b.device == d && b.down == {} && b.read - t.write <= SILENCE
    ensures var (db', reply) := Login(db, who, password, cs, d, t, down);
            Heartbeat(db', reply.token, b).1 == Active
            && Heartbeat(db', reply.token, b).0.sessions[who.value] == reply.session.(lastHeartbeat := b.write)
  {
    NewSessionIsClean(db, who, password, cs, d, t, down);
    var op := DoLogin(who, password, cs, d, t, down);
    OpKeepsTokens(db, op);
    TokenNamesOneRow(Do(db, op), who.value, db.next);
    BestIsLeast(cs, d);
    ChosenStoreMatchesAgain(cs, d);
  }
}
