/** issuePasswordResetToken and CompleteActivation, each as the one transaction
    it is, and what the interleaved protocol commits in their terms. */
module PasswordReset {
  import opened Results
  import opened ResetTokens
  import AuthModel
  import AuthService

  /** The statements that may fail; a failure rolls the transaction back. */
  datatype Statement =
    | InvalidateOld | InsertNew | RedeemToken | HashPassword
    | SetPassword | DropSession | ClearLockout | CommitTx

  /** What an issuance makes of the table: e's unused tokens are used up, and a
      new one is the only unused one e has. */
  function Issued(tokens: seq<Token>, e: nat, secret: nat, expires: int): seq<Token> {
    MarkUsed(tokens, Unused(tokens, e)) + [Token(e, secret, expires, false, None)]
  }

  lemma IssuedLeavesOneUnused(tokens: seq<Token>, e: nat, secret: nat, expires: int, e': nat)
    ensures Unused(Issued(tokens, e, secret, expires), e') == if e' == e then {|tokens|} else Unused(tokens, e')
  {}

  function TokenRedeemed(tokens: seq<Token>, k: nat, caller: nat): seq<Token>
    requires k < |tokens|
  {
    tokens[k := tokens[k].(used := true, redeemedBy := Some(caller))]
  }

  /** Token k was the one of the secret, unused and not expired; it is used up now,
      and it alone has changed. */
  ghost predicate Redeems(was: seq<Token>, now': seq<Token>, k: nat, secret: nat, now: int)
    requires k < |was|
  {
    && was[k].issuer == secret && !was[k].used && now < was[k].expires
    && |now'| == |was| && now'[k].used
    && now'[k].employee == was[k].employee && now'[k].issuer == was[k].issuer && now'[k].expires == was[k].expires
    && forall j: nat :: j < |was| && j != k ==> now'[j] == was[j]
  }

  /** e has the new password, no failed attempts, no lock and no session; the rest
      of e's row, and everybody else's rows and sessions, are as they were. */
  ghost predicate Resets(was: map<nat, AuthModel.Employee>, now: map<nat, AuthModel.Employee>,
                         wasOpen: map<nat, AuthModel.Session>, open: map<nat, AuthModel.Session>, e: nat, password: nat)
  {
    && e in was && now.Keys == was.Keys && e !in open
    && now[e].password == Some(password) && now[e].attempts == 0 && now[e].lockedUntil == None
    && now[e].active == was[e].active && now[e].admin == was[e].admin
    && (forall e' :: e' in was && e' != e ==> now[e'] == was[e'])
    && (forall e' :: e' != e ==> (e' in open <==> e' in wasOpen))
    && forall e' :: e' in open ==> open[e'] == wasOpen[e']
  }

  class Service {
    const auth: AuthService.Auth
    var tokens: seq<Token>

    /** token_hash is UNIQUE and employee_id refers to an employee. */
    ghost predicate Valid()
      reads this, auth
    {
      && auth.Valid() && IssuersApart(tokens)
      && forall k: nat :: k < |tokens| ==> tokens[k].employee in auth.employees
    }

    constructor (auth: AuthService.Auth)
      requires auth.Valid()
      ensures Valid() && this.auth == auth && tokens == []
    {
      this.auth, tokens := auth, [];
    }

    /** `secret` is the freshly generated raw token. */
    method IssuePasswordResetToken(e: nat, secret: nat, now: int, down: set<Statement>) returns (link: Option<nat>)
      requires Valid() && e in auth.employees && forall k: nat :: k < |tokens| ==> tokens[k].issuer != secret
      modifies this`tokens
      ensures Valid()
      ensures link == if InvalidateOld in down || InsertNew in down || CommitTx in down then None else Some(secret)
      ensures tokens == if link == None then old(tokens) else Issued(old(tokens), e, secret, now + TTL)
      ensures link.Some? ==>
                && |tokens| == |old(tokens)| + 1
                && tokens[|old(tokens)|] == Token(e, secret, now + 30 * 60 * 1_000_000, false, None)
                && forall k: nat :: k < |old(tokens)| ==>
                                      tokens[k] == if old(tokens)[k].employee == e then old(tokens)[k].(used := true)
                                      else old(tokens)[k]
    {
      if InvalidateOld in down {
        return None;
      }
      var table := MarkUsed(tokens, Unused(tokens, e));
      if InsertNew in down {
        return None;
      }
      table := table + [Token(e, secret, now + TTL, false, None)];
      if CommitTx in down {
        return None;
      }
      tokens := table;
      return Some(secret);
    }

    /** Redeem, set the password, end the session, clear the lockout: all of it
        for the employee of the one token that the secret names, or nothing. */
    method CompleteActivation(secret: nat, password: nat, now: int, caller: nat, down: set<Statement>)
      returns (ok: bool)
      requires Valid()
      modifies this`tokens, auth`employees, auth`sessions
      ensures Valid()
      ensures down == {} ==> (ok <==> exists k: nat :: k < |old(tokens)| && Redeemable(old(tokens)[k], secret, now))
      ensures ok ==>
                exists k: nat :: k < |old(tokens)| && Redeemable(old(tokens)[k], secret, now)
                                 && tokens == TokenRedeemed(old(tokens), k, caller)
                                 && auth.Tables() == AuthModel.Complete(old(auth.Tables()), old(tokens)[k].employee,
                                                                        password)
      ensures ok ==>
                exists k: nat :: k < |old(tokens)| && Redeems(old(tokens), tokens, k, secret, now)
                                 && Resets(old(auth.employees), auth.employees, old(auth.sessions), auth.sessions,
                                           old(tokens)[k].employee, password)
      ensures !ok ==> tokens == old(tokens) && auth.Tables() == old(auth.Tables())
    {
      if RedeemToken in down {
        return false;
      }
      if k :| 0 <= k < |tokens| && Redeemable(tokens[k], secret, now) {
        var e := tokens[k].employee;
        if HashPassword in down || SetPassword in down || DropSession in down
           || ClearLockout in down || CommitTx in down {
          return false;
        }
        tokens := TokenRedeemed(tokens, k, caller);
        auth.CompleteActivation(e, password);
        assert Redeems(old(tokens), tokens, k, secret, now);
        return true;
      }
      return false;
    }
  }

  // ---- the protocol commits exactly these ----

  /** While one process issues for each employee, a committed issuance has the
      effect of the whole call at the moment of its commit. */
  lemma CommitIsIssued(s0: State, run: seq<Action>, i: nat)
    requires Init(s0) && OneProcess(s0.issuers) && ValidRun(s0, run) && Enabled(Final(s0, run), CommitIssue(i))
    ensures var s := Final(s0, run);
            Do(s, CommitIssue(i)).tokens == Issued(s.tokens, s.issuers[i].employee, i, s.issuers[i].expires)
  {
    RunKeepsInv(s0, run);
    assert ClearedOk(Final(s0, run), i);
  }

  lemma CommitIsRedeemed(s0: State, run: seq<Action>, r: nat)
    requires Init(s0) && ValidRun(s0, run) && Enabled(Final(s0, run), CommitRedeem(r))
    ensures var s := Final(s0, run);
            var k := s.redeemers[r].token;
            && k < |s.tokens| && Redeemable(s.tokens[k], s.redeemers[r].secret, s.redeemers[r].begin)
            && Do(s, CommitRedeem(r)).tokens == TokenRedeemed(s.tokens, k, r)
  {
    RunConsistent(s0, run);
    assert RedeemerOk(Final(s0, run), r);
  }
}
