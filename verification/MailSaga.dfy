/**
 The password-reset request as a saga: issue, mail, and delete again if the mail failed, with any
 number of other requests running in between.
 */
module MailSaga {
  import opened Store
  import opened Protocol
  import opened TokenHistory
  import opened Addresses

  /** Request `p` still owes token `t` its mail or its compensating delete. */
  predicate Owes(p: Suspended, t: Id) {
    (p.Mailing? || p.Cleaning?) && p.token == t
  }

  /** Token `t` is accounted for: its mail went out, its cleanup failed for want of a database,
      or a request in flight will still do one or the other. */
  ghost predicate Accounted(s: State, h: seq<Event>, t: Id) {
    || (exists to, raw :: Mailed(t, to, raw) in h)
    || CleanupFailed(t) in h
    || (exists r :: r in s.pool && Owes(s.pool[r], t))
  }

  /** What a request that owes `p.token` may rely on whoever else ran. */
  ghost predicate Holds(s: State, p: Suspended) {
    p.Mailing? || p.Cleaning? ==>
      && p.token < s.db.nextToken
      && (p.token in s.db.tokens ==> s.db.tokens[p.token].userId == p.user)
  }

  ghost predicate SagaInvariant(s: State, h: seq<Event>) {
    && s.db.Valid()
    && (forall r | r in s.pool :: Holds(s, s.pool[r]))
    && (forall t | t in s.db.tokens :: Accounted(s, h, t))
  }

  /** Rows are only ever added under fresh ids, and keep their user. */
  lemma RowsKeepTheirUser(env: Env, db: Db, e: Event, t: Id)
    requires db.Valid() && Legit(env, db, e) && t < db.nextToken
    ensures var db' := Apply(env, db, e);
            && t < db'.nextToken
            && (t in db'.tokens ==> t in db.tokens && db'.tokens[t].userId == db.tokens[t].userId)
  {
  }

  /** Only issuing starts owing, and only a sent mail or a finished cleanup stops. */
  lemma PoolOwes(env: Env, s: State, a: Action, r: Req)
    ensures var (s', e) := Step(env, s, a);
            && (r in s'.pool && (s'.pool[r].Mailing? || s'.pool[r].Cleaning?) ==>
                  || (r in s.pool && Owes(s.pool[r], s'.pool[r].token) && s.pool[r].user == s'.pool[r].user)
                  || (e.Issued? && s'.pool[r].Mailing? && e.token == s'.pool[r].token && e.user == s'.pool[r].user))
            && (r in s.pool && (s.pool[r].Mailing? || s.pool[r].Cleaning?) ==>
                  || (r in s'.pool && Owes(s'.pool[r], s.pool[r].token))
                  || (s.pool[r].Mailing? && e == Mailed(s.pool[r].token, s.pool[r].email, s.pool[r].raw))
                  || (s.pool[r].Cleaning? && e == Cleaned(s.pool[r].token, s.pool[r].user))
                  || (s.pool[r].Cleaning? && e == CleanupFailed(s.pool[r].token)))
  {
  }

  /** Issuing leaves a request in the pool that owes the new token. */
  lemma IssuedOwes(env: Env, s: State, a: Action) returns (r: Req)
    requires Step(env, s, a).1.Issued?
    ensures r in Step(env, s, a).0.pool && Owes(Step(env, s, a).0.pool[r], Step(env, s, a).1.token)
  {
    r := a.req;
  }

  lemma SagaStepHolds(env: Env, s: State, h: seq<Event>, a: Action, r: Req)
    requires SagaInvariant(s, h)
    requires r in Step(env, s, a).0.pool
    ensures Holds(Step(env, s, a).0, Step(env, s, a).0.pool[r])
  {
    var (s', e) := Step(env, s, a);
    StepIsLegit(env, s, a);
    PoolOwes(env, s, a, r);
    if s'.pool[r].Mailing? || s'.pool[r].Cleaning? {
      var t := s'.pool[r].token;
      if r in s.pool && Owes(s.pool[r], t) && s.pool[r].user == s'.pool[r].user {
        assert Holds(s, s.pool[r]);
        RowsKeepTheirUser(env, s.db, e, t);
      }
    }
  }

  /** A row that is new was issued, and a cleanup leaves none of its user. */
  lemma RowsComeAndGo(env: Env, db: Db, e: Event, t: Id)
    requires t in Apply(env, db, e).tokens
    ensures t !in db.tokens ==> e.Issued? && e.token == t
    ensures t in db.tokens && e.Cleaned? ==> db.tokens[t].userId != e.user
  {
  }

  lemma SagaStepAccounts(env: Env, s: State, h: seq<Event>, a: Action, t: Id)
    requires SagaInvariant(s, h)
    requires t in Step(env, s, a).0.db.tokens
    ensures Accounted(Step(env, s, a).0, h + [Step(env, s, a).1], t)
  {
    hide Step, Apply, Legit, Db.Valid;
    var (s', e) := Step(env, s, a);
    StepIsLegit(env, s, a);
    RowsComeAndGo(env, s.db, e, t);
    var g := h + [e];
    assert forall x | x in h :: x in g;
    assert e in g;
    if t !in s.db.tokens {
      var r := IssuedOwes(env, s, a);
    } else {
      assert Accounted(s, h, t);
      if r :| r in s.pool && Owes(s.pool[r], t) {
        assert Holds(s, s.pool[r]);
        PoolOwes(env, s, a, r);
      }
    }
  }

  lemma SagaStep(env: Env, s: State, h: seq<Event>, a: Action)
    requires SagaInvariant(s, h)
    ensures SagaInvariant(Step(env, s, a).0, h + [Step(env, s, a).1])
  {
    var (s', e) := Step(env, s, a);
    StepIsLegit(env, s, a);
    ApplyKeepsIntegrity(env, s.db, e);
    forall r | r in s'.pool ensures Holds(s', s'.pool[r]) {
      SagaStepHolds(env, s, h, a, r);
    }
    forall t | t in s'.db.tokens ensures Accounted(s', h + [e], t) {
      SagaStepAccounts(env, s, h, a, t);
    }
  }

  /** In every reachable state of any interleaving, every stored token is accounted for. */
  lemma {:induction false} SagaInvariantHolds(env: Env, s: State, actions: seq<Action>)
    requires Initial(s)
    ensures var (t, h) := Run(env, s, actions); SagaInvariant(t, h)
  {
    if actions != [] {
      var before := actions[..|actions| - 1];
      SagaInvariantHolds(env, s, before);
      var (t, h) := Run(env, s, before);
      SagaStep(env, t, h, actions[|actions| - 1]);
    }
  }

  /** A mail carries the very token its row stands for, and goes to an address its user had. */
  lemma MailMatchesRow(env: Env, s: State, actions: seq<Action>, t: Id, to: string, raw: string)
    requires Initial(s)
    requires var (u, h) := Run(env, s, actions); t in u.db.tokens && Mailed(t, to, raw) in h
    ensures var (u, h) := Run(env, s, actions);
            && u.db.tokens[t].tokenHash == env.digest(raw)
            && exists j: nat :: HadEmail(env, s.db, h, j, u.db.tokens[t].userId, to)
  {
    RunIsLawful(env, s, actions);
    var (u, h) := Run(env, s, actions);
    var k :| 0 <= k < |h| && h[k] == Mailed(t, to, raw);
    TokensExact(env, s.db, h);
    var i, j := MailGoesToItsUser(env, s, actions, k);
    var i' := OutstandingIssueOf(env, u.db, h, t);
    SameTokenSameIssue(env, s.db, h, i, i');
  }

  // ---------------------------------------------------------------- each token is settled once

  ghost predicate WasMailed(h: seq<Event>, t: Id) {
    exists to, raw :: Mailed(t, to, raw) in h
  }

  /** No request owes a token that was mailed or whose cleanup failed, no two requests owe the same
      one, and no token was both mailed and failed to be cleaned up. */
  ghost predicate SettledOnce(s: State, h: seq<Event>) {
    && (forall r | r in s.pool && (s.pool[r].Mailing? || s.pool[r].Cleaning?) ::
          !WasMailed(h, s.pool[r].token) && CleanupFailed(s.pool[r].token) !in h)
    && (forall q, r | q in s.pool && r in s.pool && q != r && (s.pool[r].Mailing? || s.pool[r].Cleaning?) ::
          !Owes(s.pool[q], s.pool[r].token))
    && (forall t: Id | WasMailed(h, t) :: t < s.db.nextToken && CleanupFailed(t) !in h)
    && (forall t: Id | CleanupFailed(t) in h :: t < s.db.nextToken)
  }

  lemma WasMailedSnoc(h: seq<Event>, e: Event, t: Id)
    ensures WasMailed(h + [e], t) <==> WasMailed(h, t) || (e.Mailed? && e.token == t)
    ensures CleanupFailed(t) in h + [e] <==> CleanupFailed(t) in h || e == CleanupFailed(t)
  {
    var g := h + [e];
    assert forall x :: x in g <==> x in h || x == e;
    if e.Mailed? {
      assert e == Mailed(e.token, e.to, e.raw);
    }
  }

  /** Of any two requests a step moves at most one. */
  lemma OneRequestMoves(env: Env, s: State, a: Action, q: Req, r: Req)
    requires q != r
    ensures var pool := Step(env, s, a).0.pool;
            || (if q in s.pool then q in pool && pool[q] == s.pool[q] else q !in pool)
            || (if r in s.pool then r in pool && pool[r] == s.pool[r] else r !in pool)
  {
  }

  /** Only the request that owes a token mails it or fails to clean it up, and is then over. */
  lemma SettlerOwed(env: Env, s: State, a: Action)
    requires Step(env, s, a).1.Mailed? || Step(env, s, a).1.CleanupFailed?
    ensures (a.ForgotMail? || a.ForgotCleanup?) && a.req in s.pool && a.req !in Step(env, s, a).0.pool
    ensures Owes(s.pool[a.req], Step(env, s, a).1.token)
  {
  }

  /** A request that owes a token did so before the step, or has just been given a new one. */
  lemma OwedBefore(env: Env, s: State, h: seq<Event>, a: Action, r: Req)
    requires SagaInvariant(s, h)
    requires r in Step(env, s, a).0.pool
    requires var p := Step(env, s, a).0.pool[r]; p.Mailing? || p.Cleaning?
    ensures var (s', e) := Step(env, s, a);
            var t := s'.pool[r].token;
            if e.Issued? && e.token == t then s.db.nextToken <= t
            else r in s.pool && Owes(s.pool[r], t) && t < s.db.nextToken
  {
    var (s', e) := Step(env, s, a);
    StepIsLegit(env, s, a);
    PoolOwes(env, s, a, r);
    if r in s.pool && Owes(s.pool[r], s'.pool[r].token) {
      assert Holds(s, s.pool[r]);
    }
  }

  lemma SettledOnceStep(env: Env, s: State, h: seq<Event>, a: Action)
    requires SagaInvariant(s, h) && SettledOnce(s, h)
    ensures SettledOnce(Step(env, s, a).0, h + [Step(env, s, a).1])
  {
    var (s', e) := Step(env, s, a);
    var g := h + [e];
    StepIsLegit(env, s, a);
    hide Step, WasMailed;
    forall t { WasMailedSnoc(h, e, t); }
    assert s.db.nextToken <= s'.db.nextToken;
    if e.Mailed? || e.CleanupFailed? {
      SettlerOwed(env, s, a);
      assert Holds(s, s.pool[a.req]);
    }
    forall r | r in s'.pool && (s'.pool[r].Mailing? || s'.pool[r].Cleaning?)
      ensures !WasMailed(g, s'.pool[r].token) && CleanupFailed(s'.pool[r].token) !in g
    {
      OwedBefore(env, s, h, a, r);
    }
    forall q, r | q in s'.pool && r in s'.pool && q != r && (s'.pool[r].Mailing? || s'.pool[r].Cleaning?)
      ensures !Owes(s'.pool[q], s'.pool[r].token)
    {
      if Owes(s'.pool[q], s'.pool[r].token) {
        OneRequestMoves(env, s, a, q, r);
        OwedBefore(env, s, h, a, q);
        OwedBefore(env, s, h, a, r);
      }
    }
  }

  lemma {:induction false} SettledOnceHolds(env: Env, s: State, actions: seq<Action>)
    requires Initial(s)
    ensures var (t, h) := Run(env, s, actions); SettledOnce(t, h)
  {
    if actions != [] {
      var before := actions[..|actions| - 1];
      SettledOnceHolds(env, s, before);
      SagaInvariantHolds(env, s, before);
      var (t, h) := Run(env, s, before);
      SettledOnceStep(env, t, h, actions[|actions| - 1]);
    }
  }

  /** Once every reset request has finished, a stored token was mailed, under the raw value its row
      stands for, if and only if its own cleanup did not hit a database error. */
  lemma NoUnmailedTokenLeft(env: Env, s: State, actions: seq<Action>, t: Id)
    requires Initial(s)
    requires var (u, h) := Run(env, s, actions);
             t in u.db.tokens && forall r | r in u.pool :: !u.pool[r].Mailing? && !u.pool[r].Cleaning?
    ensures var (u, h) := Run(env, s, actions);
            (exists to, raw :: Mailed(t, to, raw) in h && env.digest(raw) == u.db.tokens[t].tokenHash)
            <==> CleanupFailed(t) !in h
  {
    SagaInvariantHolds(env, s, actions);
    SettledOnceHolds(env, s, actions);
    var (u, h) := Run(env, s, actions);
    assert Accounted(u, h, t);
    if CleanupFailed(t) in h {
      assert !WasMailed(h, t);
    } else {
      var to, raw :| Mailed(t, to, raw) in h;
      MailMatchesRow(env, s, actions, t, to, raw);
    }
  }
}
