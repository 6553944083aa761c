/**
 What single calls answer, seen over the history they run in.
 */
module Calls {
  import opened Wrappers
  import opened Store
  import opened Protocol
  import opened TokenHistory
  import opened Sessions

  /** In a reachable state the stored tokens are exactly the outstanding issues. */
  lemma ReachableTokensExact(env: Env, s: State, actions: seq<Action>)
    requires Initial(s)
    ensures var (t, h) := Run(env, s, actions);
            && t.db.Valid() && RowsAreOutstandingIssues(env, t.db, h)
  {
    RunIsLawful(env, s, actions);
    Integrity(env, s.db, Run(env, s, actions).1);
    TokensExact(env, s.db, Run(env, s, actions).1);
  }

  /** Relational integrity in every reachable state, written out: emails and digests are unique, each
      user has one token at most, and every post and token belongs to a user that exists. */
  lemma ReachableIntegrity(env: Env, s: State, actions: seq<Action>)
    requires Initial(s)
    ensures var db := Run(env, s, actions).0.db;
            && (forall u, v | u in db.users && v in db.users && u != v :: db.users[u].email != db.users[v].email)
            && (forall q, t | q in db.tokens && t in db.tokens && q != t ::
                  db.tokens[q].tokenHash != db.tokens[t].tokenHash && db.tokens[q].userId != db.tokens[t].userId)
            && (forall p | p in db.posts :: db.posts[p].userId in db.users)
            && (forall t | t in db.tokens :: db.tokens[t].userId in db.users)
  {
    ReachableTokensExact(env, s, actions);
    hide Run, RowsAreOutstandingIssues;
  }

  /** The raw token presented collides with no issued one. */
  ghost predicate Unmistakable(env: Env, h: seq<Event>, raw: string) {
    forall i | 0 <= i < |h| && h[i].Issued? :: env.digest(h[i].raw) == env.digest(raw) ==> h[i].raw == raw
  }

  lemma StepIssues(env: Env, s: State, a: Action)
    ensures Step(env, s, a).1.Issued? ==> Step(env, s, a).1.expiresAt == s.clock + env.ttl
  {
  }

  /** A token ends one lifetime after the clock of the step that issued it. */
  lemma {:induction false} EndIsIssueTimePlusLifetime(env: Env, s: State, actions: seq<Action>, i: nat)
    requires i < |actions| && i < |Run(env, s, actions).1| && Run(env, s, actions).1[i].Issued?
    ensures Run(env, s, actions).1[i].expiresAt == Run(env, s, actions[..i]).0.clock + env.ttl
  {
    hide Step;
    var before := actions[..|actions| - 1];
    RunIsLawful(env, s, before);
    if i < |before| {
      EndIsIssueTimePlusLifetime(env, s, before, i);
      assert before[..i] == actions[..i];
    } else {
      assert actions[..i] == before;
      StepIssues(env, Run(env, s, before).0, actions[i]);
    }
  }

  /** Exact acceptance over histories. With a long enough password and a working database, a reset
      succeeds exactly when the presented token was issued, nothing has killed it, and the clock is
      at most one lifetime past the issue, that instant included; a later one removes the token; any
      other token is invalid. Its user always exists, so no other error is possible. */
  lemma ResetExact(env: Env, s: State, actions: seq<Action>, reset: Action, i: nat)
    requires Initial(s) && reset.Reset? && ValidPassword(reset.password) && reset.salt.Some? && reset.budget >= 5
    requires Unmistakable(env, Run(env, s, actions).1, reset.raw)
    ensures var (t, h) := Run(env, s, actions);
            var e := Step(env, t, reset).1;
            && (Outstanding(h, i) && h[i].raw == reset.raw ==>
                  && i < |actions|
                  && e == if t.clock <= Run(env, s, actions[..i]).0.clock + env.ttl
                          then Consumed(h[i].token, h[i].user, reset.raw, reset.password, reset.salt.value, t.clock)
                          else Expired(h[i].token, reset.raw, t.clock))
            && ((forall j: nat | Outstanding(h, j) :: h[j].raw != reset.raw) ==> e == Rejected(Validation))
  {
    hide Run, Step, ResetEvent, Unmistakable;
    ReachableTokensExact(env, s, actions);
    RunIsLawful(env, s, actions);
    var (t, h) := Run(env, s, actions);
    StepReset(env, t, reset);
    ResetEventExact(env, t.db, t.clock, h, reset.raw, reset.password, reset.salt.value, reset.budget, i);
    if Outstanding(h, i) {
      EndIsIssueTimePlusLifetime(env, s, actions, i);
    }
  }

  lemma ResetEventExact(env: Env, db: Db, now: int, h: seq<Event>, raw: string, password: string, salt: string,
                        budget: nat, i: nat)
    requires db.Valid() && RowsAreOutstandingIssues(env, db, h) && Unmistakable(env, h, raw)
    requires ValidPassword(password) && budget >= 5
    ensures var e := ResetEvent(env, db, now, raw, password, Some(salt), budget);
            && (Outstanding(h, i) && h[i].raw == raw ==>
                  e == if now <= h[i].expiresAt then Consumed(h[i].token, h[i].user, raw, password, salt, now)
                       else Expired(h[i].token, raw, now))
            && ((forall j: nat | Outstanding(h, j) :: h[j].raw != raw) ==> e == Rejected(Validation))
  {
    hide ValidPassword, ValidProfile, Kills;
    if Outstanding(h, i) {
      assert db.tokens[h[i].token] == RowOf(env, h[i]);
    }
    var found := FindByDigest(db, env.digest(raw));
    if found.Some? {
      var j := OutstandingIssueOf(env, db, h, found.value);
      assert Outstanding(h, j) && h[j].raw == raw;
    }
  }

  lemma StepReset(env: Env, s: State, reset: Action)
    requires reset.Reset?
    ensures var e := ResetEvent(env, s.db, s.clock, reset.raw, reset.password, reset.salt, reset.budget);
            Step(env, s, reset) == (s.(db := Apply(env, s.db, e)), e)
  {
  }

  /** A token is accepted from the instant it is issued to the end of its lifetime, if nothing
      kills it meanwhile: issuing in state `s` and setting the clock forward, the reset succeeds. */
  lemma IssuedTokenIsAccepted(env: Env, s: State, user: Id, raw: string, now: int, reset: Action)
    requires s.db.Valid()
    requires IssueEvent(env, s.db, s.clock, user, raw, 4).Issued?
    requires reset.Reset? && reset.raw == raw && ValidPassword(reset.password)
    requires reset.salt.Some? && reset.budget >= 5
    ensures var s' := s.(db := Apply(env, s.db, IssueEvent(env, s.db, s.clock, user, raw, 4)), clock := now);
            ResetEvent(env, s'.db, s'.clock, raw, reset.password, reset.salt, reset.budget).Consumed?
            <==> now <= s.clock + env.ttl
  {
    var e := IssueEvent(env, s.db, s.clock, user, raw, 4);
    var db' := Apply(env, s.db, e);
    ApplyKeepsIntegrity(env, s.db, e);
    assert db'.tokens[e.token].tokenHash == env.digest(raw);
    assert FindByDigest(db', env.digest(raw)) == Some(e.token);
  }

  /** Failure atomicity: a step that answers an error leaves every row as it was, except that an
      expired confirm removes just that token, and a failed mail all tokens of its user. */
  lemma ErrorsLeaveRowsAlone(env: Env, s: State, a: Action)
    requires Step(env, s, a).1.Error().Some?
    ensures var (s', e) := Step(env, s, a);
            && (e.Expired? ==> e.token in s.db.tokens && s'.db == s.db.(tokens := s.db.tokens - {e.token}))
            && (e.Cleaned? ==> s'.db == s.db.(tokens := s.db.TokensWithout(e.user)))
            && (!e.Expired? && !e.Cleaned? ==> s'.db == s.db)
  {
  }

  /** Before its last step no service call has changed a row, but for a reset request that has
      issued: where a step leaves a call suspended and changes rows, it issues a token. So a call
      answered with an error has changed rows in no other cases than these: an expired confirm, a
      failed mail, and a failed mail whose cleanup failed too. */
  lemma OnlyIssuingIsHalfDone(env: Env, s: State, a: Action, r: Req)
    requires var pool := Step(env, s, a).0.pool;
             r in pool && !pool[r].Starting? && (r in s.pool ==> pool[r] != s.pool[r])
    ensures Step(env, s, a).0.db != s.db ==> Step(env, s, a).1.Issued? && Step(env, s, a).0.pool[r].Mailing?
  {
  }

  // ---------------------------------------------------------------- whole calls that fail

  /** The action is a step of request `r`. */
  predicate IsStepOf(a: Action, r: Req) {
    match a
    case SetClock(_) => false
    case Logout(_, _) => false
    case Reset(_, _, _, _) => false
    case _ => a.req == r
  }

  /** Steps `m` and `k` are of the same call: the request is in flight all the while between them. */
  ghost predicate SameCall(env: Env, s: State, actions: seq<Action>, m: nat, k: nat, r: Req) {
    && m < k < |actions| && IsStepOf(actions[m], r) && IsStepOf(actions[k], r)
    && forall x: nat | m < x <= k :: r in Run(env, s, actions[..x]).0.pool
  }

  /** What a call has done that is not over: recorded an account, or issued a token. */
  predicate Done(e: Event, p: Suspended) {
    match e
    case Registered(u, _, _, _, _) => p.Starting? && p.user == u
    case Issued(t, u, _, _) => (p.Mailing? || p.Cleaning?) && p.user == u && p.token == t
    case _ => false
  }

  /** A step that leaves its request in flight and changes rows has recorded an account or issued. */
  lemma StepDoes(env: Env, s: State, a: Action, r: Req)
    requires IsStepOf(a, r) && r in Step(env, s, a).0.pool
    ensures Step(env, s, a).0.db != s.db ==> Done(Step(env, s, a).1, Step(env, s, a).0.pool[r])
  {
  }

  /** And it stays so until the request is over. */
  lemma StaysDone(env: Env, s: State, a: Action, r: Req, e: Event)
    requires r in s.pool && Done(e, s.pool[r]) && r in Step(env, s, a).0.pool
    ensures Done(e, Step(env, s, a).0.pool[r])
  {
  }

  /** What a failing step of a call that has done `e` can be, and what it does to the rows. */
  lemma FailingStep(env: Env, s: State, a: Action, r: Req)
    requires r in s.pool && IsStepOf(a, r) && Step(env, s, a).1.Error().Some?
    ensures var (s', e) := Step(env, s, a);
            && (s'.db != s.db ==> e.Cleaned?)
            && (s.pool[r].Starting? ==> a.StartSession?)
            && (s.pool[r].Mailing? || s.pool[r].Cleaning? ==>
                  (e.Cleaned? && e.token == s.pool[r].token && e.user == s.pool[r].user)
                  || e == CleanupFailed(s.pool[r].token))
            && (e.Cleaned? || e.CleanupFailed? ==> s.pool[r].Cleaning?)
            && (e.Cleaned? ==> s'.db == s.db.(tokens := s.db.TokensWithout(e.user)))
  {
  }

  lemma {:induction false} DoneTillFailure(env: Env, s: State, actions: seq<Action>, m: nat, k: nat, r: Req, e: Event,
                                           x: nat)
    requires SameCall(env, s, actions, m, k, r) && m < x <= k
    requires Done(e, Run(env, s, actions[..m + 1]).0.pool[r])
    ensures Done(e, Run(env, s, actions[..x]).0.pool[r])
  {
    hide Step, Done;
    if x > m + 1 {
      DoneTillFailure(env, s, actions, m, k, r, e, x - 1);
      assert actions[..x][..x - 1] == actions[..x - 1];
      StaysDone(env, Run(env, s, actions[..x - 1]).0, actions[x - 1], r, e);
    }
  }

  /** Failure atomicity of whole calls, whoever ran in between. Of a call that ends in an error at
      step `k`, an earlier step `m` changed rows in two cases only: it issued a token, and the call
      ends because the mail failed, by a cleanup of that very user or by one that failed itself; or
      it recorded an account, and the session could not be started. The failing step itself changes
      rows only in that cleanup, which leaves the user no token. */
  lemma FailedCallExact(env: Env, s: State, actions: seq<Action>, m: nat, k: nat, r: Req)
    requires SameCall(env, s, actions, m, k, r)
    requires Step(env, Run(env, s, actions[..k]).0, actions[k]).1.Error().Some?
    ensures var (before, after) := (Run(env, s, actions[..m]).0, Run(env, s, actions[..m + 1]).0);
            var (late, e) := (Run(env, s, actions[..k]).0, Step(env, Run(env, s, actions[..k]).0, actions[k]).1);
            && (after.db != before.db ==>
                  var done := Step(env, before, actions[m]).1;
                  || (done.Issued? && (e == Cleaned(done.token, done.user) || e == CleanupFailed(done.token)))
                  || (done.Registered? && actions[k].StartSession?))
            && (Step(env, late, actions[k]).0.db != late.db ==>
                  e.Cleaned? && Step(env, late, actions[k]).0.db == late.db.(tokens := late.db.TokensWithout(e.user)))
  {
    hide Step;
    var before, late := Run(env, s, actions[..m]).0, Run(env, s, actions[..k]).0;
    assert actions[..m + 1][..m] == actions[..m];
    FailingStep(env, late, actions[k], r);
    StepDoes(env, before, actions[m], r);
    var done := Step(env, before, actions[m]).1;
    if Run(env, s, actions[..m + 1]).0.db != before.db {
      DoneTillFailure(env, s, actions, m, k, r, done, k);
    }
  }

  // ---------------------------------------------------------------- sessions after a reset

  /** Somebody logs out of session `sid`, or signs in within it or into it. */
  predicate TouchesSession(a: Action, sid: Sid) {
    match a
    case Logout(ended, _) => ended == sid
    case Register(_, within, _, _, _, _, _) => within == sid
    case Login(_, within, _, _, _) => within == sid
    case StartSession(_, started, _, _) => started == sid
    case _ => false
  }

  /** The session is recorded for `u`, and nobody is about to move it to another id. */
  ghost predicate IsSessionOf(s: State, sid: Sid, u: Id) {
    && sid in s.sessions && s.sessions[sid] == u
    && forall r | r in s.pool && s.pool[r].Starting? :: s.pool[r].sid != sid
  }

  lemma SessionStays(env: Env, s: State, a: Action, sid: Sid, u: Id)
    requires IsSessionOf(s, sid, u) && !TouchesSession(a, sid)
    ensures IsSessionOf(Step(env, s, a).0, sid, u)
  {
  }

  lemma {:induction false} SessionStaysInRun(env: Env, s: State, actions: seq<Action>, sid: Sid, u: Id)
    requires IsSessionOf(s, sid, u) && forall a | a in actions :: !TouchesSession(a, sid)
    ensures IsSessionOf(Run(env, s, actions).0, sid, u)
  {
    if actions != [] {
      var before := actions[..|actions| - 1];
      SessionStaysInRun(env, s, before, sid, u);
      SessionStays(env, Run(env, s, before).0, actions[|actions| - 1], sid, u);
    }
  }

  predicate DeletesUser(e: Event, u: Id) {
    e.Deleted? && e.user == u
  }

  lemma UserStaysOnEvent(env: Env, db: Db, e: Event, u: Id)
    requires u in db.users
    ensures u in Apply(env, db, e).users <==> !DeletesUser(e, u)
  {
  }

  lemma {:induction false} UserStaysUnlessDeleted(env: Env, db: Db, h: seq<Event>, u: Id)
    requires db.Valid() && Lawful(env, db, h) && u in db.users
    ensures u in Replay(env, db, h).users <==> forall e | e in h :: !DeletesUser(e, u)
  {
    hide Apply, Legit;
    if h != [] {
      var g, last := h[..|h| - 1], h[|h| - 1];
      UserStaysUnlessDeleted(env, db, g, u);
      assert h == g + [last];
      assert forall e :: e in h <==> e in g || e == last;
      if u in Replay(env, db, g).users {
        UserStaysOnEvent(env, Replay(env, db, g), last, u);
      } else {
        assert g[..0] == [];
        UserBelowSequence(env, db, g, 0, u);
        StaysGone(env, Replay(env, db, g), last, u);
      }
    }
  }

  /** A session recorded for user `u` authenticates as `u` after any run in which nobody logs out of
      it or signs in within it, if and only if the run did not delete `u`. Successful resets of `u`
      may be among the actions: sessions issued before a reset stay valid. */
  lemma SessionsOutliveResets(env: Env, s: State, actions: seq<Action>, sid: Sid, u: Id, r: Req, intent: Intent)
    requires s.db.Valid() && u in s.db.users && IsSessionOf(s, sid, u)
    requires forall a | a in actions :: !TouchesSession(a, sid)
    requires r !in Run(env, s, actions).0.pool && (intent.CreatePost? || intent.id == u)
    ensures var (t, h) := Run(env, s, actions);
            Run(env, t, [ReadSession(r, sid, intent, true), LoadUser(r, 1)]).1 == [Quiet, Authenticated(sid, u)]
            <==> forall e | e in h :: !DeletesUser(e, u)
  {
    var (t, h) := Run(env, s, actions);
    RunIsLawful(env, s, actions);
    SessionStaysInRun(env, s, actions, sid, u);
    UserStaysUnlessDeleted(env, s.db, h, u);
    RunPair(env, t, ReadSession(r, sid, intent, true), LoadUser(r, 1));
    StepAuthenticate(env, t, sid, u, r, intent);
  }

  lemma StepAuthenticate(env: Env, s: State, sid: Sid, u: Id, r: Req, intent: Intent)
    requires IsSessionOf(s, sid, u) && r !in s.pool && (intent.CreatePost? || intent.id == u)
    ensures var (s', e) := Step(env, s, ReadSession(r, sid, intent, true));
            e == Quiet && (Step(env, s', LoadUser(r, 1)).1 == Authenticated(sid, u) <==> u in s.db.users)
  {
    var s' := s.(pool := s.pool[r := Loading(sid, u, intent)]);
    assert Step(env, s, ReadSession(r, sid, intent, true)) == (s', Quiet);
  }

  // ---------------------------------------------------------------- logout

  lemma GoneSessionStays(env: Env, s: State, a: Action, sid: Sid)
    requires sid !in s.sessions && (a.StartSession? ==> a.newSid != sid)
    ensures sid !in Step(env, s, a).0.sessions
  {
  }

  lemma {:induction false} GoneSessionStaysInRun(env: Env, s: State, actions: seq<Action>, sid: Sid)
    requires sid !in s.sessions && forall a | a in actions :: a.StartSession? ==> a.newSid != sid
    ensures sid !in Run(env, s, actions).0.sessions
  {
    if actions != [] {
      var before := actions[..|actions| - 1];
      GoneSessionStaysInRun(env, s, before, sid);
      GoneSessionStays(env, Run(env, s, before).0, actions[|actions| - 1], sid);
    }
  }

  /** After a flushed logout, and any run that starts no session under that id, the session is
      unauthorized, and the request goes no further. */
  lemma LoggedOutIsUnauthorized(env: Env, s: State, sid: Sid, actions: seq<Action>, r: Req, intent: Intent)
    requires forall a | a in actions :: a.StartSession? ==> a.newSid != sid
    requires r !in Run(env, Step(env, s, Logout(sid, true)).0, actions).0.pool
    ensures var t := Run(env, Step(env, s, Logout(sid, true)).0, actions).0;
            Step(env, t, ReadSession(r, sid, intent, true)) == (t, Rejected(Unauthorized))
  {
    GoneSessionStaysInRun(env, Step(env, s, Logout(sid, true)).0, actions, sid);
  }

  // ---------------------------------------------------------------- deletion

  /** The steps of a deletion of `u` by its owner, in their order. */
  function DeleteCall(r: Req, sid: Sid, u: Id): seq<Action> {
    [ReadSession(r, sid, Delete(u), true), LoadUser(r, 1)] + [DeleteExec(r, 1)]
  }

  /** A deletion that nobody overtakes removes the user with its posts and tokens, nothing else, and
      no login with its email succeeds afterwards, whatever the password. */
  lemma DeletedCannotLogIn(env: Env, s: State, r: Req, sid: Sid, u: Id, q: Req, other: Sid, password: string)
    requires s.db.Valid() && u in s.db.users && sid in s.sessions && s.sessions[sid] == u && r !in s.pool
    requires q !in s.pool
    ensures var t := Run(env, s, DeleteCall(r, sid, u)).0;
            && s.db.IsWithout(t.db, u) && t.pool == s.pool && t.sessions == s.sessions
            && Step(env, t, Login(q, other, s.db.users[u].email, password, 1)) == (t, Rejected(Unauthorized))
  {
    var opening := [ReadSession(r, sid, Delete(u), true), LoadUser(r, 1)];
    RunPair(env, s, ReadSession(r, sid, Delete(u), true), LoadUser(r, 1));
    RunSnoc(env, s, opening, DeleteExec(r, 1));
    var t := StepDelete(env, s, r, sid, u);
    NoLoginWithoutUser(env, t, q, other, s.db.users[u].email, password);
  }

  lemma StepDelete(env: Env, s: State, r: Req, sid: Sid, u: Id) returns (t: State)
    requires s.db.Valid() && u in s.db.users && sid in s.sessions && s.sessions[sid] == u && r !in s.pool
    ensures var s1 := Step(env, s, ReadSession(r, sid, Delete(u), true)).0;
            var s2 := Step(env, s1, LoadUser(r, 1)).0;
            t == Step(env, s2, DeleteExec(r, 1)).0
    ensures s.db.IsWithout(t.db, u) && t.pool == s.pool && t.sessions == s.sessions
    ensures forall v | v in t.db.users :: t.db.users[v].email != s.db.users[u].email
  {
    StepOpenDelete(env, s, r, sid, u);
    var s2 := s.(pool := s.pool[r := Authorized(sid, u, Delete(u))]);
    hide Step;
    t := StepDeleteExec(env, s2, r, sid, u);
    assert s2.pool - {r} == s.pool;
  }

  lemma StepOpenDelete(env: Env, s: State, r: Req, sid: Sid, u: Id)
    requires u in s.db.users && sid in s.sessions && s.sessions[sid] == u && r !in s.pool
    ensures Step(env, Step(env, s, ReadSession(r, sid, Delete(u), true)).0, LoadUser(r, 1)).0
         == s.(pool := s.pool[r := Authorized(sid, u, Delete(u))])
  {
    var s1 := s.(pool := s.pool[r := Loading(sid, u, Delete(u))]);
    assert Step(env, s, ReadSession(r, sid, Delete(u), true)).0 == s1;
    assert s1.pool[r := Authorized(sid, u, Delete(u))] == s.pool[r := Authorized(sid, u, Delete(u))];
  }

  lemma StepDeleteExec(env: Env, s: State, r: Req, sid: Sid, u: Id) returns (t: State)
    requires r in s.pool && s.pool[r] == Authorized(sid, u, Delete(u)) && u in s.db.users && s.db.UniqueEmails()
    ensures t == Step(env, s, DeleteExec(r, 1)).0
    ensures s.db.IsWithout(t.db, u) && t.pool == s.pool - {r} && t.sessions == s.sessions
    ensures forall v | v in t.db.users :: t.db.users[v].email != s.db.users[u].email
  {
    t := Step(env, s, DeleteExec(r, 1)).0;
  }

  lemma NoLoginWithoutUser(env: Env, s: State, q: Req, sid: Sid, email: string, password: string)
    requires q !in s.pool && forall v | v in s.db.users :: s.db.users[v].email != email
    ensures Step(env, s, Login(q, sid, email, password, 1)) == (s, Rejected(Unauthorized))
  {
  }

  // ---------------------------------------------------------------- what is stored

  /** A step stores no post but the one its action was authorized to, and leaves every other as it is. */
  lemma StepPosts(env: Env, s: State, a: Action, p: Id)
    requires p in Step(env, s, a).0.db.posts
    ensures var post := Step(env, s, a).0.db.posts[p];
            || (p in s.db.posts && post == s.db.posts[p])
            || (&& a.PostExec? && a.req in s.pool && s.pool[a.req].Authorized? && s.pool[a.req].intent.CreatePost?
                && post.userId == s.pool[a.req].subject && post.title == s.pool[a.req].intent.title
                && post.body == s.pool[a.req].intent.body && !IsBlank(post.title))
  {
  }

  /** Every stored post that was not there at the start was created by a request whose session
      subject is its author, with the title and body it has. */
  lemma {:induction false} PostsAreAsCreated(env: Env, s: State, actions: seq<Action>, p: Id) returns (k: nat)
    requires p in Run(env, s, actions).0.db.posts && p !in s.db.posts
    ensures k < |actions| && actions[k].PostExec?
    ensures var (t, post) := (Run(env, s, actions[..k]).0, Run(env, s, actions).0.db.posts[p]);
            var r := actions[k].req;
            && r in t.pool && t.pool[r].Authorized? && t.pool[r].subject == post.userId
            && t.pool[r].intent == CreatePost(post.title, post.body)
  {
    hide Step;
    k := |actions| - 1;
    var before := actions[..k];
    StepPosts(env, Run(env, s, before).0, actions[k], p);
    if p in Run(env, s, before).0.db.posts
       && Run(env, s, actions).0.db.posts[p] == Run(env, s, before).0.db.posts[p] {
      k := PostsAreAsCreated(env, s, before, p);
      assert before[..k] == actions[..k];
    }
  }

  /** A stored name has a character that is no white space, a stored email an `@`. */
  ghost predicate ProperProfile(user: User) {
    (exists c | c in user.name :: c as int !in WHITE_SPACE) && '@' in user.email
  }

  lemma ProperIsValid(user: User)
    ensures ProperProfile(user) <==> ValidProfile(user.name, user.email)
  {
    forall c { SpacesExact(c); }
  }

  /** So blank names and emails without `@` are never stored: in every run the profile of a user is
      the one it had at the start or a proper one. */
  lemma {:induction false} ProfilesAreProper(env: Env, s: State, actions: seq<Action>, u: Id)
    requires Initial(s) && u in Run(env, s, actions).0.db.users
    ensures var user := Run(env, s, actions).0.db.users[u];
            || ProperProfile(user)
            || (u in s.db.users && user.name == s.db.users[u].name && user.email == s.db.users[u].email)
  {
    if actions != [] {
      var before, a := actions[..|actions| - 1], actions[|actions| - 1];
      RunIsPrepared(env, s, before);
      RunIsLawful(env, s, before);
      var (t, h) := Run(env, s, before);
      StepIsPrepared(env, t, h, a);
      StepIsLegit(env, t, a);
      hide Step;
      EventProfiles(env, t.db, Step(env, t, a).1, h, u);
      ProperIsValid(Run(env, s, actions).0.db.users[u]);
      if u in t.db.users {
        ProfilesAreProper(env, s, before, u);
        ProperIsValid(t.db.users[u]);
      }
    }
  }

  lemma EventProfiles(env: Env, db: Db, e: Event, h: seq<Event>, u: Id)
    requires Legit(env, db, e) && Prepared(h, e) && u in Apply(env, db, e).users
    ensures var user := Apply(env, db, e).users[u];
            || ValidProfile(user.name, user.email)
            || (u in db.users && user.name == db.users[u].name && user.email == db.users[u].email)
  {
  }

  // ---------------------------------------------------------------- non-disclosure

  /** Looking up an email tells nobody whether it is stored: with an `@` in it and a working database
      the step answers no error in either case, and for one that is not stored nothing changes. */
  lemma LookupDisclosesNothing(env: Env, s: State, r: Req, email: string)
    requires r !in s.pool && '@' in email
    ensures Step(env, s, ForgotLookup(r, email, 1)).1 == Quiet
    ensures (forall u | u in s.db.users :: s.db.users[u].email != email) ==>
              Step(env, s, ForgotLookup(r, email, 1)) == (s, Quiet)
  {
  }

  // ---------------------------------------------------------------- one reset request, alone

  datatype Delivery = Delivery(lookup: nat, issue: nat, delivered: bool, cleanup: nat)

  /** The steps of one reset request, in their order. */
  function ForgotCall(r: Req, email: string, raw: string, d: Delivery): seq<Action> {
    [ForgotLookup(r, email, d.lookup), ForgotIssue(r, raw, d.issue), ForgotMail(r, d.delivered),
     ForgotCleanup(r, d.cleanup)]
  }

  lemma {:induction false} RunAppend(env: Env, s: State, first: seq<Action>, second: seq<Action>)
    ensures var (t, h) := Run(env, s, first);
            Run(env, s, first + second) == (Run(env, t, second).0, h + Run(env, t, second).1)
  {
    var (t, h) := Run(env, s, first);
    if second == [] {
      assert first + second == first && h + [] == h;
    } else {
      var rest, last := second[..|second| - 1], second[|second| - 1];
      RunAppend(env, s, first, rest);
      assert (first + second)[..|first + second| - 1] == first + rest;
      var (u, g) := Run(env, t, rest);
      assert h + (g + [Step(env, u, last).1]) == (h + g) + [Step(env, u, last).1];
    }
  }

  lemma RunPair(env: Env, s: State, a: Action, b: Action)
    ensures var (s1, e1) := Step(env, s, a);
            var (s2, e2) := Step(env, s1, b);
            Run(env, s, [a, b]) == (s2, [e1, e2])
  {
    assert [a, b][..1] == [a] && [a][..0] == [];
    var (s1, e1) := Step(env, s, a);
    var (s2, e2) := Step(env, s1, b);
    assert Run(env, s, [a]) == (s1, [] + [e1]);
    assert [] + [e1] == [e1] && [e1] + [e2] == [e1, e2];
  }

  lemma RunSnoc(env: Env, s: State, actions: seq<Action>, a: Action)
    ensures var (t, h) := Run(env, s, actions);
            Run(env, s, actions + [a]) == (Step(env, t, a).0, h + [Step(env, t, a).1])
  {
    assert (actions + [a])[..|actions + [a]| - 1] == actions;
  }

  /** The four ways a reset request for user `u` ends if nobody overtakes it: it fails before it
      commits and changes no row; it mails, and leaves the user exactly the one new token; it
      cannot mail, and leaves the user none; or it can neither mail nor clean up, and leaves the
      unmailed token behind. Rows of other users never change. */
  ghost predicate ForgotOutcome(env: Env, s: State, s': State, h: seq<Event>, email: string, raw: string,
                                d: Delivery, u: Id)
  {
    var kept := s.db.TokensWithout(u);
    var minted := s.db.nextToken;
    var row := ResetToken(u, env.digest(raw), s.clock + env.ttl);
    && |h| == 4 && s'.pool == s.pool && s'.db.users == s.db.users && s'.db.posts == s.db.posts
    && if d.issue < 4 || s.db.DigestTaken(env.digest(raw), u) then
         h[1] == Rejected(DbError) && s'.db == s.db
       else if d.delivered then
         h[2] == Mailed(minted, email, raw) && s'.db.tokens == kept[minted := row]
       else if d.cleanup >= 1 then
         h[3] == Cleaned(minted, u) && s'.db.tokens == kept
       else
         h[3] == CleanupFailed(minted) && s'.db.tokens == kept[minted := row]
  }

  /** A reset request that nobody overtakes ends in one of these ways. */
  lemma ForgotCallAlone(env: Env, s: State, r: Req, email: string, raw: string, d: Delivery, u: Id)
    requires s.db.Valid() && r !in s.pool && u in s.db.users
    requires '@' in email && d.lookup >= 1 && s.db.users[u].email == email
    ensures var (s', h) := Run(env, s, ForgotCall(r, email, raw, d));
            ForgotOutcome(env, s, s', h, email, raw, d, u)
  {
    var (first, second) := ([ForgotLookup(r, email, d.lookup), ForgotIssue(r, raw, d.issue)],
                            [ForgotMail(r, d.delivered), ForgotCleanup(r, d.cleanup)]);
    assert first + second == ForgotCall(r, email, raw, d);
    RunAppend(env, s, first, second);
    var t := LookupAndIssue(env, s, r, email, raw, d, u);
    MailAndCleanup(env, t, r, d);
    OutcomeOfParts(env, s, t, r, email, raw, d, u);
  }

  lemma OutcomeOfParts(env: Env, s: State, t: State, r: Req, email: string, raw: string, d: Delivery, u: Id)
    requires s.db.Valid() && r !in s.pool && u in s.db.users
    requires var e := IssueEvent(env, s.db, s.clock, u, raw, d.issue);
             t == s.(db := Apply(env, s.db, e),
                     pool := if e.Issued? then s.pool[r := Mailing(u, email, raw, e.token)] else s.pool)
    ensures var h := [Quiet, IssueEvent(env, s.db, s.clock, u, raw, d.issue)] + TailEvents(t, r, d);
            ForgotOutcome(env, s, TailState(t, r, d), h, email, raw, d, u)
  {
    if r in t.pool {
      IssuingTouchesOneUser(env, s.db, IssueEvent(env, s.db, s.clock, u, raw, d.issue));
      assert s.pool[r := t.pool[r]] - {r} == s.pool;
      OutcomeIfIssued(env, s, t, r, email, raw, d, u);
    }
  }

  lemma IssuingTouchesOneUser(env: Env, db: Db, e: Event)
    requires db.Valid() && Legit(env, db, e) && e.Issued?
    ensures Apply(env, db, e).TokensWithout(e.user) == db.TokensWithout(e.user)
  {
  }

  lemma OutcomeIfIssued(env: Env, s: State, t: State, r: Req, email: string, raw: string, d: Delivery, u: Id)
    requires IssueEvent(env, s.db, s.clock, u, raw, d.issue).Issued? && r in t.pool
    requires t.pool[r] == Mailing(u, email, raw, s.db.nextToken) && t.pool - {r} == s.pool
    requires t.db == Apply(env, s.db, IssueEvent(env, s.db, s.clock, u, raw, d.issue))
    requires t.db.TokensWithout(u) == s.db.TokensWithout(u)
    ensures var h := [Quiet, IssueEvent(env, s.db, s.clock, u, raw, d.issue)] + TailEvents(t, r, d);
            ForgotOutcome(env, s, TailState(t, r, d), h, email, raw, d, u)
  {
    var h := [Quiet, IssueEvent(env, s.db, s.clock, u, raw, d.issue)] + TailEvents(t, r, d);
    assert h[2] == TailEvents(t, r, d)[0] && h[3] == TailEvents(t, r, d)[1];
  }

  /** After the commit: nothing if the call is over, else the mail, and a cleanup if that failed. */
  function TailState(s: State, r: Req, d: Delivery): State
    requires r in s.pool ==> s.pool[r].Mailing?
  {
    if r !in s.pool then s
    else if d.delivered || d.cleanup < 1 then s.(pool := s.pool - {r})
    else s.(pool := s.pool - {r}, db := s.db.(tokens := s.db.TokensWithout(s.pool[r].user)))
  }

  function TailEvents(s: State, r: Req, d: Delivery): seq<Event>
    requires r in s.pool ==> s.pool[r].Mailing?
  {
    if r !in s.pool then [Quiet, Quiet] else
      var m := s.pool[r];
      if d.delivered then [Mailed(m.token, m.email, m.raw), Quiet]
      else if d.cleanup < 1 then [MailFailed(m.token), CleanupFailed(m.token)]
      else [MailFailed(m.token), Cleaned(m.token, m.user)]
  }

  lemma LookupAndIssue(env: Env, s: State, r: Req, email: string, raw: string, d: Delivery, u: Id) returns (t: State)
    requires s.db.Valid() && r !in s.pool && u in s.db.users
    requires '@' in email && d.lookup >= 1 && s.db.users[u].email == email
    ensures var e := IssueEvent(env, s.db, s.clock, u, raw, d.issue);
            && t == s.(db := Apply(env, s.db, e),
                       pool := if e.Issued? then s.pool[r := Mailing(u, email, raw, e.token)] else s.pool)
            && Run(env, s, [ForgotLookup(r, email, d.lookup), ForgotIssue(r, raw, d.issue)]) == (t, [Quiet, e])
  {
    RunPair(env, s, ForgotLookup(r, email, d.lookup), ForgotIssue(r, raw, d.issue));
    var s1 := StepLookup(env, s, r, email, d.lookup, u);
    StepIssue(env, s1, r, raw, d.issue);
    t := Step(env, s1, ForgotIssue(r, raw, d.issue)).0;
  }

  lemma MailAndCleanup(env: Env, s: State, r: Req, d: Delivery)
    requires r in s.pool ==> s.pool[r].Mailing?
    ensures Run(env, s, [ForgotMail(r, d.delivered), ForgotCleanup(r, d.cleanup)])
         == (TailState(s, r, d), TailEvents(s, r, d))
  {
    RunPair(env, s, ForgotMail(r, d.delivered), ForgotCleanup(r, d.cleanup));
    StepMail(env, s, r, d.delivered);
    var s1 := Step(env, s, ForgotMail(r, d.delivered)).0;
    StepCleanup(env, s1, r, d.cleanup);
    if r in s.pool {
      assert s.pool[r := Cleaning(s.pool[r].user, s.pool[r].token)] - {r} == s.pool - {r};
    }
  }

  lemma StepLookup(env: Env, s: State, r: Req, email: string, budget: nat, u: Id) returns (s': State)
    requires s.db.Valid() && r !in s.pool && u in s.db.users
    requires '@' in email && budget >= 1 && s.db.users[u].email == email
    ensures s' == s.(pool := s.pool[r := Issuing(u, email)])
    ensures Step(env, s, ForgotLookup(r, email, budget)) == (s', Quiet)
  {
    s' := s.(pool := s.pool[r := Issuing(u, email)]);
    assert FindByEmail(s.db, email) == Some(u);
  }

  lemma StepIssue(env: Env, s: State, r: Req, raw: string, budget: nat)
    requires r in s.pool && s.pool[r].Issuing?
    ensures var e := IssueEvent(env, s.db, s.clock, s.pool[r].user, raw, budget);
            Step(env, s, ForgotIssue(r, raw, budget)) ==
            (s.(db := Apply(env, s.db, e),
                pool := if e.Issued? then s.pool[r := Mailing(e.user, s.pool[r].email, raw, e.token)]
                        else s.pool - {r}), e)
  {
  }

  lemma StepMail(env: Env, s: State, r: Req, delivered: bool)
    ensures r !in s.pool ==> Step(env, s, ForgotMail(r, delivered)) == (s, Quiet)
    ensures r in s.pool && s.pool[r].Mailing? ==>
              var m := s.pool[r];
              Step(env, s, ForgotMail(r, delivered)) ==
              if delivered then (s.(pool := s.pool - {r}), Mailed(m.token, m.email, m.raw))
              else (s.(pool := s.pool[r := Cleaning(m.user, m.token)]), MailFailed(m.token))
  {
  }

  lemma StepCleanup(env: Env, s: State, r: Req, budget: nat)
    ensures r !in s.pool ==> Step(env, s, ForgotCleanup(r, budget)) == (s, Quiet)
    ensures r in s.pool && s.pool[r].Cleaning? ==>
              var c := s.pool[r];
              Step(env, s, ForgotCleanup(r, budget)) ==
              if budget < 1 then (s.(pool := s.pool - {r}), CleanupFailed(c.token))
              else (s.(db := s.db.(tokens := s.db.TokensWithout(c.user)), pool := s.pool - {r}),
                    Cleaned(c.token, c.user))
  {
  }

  /** The cleanup deletes by user, not by token: while request `late` still has to clean up after
      its failed mail, request `quick` of the same user issues and mails a token, and the cleanup
      of `late` then removes that mailed token. So a mailed token need not stay valid. */
  lemma CleanupRemovesAnothersMailedToken(env: Env, s: State, late: Req, quick: Req, raw: string)
    requires s.db.Valid() && late in s.pool && quick in s.pool && late != quick
    requires s.pool[late].Cleaning? && s.pool[quick].Issuing? && s.pool[late].user == s.pool[quick].user
    requires IssueEvent(env, s.db, s.clock, s.pool[quick].user, raw, 4)
          == Issued(s.db.nextToken, s.pool[quick].user, raw, s.clock + env.ttl)
    ensures var minted := s.db.nextToken;
            var actions := [ForgotIssue(quick, raw, 4), ForgotMail(quick, true)] + [ForgotCleanup(late, 1)];
            var (s', h) := Run(env, s, actions);
            && h == [Issued(minted, s.pool[quick].user, raw, s.clock + env.ttl),
                     Mailed(minted, s.pool[quick].email, raw),
                     Cleaned(s.pool[late].token, s.pool[late].user)]
            && minted !in s'.db.tokens
  {
    hide Run, Step, IssueEvent;
    RunPair(env, s, ForgotIssue(quick, raw, 4), ForgotMail(quick, true));
    StepIssue(env, s, quick, raw, 4);
    var s1 := Step(env, s, ForgotIssue(quick, raw, 4)).0;
    StepMail(env, s1, quick, true);
    var s2 := Step(env, s1, ForgotMail(quick, true)).0;
    RunSnoc(env, s, [ForgotIssue(quick, raw, 4), ForgotMail(quick, true)], ForgotCleanup(late, 1));
    StepCleanup(env, s2, late, 1);
  }

  lemma StepRegister(env: Env, s: State, r: Req, sid: Sid, user: User, password: string, salt: string)
    requires r !in s.pool && ValidProfile(user.name, user.email) && ValidPassword(password)
    requires !s.db.EmailTaken(user.email, {}) && user.passwordHash == env.hash(password, salt)
    ensures var u := s.db.nextUser;
            Step(env, s, Register(r, sid, user.name, user.email, password, Some(salt), 1)) ==
            (s.(db := s.db.(users := s.db.users[u := user], nextUser := u + 1),
                pool := s.pool[r := Starting(sid, u)]),
             Registered(u, user.name, user.email, password, salt))
  {
  }

  /** Where all tokens are the user's own, nothing but the database can refuse it a new one. */
  lemma IssueSucceeds(env: Env, db: Db, now: int, user: Id, raw: string)
    requires user in db.users && forall t | t in db.tokens :: db.tokens[t].userId == user
    ensures IssueEvent(env, db, now, user, raw, 4) == Issued(db.nextToken, user, raw, now + env.ttl)
  {
  }

  lemma RunOne(env: Env, s: State, a: Action)
    ensures Run(env, s, [a]) == (Step(env, s, a).0, [Step(env, s, a).1])
  {
    RunSnoc(env, s, [], a);
    assert [] + [a] == [a] && Run(env, s, []) == (s, []);
    assert [] + [Step(env, s, a).1] == [Step(env, s, a).1];
  }

  lemma RegisterAndLookUp(env: Env, s: State, user: User, password: string, salt: string)
    returns (actions: seq<Action>, s': State)
    requires Initial(s) && ValidProfile(user.name, user.email) && ValidPassword(password)
    requires !s.db.EmailTaken(user.email, {}) && user.passwordHash == env.hash(password, salt)
    ensures var u := s.db.nextUser;
            s' == State(s.db.(users := s.db.users[u := user], nextUser := u + 1), s.sessions, s.clock,
                        map[0 := Starting(0, u), 1 := Issuing(u, user.email), 2 := Issuing(u, user.email)])
    ensures |actions| == 3 && Run(env, s, actions).0 == s'
  {
    hide Run, Step, Legit, ValidPassword;
    var u := s.db.nextUser;
    var register := Register(0, 0, user.name, user.email, password, Some(salt), 1);
    StepRegister(env, s, 0, 0, user, password, salt);
    RunOne(env, s, register);
    StepIsLegit(env, s, register);
    ApplyKeepsIntegrity(env, s.db, Registered(u, user.name, user.email, password, salt));
    hide Db.Valid;
    var s1 := Step(env, s, register).0;
    assert s1.db.users[u] == user;
    var lookups := [ForgotLookup(1, user.email, 1), ForgotLookup(2, user.email, 1)];
    RunAppend(env, s, [register], lookups);
    RunPair(env, s1, ForgotLookup(1, user.email, 1), ForgotLookup(2, user.email, 1));
    var s2 := StepLookup(env, s1, 1, user.email, 1, u);
    s' := StepLookup(env, s2, 2, user.email, 1, u);
    actions := [register] + lookups;
  }

  /** A run from the start to the state in which request 1 of a user has to clean up after its
      failed mail and request 2 of the same user is about to issue. */
  lemma TwoRequestsOfOneUser(env: Env, s: State, user: User, password: string, salt: string, raw: string)
    returns (actions: seq<Action>)
    requires Initial(s) && ValidProfile(user.name, user.email) && ValidPassword(password)
    requires !s.db.EmailTaken(user.email, {}) && user.passwordHash == env.hash(password, salt)
    ensures var u, minted := s.db.nextUser, s.db.nextToken;
            var t := Run(env, s, actions).0;
            && |actions| == 5 && u in t.db.users && t.clock == s.clock
            && t.pool == map[0 := Starting(0, u), 1 := Cleaning(u, minted), 2 := Issuing(u, user.email)]
            && t.db.tokens == map[minted := ResetToken(u, env.digest(raw), s.clock + env.ttl)]
            && t.db.nextToken == minted + 1
  {
    hide Run, Step, IssueEvent;
    var u := s.db.nextUser;
    var s1: State;
    actions, s1 := RegisterAndLookUp(env, s, user, password, salt);
    RunAppend(env, s, actions, [ForgotIssue(1, raw, 4), ForgotMail(1, false)]);
    RunPair(env, s1, ForgotIssue(1, raw, 4), ForgotMail(1, false));
    IssueSucceeds(env, s1.db, s.clock, u, raw);
    StepIssue(env, s1, 1, raw, 4);
    StepMail(env, Step(env, s1, ForgotIssue(1, raw, 4)).0, 1, false);
    actions := actions + [ForgotIssue(1, raw, 4), ForgotMail(1, false)];
  }

  /** From any initial state with an untaken email there is such a run: a registration, two reset
      requests of the new user, the first of which cannot mail; the second mails its token, and the
      cleanup of the first removes it. */
  lemma MailedTokenIsLostInARun(env: Env, s: State, user: User, password: string, salt: string,
                                first: string, second: string) returns (actions: seq<Action>)
    requires Initial(s) && ValidProfile(user.name, user.email) && ValidPassword(password)
    requires !s.db.EmailTaken(user.email, {}) && user.passwordHash == env.hash(password, salt)
    ensures var u, lost := s.db.nextUser, s.db.nextToken + 1;
            var (t, h) := Run(env, s, actions);
            && |h| == 8 && h[6] == Mailed(lost, user.email, second) && h[7] == Cleaned(s.db.nextToken, u)
            && lost !in t.db.tokens
  {
    hide Run, Step, IssueEvent;
    var u := s.db.nextUser;
    actions := TwoRequestsOfOneUser(env, s, user, password, salt, first);
    var (t, h) := Run(env, s, actions);
    RunIsLawful(env, s, actions);
    Integrity(env, s.db, h);
    IssueSucceeds(env, t.db, t.clock, u, second);
    CleanupRemovesAnothersMailedToken(env, t, 1, 2, second);
    var after := [ForgotIssue(2, second, 4), ForgotMail(2, true)] + [ForgotCleanup(1, 1)];
    RunAppend(env, s, actions, after);
    actions := actions + after;
  }
}
