/**
 Whom a reset mail goes to: the address its user had when the request was looked up, which an
 update that overtakes the request makes stale.
 */
module Addresses {
  import opened Wrappers
  import opened Store
  import opened Protocol
  import opened Sessions
  import opened Calls

  /** After the first `j` events of `h`, user `u` had the address `email`. */
  ghost predicate HadEmail(env: Env, db: Db, h: seq<Event>, j: nat, u: Id, email: string) {
    && j <= |h| && u in Replay(env, db, h[..j]).users
    && Replay(env, db, h[..j]).users[u].email == email
  }

  /** Request `r` is in flight after every action from `j` on. */
  ghost predicate InFlightSince(env: Env, s: State, actions: seq<Action>, j: nat, r: Req) {
    forall m: nat | j < m <= |actions| :: r in Run(env, s, actions[..m]).0.pool
  }

  /** Action `j` was the lookup of the reset request that `r` has been since, and found that user `u`
      had the address `email`. */
  ghost predicate LookedUp(env: Env, s: State, actions: seq<Action>, j: nat, r: Req, u: Id, email: string) {
    && j < |actions| && actions[j].ForgotLookup? && actions[j].req == r && actions[j].email == email
    && HadEmail(env, s.db, Run(env, s, actions).1, j, u, email)
    && InFlightSince(env, s, actions, j, r)
  }

  /** Action `i` issued token `t` to `u` for the reset request `r` that action `j` had looked up. */
  ghost predicate IssuedAfterLookup(env: Env, s: State, actions: seq<Action>, i: nat, j: nat, r: Req, t: Id, u: Id,
                                    raw: string, email: string)
  {
    && j < i < |actions| && i < |Run(env, s, actions).1|
    && actions[i].ForgotIssue? && actions[i].req == r
    && IsIssueOf(Run(env, s, actions).1[i], t, u, raw)
    && LookedUp(env, s, actions, j, r, u, email)
  }

  predicate IsIssueOf(e: Event, t: Id, u: Id, raw: string) {
    e.Issued? && e.token == t && e.user == u && e.raw == raw
  }

  /** The address a reset request holds is the one its own lookup found. */
  ghost predicate Addressed(env: Env, s: State, actions: seq<Action>, r: Req, p: Suspended) {
    match p
    case Issuing(u, email) => exists j: nat :: LookedUp(env, s, actions, j, r, u, email)
    case Mailing(u, email, raw, t) =>
      exists i: nat, j: nat :: IssuedAfterLookup(env, s, actions, i, j, r, t, u, raw, email)
    case _ => true
  }

  lemma LookedUpGrows(env: Env, s: State, actions: seq<Action>, a: Action, j: nat, r: Req, u: Id, email: string)
    requires LookedUp(env, s, actions, j, r, u, email) && r in Run(env, s, actions + [a]).0.pool
    ensures LookedUp(env, s, actions + [a], j, r, u, email)
  {
    var longer := actions + [a];
    RunSnoc(env, s, actions, a);
    RunIsLawful(env, s, actions);
    hide Run, Step;
    var h := Run(env, s, actions).1;
    assert Run(env, s, longer).1[..j] == h[..j];
    forall m: nat | j < m <= |longer| ensures r in Run(env, s, longer[..m]).0.pool {
      assert m <= |actions| ==> longer[..m] == actions[..m];
      assert m == |longer| ==> longer[..m] == longer;
    }
  }

  lemma AddressedGrows(env: Env, s: State, actions: seq<Action>, a: Action, r: Req, p: Suspended)
    requires Addressed(env, s, actions, r, p) && r in Run(env, s, actions + [a]).0.pool
    ensures Addressed(env, s, actions + [a], r, p)
  {
    RunSnoc(env, s, actions, a);
    RunIsLawful(env, s, actions);
    hide Run, Step, LookedUp;
    match p
    case Issuing(u, email) =>
      var j: nat :| LookedUp(env, s, actions, j, r, u, email);
      LookedUpGrows(env, s, actions, a, j, r, u, email);
    case Mailing(u, email, raw, t) =>
      var i: nat, j: nat :| IssuedAfterLookup(env, s, actions, i, j, r, t, u, raw, email);
      LookedUpGrows(env, s, actions, a, j, r, u, email);
      assert IssuedAfterLookup(env, s, actions + [a], i, j, r, t, u, raw, email);
    case _ =>
  }

  /** A request that begins to wait for its issue has just read the address; one that begins to
      wait for its mail has just issued, and keeps the address. */
  lemma WhereAddressesComeFrom(env: Env, s: State, a: Action, r: Req)
    requires s.db.UniqueEmails()
    requires r in Step(env, s, a).0.pool && (r in s.pool ==> s.pool[r] != Step(env, s, a).0.pool[r])
    ensures var (s', e) := Step(env, s, a);
            var p := s'.pool[r];
            && (p.Issuing? ==> && a.ForgotLookup? && a.req == r && a.email == p.email
                               && p.user in s.db.users && s.db.users[p.user].email == p.email)
            && (p.Mailing? ==> && a.ForgotIssue? && a.req == r && r in s.pool && s.pool[r] == Issuing(p.user, p.email)
                               && e.Issued? && e.token == p.token && e.user == p.user && e.raw == p.raw)
  {
  }

  lemma NewlyIssuing(env: Env, s: State, actions: seq<Action>, a: Action, r: Req, p: Suspended)
    requires a.ForgotLookup? && a.req == r && p.Issuing? && a.email == p.email
    requires var t := Run(env, s, actions).0; p.user in t.db.users && t.db.users[p.user].email == p.email
    requires r in Run(env, s, actions + [a]).0.pool
    ensures Addressed(env, s, actions + [a], r, p)
  {
    var longer, n := actions + [a], |actions|;
    RunIsLawful(env, s, actions);
    RunSnoc(env, s, actions, a);
    hide Run, Step;
    assert Run(env, s, longer).1[..n] == Run(env, s, actions).1 && longer[..|longer|] == longer;
    assert HadEmail(env, s.db, Run(env, s, longer).1, n, p.user, p.email);
    assert LookedUp(env, s, longer, n, r, p.user, p.email);
  }

  lemma NewlyMailing(env: Env, s: State, actions: seq<Action>, a: Action, r: Req, p: Suspended)
    requires a.ForgotIssue? && a.req == r && p.Mailing?
    requires Addressed(env, s, actions, r, Issuing(p.user, p.email))
    requires IsIssueOf(Step(env, Run(env, s, actions).0, a).1, p.token, p.user, p.raw)
    requires r in Run(env, s, actions + [a]).0.pool
    ensures Addressed(env, s, actions + [a], r, p)
  {
    RunIsLawful(env, s, actions);
    RunSnoc(env, s, actions, a);
    hide Run, Step, LookedUp;
    var j: nat :| LookedUp(env, s, actions, j, r, p.user, p.email);
    LookedUpGrows(env, s, actions, a, j, r, p.user, p.email);
    LookedUpBefore(env, s, actions, j, r, p.user, p.email);
    assert IssuedAfterLookup(env, s, actions + [a], |actions|, j, r, p.token, p.user, p.raw, p.email);
  }

  lemma LookedUpBefore(env: Env, s: State, actions: seq<Action>, j: nat, r: Req, u: Id, email: string)
    requires LookedUp(env, s, actions, j, r, u, email)
    ensures j < |actions|
  {
  }

  lemma NewlyAddressed(env: Env, s: State, actions: seq<Action>, a: Action, r: Req, p: Suspended)
    requires r in Run(env, s, actions + [a]).0.pool
    requires var t := Run(env, s, actions).0;
             && (p.Issuing? ==> && a.ForgotLookup? && a.req == r && a.email == p.email
                                && p.user in t.db.users && t.db.users[p.user].email == p.email)
             && (p.Mailing? ==> && a.ForgotIssue? && a.req == r
                                && IsIssueOf(Step(env, t, a).1, p.token, p.user, p.raw)
                                && Addressed(env, s, actions, r, Issuing(p.user, p.email)))
    ensures Addressed(env, s, actions + [a], r, p)
  {
    hide Run, Step;
    match p
    case Issuing(_, _) => NewlyIssuing(env, s, actions, a, r, p);
    case Mailing(_, _, _, _) => NewlyMailing(env, s, actions, a, r, p);
    case _ =>
  }

  lemma {:induction false} RunIsAddressed(env: Env, s: State, actions: seq<Action>)
    requires Initial(s)
    ensures var t := Run(env, s, actions).0; forall r | r in t.pool :: Addressed(env, s, actions, r, t.pool[r])
  {
    if actions != [] {
      var before, a := actions[..|actions| - 1], actions[|actions| - 1];
      RunIsAddressed(env, s, before);
      RunIsLawful(env, s, before);
      Integrity(env, s.db, Run(env, s, before).1);
      RunSnoc(env, s, before, a);
      assert before + [a] == actions;
      hide Run, Step, Addressed, Db.Valid;
      var t, t' := Run(env, s, before).0, Run(env, s, actions).0;
      forall r | r in t'.pool ensures Addressed(env, s, actions, r, t'.pool[r]) {
        if r in t.pool && t.pool[r] == t'.pool[r] {
          AddressedGrows(env, s, before, a, r, t.pool[r]);
        } else {
          WhereAddressesComeFrom(env, t, a, r);
          NewlyAddressed(env, s, before, a, r, t'.pool[r]);
        }
      }
    }
  }

  lemma MailComesFromRequest(env: Env, s: State, a: Action)
    requires Step(env, s, a).1.Mailed?
    ensures var e := Step(env, s, a).1;
            a.ForgotMail? && a.req in s.pool && s.pool[a.req].Mailing?
            && s.pool[a.req] == Mailing(s.pool[a.req].user, e.to, e.raw, e.token)
  {
  }

  lemma {:induction false} RunPrefix(env: Env, s: State, actions: seq<Action>, k: nat)
    requires k < |actions|
    ensures var (t, g) := Run(env, s, actions[..k]);
            var h := Run(env, s, actions).1;
            k < |h| && h[..k] == g && h[k] == Step(env, t, actions[k]).1
  {
    hide Step;
    var before := actions[..|actions| - 1];
    RunIsLawful(env, s, before);
    if k < |before| {
      RunPrefix(env, s, before, k);
      assert before[..k] == actions[..k];
    } else {
      assert before == actions[..k];
    }
  }

  /** Without an update of `u` its address stays, as long as `u` does. */
  lemma {:induction false} EmailStays(env: Env, db: Db, h: seq<Event>, j: nat, u: Id, email: string)
    requires db.Valid() && Lawful(env, db, h) && HadEmail(env, db, h, j, u, email)
    requires forall m | j <= m < |h| :: !(h[m].Updated? && h[m].user == u)
    ensures u in Replay(env, db, h).users ==> Replay(env, db, h).users[u].email == email
  {
    hide Apply, Legit;
    if j == |h| {
      assert h[..j] == h;
    } else {
      var g, last := h[..|h| - 1], h[|h| - 1];
      assert g[..j] == h[..j];
      EmailStays(env, db, g, j, u, email);
      Integrity(env, db, g);
      if u in Replay(env, db, g).users {
        EmailStaysOnEvent(env, Replay(env, db, g), last, u);
      } else {
        assert g[..|g|] == g;
        UserBelowSequence(env, db, g, j, u);
        StaysGone(env, Replay(env, db, g), last, u);
      }
    }
  }

  lemma EmailStaysOnEvent(env: Env, db: Db, e: Event, u: Id)
    requires db.Valid() && Legit(env, db, e) && u in db.users && !(e.Updated? && e.user == u)
    ensures u in Apply(env, db, e).users ==> Apply(env, db, e).users[u].email == db.users[u].email
  {
  }

  /** In every run a mail goes out for a token issued to a user, to the address that user had when
      the lookup of that very request found it; and if the user was not updated since, that is its
      address still. */
  lemma MailGoesToItsUser(env: Env, s: State, actions: seq<Action>, k: nat) returns (i: nat, j: nat)
    requires Initial(s) && k < |actions|
    requires k < |Run(env, s, actions).1| && Run(env, s, actions).1[k].Mailed?
    ensures var h := Run(env, s, actions).1;
            && j < i < k && actions[k].ForgotMail?
            && h[i].Issued? && h[i].token == h[k].token && h[i].raw == h[k].raw
            && IssuedAfterLookup(env, s, actions[..k], i, j, actions[k].req, h[k].token, h[i].user, h[k].raw, h[k].to)
            && HadEmail(env, s.db, h, j, h[i].user, h[k].to)
            && ((forall m | j <= m < k :: !(h[m].Updated? && h[m].user == h[i].user)) ==>
                  h[i].user in Replay(env, s.db, h[..k]).users ==>
                    Replay(env, s.db, h[..k]).users[h[i].user].email == h[k].to)
  {
    var h := Run(env, s, actions).1;
    var (t, g) := Run(env, s, actions[..k]);
    RunPrefix(env, s, actions, k);
    MailComesFromRequest(env, t, actions[k]);
    RunIsAddressed(env, s, actions[..k]);
    RunIsLawful(env, s, actions[..k]);
    hide Run, Step;
    var r := actions[k].req;
    var u := t.pool[r].user;
    assert Addressed(env, s, actions[..k], r, t.pool[r]);
    i, j :| IssuedAfterLookup(env, s, actions[..k], i, j, r, h[k].token, u, h[k].raw, h[k].to);
    assert h[..j] == g[..j] && h[i] == g[i];
    if forall m | j <= m < k :: !(h[m].Updated? && h[m].user == u) {
      EmailStays(env, s.db, g, j, u, h[k].to);
    }
  }

  // ---------------------------------------------------------------- an update in between

  lemma OpenUpdate(env: Env, s: State, r: Req, sid: Sid, u: Id, intent: Intent)
    requires sid in s.sessions && s.sessions[sid] == u && u in s.db.users && r !in s.pool
    requires intent.Update? && intent.id == u
    ensures Run(env, s, [ReadSession(r, sid, intent, true), LoadUser(r, 1)]).0
         == s.(pool := s.pool[r := Authorized(sid, u, intent)])
  {
    RunPair(env, s, ReadSession(r, sid, intent, true), LoadUser(r, 1));
    var s1 := s.(pool := s.pool[r := Loading(sid, u, intent)]);
    assert Step(env, s, ReadSession(r, sid, intent, true)) == (s1, Quiet);
    assert Step(env, s1, LoadUser(r, 1)).0 == s1.(pool := s1.pool[r := Authorized(sid, u, intent)]);
  }

  lemma StepRead(env: Env, s: State, r: Req, sid: Sid, u: Id, name: string, email: string)
    requires r in s.pool && s.pool[r] == Authorized(sid, u, Update(u, name, email)) && u in s.db.users
    requires ValidProfile(name, email)
    ensures Step(env, s, UpdateRead(r, 1)).0
         == s.(pool := s.pool[r := Writing(sid, u, u, s.db.users[u], name, email)])
  {
  }

  lemma StepWrite(env: Env, s: State, r: Req)
    requires r in s.pool && s.pool[r].Writing? && s.pool[r].id in s.db.users
    requires !s.db.EmailTaken(s.pool[r].email, {s.pool[r].id})
    ensures var w := s.pool[r];
            Step(env, s, UpdateWrite(r, 1)).0 ==
            s.(pool := s.pool - {r}, db := Apply(env, s.db, Updated(w.sid, w.subject, w.id, w.name, w.email)))
  {
  }

  lemma PerformUpdate(env: Env, s: State, r: Req, sid: Sid, u: Id, name: string, email: string)
    requires r in s.pool && s.pool[r] == Authorized(sid, u, Update(u, name, email)) && u in s.db.users
    requires ValidProfile(name, email) && !s.db.EmailTaken(email, {u})
    ensures Run(env, s, [UpdateRead(r, 1), UpdateWrite(r, 1)]).0
         == s.(pool := s.pool - {r}, db := Apply(env, s.db, Updated(sid, u, u, name, email)))
  {
    hide Run, Step, Apply;
    RunPair(env, s, UpdateRead(r, 1), UpdateWrite(r, 1));
    StepRead(env, s, r, sid, u, name, email);
    var s1 := Step(env, s, UpdateRead(r, 1)).0;
    StepWrite(env, s1, r);
    assert s1.pool - {r} == s.pool - {r};
  }

  /** A whole update of `u` in its session, from reading the session to the write. */
  lemma UpdateCall(env: Env, s: State, r: Req, sid: Sid, u: Id, name: string, email: string)
    requires sid in s.sessions && s.sessions[sid] == u && u in s.db.users && r !in s.pool
    requires ValidProfile(name, email) && !s.db.EmailTaken(email, {u})
    ensures Run(env, s, [ReadSession(r, sid, Update(u, name, email), true), LoadUser(r, 1)]
                        + [UpdateRead(r, 1), UpdateWrite(r, 1)]).0
         == s.(db := Apply(env, s.db, Updated(sid, u, u, name, email)))
  {
    hide Run, Apply;
    var intent := Update(u, name, email);
    OpenUpdate(env, s, r, sid, u, intent);
    var s1 := s.(pool := s.pool[r := Authorized(sid, u, intent)]);
    PerformUpdate(env, s1, r, sid, u, name, email);
    RunAppend(env, s, [ReadSession(r, sid, intent, true), LoadUser(r, 1)], [UpdateRead(r, 1), UpdateWrite(r, 1)]);
    assert s1.pool - {r} == s.pool;
  }

  /** Registration, its session, and the lookup of a reset request for the new user. */
  lemma RegisterStartLookUp(env: Env, s: State, user: User, password: string, salt: string)
    returns (actions: seq<Action>, t: State)
    requires Initial(s) && ValidProfile(user.name, user.email) && ValidPassword(password)
    requires !s.db.EmailTaken(user.email, {}) && user.passwordHash == env.hash(password, salt)
    ensures var u := s.db.nextUser;
            t == State(s.db.(users := s.db.users[u := user], nextUser := u + 1), map[1 := u], s.clock,
                       map[1 := Issuing(u, user.email)])
    ensures |actions| == 3 && Run(env, s, actions).0 == t && t.db.Valid()
  {
    hide Run, Step, Legit, ValidPassword;
    var u := s.db.nextUser;
    var register := Register(0, 0, user.name, user.email, password, Some(salt), 1);
    StepRegister(env, s, 0, 0, user, password, salt);
    StepIsLegit(env, s, register);
    ApplyKeepsIntegrity(env, s.db, Registered(u, user.name, user.email, password, salt));
    hide Db.Valid;
    var s1 := Step(env, s, register).0;
    assert s1.db.users[u] == user;
    RunPair(env, s, register, StartSession(0, 1, true, true));
    var s2 := StepStart(env, s1, 0, 1);
    assert s1.pool - {0} == map[] && s1.sessions - {0} == map[];
    t := StepLookup(env, s2, 1, user.email, 1, u);
    RunSnoc(env, s, [register, StartSession(0, 1, true, true)], ForgotLookup(1, user.email, 1));
    actions := [register, StartSession(0, 1, true, true)] + [ForgotLookup(1, user.email, 1)];
  }

  lemma StepStart(env: Env, s: State, r: Req, sid: Sid) returns (s': State)
    requires r in s.pool && s.pool[r].Starting?
    ensures s' == Step(env, s, StartSession(r, sid, true, true)).0
    ensures s' == s.(sessions := (s.sessions - {s.pool[r].sid})[sid := s.pool[r].user], pool := s.pool - {r})
  {
    s' := Step(env, s, StartSession(r, sid, true, true)).0;
  }

  /** From any initial state with two untaken emails there is a run in which a user updates its email
      between the lookup and the mail of its reset request: the token goes to the address it has
      given up. */
  lemma UpdateMakesAddressStale(env: Env, s: State, user: User, password: string, salt: string, raw: string,
                                name: string, email: string) returns (actions: seq<Action>)
    requires Initial(s) && ValidProfile(user.name, user.email) && ValidPassword(password)
    requires !s.db.EmailTaken(user.email, {}) && user.passwordHash == env.hash(password, salt)
    requires ValidProfile(name, email) && email != user.email && !s.db.EmailTaken(email, {})
    ensures var u, minted := s.db.nextUser, s.db.nextToken;
            var (t, h) := Run(env, s, actions);
            && |h| == 9 && h[7] == Issued(minted, u, raw, s.clock + env.ttl) && h[8] == Mailed(minted, user.email, raw)
            && u in t.db.users && t.db.users[u].email == email != user.email
  {
    hide Run, Step, IssueEvent, Lawful, Legit, ValidPassword, ValidProfile, Db.Valid;
    var u := s.db.nextUser;
    var s1: State;
    actions, s1 := RegisterStartLookUp(env, s, user, password, salt);
    UpdateCall(env, s1, 2, 1, u, name, email);
    var update := [ReadSession(2, 1, Update(u, name, email), true), LoadUser(2, 1)]
                  + [UpdateRead(2, 1), UpdateWrite(2, 1)];
    RunAppend(env, s, actions, update);
    actions := actions + update;
    RunIsLawful(env, s, actions);
    var s2 := Run(env, s, actions).0;
    IssueSucceeds(env, s2.db, s2.clock, u, raw);
    RunPair(env, s2, ForgotIssue(1, raw, 4), ForgotMail(1, true));
    StepIssue(env, s2, 1, raw, 4);
    StepMail(env, Step(env, s2, ForgotIssue(1, raw, 4)).0, 1, true);
    RunAppend(env, s, actions, [ForgotIssue(1, raw, 4), ForgotMail(1, true)]);
    actions := actions + [ForgotIssue(1, raw, 4), ForgotMail(1, true)];
  }
}
