/**
 Who acts: sessions, the identity they carry, and the ownership of accounts over whole runs.
 */
module Sessions {
  import opened Store
  import opened Protocol

  /** Somebody registered as `u`, or logged in as `u` with its password of the moment. */
  ghost predicate SignedIn(h: seq<Event>, u: Id) {
    exists i :: 0 <= i < |h| && (h[i].Registered? || h[i].LoggedIn?) && h[i].user == u
  }

  ghost predicate IssuedTo(h: seq<Event>, t: Id, u: Id, raw: string) {
    exists i :: 0 <= i < |h| && h[i].Issued? && h[i].token == t && h[i].user == u && h[i].raw == raw
  }

  /** What a suspended request holds goes back to events that happened before. */
  ghost predicate Traced(h: seq<Event>, p: Suspended) {
    match p
    case Starting(_, u) => SignedIn(h, u)
    case Issuing(_, _) => true
    case Mailing(u, _, raw, t) => IssuedTo(h, t, u, raw)
    case Cleaning(_, _) => true
    case Loading(sid, u, _) => SessionStarted(sid, u) in h
    case Authorized(sid, u, intent) =>
      SessionStarted(sid, u) in h && (intent.CreatePost? || intent.id == u)
    case Writing(sid, u, id, _, name, email) =>
      SessionStarted(sid, u) in h && id == u && ValidProfile(name, email)
  }

  /** Event `e`, coming after `h`, was prepared by an earlier one. */
  ghost predicate Prepared(h: seq<Event>, e: Event) {
    match e
    case SessionStarted(_, u) => SignedIn(h, u)
    case Authenticated(sid, u) => SessionStarted(sid, u) in h
    case Updated(sid, subject, u, name, email) =>
      SessionStarted(sid, u) in h && subject == u && ValidProfile(name, email)
    case Deleted(sid, subject, u) => SessionStarted(sid, u) in h && subject == u
    case Posted(_, u, _, _) => exists sid :: SessionStarted(sid, u) in h
    case Mailed(t, _, raw) => exists u :: IssuedTo(h, t, u, raw)
    case _ => true
  }

  ghost predicate TraceInvariant(s: State, h: seq<Event>) {
    && (forall sid | sid in s.sessions :: SessionStarted(sid, s.sessions[sid]) in h)
    && (forall r | r in s.pool :: Traced(h, s.pool[r]))
  }

  lemma TracedGrows(h: seq<Event>, e: Event, p: Suspended)
    requires Traced(h, p)
    ensures Traced(h + [e], p)
  {
    var g := h + [e];
    assert forall i | 0 <= i < |h| :: g[i] == h[i];
  }

  lemma StepIsPrepared(env: Env, s: State, h: seq<Event>, a: Action)
    requires TraceInvariant(s, h)
    ensures Prepared(h, Step(env, s, a).1)
  {
    if Enabled(s, a) && !(|| a.SetClock? || a.Register? || a.Login? || a.Logout? || a.ForgotLookup?
                          || a.Reset? || a.ReadSession?) {
      assert Traced(h, s.pool[a.req]);
    }
  }

  lemma StepSessionsTraced(env: Env, s: State, h: seq<Event>, a: Action, sid: Sid)
    requires TraceInvariant(s, h)
    requires sid in Step(env, s, a).0.sessions
    ensures SessionStarted(sid, Step(env, s, a).0.sessions[sid]) in h + [Step(env, s, a).1]
  {
  }

  lemma StepPoolTraced(env: Env, s: State, h: seq<Event>, a: Action, r: Req)
    requires TraceInvariant(s, h)
    requires r in Step(env, s, a).0.pool
    ensures Traced(h + [Step(env, s, a).1], Step(env, s, a).0.pool[r])
  {
    hide Apply, ValidPassword, SessionsAfter;
    var (s', e) := Step(env, s, a);
    var g := h + [e];
    assert forall i | 0 <= i < |h| :: g[i] == h[i];
    assert g[|h|] == e;
    if r in s.pool {
      TracedGrows(h, e, s.pool[r]);
    }
  }

  /** Every event of a run was prepared by what came before it. */
  lemma {:induction false} RunIsPrepared(env: Env, s: State, actions: seq<Action>)
    requires Initial(s)
    ensures var (t, h) := Run(env, s, actions);
            TraceInvariant(t, h) && forall k | 0 <= k < |h| :: Prepared(h[..k], h[k])
  {
    if actions != [] {
      var before, a := actions[..|actions| - 1], actions[|actions| - 1];
      RunIsPrepared(env, s, before);
      var (t, h) := Run(env, s, before);
      var (t', e) := Step(env, t, a);
      StepIsPrepared(env, t, h, a);
      forall sid | sid in t'.sessions ensures SessionStarted(sid, t'.sessions[sid]) in h + [e] {
        StepSessionsTraced(env, t, h, a, sid);
      }
      forall r | r in t'.pool ensures Traced(h + [e], t'.pool[r]) {
        StepPoolTraced(env, t, h, a, r);
      }
      forall k | 0 <= k < |h + [e]| ensures Prepared((h + [e])[..k], (h + [e])[k]) {
        assert (h + [e])[..k] == h[..k];
        assert k == |h| ==> h[..k] == h;
      }
    }
  }

  // ---------------------------------------------------------------- identity

  /** The session store never hands out a session id twice. */
  ghost predicate FreshSids(h: seq<Event>) {
    forall i, j | 0 <= i < j < |h| && h[i].SessionStarted? && h[j].SessionStarted? :: h[i].sid != h[j].sid
  }

  /** A session authenticates as the user it was started for or not at all. */
  lemma SessionIdentity(env: Env, s: State, actions: seq<Action>, j: nat, k: nat)
    requires Initial(s)
    requires var h := Run(env, s, actions).1;
             && FreshSids(h) && j < |h| && k < |h|
             && h[j].SessionStarted? && h[k].Authenticated? && h[j].sid == h[k].sid
    ensures var h := Run(env, s, actions).1; h[j].user == h[k].user && j < k
  {
    RunIsPrepared(env, s, actions);
    var h := Run(env, s, actions).1;
    assert Prepared(h[..k], h[k]);
    var i := PositionOf(h, k, SessionStarted(h[k].sid, h[k].user));
  }

  lemma {:induction false} UserIdsGrow(env: Env, db: Db, h: seq<Event>, j: nat)
    requires db.Valid() && Lawful(env, db, h) && j <= |h|
    ensures Replay(env, db, h[..j]).nextUser <= Replay(env, db, h).nextUser
  {
    if j < |h| {
      var g := h[..|h| - 1];
      UserIdsGrow(env, db, g, j);
      assert g[..j] == h[..j];
    } else {
      assert h[..j] == h;
    }
  }

  /** Ids are never reused: once a user is gone, nobody is ever that user again. */
  lemma {:induction false} GoneForGood(env: Env, db: Db, h: seq<Event>, i: nat, j: nat, u: Id)
    requires db.Valid() && Lawful(env, db, h) && i <= j <= |h|
    requires u in Replay(env, db, h[..i]).users && u !in Replay(env, db, h[..j]).users
    ensures u !in Replay(env, db, h).users
  {
    if j == |h| {
      assert h[..j] == h;
    } else {
      var g := h[..|h| - 1];
      assert g[..i] == h[..i] && g[..j] == h[..j];
      GoneForGood(env, db, g, i, j, u);
      UserBelowSequence(env, db, g, i, u);
      StaysGone(env, Replay(env, db, g), h[|g|], u);
    }
  }

  lemma StaysGone(env: Env, db: Db, e: Event, u: Id)
    requires Legit(env, db, e) && u < db.nextUser && u !in db.users
    ensures u !in Apply(env, db, e).users
  {
  }

  lemma {:induction false} UserBelowSequence(env: Env, db: Db, h: seq<Event>, i: nat, u: Id)
    requires db.Valid() && Lawful(env, db, h) && i <= |h| && u in Replay(env, db, h[..i]).users
    ensures u < Replay(env, db, h).nextUser
  {
    if i < |h| {
      LawfulPrefix(env, db, h, i);
    } else {
      assert h[..i] == h;
    }
    Integrity(env, db, h[..i]);
    UserIdsGrow(env, db, h, i);
  }

  // ---------------------------------------------------------------- ownership

  /** What the owner alone may change about an account: its profile and its existence. */
  ghost predicate ProfileChanged(before: Db, after: Db, u: Id)
    requires u in before.users
  {
    || u !in after.users
    || after.users[u].name != before.users[u].name
    || after.users[u].email != before.users[u].email
  }

  /** The profile or the existence of an account changes only by an update or a deletion whose
      session subject is that account, in a session started for it after a registration or a
      correct password. */
  lemma OnlyTheOwnerChangesAnAccount(env: Env, s: State, actions: seq<Action>, k: nat, u: Id) returns (i: nat, j: nat)
    requires Initial(s)
    requires var h := Run(env, s, actions).1;
             && k < |h| && u in Replay(env, s.db, h[..k]).users
             && ProfileChanged(Replay(env, s.db, h[..k]), Replay(env, s.db, h[..k + 1]), u)
    ensures var h := Run(env, s, actions).1; ChangedByOwner(h, i, j, k, u)
  {
    RunIsLawful(env, s, actions);
    RunIsPrepared(env, s, actions);
    var h := Run(env, s, actions).1;
    i, j := OwnerBehindChange(env, s.db, h, k, u);
  }

  /** `u` signed in at `i` and got a session at `j`, in which it made the change at `k`. */
  ghost predicate ChangedByOwner(h: seq<Event>, i: nat, j: nat, k: nat, u: Id) {
    && i < j < k < |h|
    && (h[i].Registered? || h[i].LoggedIn?) && h[i].user == u
    && (h[k].Updated? || h[k].Deleted?) && h[k].user == h[k].subject == u
    && h[j] == SessionStarted(h[k].sid, u)
  }

  lemma OwnerBehindChange(env: Env, db: Db, h: seq<Event>, k: nat, u: Id) returns (i: nat, j: nat)
    requires db.Valid() && Lawful(env, db, h) && k < |h| && u in Replay(env, db, h[..k]).users
    requires forall k | 0 <= k < |h| :: Prepared(h[..k], h[k])
    requires ProfileChanged(Replay(env, db, h[..k]), Replay(env, db, h[..k + 1]), u)
    ensures ChangedByOwner(h, i, j, k, u)
  {
    ProfileEventNamesOwner(env, db, h, k, u);
    assert Prepared(h[..k], h[k]);
    j := PositionOf(h, k, SessionStarted(h[k].sid, u));
    assert Prepared(h[..j], h[j]);
    i := SignInBefore(h, j, u);
  }

  lemma PositionOf(h: seq<Event>, k: nat, e: Event) returns (j: nat)
    requires k <= |h| && e in h[..k]
    ensures j < k && h[j] == e
  {
    j :| 0 <= j < k && h[..k][j] == e;
  }

  lemma SignInBefore(h: seq<Event>, k: nat, u: Id) returns (i: nat)
    requires k <= |h| && SignedIn(h[..k], u)
    ensures i < k && (h[i].Registered? || h[i].LoggedIn?) && h[i].user == u
  {
    var g := h[..k];
    i :| 0 <= i < k && (g[i].Registered? || g[i].LoggedIn?) && g[i].user == u;
  }

  lemma ProfileEventNamesOwner(env: Env, db: Db, h: seq<Event>, k: nat, u: Id)
    requires db.Valid() && Lawful(env, db, h) && k < |h| && u in Replay(env, db, h[..k]).users
    requires ProfileChanged(Replay(env, db, h[..k]), Replay(env, db, h[..k + 1]), u)
    ensures (h[k].Updated? || h[k].Deleted?) && h[k].user == u
  {
    LawfulPrefix(env, db, h, k);
    Integrity(env, db, h[..k]);
    assert h[..k + 1] == h[..k] + [h[k]];
    LawfulSnoc(env, db, h[..k], h[k]);
    ChangesNameTheOwner(env, Replay(env, db, h[..k]), h[k], u);
  }

  lemma ChangesNameTheOwner(env: Env, db: Db, e: Event, u: Id)
    requires db.Valid() && Legit(env, db, e) && u in db.users
    requires ProfileChanged(db, Apply(env, db, e), u)
    ensures (e.Updated? || e.Deleted?) && e.user == u
  {
  }
}
