/**
 The account endpoints as one transition system.

 A request is an async function that other requests may overtake wherever it awaits. Between two
 awaits it holds captured locals, and those are what the `pool` keeps for it. One autocommit
 statement is one step; one `begin .. commit` block is one step, and rolls back if it does not
 reach its commit. `budget` is the number of database statements that succeed before one fails.
 */
module Protocol {
  import opened Wrappers
  import opened Store

  type Sid = nat
  type Req = nat

  datatype Intent = Update(id: Id, name: string, email: string)
                  | Delete(id: Id)
                  | CreatePost(title: string, body: string)

  datatype Suspended =
    | Starting(sid: Sid, user: Id)                               // account found, session not yet written
    | Issuing(user: Id, email: string)                           // reset requested, user looked up
    | Mailing(user: Id, email: string, raw: string, token: Id)   // token committed, not yet mailed
    | Cleaning(user: Id, token: Id)                              // mail failed, token not yet deleted
    | Loading(sid: Sid, subject: Id, intent: Intent)             // session read, user not yet loaded
    | Authorized(sid: Sid, subject: Id, intent: Intent)          // user loaded, ownership checked
    | Writing(sid: Sid, subject: Id, id: Id, row: User, name: string, email: string)

  datatype State = State(db: Db, sessions: map<Sid, Id>, clock: int, pool: map<Req, Suspended>)

  datatype Action =
    | SetClock(now: int)
    | Register(req: Req, sid: Sid, name: string, email: string, password: string, salt: Option<string>, budget: nat)
    | Login(req: Req, sid: Sid, email: string, password: string, budget: nat)
    | StartSession(req: Req, newSid: Sid, cycled: bool, inserted: bool)
    | Logout(sid: Sid, flushed: bool)
    | ForgotLookup(req: Req, email: string, budget: nat)
    | ForgotIssue(req: Req, raw: string, budget: nat)
    | ForgotMail(req: Req, delivered: bool)
    | ForgotCleanup(req: Req, budget: nat)
    | Reset(raw: string, password: string, salt: Option<string>, budget: nat)
    | ReadSession(req: Req, sid: Sid, intent: Intent, readable: bool)
    | LoadUser(req: Req, budget: nat)
    | UpdateRead(req: Req, budget: nat)
    | UpdateWrite(req: Req, budget: nat)
    | DeleteExec(req: Req, budget: nat)
    | PostExec(req: Req, budget: nat)

  /** Before any request: only users that predate the password column, so with an empty hash. */
  ghost predicate Initial(s: State) {
    && s.db.Valid() && s.db.tokens == map[] && s.sessions == map[] && s.pool == map[]
    && forall u | u in s.db.users :: s.db.users[u].passwordHash == ""
  }

  ghost function FindByEmail(db: Db, email: string): (r: Option<Id>)
    ensures r.Some? <==> db.EmailTaken(email, {})
    ensures r.Some? ==> r.value in db.users && db.users[r.value].email == email
  {
    if exists u :: u in db.users && db.users[u].email == email then
      var u :| u in db.users && db.users[u].email == email;
      Some(u)
    else None
  }

  ghost function FindByDigest(db: Db, digest: string): (r: Option<Id>)
    ensures r.None? ==> forall t | t in db.tokens :: db.tokens[t].tokenHash != digest
    ensures r.Some? ==> r.value in db.tokens && db.tokens[r.value].tokenHash == digest
  {
    if exists t :: t in db.tokens && db.tokens[t].tokenHash == digest then
      var t :| t in db.tokens && db.tokens[t].tokenHash == digest;
      Some(t)
    else None
  }

  // ---------------------------------------------------------------- what each call decides

  ghost function RegisterEvent(env: Env, db: Db, name: string, email: string, password: string,
                               salt: Option<string>, budget: nat): Event
  {
    if !ValidProfile(name, email) || !ValidPassword(password) then Rejected(Validation)
    else if salt.None? then Rejected(Internal)
    else if budget < 1 then Rejected(DbError)
    else if db.EmailTaken(email, {}) then Rejected(Conflict)
    else Registered(db.nextUser, name, email, password, salt.value)
  }

  ghost function LoginEvent(env: Env, db: Db, email: string, password: string, budget: nat): Event {
    var u := FindByEmail(db, email);
    if budget < 1 then Rejected(DbError)
    else if u.None? || env.verify(password, db.users[u.value].passwordHash) != Match then Rejected(Unauthorized)
    else LoggedIn(u.value, email, password)
  }

  /** The foreign key refuses a user deleted since the lookup, the unique key a digest in use. */
  ghost function IssueEvent(env: Env, db: Db, now: int, user: Id, raw: string, budget: nat): Event {
    if budget < 4 || user !in db.users || db.DigestTaken(env.digest(raw), user) then Rejected(DbError)
    else Issued(db.nextToken, user, raw, now + env.ttl)
  }

  ghost function ResetEvent(env: Env, db: Db, now: int, raw: string, password: string, salt: Option<string>,
                            budget: nat): Event
  {
    var t := FindByDigest(db, env.digest(raw));
    if !ValidPassword(password) then Rejected(Validation)
    else if budget < 2 then Rejected(DbError)
    else if t.None? then Rejected(Validation)
    else if db.tokens[t.value].expiresAt < now then
      if budget < 4 then Rejected(DbError) else Expired(t.value, raw, now)
    else if salt.None? then Rejected(Internal)
    else if budget < 5 || db.tokens[t.value].userId !in db.users then Rejected(DbError)
    else Consumed(t.value, db.tokens[t.value].userId, raw, password, salt.value, now)
  }

  ghost function LoadEvent(db: Db, sid: Sid, subject: Id, intent: Intent, budget: nat): Event {
    if budget < 1 then Rejected(Internal)
    else if subject !in db.users then Rejected(Unauthorized)
    else if !intent.CreatePost? && intent.id != subject then Rejected(Forbidden)
    else Authenticated(sid, subject)
  }

  /** What `UpdateRead` answers right away, if it does not go on to the write. */
  ghost function ReadEvent(db: Db, id: Id, name: string, email: string, budget: nat): Event {
    if !ValidProfile(name, email) then Rejected(Validation)
    else if budget < 1 then Rejected(DbError)
    else if id !in db.users then Rejected(NotFound)
    else Quiet
  }

  ghost function WriteEvent(db: Db, w: Suspended, budget: nat): Event
    requires w.Writing?
  {
    if budget < 1 || w.id !in db.users then Rejected(DbError)
    else if db.EmailTaken(w.email, {w.id}) then Rejected(Conflict)
    else Updated(w.sid, w.subject, w.id, w.name, w.email)
  }

  ghost function DeleteEvent(db: Db, sid: Sid, subject: Id, id: Id, budget: nat): Event {
    if budget < 1 then Rejected(DbError)
    else if id !in db.users then Rejected(NotFound)
    else Deleted(sid, subject, id)
  }

  ghost function PostEvent(db: Db, subject: Id, title: string, body: string, budget: nat): Event {
    if IsBlank(title) then Rejected(Validation)
    else if budget < 2 then Rejected(DbError)
    else if subject !in db.users then Rejected(NotFound)
    else if budget < 4 then Rejected(DbError)
    else Posted(db.nextPost, subject, title, body)
  }

  // ---------------------------------------------------------------- steps

  /** The action does not apply: a busy request id, or a request that is not at this point. */
  predicate Enabled(s: State, a: Action) {
    match a
    case Register(r, _, _, _, _, _, _) => r !in s.pool
    case Login(r, _, _, _, _) => r !in s.pool
    case ForgotLookup(r, _, _) => r !in s.pool
    case ReadSession(r, _, _, _) => r !in s.pool
    case StartSession(r, _, _, _) => r in s.pool && s.pool[r].Starting?
    case ForgotIssue(r, _, _) => r in s.pool && s.pool[r].Issuing?
    case ForgotMail(r, _) => r in s.pool && s.pool[r].Mailing?
    case ForgotCleanup(r, _) => r in s.pool && s.pool[r].Cleaning?
    case LoadUser(r, _) => r in s.pool && s.pool[r].Loading?
    case UpdateRead(r, _) => r in s.pool && s.pool[r].Authorized? && s.pool[r].intent.Update?
    case UpdateWrite(r, _) => r in s.pool && s.pool[r].Writing?
    case DeleteExec(r, _) => r in s.pool && s.pool[r].Authorized? && s.pool[r].intent.Delete?
    case PostExec(r, _) => r in s.pool && s.pool[r].Authorized? && s.pool[r].intent.CreatePost?
    case _ => true
  }

  /** The event the action causes; it alone decides what happens to the tables. */
  ghost function EventOf(env: Env, s: State, a: Action): Event
    requires Enabled(s, a)
  {
    match a
    case SetClock(_) => Quiet
    case Register(_, _, name, email, password, salt, budget) =>
      RegisterEvent(env, s.db, name, email, password, salt, budget)
    case Login(_, _, email, password, budget) => LoginEvent(env, s.db, email, password, budget)
    case StartSession(r, newSid, cycled, inserted) =>
      if cycled && inserted then SessionStarted(newSid, s.pool[r].user) else Rejected(Internal)
    case Logout(_, flushed) => if flushed then Quiet else Rejected(Internal)
    case ForgotLookup(_, email, budget) =>
      if '@' !in email then Rejected(Validation) else if budget < 1 then Rejected(DbError) else Quiet
    case ForgotIssue(r, raw, budget) => IssueEvent(env, s.db, s.clock, s.pool[r].user, raw, budget)
    case ForgotMail(r, delivered) =>
      var m := s.pool[r];
      if delivered then Mailed(m.token, m.email, m.raw) else MailFailed(m.token)
    case ForgotCleanup(r, budget) =>
      if budget < 1 then CleanupFailed(s.pool[r].token) else Cleaned(s.pool[r].token, s.pool[r].user)
    case Reset(raw, password, salt, budget) => ResetEvent(env, s.db, s.clock, raw, password, salt, budget)
    case ReadSession(_, sid, _, readable) =>
      if !readable then Rejected(Internal) else if sid !in s.sessions then Rejected(Unauthorized) else Quiet
    case LoadUser(r, budget) => LoadEvent(s.db, s.pool[r].sid, s.pool[r].subject, s.pool[r].intent, budget)
    case UpdateRead(r, budget) =>
      ReadEvent(s.db, s.pool[r].intent.id, s.pool[r].intent.name, s.pool[r].intent.email, budget)
    case UpdateWrite(r, budget) => WriteEvent(s.db, s.pool[r], budget)
    case DeleteExec(r, budget) => DeleteEvent(s.db, s.pool[r].sid, s.pool[r].subject, s.pool[r].intent.id, budget)
    case PostExec(r, budget) =>
      PostEvent(s.db, s.pool[r].subject, s.pool[r].intent.title, s.pool[r].intent.body, budget)
  }

  /** Where the request waits next, if the event lets it go on. */
  ghost function PoolAfter(s: State, a: Action, e: Event): map<Req, Suspended>
    requires Enabled(s, a)
  {
    match a
    case Register(r, sid, _, _, _, _, _) =>
      if e.Registered? then s.pool[r := Starting(sid, e.user)] else s.pool
    case Login(r, sid, _, _, _) =>
      if e.LoggedIn? then s.pool[r := Starting(sid, e.user)] else s.pool
    case StartSession(r, _, _, _) => s.pool - {r}
    case ForgotLookup(r, email, _) =>
      var u := FindByEmail(s.db, email);
      if e.Quiet? && u.Some? then s.pool[r := Issuing(u.value, s.db.users[u.value].email)] else s.pool
    case ForgotIssue(r, raw, _) =>
      if e.Issued? then s.pool[r := Mailing(e.user, s.pool[r].email, raw, e.token)] else s.pool - {r}
    case ForgotMail(r, _) =>
      if e.MailFailed? then s.pool[r := Cleaning(s.pool[r].user, s.pool[r].token)] else s.pool - {r}
    case ForgotCleanup(r, _) => s.pool - {r}
    case ReadSession(r, sid, intent, _) =>
      if e.Quiet? && sid in s.sessions then s.pool[r := Loading(sid, s.sessions[sid], intent)] else s.pool
    case LoadUser(r, _) =>
      if e.Authenticated?
      then s.pool[r := Authorized(s.pool[r].sid, s.pool[r].subject, s.pool[r].intent)] else s.pool - {r}
    case UpdateRead(r, _) =>
      var p := s.pool[r];
      if e.Quiet? && p.intent.id in s.db.users
      then s.pool[r := Writing(p.sid, p.subject, p.intent.id, s.db.users[p.intent.id], p.intent.name, p.intent.email)]
      else s.pool - {r}
    case UpdateWrite(r, _) => s.pool - {r}
    case DeleteExec(r, _) => s.pool - {r}
    case PostExec(r, _) => s.pool - {r}
    case _ => s.pool
  }

  /** Starting a session moves it to a new id; a failure half-way has already lost the old one. */
  function SessionsAfter(s: State, a: Action): map<Sid, Id>
    requires Enabled(s, a)
  {
    match a
    case StartSession(r, newSid, cycled, inserted) =>
      if !cycled then s.sessions
      else if !inserted then s.sessions - {s.pool[r].sid}
      else (s.sessions - {s.pool[r].sid})[newSid := s.pool[r].user]
    case Logout(sid, flushed) => if flushed then s.sessions - {sid} else s.sessions
    case _ => s.sessions
  }

  ghost function Step(env: Env, s: State, a: Action): (State, Event) {
    if !Enabled(s, a) then (s, Quiet) else
      var e := EventOf(env, s, a);
      (State(Apply(env, s.db, e), SessionsAfter(s, a), if a.SetClock? then a.now else s.clock, PoolAfter(s, a, e)), e)
  }

  ghost function Run(env: Env, s: State, actions: seq<Action>): (State, seq<Event>) {
    if actions == [] then (s, []) else
      var (t, h) := Run(env, s, actions[..|actions| - 1]);
      var (t', e) := Step(env, t, actions[|actions| - 1]);
      (t', h + [e])
  }

  /** Every step of every action is a legitimate event. */
  lemma StepIsLegit(env: Env, s: State, a: Action)
    ensures Legit(env, s.db, Step(env, s, a).1)
    ensures Step(env, s, a).0.db == Apply(env, s.db, Step(env, s, a).1)
  {
  }

  /** Every interleaving of requests produces a lawful history, and its tables are the replay of it. */
  lemma {:induction false} RunIsLawful(env: Env, s: State, actions: seq<Action>)
    ensures Lawful(env, s.db, Run(env, s, actions).1)
    ensures Replay(env, s.db, Run(env, s, actions).1) == Run(env, s, actions).0.db
    ensures |Run(env, s, actions).1| == |actions|
  {
    if actions != [] {
      var before := actions[..|actions| - 1];
      var (t, h) := Run(env, s, before);
      RunIsLawful(env, s, before);
      StepIsLegit(env, t, actions[|actions| - 1]);
      LawfulSnoc(env, s.db, h, Step(env, t, actions[|actions| - 1]).1);
    }
  }
}
