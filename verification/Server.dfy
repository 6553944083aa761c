/**
 The services as the program text has them: statement by statement, on a connection or inside a
 transaction, leaving early where `?` does. Each method is one stretch of an async function
 between two awaits that others may overtake, and is proved to be the step of `Protocol` it
 models; `Serve` performs any interleaving of them.
 */
module Server {
  import opened Wrappers
  import opened Store
  import opened Protocol
  import opened Calls

  datatype DbErr = UniqueViolation | Other

  /** The conversion `?` does on a database error. */
  function Plain<T>(r: Result<T, DbErr>): Result<T, ServiceError> {
    match r
    case Success(v) => Success(v)
    case Failure(_) => Failure(DbError)
  }

  /** `ServiceError::from_db_err`, which singles out a violated unique key. */
  function FromDbErr<T>(r: Result<T, DbErr>): Result<T, ServiceError> {
    match r
    case Success(v) => Success(v)
    case Failure(UniqueViolation) => Failure(Conflict)
    case Failure(Other) => Failure(DbError)
  }

  /** A column of a row about to be written; only `Set` columns reach the database. */
  datatype Column = NotSet | Unchanged(value: string) | Set(value: string) {
    function Or(current: string): string {
      if Set? then value else current
    }
  }

  datatype ActiveUser = ActiveUser(id: Id, name: Column, email: Column, passwordHash: Column) {
    function Over(row: User): User {
      User(name.Or(row.name), email.Or(row.email), passwordHash.Or(row.passwordHash))
    }
  }

  function IntoActive(id: Id, row: User): ActiveUser {
    ActiveUser(id, Unchanged(row.name), Unchanged(row.email), Unchanged(row.passwordHash))
  }

  /** A database connection, or a transaction working on its own copy until it commits; dropping a
      transaction that has not committed discards the copy. */
  class Connection {
    var tables: Db
    var budget: nat   // statements that will succeed before one fails

    constructor (tables: Db, budget: nat)
      ensures this.tables == tables && this.budget == budget
    {
      this.tables, this.budget := tables, budget;
    }

    method Statement() returns (r: Result<(), ServiceError>)
      modifies this`budget
      ensures r == if old(budget) >= 1 then Success(()) else Failure(DbError)
      ensures budget == if old(budget) >= 1 then old(budget) - 1 else 0
    {
      if budget == 0 {
        return Failure(DbError);
      }
      budget := budget - 1;
      return Success(());
    }

    method Begin() returns (r: Result<Connection, ServiceError>)
      modifies this`budget
      ensures r.Success? <==> old(budget) >= 1
      ensures r.Success? ==> fresh(r.value) && r.value.tables == tables && r.value.budget == old(budget) - 1
      ensures r.Failure? ==> r.error == DbError
    {
      var _ :- Statement();
      var tx := new Connection(tables, budget);
      return Success(tx);
    }

    method Commit(target: Connection) returns (r: Result<(), ServiceError>)
      requires target != this
      modifies this`budget, target`tables
      ensures r == if old(budget) >= 1 then Success(()) else Failure(DbError)
      ensures target.tables == if old(budget) >= 1 then tables else old(target.tables)
    {
      var _ :- Statement();
      target.tables := tables;
      return Success(());
    }

    method FindUserByEmail(email: string) returns (r: Result<Option<Id>, ServiceError>)
      requires tables.UniqueEmails()
      modifies this`budget
      ensures r == if old(budget) >= 1 then Success(FindByEmail(tables, email)) else Failure(DbError)
      ensures budget == if old(budget) >= 1 then old(budget) - 1 else 0
    {
      var _ :- Statement();
      if u :| u in tables.users && tables.users[u].email == email {
        return Success(Some(u));
      }
      return Success(None);
    }

    method FindUserById(id: Id) returns (r: Result<Option<User>, ServiceError>)
      modifies this`budget
      ensures r == if old(budget) < 1 then Failure(DbError)
                   else if id in tables.users then Success(Some(tables.users[id])) else Success(None)
      ensures budget == if old(budget) >= 1 then old(budget) - 1 else 0
    {
      var _ :- Statement();
      return Success(if id in tables.users then Some(tables.users[id]) else None);
    }

    method FindTokenByHash(tokenHash: string) returns (r: Result<Option<Id>, ServiceError>)
      requires tables.UniqueDigests()
      modifies this`budget
      ensures r == if old(budget) >= 1 then Success(FindByDigest(tables, tokenHash)) else Failure(DbError)
      ensures budget == if old(budget) >= 1 then old(budget) - 1 else 0
    {
      var _ :- Statement();
      if t :| t in tables.tokens && tables.tokens[t].tokenHash == tokenHash {
        return Success(Some(t));
      }
      return Success(None);
    }

    method InsertUser(name: string, email: string, passwordHash: string) returns (r: Result<Id, DbErr>)
      modifies this
      ensures r == if old(budget) < 1 then Failure(Other)
                   else if old(tables).EmailTaken(email, {}) then Failure(UniqueViolation)
                   else Success(old(tables).nextUser)
      ensures tables == if r.Failure? then old(tables) else
                old(tables).(users := old(tables).users[r.value := User(name, email, passwordHash)],
                             nextUser := r.value + 1)
    {
      var ok := Statement();
      if ok.Failure? {
        return Failure(Other);
      }
      if u :| u in tables.users && tables.users[u].email == email {
        return Failure(UniqueViolation);
      }
      var id := tables.nextUser;
      tables := tables.(users := tables.users[id := User(name, email, passwordHash)], nextUser := id + 1);
      return Success(id);
    }

    /** `UPDATE .. WHERE id RETURNING`, on the `Set` columns alone; no row to update is an error. */
    method UpdateUser(active: ActiveUser) returns (r: Result<User, DbErr>)
      modifies this
      ensures r == if old(budget) < 1 || active.id !in old(tables).users then Failure(Other)
                   else if active.email.Set? && old(tables).EmailTaken(active.email.value, {active.id})
                   then Failure(UniqueViolation) else Success(active.Over(old(tables).users[active.id]))
      ensures tables == if r.Failure? then old(tables) else
                old(tables).(users := old(tables).users[active.id := r.value])
      ensures budget == if old(budget) >= 1 then old(budget) - 1 else 0
    {
      var ok := Statement();
      if ok.Failure? || active.id !in tables.users {
        return Failure(Other);
      }
      if active.email.Set? {
        if u :| u in tables.users && u !in {active.id} && tables.users[u].email == active.email.value {
          return Failure(UniqueViolation);
        }
      }
      var written := active.Over(tables.users[active.id]);
      tables := tables.(users := tables.users[active.id := written]);
      return Success(written);
    }

    /** `DELETE .. WHERE id`, cascading into posts and tokens. */
    method DeleteUserById(id: Id) returns (r: Result<nat, ServiceError>)
      modifies this
      ensures r == if old(budget) < 1 then Failure(DbError) else Success(if id in old(tables).users then 1 else 0)
      ensures tables == if r.Failure? || r.value == 0 then old(tables) else
                old(tables).(users := old(tables).users - {id}, posts := old(tables).PostsWithout(id),
                             tokens := old(tables).TokensWithout(id))
    {
      var _ :- Statement();
      if id !in tables.users {
        return Success(0);
      }
      tables := tables.(users := tables.users - {id}, posts := tables.PostsWithout(id),
                        tokens := tables.TokensWithout(id));
      return Success(1);
    }

    method DeleteTokensOfUser(user: Id) returns (r: Result<(), ServiceError>)
      modifies this
      ensures r == if old(budget) >= 1 then Success(()) else Failure(DbError)
      ensures budget == if old(budget) >= 1 then old(budget) - 1 else 0
      ensures tables == if r.Failure? then old(tables) else old(tables).(tokens := old(tables).TokensWithout(user))
    {
      var _ :- Statement();
      tables := tables.(tokens := tables.TokensWithout(user));
      return Success(());
    }

    method DeleteTokenById(id: Id) returns (r: Result<(), ServiceError>)
      modifies this
      ensures r == if old(budget) >= 1 then Success(()) else Failure(DbError)
      ensures budget == if old(budget) >= 1 then old(budget) - 1 else 0
      ensures tables == if r.Failure? then old(tables) else old(tables).(tokens := old(tables).tokens - {id})
    {
      var _ :- Statement();
      tables := tables.(tokens := tables.tokens - {id});
      return Success(());
    }

    /** The foreign key wants the user, the unique key an unused digest. */
    method InsertToken(user: Id, tokenHash: string, expiresAt: int) returns (r: Result<Id, DbErr>)
      modifies this
      ensures r.Success? <==> old(budget) >= 1 && user in old(tables).users
                              && forall t | t in old(tables).tokens :: old(tables).tokens[t].tokenHash != tokenHash
      ensures r.Success? ==> r.value == old(tables).nextToken
      ensures budget == if old(budget) >= 1 then old(budget) - 1 else 0
      ensures tables == if r.Failure? then old(tables) else
                old(tables).(tokens := old(tables).tokens[r.value := ResetToken(user, tokenHash, expiresAt)],
                             nextToken := r.value + 1)
    {
      var ok := Statement();
      if ok.Failure? || user !in tables.users {
        return Failure(Other);
      }
      if t :| t in tables.tokens && tables.tokens[t].tokenHash == tokenHash {
        return Failure(UniqueViolation);
      }
      var id := tables.nextToken;
      tables := tables.(tokens := tables.tokens[id := ResetToken(user, tokenHash, expiresAt)], nextToken := id + 1);
      return Success(id);
    }

    method InsertPost(user: Id, title: string, body: string) returns (r: Result<Id, DbErr>)
      modifies this
      ensures r == if old(budget) >= 1 && user in old(tables).users then Success(old(tables).nextPost)
                   else Failure(Other)
      ensures budget == if old(budget) >= 1 then old(budget) - 1 else 0
      ensures tables == if r.Failure? then old(tables) else
                old(tables).(posts := old(tables).posts[r.value := Post(user, title, body)], nextPost := r.value + 1)
    {
      var ok := Statement();
      if ok.Failure? || user !in tables.users {
        return Failure(Other);
      }
      var id := tables.nextPost;
      tables := tables.(posts := tables.posts[id := Post(user, title, body)], nextPost := id + 1);
      return Success(id);
    }
  }

  datatype Mail = Mail(to: string, raw: string)

  function MailsOf(e: Event): seq<Mail> {
    if e.Mailed? then [Mail(e.to, e.raw)] else []
  }

  /** The mails of a history, in their order. */
  function AllMails(h: seq<Event>): seq<Mail> {
    if h == [] then [] else AllMails(h[..|h| - 1]) + MailsOf(h[|h| - 1])
  }

  class Backend {
    const env: Env
    const db: Connection
    var sessions: map<Sid, Id>
    var clock: int
    var pool: map<Req, Suspended>
    var outbox: seq<Mail>   // what the mailer has accepted

    constructor (env: Env, db: Connection)
      ensures this.env == env && this.db == db
      ensures State() == Protocol.State(db.tables, map[], 0, map[]) && outbox == []
    {
      this.env, this.db := env, db;
      sessions, clock, pool, outbox := map[], 0, map[], [];
    }

    ghost function State(): Protocol.State
      reads this, db
    {
      Protocol.State(db.tables, sessions, clock, pool)
    }

    /** The answer agrees with the event: an error exactly when the event is one, and that error. */
    ghost predicate Answers<T>(reply: Result<T, ServiceError>, e: Event) {
      if reply.Success? then e.Error().None? else e.Error() == Some(reply.error)
    }

    /** What a confirm does that finds the stored token `t`: past its end the token goes and the
        caller is told that it is invalid; in time the user gets the password and the token goes. */
    ghost predicate ResetOutcome(before: Db, after: Db, reply: Result<(), ServiceError>, t: Id, password: string,
                                 salt: Option<string>, budget: nat)
      requires t in before.tokens
      reads this
    {
      var row := before.tokens[t];
      if Utf8Len(password) < 8 then reply == Failure(Validation) && after == before
      else if budget < 2 then reply == Failure(DbError) && after == before
      else if row.expiresAt < clock then
        if budget < 4 then reply == Failure(DbError) && after == before
        else reply == Failure(Validation) && after == before.(tokens := before.tokens - {t})
      else if salt.None? then reply == Failure(Internal) && after == before
      else if budget < 5 || row.userId !in before.users then reply == Failure(DbError) && after == before
      else
        && reply == Success(())
        && after == before.(
             users := before.users[row.userId :=
               before.users[row.userId].(passwordHash := env.hash(password, salt.value))],
             tokens := before.tokens - {t})
    }

    method RegisterUser(req: Req, sid: Sid, name: string, email: string, password: string, salt: Option<string>,
                        budget: nat) returns (reply: Result<Id, ServiceError>)
      requires req !in pool
      modifies this`pool, db
      ensures (State(), RegisterEvent(env, old(db.tables), name, email, password, salt, budget))
           == Step(env, old(State()), Register(req, sid, name, email, password, salt, budget))
      ensures Answers(reply, RegisterEvent(env, old(db.tables), name, email, password, salt, budget))
      ensures reply.Success? ==> reply.value == old(db.tables.nextUser)
      ensures reply == if IsBlank(name) || '@' !in email || Utf8Len(password) < 8 then Failure(Validation)
                       else if salt.None? then Failure(Internal)
                       else if budget < 1 then Failure(DbError)
                       else if exists u :: u in old(db.tables.users) && old(db.tables.users)[u].email == email
                       then Failure(Conflict) else Success(old(db.tables.nextUser))
      ensures reply.Failure? ==> db.tables == old(db.tables) && pool == old(pool)
      ensures reply.Success? ==>
                && db.tables == old(db.tables).(
                     users := old(db.tables.users)[reply.value := User(name, email, env.hash(password, salt.value))],
                     nextUser := reply.value + 1)
                && pool == old(pool)[req := Starting(sid, reply.value)]
    {
      db.budget := budget;
      if !ValidProfile(name, email) || !ValidPassword(password) {
        return Failure(Validation);
      }
      if salt.None? {
        return Failure(Internal);
      }
      var inserted := db.InsertUser(name, email, env.hash(password, salt.value));
      var saved :- FromDbErr(inserted);
      pool := pool[req := Starting(sid, saved)];
      return Success(saved);
    }

    method LoginUser(req: Req, sid: Sid, email: string, password: string, budget: nat)
      returns (reply: Result<Id, ServiceError>)
      requires db.tables.UniqueEmails() && req !in pool
      modifies this`pool, db
      ensures (State(), LoginEvent(env, old(db.tables), email, password, budget))
           == Step(env, old(State()), Login(req, sid, email, password, budget))
      ensures Answers(reply, LoginEvent(env, old(db.tables), email, password, budget))
      ensures reply.Success? ==> reply.value == LoginEvent(env, old(db.tables), email, password, budget).user
      ensures db.tables == old(db.tables)
      ensures reply.Success? ==>
                var u := reply.value;
                && u in db.tables.users && db.tables.users[u].email == email
                && env.verify(password, db.tables.users[u].passwordHash) == Match
                && pool == old(pool)[req := Starting(sid, u)]
      ensures reply.Failure? ==>
                && pool == old(pool) && reply.error == (if budget < 1 then DbError else Unauthorized)
                && (budget >= 1 ==> forall u | u in db.tables.users && db.tables.users[u].email == email ::
                      env.verify(password, db.tables.users[u].passwordHash) != Match)
    {
      db.budget := budget;
      var found :- db.FindUserByEmail(email);
      if found.None? {
        return Failure(Unauthorized);
      }
      var verdict := env.verify(password, db.tables.users[found.value].passwordHash);
      if verdict == Unparseable {
        return Failure(Unauthorized);
      }
      if verdict == Match {
        pool := pool[req := Starting(sid, found.value)];
        return Success(found.value);
      }
      return Failure(Unauthorized);
    }

    method RecordSession(req: Req, newSid: Sid, cycled: bool, inserted: bool) returns (reply: Result<(), ServiceError>)
      requires req in pool && pool[req].Starting?
      modifies this`pool, this`sessions
      ensures State() == Step(env, old(State()), StartSession(req, newSid, cycled, inserted)).0
      ensures Answers(reply, Step(env, old(State()), StartSession(req, newSid, cycled, inserted)).1)
      ensures reply == if cycled && inserted then Success(()) else Failure(Internal)
      ensures pool == old(pool) - {req}
      ensures var (sid, user) := (old(pool[req].sid), old(pool[req].user));
              && (reply.Success? ==> newSid in sessions && sessions[newSid] == user)
              && (reply.Success? && newSid != sid ==> sid !in sessions)
              && forall other | other !in {sid, newSid} ::
                   if other in old(sessions) then other in sessions && sessions[other] == old(sessions)[other]
                   else other !in sessions
    {
      var Starting(sid, user) := pool[req];
      pool := pool - {req};
      if !cycled {
        return Failure(Internal);
      }
      sessions := sessions - {sid};
      if !inserted {
        return Failure(Internal);
      }
      sessions := sessions[newSid := user];
      return Success(());
    }

    method LookUpForReset(req: Req, email: string, budget: nat) returns (reply: Result<(), ServiceError>)
      requires db.tables.UniqueEmails() && req !in pool
      modifies this`pool, db
      ensures State() == Step(env, old(State()), ForgotLookup(req, email, budget)).0
      ensures Answers(reply, Step(env, old(State()), ForgotLookup(req, email, budget)).1)
      ensures reply == if '@' !in email then Failure(Validation) else if budget < 1 then Failure(DbError)
                       else Success(())
      ensures db.tables == old(db.tables)
      ensures forall u | u in db.tables.users && db.tables.users[u].email == email && reply.Success? ::
                pool == old(pool)[req := Issuing(u, email)]
      ensures reply.Failure? || (forall u | u in db.tables.users :: db.tables.users[u].email != email) ==>
                pool == old(pool)
    {
      db.budget := budget;
      if '@' !in email {
        return Failure(Validation);
      }
      var user :- db.FindUserByEmail(email);
      if user.Some? {
        pool := pool[req := Issuing(user.value, db.tables.users[user.value].email)];
      }
      return Success(());
    }

    method IssueToken(req: Req, raw: string, budget: nat) returns (reply: Result<(), ServiceError>)
      requires req in pool && pool[req].Issuing?
      modifies this`pool, db
      ensures var user, email := old(pool[req].user), old(pool[req].email);
              var e := IssueEvent(env, old(db.tables), clock, user, raw, budget);
              && db.tables == Apply(env, old(db.tables), e)
              && pool == (if e.Issued? then old(pool)[req := Mailing(user, email, raw, e.token)] else old(pool) - {req})
              && Answers(reply, e)
      ensures reply.Success? <==>
                && budget >= 4 && old(pool[req].user) in old(db.tables.users)
                && forall t | t in old(db.tables.tokens) && old(db.tables.tokens)[t].tokenHash == env.digest(raw) ::
                     old(db.tables.tokens)[t].userId == old(pool[req].user)
      ensures reply.Failure? ==> reply.error == DbError && db.tables == old(db.tables) && pool == old(pool) - {req}
      ensures reply.Success? ==>
                var (user, email, t) := (old(pool[req].user), old(pool[req].email), old(db.tables.nextToken));
                && pool == old(pool)[req := Mailing(user, email, raw, t)]
                && db.tables.users == old(db.tables.users) && db.tables.posts == old(db.tables.posts)
                && t in db.tables.tokens
                && db.tables.tokens[t] == ResetToken(user, env.digest(raw), clock + env.ttl)
                && forall other | other != t ::
                     if other in old(db.tables.tokens) && old(db.tables.tokens)[other].userId != user
                     then other in db.tables.tokens && db.tables.tokens[other] == old(db.tables.tokens)[other]
                     else other !in db.tables.tokens
    {
      var Issuing(user, email) := pool[req];
      pool := pool - {req};
      var token :- ReplaceTokens(user, raw, budget);
      pool := pool[req := Mailing(user, email, raw, token)];
      return Success(());
    }

    /** Replaces the user's tokens by a new one, in one transaction. */
    method ReplaceTokens(user: Id, raw: string, budget: nat) returns (r: Result<Id, ServiceError>)
      modifies db
      ensures var e := IssueEvent(env, old(db.tables), clock, user, raw, budget);
              && db.tables == Apply(env, old(db.tables), e)
              && r == if e.Issued? then Success(e.token) else Failure(DbError)
    {
      db.budget := budget;
      var tx :- db.Begin();
      var _ :- tx.DeleteTokensOfUser(user);
      assert forall t | t in db.tables.tokens && db.tables.tokens[t].userId != user ::
          t in tx.tables.tokens;
      var inserted := tx.InsertToken(user, env.digest(raw), clock + env.ttl);
      var token :- Plain(inserted);
      var _ :- tx.Commit(db);
      return Success(token);
    }

    method MailToken(req: Req, delivered: bool) returns (reply: Result<(), ServiceError>)
      requires req in pool && pool[req].Mailing?
      modifies this`pool, this`outbox
      ensures State() == Step(env, old(State()), ForgotMail(req, delivered)).0
      ensures Answers(reply, Step(env, old(State()), ForgotMail(req, delivered)).1)
      ensures reply == Success(())
      ensures outbox == if delivered then old(outbox) + [Mail(old(pool[req].email), old(pool[req].raw))]
                        else old(outbox)
      ensures pool == if delivered then old(pool) - {req}
                      else old(pool)[req := Cleaning(old(pool[req].user), old(pool[req].token))]
    {
      var Mailing(user, email, raw, token) := pool[req];
      if delivered {
        outbox := outbox + [Mail(email, raw)];
        pool := pool - {req};
      } else {
        pool := pool[req := Cleaning(user, token)];
      }
      return Success(());
    }

    method CleanUp(req: Req, budget: nat) returns (reply: Result<(), ServiceError>)
      requires req in pool && pool[req].Cleaning?
      modifies this`pool, db
      ensures State() == Step(env, old(State()), ForgotCleanup(req, budget)).0
      ensures Answers(reply, Step(env, old(State()), ForgotCleanup(req, budget)).1)
      ensures reply == Failure(if budget < 1 then DbError else Internal)
      ensures pool == old(pool) - {req}
      ensures db.tables.users == old(db.tables.users) && db.tables.posts == old(db.tables.posts)
      ensures budget < 1 ==> db.tables == old(db.tables)
      ensures budget >= 1 ==> forall t :: t in db.tables.tokens <==>
                t in old(db.tables.tokens) && old(db.tables.tokens)[t].userId != old(pool[req].user)
      ensures forall t | t in db.tables.tokens ::
                t in old(db.tables.tokens) && db.tables.tokens[t] == old(db.tables.tokens)[t]
    {
      var Cleaning(user, _) := pool[req];
      pool := pool - {req};
      db.budget := budget;
      var _ :- db.DeleteTokensOfUser(user);
      return Failure(Internal);
    }

    method ResetPassword(raw: string, password: string, salt: Option<string>, budget: nat)
      returns (reply: Result<(), ServiceError>)
      requires db.tables.UniqueDigests()
      modifies db
      ensures var e := ResetEvent(env, old(db.tables), clock, raw, password, salt, budget);
              db.tables == Apply(env, old(db.tables), e) && Answers(reply, e)
      ensures Utf8Len(password) < 8 ==> reply == Failure(Validation) && db.tables == old(db.tables)
      ensures forall t | t in old(db.tables.tokens) && old(db.tables.tokens)[t].tokenHash == env.digest(raw) ::
                ResetOutcome(old(db.tables), db.tables, reply, t, password, salt, budget)
      ensures (forall t | t in old(db.tables.tokens) :: old(db.tables.tokens)[t].tokenHash != env.digest(raw)) ==>
                && db.tables == old(db.tables)
                && reply == Failure(if Utf8Len(password) >= 8 && budget < 2 then DbError else Validation)
    {
      db.budget := budget;
      if !ValidPassword(password) {
        return Failure(Validation);
      }
      var tx :- db.Begin();
      var found :- tx.FindTokenByHash(env.digest(raw));
      if found.None? {
        return Failure(Validation);
      }
      var stored := tx.tables.tokens[found.value];
      if stored.expiresAt < clock {
        var _ :- tx.DeleteTokenById(found.value);
        var _ :- tx.Commit(db);
        return Failure(Validation);
      }
      if salt.None? {
        return Failure(Internal);
      }
      reply := ConsumeToken(tx, found.value, env.hash(password, salt.value));
    }

    /** Sets the new hash and deletes the token, in the transaction that found it. */
    /** A confirm that answers success has given the token's user the presented password and consumed
        the token; and where that password did not verify before, this is how success is told. A
        failed one changes no user; a short password and an expired token are called invalid. */
    lemma SuccessIsNewPassword(before: Db, after: Db, reply: Result<(), ServiceError>, t: Id, password: string,
                               salt: Option<string>, budget: nat)
      requires env.Sound() && before.Valid() && t in before.tokens
      requires ResetOutcome(before, after, reply, t, password, salt, budget)
      ensures var u := before.tokens[t].userId;
              && u in after.users
              && (reply.Success? ==>
                    t !in after.tokens && env.verify(password, after.users[u].passwordHash) == Match)
              && (env.verify(password, before.users[u].passwordHash) != Match ==>
                    (reply.Success? <==>
                       t !in after.tokens && env.verify(password, after.users[u].passwordHash) == Match))
      ensures reply.Failure? ==> after.users == before.users
      ensures budget >= 4 && (Utf8Len(password) < 8 || before.tokens[t].expiresAt < clock) ==>
                reply == Failure(Validation)
    {
    }

    method ConsumeToken(tx: Connection, id: Id, hash: string) returns (reply: Result<(), ServiceError>)
      requires tx != db && tx.tables == db.tables && id in tx.tables.tokens
      modifies tx, db
      ensures var row := old(db.tables).tokens[id];
              if old(tx.budget) >= 3 && row.userId in old(db.tables).users then
                && reply == Success(())
                && db.tables == old(db.tables).(
                     users := old(db.tables).users[row.userId :=
                       old(db.tables).users[row.userId].(passwordHash := hash)],
                     tokens := old(db.tables).tokens - {id})
              else reply == Failure(DbError) && db.tables == old(db.tables)
    {
      var stored := tx.tables.tokens[id];
      var updated := tx.UpdateUser(ActiveUser(stored.userId, NotSet, NotSet, Set(hash)));
      var _ :- FromDbErr(updated);
      var _ :- tx.DeleteTokenById(id);
      var _ :- tx.Commit(db);
      return Success(());
    }

    method OpenRequest(req: Req, sid: Sid, intent: Intent, readable: bool) returns (reply: Result<(), ServiceError>)
      requires req !in pool
      modifies this`pool
      ensures State() == Step(env, old(State()), ReadSession(req, sid, intent, readable)).0
      ensures Answers(reply, Step(env, old(State()), ReadSession(req, sid, intent, readable)).1)
      ensures reply == if !readable then Failure(Internal) else if sid !in sessions then Failure(Unauthorized)
                       else Success(())
      ensures pool == if reply.Success? then old(pool)[req := Loading(sid, sessions[sid], intent)] else old(pool)
    {
      if !readable {
        return Failure(Internal);
      }
      if sid !in sessions {
        return Failure(Unauthorized);
      }
      pool := pool[req := Loading(sid, sessions[sid], intent)];
      return Success(());
    }

    /** The rest of the `CurrentUser` extractor, and the ownership guard of the handlers. */
    method LoadCurrentUser(req: Req, budget: nat) returns (reply: Result<(), ServiceError>)
      requires req in pool && pool[req].Loading?
      modifies this`pool, db
      ensures State() == Step(env, old(State()), LoadUser(req, budget)).0
      ensures Answers(reply, Step(env, old(State()), LoadUser(req, budget)).1)
      ensures db.tables == old(db.tables)
      ensures var (sid, subject, intent) := (old(pool[req].sid), old(pool[req].subject), old(pool[req].intent));
              && reply == (if budget < 1 then Failure(Internal)
                           else if subject !in db.tables.users then Failure(Unauthorized)
                           else if !intent.CreatePost? && intent.id != subject then Failure(Forbidden)
                           else Success(()))
              && pool == if reply.Success? then old(pool)[req := Authorized(sid, subject, intent)]
                         else old(pool) - {req}
    {
      var Loading(sid, subject, intent) := pool[req];
      pool := pool - {req};
      db.budget := budget;
      var user := db.FindUserById(subject);
      if user.Failure? {
        return Failure(Internal);
      }
      if user.value.None? {
        return Failure(Unauthorized);
      }
      if !intent.CreatePost? && subject != intent.id {
        return Failure(Forbidden);
      }
      pool := pool[req := Authorized(sid, subject, intent)];
      return Success(());
    }

    method ReadForUpdate(req: Req, budget: nat) returns (reply: Result<(), ServiceError>)
      requires req in pool && pool[req].Authorized? && pool[req].intent.Update?
      modifies this`pool, db
      ensures State() == Step(env, old(State()), UpdateRead(req, budget)).0
      ensures Answers(reply, Step(env, old(State()), UpdateRead(req, budget)).1)
      ensures db.tables == old(db.tables)
      ensures var (sid, subject, intent) := (old(pool[req].sid), old(pool[req].subject), old(pool[req].intent));
              && reply == (if IsBlank(intent.name) || '@' !in intent.email then Failure(Validation)
                           else if budget < 1 then Failure(DbError)
                           else if intent.id !in db.tables.users then Failure(NotFound)
                           else Success(()))
              && pool == if reply.Success?
                         then old(pool)[req := Writing(sid, subject, intent.id, db.tables.users[intent.id],
                                                       intent.name, intent.email)]
                         else old(pool) - {req}
    {
      var Authorized(sid, subject, intent) := pool[req];
      pool := pool - {req};
      db.budget := budget;
      if !ValidProfile(intent.name, intent.email) {
        return Failure(Validation);
      }
      var row :- db.FindUserById(intent.id);
      if row.None? {
        return Failure(NotFound);
      }
      pool := pool[req := Writing(sid, subject, intent.id, row.value, intent.name, intent.email)];
      return Success(());
    }

    method WriteUpdate(req: Req, budget: nat) returns (reply: Result<User, ServiceError>)
      requires req in pool && pool[req].Writing?
      modifies this`pool, db
      ensures (State(), WriteEvent(old(db.tables), old(pool[req]), budget))
           == Step(env, old(State()), UpdateWrite(req, budget))
      ensures Answers(reply, WriteEvent(old(db.tables), old(pool[req]), budget))
      ensures reply.Success? ==>
                var id := old(pool[req].id); id in db.tables.users && reply.value == db.tables.users[id]
      ensures pool == old(pool) - {req}
      ensures var (id, name, email) := (old(pool[req].id), old(pool[req].name), old(pool[req].email));
              var users := old(db.tables.users);
              && (reply.Success? <==>
                    budget >= 1 && id in users && forall u | u in users && u != id :: users[u].email != email)
              && (reply.Failure? ==> db.tables == old(db.tables))
              && (reply.Failure? ==> reply.error == if budget < 1 || id !in users then DbError else Conflict)
              && (reply.Success? ==> reply.value == users[id].(name := name, email := email))
              && (reply.Success? ==> db.tables == old(db.tables).(users := users[id := reply.value]))
    {
      var Writing(_, _, id, row, name, email) := pool[req];
      pool := pool - {req};
      db.budget := budget;
      var active := IntoActive(id, row).(name := Set(name), email := Set(email));
      var updated := db.UpdateUser(active);
      reply := FromDbErr(updated);
    }

    method DeleteUser(req: Req, budget: nat) returns (reply: Result<(), ServiceError>)
      requires req in pool && pool[req].Authorized? && pool[req].intent.Delete?
      modifies this`pool, db
      ensures State() == Step(env, old(State()), DeleteExec(req, budget)).0
      ensures Answers(reply, Step(env, old(State()), DeleteExec(req, budget)).1)
      ensures pool == old(pool) - {req}
      ensures var id := old(pool[req].intent.id);
              && reply == (if budget < 1 then Failure(DbError)
                           else if id !in old(db.tables.users) then Failure(NotFound) else Success(()))
              && (reply.Failure? ==> db.tables == old(db.tables))
              && (reply.Success? ==> old(db.tables).IsWithout(db.tables, id))
    {
      var Authorized(_, _, intent) := pool[req];
      pool := pool - {req};
      db.budget := budget;
      var rowsAffected :- db.DeleteUserById(intent.id);
      if rowsAffected == 0 {
        return Failure(NotFound);
      }
      return Success(());
    }

    method CreatePost(req: Req, budget: nat) returns (reply: Result<(Id, Post), ServiceError>)
      requires req in pool && pool[req].Authorized? && pool[req].intent.CreatePost?
      modifies this`pool, db
      ensures State() == Step(env, old(State()), PostExec(req, budget)).0
      ensures Answers(reply, Step(env, old(State()), PostExec(req, budget)).1)
      ensures reply.Success? ==> var (id, post) := reply.value;
                id == old(db.tables.nextPost) && id in db.tables.posts && post == db.tables.posts[id]
      ensures pool == old(pool) - {req}
      ensures var (subject, intent) := (old(pool[req].subject), old(pool[req].intent));
              && (reply.Failure? ==> db.tables == old(db.tables))
              && (reply.Failure? ==>
                    reply.error == if IsBlank(intent.title) then Validation
                                      else if budget >= 2 && subject !in db.tables.users then NotFound else DbError)
              && (reply.Success? ==> var (id, post) := reply.value;
                    && post.userId == subject && post.title == intent.title && post.body == intent.body
                    && db.tables == old(db.tables).(
                         posts := old(db.tables.posts)[id := post], nextPost := id + 1))
              && (reply.Success? <==> !IsBlank(intent.title) && budget >= 4 && subject in old(db.tables.users))
    {
      var Authorized(_, subject, intent) := pool[req];
      pool := pool - {req};
      db.budget := budget;
      if IsBlank(intent.title) {
        return Failure(Validation);
      }
      var txn :- db.Begin();
      var user :- txn.FindUserById(subject);
      if user.None? {
        return Failure(NotFound);
      }
      var inserted := txn.InsertPost(subject, intent.title, intent.body);
      var saved :- Plain(inserted);
      var _ :- txn.Commit(db);
      return Success((saved, Post(subject, intent.title, intent.body)));
    }

    method LogOut(sid: Sid, flushed: bool) returns (reply: Result<(), ServiceError>)
      modifies this`sessions
      ensures State() == Step(env, old(State()), Logout(sid, flushed)).0
      ensures Answers(reply, Step(env, old(State()), Logout(sid, flushed)).1)
      ensures reply == if flushed then Success(()) else Failure(Internal)
      ensures sessions == if flushed then old(sessions) - {sid} else old(sessions)
    {
      if !flushed {
        return Failure(Internal);
      }
      sessions := sessions - {sid};
      return Success(());
    }

    method PerformIssue(req: Req, raw: string, budget: nat)
      requires req in pool && pool[req].Issuing?
      modifies this`pool, db
      ensures State() == Step(env, old(State()), ForgotIssue(req, raw, budget)).0
    {
      StepIssue(env, State(), req, raw, budget);
      var _ := IssueToken(req, raw, budget);
    }

    method PerformReset(raw: string, password: string, salt: Option<string>, budget: nat)
      requires db.tables.UniqueDigests()
      modifies this`pool, db
      ensures State() == Step(env, old(State()), Reset(raw, password, salt, budget)).0
    {
      StepReset(env, State(), Reset(raw, password, salt, budget));
      var _ := ResetPassword(raw, password, salt, budget);
    }

    /** Signing in and out. */
    method PerformSigning(a: Action)
      requires Enabled(State(), a) && db.tables.UniqueEmails()
      requires a.Register? || a.Login? || a.StartSession? || a.Logout?
      modifies this`pool, this`sessions, db
      ensures State() == Step(env, old(State()), a).0
    {
      hide Step, IsBlank, Utf8Len;
      match a
      case Register(r, sid, name, email, password, salt, budget) =>
        var _ := RegisterUser(r, sid, name, email, password, salt, budget);
      case Login(r, sid, email, password, budget) => var _ := LoginUser(r, sid, email, password, budget);
      case StartSession(r, newSid, cycled, inserted) => var _ := RecordSession(r, newSid, cycled, inserted);
      case Logout(sid, flushed) => var _ := LogOut(sid, flushed);
    }

    /** Requesting and confirming a reset, but for the mail. */
    method PerformResetting(a: Action)
      requires Enabled(State(), a) && db.tables.UniqueEmails() && db.tables.UniqueDigests()
      requires a.ForgotLookup? || a.ForgotIssue? || a.ForgotCleanup? || a.Reset?
      modifies this`pool, db
      ensures State() == Step(env, old(State()), a).0
    {
      hide Step;
      match a
      case ForgotLookup(r, email, budget) => var _ := LookUpForReset(r, email, budget);
      case ForgotIssue(r, raw, budget) => PerformIssue(r, raw, budget);
      case ForgotCleanup(r, budget) => var _ := CleanUp(r, budget);
      case Reset(raw, password, salt, budget) => PerformReset(raw, password, salt, budget);
    }

    /** What is done in a session. */
    method PerformInSession(a: Action)
      requires Enabled(State(), a)
      requires a.ReadSession? || a.LoadUser? || a.UpdateRead? || a.UpdateWrite? || a.DeleteExec? || a.PostExec?
      modifies this`pool, db
      ensures State() == Step(env, old(State()), a).0
    {
      hide Step, IsBlank, Db.IsWithout;
      match a
      case ReadSession(r, sid, intent, readable) => var _ := OpenRequest(r, sid, intent, readable);
      case LoadUser(r, budget) => var _ := LoadCurrentUser(r, budget);
      case UpdateRead(r, budget) => var _ := ReadForUpdate(r, budget);
      case UpdateWrite(r, budget) => var _ := WriteUpdate(r, budget);
      case DeleteExec(r, budget) => var _ := DeleteUser(r, budget);
      case PostExec(r, budget) => var _ := CreatePost(r, budget);
    }

    /** Performs one action of one request. */
    method Perform(a: Action)
      requires db.tables.Valid()
      modifies this, db
      ensures State() == Step(env, old(State()), a).0
      ensures db.tables.Valid()
      ensures outbox == old(outbox) + MailsOf(Step(env, old(State()), a).1)
    {
      hide Step, MailsOf;
      assert db.tables.UniqueEmails() && db.tables.UniqueDigests();
      hide Db.Valid, Db.UniqueEmails, Db.UniqueDigests;
      StepMails(env, State(), a);
      StepKeepsValid(env, State(), a);
      StepAside(env, State(), a);
      var running := PoolHas(a);
      if !running {
        return;
      }
      match a
      case SetClock(now) => clock := now;
      case ForgotMail(r, delivered) => var _ := MailToken(r, delivered);
      case Register(_, _, _, _, _, _, _) => PerformSigning(a);
      case Login(_, _, _, _, _) => PerformSigning(a);
      case StartSession(_, _, _, _) => PerformSigning(a);
      case Logout(_, _) => PerformSigning(a);
      case ForgotLookup(_, _, _) => PerformResetting(a);
      case ForgotIssue(_, _, _) => PerformResetting(a);
      case ForgotCleanup(_, _) => PerformResetting(a);
      case Reset(_, _, _, _) => PerformResetting(a);
      case _ => PerformInSession(a);
    }

    static lemma StepKeepsValid(env: Env, s: Protocol.State, a: Action)
      requires s.db.Valid()
      ensures Step(env, s, a).0.db.Valid()
    {
      StepIsLegit(env, s, a);
      ApplyKeepsIntegrity(env, s.db, Step(env, s, a).1);
      hide Step, Db.Valid;
    }

    /** An action that does not apply changes nothing, and setting the clock only the clock. */
    static lemma StepAside(env: Env, s: Protocol.State, a: Action)
      ensures !Enabled(s, a) ==> Step(env, s, a) == (s, Quiet)
      ensures a.SetClock? ==> Step(env, s, a) == (s.(clock := a.now), Quiet)
    {
    }

    /** Only the mail step mails, and it mails what the request holds. */
    static lemma StepMails(env: Env, s: Protocol.State, a: Action)
      ensures MailsOf(Step(env, s, a).1) ==
              if a.ForgotMail? && Enabled(s, a) && a.delivered then [Mail(s.pool[a.req].email, s.pool[a.req].raw)]
              else []
    {
    }

    method PoolHas(a: Action) returns (enabled: bool)
      ensures enabled <==> Enabled(State(), a)
    {
      enabled := Enabled(Protocol.State(db.tables, sessions, clock, pool), a);
    }

    static lemma RunOfNone(env: Env, s: Protocol.State)
      ensures Run(env, s, []).0 == s && AllMails(Run(env, s, []).1) == []
    {
    }

    /** One action more of a run, and what it mails. */
    static lemma RunOneMore(env: Env, s: Protocol.State, actions: seq<Action>, i: nat)
      requires i < |actions|
      ensures var t := Run(env, s, actions[..i]).0;
              && Run(env, s, actions[..i + 1]).0 == Step(env, t, actions[i]).0
              && AllMails(Run(env, s, actions[..i + 1]).1)
              == AllMails(Run(env, s, actions[..i]).1) + MailsOf(Step(env, t, actions[i]).1)
    {
      hide Step;
      assert actions[..i] + [actions[i]] == actions[..i + 1];
      RunSnoc(env, s, actions[..i], actions[i]);
    }

    /** Serves any interleaving of requests, ending where the transition system does. */
    method Serve(actions: seq<Action>)
      requires db.tables.Valid()
      modifies this, db
      ensures State() == Run(env, old(State()), actions).0
      ensures outbox == old(outbox) + AllMails(Run(env, old(State()), actions).1)
      ensures db.tables.Valid()
    {
      hide Step, Run, AllMails, MailsOf, Db.Valid;
      RunOfNone(env, State());
      assert actions[..0] == [];
      for i := 0 to |actions|
        invariant db.tables.Valid()
        invariant State() == Run(env, old(State()), actions[..i]).0
        invariant outbox == old(outbox) + AllMails(Run(env, old(State()), actions[..i]).1)
      {
        RunOneMore(env, old(State()), actions, i);
        Perform(actions[i]);
      }
      assert actions[..|actions|] == actions;
    }
  }
}
