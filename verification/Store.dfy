/**
 The three tables behind the account endpoints, and the history of what happened to them.

 Every change to the tables is one `Event`. `Apply` says what an event does to the tables, and
 `Legit` says when it may happen. A history that only ever extends by legitimate events is
 `Lawful`; the whole-run theorems of the other modules are theorems about lawful histories.
 */
module Store {
  import opened Wrappers

  type Id = nat

  datatype User = User(name: string, email: string, passwordHash: string)

  datatype Post = Post(userId: Id, title: string, body: string)

  datatype ResetToken = ResetToken(userId: Id, tokenHash: string, expiresAt: int)

  datatype ServiceError = NotFound | Unauthorized | Forbidden | Conflict | Internal | Validation | DbError

  /** What parsing a stored hash and checking a password against it yields. */
  datatype Verification = Unparseable | Mismatch | Match

  /** The configured token lifetime, and the cryptographic primitives as unknown functions. */
  datatype Env = Env(ttl: int,
                     digest: string -> string,
                     hash: (string, string) -> string,
                     verify: (string, string) -> Verification)
  {
    /** The argon2 assumption: a salted hash verifies exactly its own password, and the empty
        string that migration 3 back-fills is no hash at all. */
    ghost predicate Sound() {
      && (forall p, q, salt ::
            verify(p, hash(q, salt)) == if p == q then Match else Mismatch)
      && (forall p :: verify(p, "") == Unparseable)
    }
  }

  /** The number of bytes of `c` in UTF-8. */
  function Utf8Width(c: char): nat {
    var n := c as int;
    if n < 0x80 then 1 else if n < 0x800 then 2 else if n < 0x1_0000 then 3 else 4
  }

  /** The length of `s` in UTF-8 bytes, which is what Rust's `len` measures. */
  function Utf8Len(s: string): nat {
    if s == "" then 0 else Utf8Len(s[..|s| - 1]) + Utf8Width(s[|s| - 1])
  }

  /** Unicode `White_Space`, the class `str::trim` strips. */
  predicate IsSpace(c: char) {
    var n := c as int;
    || 0x9 <= n <= 0xd || n in {0x20, 0x85, 0xa0, 0x1680}
    || 0x2000 <= n <= 0x200a || n in {0x2028, 0x2029, 0x202f, 0x205f, 0x3000}
  }

  /** The characters of the class, one by one. */
  const WHITE_SPACE: seq<int> :=
    [0x9, 0xa, 0xb, 0xc, 0xd, 0x20, 0x85, 0xa0, 0x1680, 0x2000, 0x2001, 0x2002, 0x2003, 0x2004, 0x2005, 0x2006,
     0x2007, 0x2008, 0x2009, 0x200a, 0x2028, 0x2029, 0x202f, 0x205f, 0x3000]

  lemma SpacesExact(c: char)
    ensures IsSpace(c) <==> c as int in WHITE_SPACE
  {
  }

  /** `s.trim().is_empty()` */
  predicate IsBlank(s: string) {
    forall c | c in s :: IsSpace(c)
  }

  predicate ValidProfile(name: string, email: string) {
    !IsBlank(name) && '@' in email
  }

  predicate ValidPassword(password: string) {
    Utf8Len(password) >= 8
  }

  // ---------------------------------------------------------------- characters and bytes

  /** Every character takes one to four bytes, so eight always suffice and one never does. */
  lemma {:induction false} EightCharactersSuffice(password: string)
    ensures |password| <= Utf8Len(password) <= 4 * |password|
    ensures |password| < 2 ==> Utf8Len(password) < 8
  {
    if password != "" {
      EightCharactersSuffice(password[..|password| - 1]);
    }
  }

  function Repeated(c: char, n: nat): string {
    if n == 0 then "" else Repeated(c, n - 1) + [c]
  }

  lemma {:induction false} RepeatedLengths(c: char, n: nat)
    ensures |Repeated(c, n)| == n && Utf8Len(Repeated(c, n)) == n * Utf8Width(c)
  {
    if n > 0 {
      RepeatedLengths(c, n - 1);
      assert Repeated(c, n)[..n - 1] == Repeated(c, n - 1);
    }
  }

  /** The length rule counts bytes although its message speaks of characters. On passwords of `n`
      characters it does what its message says if and only if `n` is below two or at least eight;
      in between it takes some and refuses others. Two keys of four bytes each pass. */
  lemma CharacterRuleExact(n: nat)
    ensures (forall p: string | |p| == n :: ValidPassword(p) <==> n >= 8) <==> n < 2 || n >= 8
    ensures 2 <= n < 8 ==> exists p, q: string :: |p| == n == |q| && ValidPassword(p) && !ValidPassword(q)
    ensures |"\U{1F511}\U{1F511}"| == 2 && ValidPassword("\U{1F511}\U{1F511}")
  {
    RepeatedLengths('k', n);
    RepeatedLengths('\U{1F511}', n);
    forall p: string | |p| == n ensures n < 2 || n >= 8 ==> (ValidPassword(p) <==> n >= 8) {
      EightCharactersSuffice(p);
    }
    if 2 <= n < 8 {
      assert ValidPassword(Repeated('\U{1F511}', n)) && !ValidPassword(Repeated('k', n));
    }
    var keys := "\U{1F511}\U{1F511}";
    assert keys[..1] == ['\U{1F511}'] && keys[..1][..0] == "";
    assert Utf8Len(keys[..1]) == 4;
  }

  // ---------------------------------------------------------------- tables

  datatype Db = Db(users: map<Id, User>, posts: map<Id, Post>, tokens: map<Id, ResetToken>,
                   nextUser: Id, nextPost: Id, nextToken: Id)
  {
    predicate EmailTaken(email: string, except: set<Id>) {
      exists u :: u in users && u !in except && users[u].email == email
    }

    predicate DigestTaken(digest: string, exceptUser: Id) {
      exists t :: t in tokens && tokens[t].userId != exceptUser && tokens[t].tokenHash == digest
    }

    function TokensWithout(user: Id): map<Id, ResetToken> {
      map t | t in tokens && tokens[t].userId != user :: tokens[t]
    }

    function PostsWithout(user: Id): map<Id, Post> {
      map p | p in posts && posts[p].userId != user :: posts[p]
    }

    /** The user, every post and every token of it are gone, and all else is as it was. */
    ghost predicate IsWithout(after: Db, id: Id) {
      && (forall u :: u in after.users <==> u in users && u != id)
      && (forall p :: p in after.posts <==> p in posts && posts[p].userId != id)
      && (forall t :: t in after.tokens <==> t in tokens && tokens[t].userId != id)
      && (forall u | u in after.users :: after.users[u] == users[u])
      && (forall p | p in after.posts :: after.posts[p] == posts[p])
      && (forall t | t in after.tokens :: after.tokens[t] == tokens[t])
    }

    ghost predicate UniqueEmails() {
      forall u, v :: u in users && v in users && users[u].email == users[v].email ==> u == v
    }

    ghost predicate UniqueDigests() {
      forall s, t :: s in tokens && t in tokens && tokens[s].tokenHash == tokens[t].tokenHash ==> s == t
    }

    /** What the migrations promise: unique emails, unique digests, foreign keys that resolve,
        and sequences ahead of every id; and, beyond the schema, one token per user. */
    ghost predicate Valid() {
      && UniqueEmails() && UniqueDigests()
      && (forall s, t :: s in tokens && t in tokens && tokens[s].userId == tokens[t].userId ==> s == t)
      && (forall p :: p in posts ==> posts[p].userId in users)
      && (forall t :: t in tokens ==> tokens[t].userId in users)
      && (forall u :: u in users ==> u < nextUser)
      && (forall p :: p in posts ==> p < nextPost)
      && (forall t :: t in tokens ==> t < nextToken)
    }
  }

  // ---------------------------------------------------------------- events

  datatype Event =
    | Quiet                                    // nothing a table or a caller could see
    | Rejected(error: ServiceError)            // a call answered an error and changed nothing
    | Registered(user: Id, name: string, email: string, password: string, salt: string)
    | LoggedIn(user: Id, email: string, password: string)
    | SessionStarted(sid: nat, user: Id)
    | Authenticated(sid: nat, user: Id)
    | Issued(token: Id, user: Id, raw: string, expiresAt: int)
    | Mailed(token: Id, to: string, raw: string)
    | MailFailed(token: Id)
    | Cleaned(token: Id, user: Id)             // compensating delete after a failed mail
    | CleanupFailed(token: Id)                 // the compensating delete hit a database error
    | Consumed(token: Id, user: Id, raw: string, password: string, salt: string, at: int)
    | Expired(token: Id, raw: string, at: int)
    | Updated(sid: nat, subject: Id, user: Id, name: string, email: string)
    | Deleted(sid: nat, subject: Id, user: Id)
    | Posted(post: Id, user: Id, title: string, body: string)
  {
    /** The error the caller is answered, if any. */
    function Error(): Option<ServiceError> {
      match this
      case Rejected(error) => Some(error)
      case Cleaned(_, _) => Some(Internal)
      case CleanupFailed(_) => Some(DbError)
      case Expired(_, _, _) => Some(Validation)
      case _ => None
    }
  }

  /** What event `e` does to the tables. */
  function Apply(env: Env, db: Db, e: Event): Db {
    match e
    case Registered(u, name, email, password, salt) =>
      db.(users := db.users[u := User(name, email, env.hash(password, salt))], nextUser := u + 1)
    case Issued(t, u, raw, expiresAt) =>
      db.(tokens := db.TokensWithout(u)[t := ResetToken(u, env.digest(raw), expiresAt)], nextToken := t + 1)
    case Cleaned(_, u) =>
      db.(tokens := db.TokensWithout(u))
    case Consumed(t, u, _, password, salt, _) =>
      db.(users := if u in db.users
                   then db.users[u := db.users[u].(passwordHash := env.hash(password, salt))]
                   else db.users,
          tokens := db.tokens - {t})
    case Expired(t, _, _) =>
      db.(tokens := db.tokens - {t})
    case Updated(_, _, u, name, email) =>
      db.(users := if u in db.users
                   then db.users[u := db.users[u].(name := name, email := email)]
                   else db.users)
    case Deleted(_, _, u) =>
      db.(users := db.users - {u}, posts := db.PostsWithout(u), tokens := db.TokensWithout(u))
    case Posted(p, u, title, body) =>
      db.(posts := db.posts[p := Post(u, title, body)], nextPost := p + 1)
    case _ => db
  }

  /** When event `e` may happen to the tables `db`. Ids come from sequences, which may skip
      values (a rolled-back insert burns one) but never go back. */
  ghost predicate Legit(env: Env, db: Db, e: Event) {
    match e
    case Registered(u, name, email, password, _) =>
      && db.nextUser <= u && ValidProfile(name, email) && ValidPassword(password)
      && !db.EmailTaken(email, {})
    case LoggedIn(u, email, password) =>
      u in db.users && db.users[u].email == email && env.verify(password, db.users[u].passwordHash) == Match
    case Authenticated(_, u) => u in db.users
    case Issued(t, u, raw, _) =>
      db.nextToken <= t && u in db.users && !db.DigestTaken(env.digest(raw), u)
    case Consumed(t, u, raw, password, _, at) =>
      && t in db.tokens && db.tokens[t].userId == u && db.tokens[t].tokenHash == env.digest(raw)
      && at <= db.tokens[t].expiresAt && ValidPassword(password)
    case Expired(t, raw, at) =>
      t in db.tokens && db.tokens[t].tokenHash == env.digest(raw) && db.tokens[t].expiresAt < at
    case Updated(_, _, u, _, email) => u in db.users && !db.EmailTaken(email, {u})
    case Deleted(_, _, u) => u in db.users
    case Posted(p, u, title, _) => db.nextPost <= p && u in db.users && !IsBlank(title)
    case _ => true
  }

  /** The tables after the events `h`. */
  function Replay(env: Env, db: Db, h: seq<Event>): Db {
    if h == [] then db else Apply(env, Replay(env, db, h[..|h| - 1]), h[|h| - 1])
  }

  /** Every event of `h` was legitimate when it happened. */
  ghost predicate Lawful(env: Env, db: Db, h: seq<Event>) {
    h == [] || (&& Lawful(env, db, h[..|h| - 1])
                && Legit(env, Replay(env, db, h[..|h| - 1]), h[|h| - 1]))
  }

  lemma LawfulSnoc(env: Env, db: Db, h: seq<Event>, e: Event)
    ensures Replay(env, db, h + [e]) == Apply(env, Replay(env, db, h), e)
    ensures Lawful(env, db, h + [e]) <==> Lawful(env, db, h) && Legit(env, Replay(env, db, h), e)
  {
    assert (h + [e])[..|h + [e]| - 1] == h;
  }

  lemma {:induction false} LawfulPrefix(env: Env, db: Db, h: seq<Event>, k: nat)
    requires Lawful(env, db, h) && k < |h|
    ensures Lawful(env, db, h[..k]) && Legit(env, Replay(env, db, h[..k]), h[k])
  {
    if k < |h| - 1 {
      var g := h[..|h| - 1];
      LawfulPrefix(env, db, g, k);
      assert g[..k] == h[..k];
    }
  }

  // ---------------------------------------------------------------- integrity

  lemma UserEventsKeepIntegrity(env: Env, db: Db, e: Event)
    requires db.Valid() && Legit(env, db, e)
    requires e.Registered? || e.Updated?
    ensures Apply(env, db, e).Valid()
  {
  }

  lemma ConsumingKeepsIntegrity(env: Env, db: Db, e: Event)
    requires db.Valid() && e.Consumed?
    ensures Apply(env, db, e).Valid()
  {
  }

  lemma IssuingKeepsIntegrity(env: Env, db: Db, e: Event)
    requires db.Valid() && Legit(env, db, e) && e.Issued?
    ensures Apply(env, db, e).Valid()
  {
  }

  lemma DeletingKeepsIntegrity(env: Env, db: Db, e: Event)
    requires db.Valid() && (e.Deleted? || e.Cleaned? || e.Expired?)
    ensures Apply(env, db, e).Valid()
  {
  }

  /** No event breaks relational integrity; in particular a deletion cascades far enough, and a
      token insert leaves its user just the one token. */
  lemma ApplyKeepsIntegrity(env: Env, db: Db, e: Event)
    requires db.Valid() && Legit(env, db, e)
    ensures Apply(env, db, e).Valid()
  {
    match e
    case Registered(_, _, _, _, _) => UserEventsKeepIntegrity(env, db, e);
    case Updated(_, _, _, _, _) => UserEventsKeepIntegrity(env, db, e);
    case Consumed(_, _, _, _, _, _) => ConsumingKeepsIntegrity(env, db, e);
    case Issued(_, _, _, _) => IssuingKeepsIntegrity(env, db, e);
    case Deleted(_, _, _) => DeletingKeepsIntegrity(env, db, e);
    case Cleaned(_, _) => DeletingKeepsIntegrity(env, db, e);
    case Expired(_, _, _) => DeletingKeepsIntegrity(env, db, e);
    case _ =>
  }

  /** Relational integrity over whole histories. */
  lemma {:induction false} Integrity(env: Env, db: Db, h: seq<Event>)
    requires db.Valid() && Lawful(env, db, h)
    ensures Replay(env, db, h).Valid()
  {
    if h != [] {
      Integrity(env, db, h[..|h| - 1]);
      ApplyKeepsIntegrity(env, Replay(env, db, h[..|h| - 1]), h[|h| - 1]);
    }
  }
}
