/**
 The user table as a credential store. The ledger keeps, for every account, the profile and the
 password in the clear; no hash, no token and no request appears in it. The tables refine it.
 */
module Credentials {
  import opened Wrappers
  import opened Store
  import opened Protocol
  import opened TokenHistory

  /** `password` is `None` for an account that predates the password column. */
  datatype Account = Account(name: string, email: string, password: Option<string>)

  type Accounts = map<Id, Account>

  function Opening(db: Db): Accounts {
    map u | u in db.users :: Account(db.users[u].name, db.users[u].email, None)
  }

  function Record(a: Accounts, e: Event): Accounts {
    match e
    case Registered(u, name, email, password, _) => a[u := Account(name, email, Some(password))]
    case Consumed(_, u, _, password, _, _) => if u in a then a[u := a[u].(password := Some(password))] else a
    case Updated(_, _, u, name, email) => if u in a then a[u := a[u].(name := name, email := email)] else a
    case Deleted(_, _, u) => a - {u}
    case _ => a
  }

  function Ledger(a: Accounts, h: seq<Event>): Accounts {
    if h == [] then a else Record(Ledger(a, h[..|h| - 1]), h[|h| - 1])
  }

  ghost predicate RowRefines(env: Env, row: User, account: Account) {
    && row.name == account.name && row.email == account.email
    && forall p :: env.verify(p, row.passwordHash) == Match <==> account.password == Some(p)
  }

  ghost predicate Refines(env: Env, db: Db, a: Accounts) {
    && db.users.Keys == a.Keys
    && forall u | u in a :: RowRefines(env, db.users[u], a[u])
  }

  lemma RecordRefines(env: Env, db: Db, a: Accounts, e: Event)
    requires env.Sound() && Refines(env, db, a)
    ensures Refines(env, Apply(env, db, e), Record(a, e))
  {
    var db', a' := Apply(env, db, e), Record(a, e);
    assert db'.users.Keys == a'.Keys;
    forall u | u in a' ensures RowRefines(env, db'.users[u], a'[u]) {
      if u in a {
        assert RowRefines(env, db.users[u], a[u]);
      }
    }
  }

  /** The tables refine the ledger after every history. */
  lemma {:induction false} LedgerRefinement(env: Env, db: Db, h: seq<Event>)
    requires env.Sound() && Refines(env, db, Opening(db))
    ensures Refines(env, Replay(env, db, h), Ledger(Opening(db), h))
  {
    if h != [] {
      var g := h[..|h| - 1];
      LedgerRefinement(env, db, g);
      RecordRefines(env, Replay(env, db, g), Ledger(Opening(db), g), h[|h| - 1]);
    }
  }

  lemma RunRefines(env: Env, s: State, actions: seq<Action>)
    requires env.Sound() && Initial(s)
    ensures var (t, h) := Run(env, s, actions);
            Refines(env, t.db, Ledger(Opening(s.db), h)) && t.db.Valid()
  {
    RunIsLawful(env, s, actions);
    Integrity(env, s.db, Run(env, s, actions).1);
    LedgerRefinement(env, s.db, Run(env, s, actions).1);
  }

  lemma LoginEventExact(env: Env, db: Db, a: Accounts, email: string, password: string, budget: nat, u: Id)
    requires db.Valid() && Refines(env, db, a) && budget >= 1
    ensures LoginEvent(env, db, email, password, budget) == LoggedIn(u, email, password) <==>
            u in a && a[u].email == email && a[u].password == Some(password)
    ensures LoginEvent(env, db, email, password, budget).LoggedIn?
            || LoginEvent(env, db, email, password, budget) == Rejected(Unauthorized)
  {
    var found := FindByEmail(db, email);
    if found.Some? {
      assert RowRefines(env, db.users[found.value], a[found.value]);
    }
    if u in a && a[u].email == email {
      assert db.users[u].email == email;
      assert found == Some(u);
    }
  }

  /** In every reachable state a login returns user `u` exactly when the ledger's account `u` has
      that email and that password; any other login is unauthorized. */
  lemma LoginExact(env: Env, s: State, actions: seq<Action>, login: Action, u: Id)
    requires env.Sound() && Initial(s) && login.Login? && login.budget >= 1
    requires login.req !in Run(env, s, actions).0.pool
    ensures var (t, h) := Run(env, s, actions);
            var a := Ledger(Opening(s.db), h);
            var e := Step(env, t, login).1;
            && (e == LoggedIn(u, login.email, login.password) <==>
                u in a && a[u].email == login.email && a[u].password == Some(login.password))
            && (e.LoggedIn? || e == Rejected(Unauthorized))
  {
    RunRefines(env, s, actions);
    var (t, h) := Run(env, s, actions);
    LoginEventExact(env, t.db, Ledger(Opening(s.db), h), login.email, login.password, login.budget, u);
  }

  // ---------------------------------------------------------------- most recently set

  predicate SetsPassword(e: Event, u: Id) {
    (e.Registered? || e.Consumed?) && e.user == u
  }

  ghost predicate LastSetAt(h: seq<Event>, u: Id, k: nat) {
    k < |h| && SetsPassword(h[k], u) && forall j | k < j < |h| :: !SetsPassword(h[j], u)
  }

  /** The ledger's password of an account is the one most recently set for it, by registration or
      by a successful reset; an account for which none was ever set has none, so cannot log in. */
  lemma {:induction false} MostRecentlySet(a: Accounts, h: seq<Event>, u: Id)
    requires u in Ledger(a, h)
    ensures forall k: nat | LastSetAt(h, u, k) :: Ledger(a, h)[u].password == Some(h[k].password)
    ensures (forall j | 0 <= j < |h| :: !SetsPassword(h[j], u)) ==>
              u in a && Ledger(a, h)[u].password == a[u].password
  {
    if h != [] {
      hide SetsPassword;
      var g := h[..|h| - 1];
      assert forall j | 0 <= j < |g| :: g[j] == h[j];
      if !SetsPassword(h[|g|], u) {
        MostRecentlySet(a, g, u);
        forall k: nat | LastSetAt(h, u, k) ensures LastSetAt(g, u, k) {
          assert k < |g|;
        }
      }
    }
  }

  /** A back-filled account never logs in before a reset, whatever the password. */
  lemma BackfilledNeverLogsIn(env: Env, s: State, actions: seq<Action>, login: Action, u: Id)
    requires env.Sound() && Initial(s) && u in s.db.users && login.Login? && login.budget >= 1
    requires login.req !in Run(env, s, actions).0.pool
    requires forall j | 0 <= j < |Run(env, s, actions).1| :: !SetsPassword(Run(env, s, actions).1[j], u)
    ensures Step(env, Run(env, s, actions).0, login).1 != LoggedIn(u, login.email, login.password)
  {
    var (t, h) := Run(env, s, actions);
    LoginExact(env, s, actions, login, u);
    if u in Ledger(Opening(s.db), h) {
      MostRecentlySet(Opening(s.db), h, u);
    }
  }

  // ---------------------------------------------------------------- who changes a hash

  /** The stored hash of an existing user changes only in a successful reset, with a token issued
      earlier to that same user and not killed since, and with a password of at least 8 bytes. */
  lemma HashChangesOnlyByReset(env: Env, db: Db, h: seq<Event>, k: nat, u: Id) returns (i: nat)
    requires db.tokens == map[] && Lawful(env, db, h) && k < |h|
    requires u in Replay(env, db, h[..k]).users && u in Replay(env, db, h[..k + 1]).users
    requires db.Valid()
    requires Replay(env, db, h[..k]).users[u].passwordHash != Replay(env, db, h[..k + 1]).users[u].passwordHash
    ensures h[k].Consumed? && h[k].user == u && ValidPassword(h[k].password)
    ensures i < k && h[i].Issued? && h[i].user == u && h[i].token == h[k].token && h[k].at <= h[i].expiresAt
    ensures forall j | i < j < k :: !Kills(h[j], h[i])
  {
    LawfulPrefix(env, db, h, k);
    Integrity(env, db, h[..k]);
    assert h[..k + 1] == h[..k] + [h[k]];
    LawfulSnoc(env, db, h[..k], h[k]);
    i := UseHasIssue(env, db, h, k);
  }

  // ---------------------------------------------------------------- no lost update

  /** A password reset and a profile update commute, on the same user and on different ones:
      neither prevents the other, and either order leaves the same tables. */
  lemma ResetAndUpdateCommute(env: Env, db: Db, reset: Event, update: Event)
    requires reset.Consumed? && update.Updated?
    requires Legit(env, db, reset) && Legit(env, db, update) && reset.user in db.users
    ensures Legit(env, Apply(env, db, reset), update) && Legit(env, Apply(env, db, update), reset)
    ensures Apply(env, Apply(env, db, reset), update) == Apply(env, Apply(env, db, update), reset)
  {
    var hash := env.hash(reset.password, reset.salt);
    var users, u, v := db.users, reset.user, update.user;
    var first := users[u := users[u].(passwordHash := hash)];
    assert Apply(env, db, reset) == db.(users := first, tokens := db.tokens - {reset.token});
    assert forall w | w in users :: first[w].email == users[w].email;
    var second := users[v := users[v].(name := update.name, email := update.email)];
    assert Apply(env, db, update) == db.(users := second);
    assert first[v := first[v].(name := update.name, email := update.email)]
        == second[u := second[u].(passwordHash := hash)];
  }

  /** The write keeps every column but name and email as it finds it, whatever row was read. */
  lemma WriteKeepsPassword(env: Env, db: Db, a: Accounts, w: Suspended, budget: nat, password: string)
    requires w.Writing? && db.Valid() && Refines(env, db, a)
    requires WriteEvent(db, w, budget).Updated? && a[w.id].password == Some(password)
    ensures var db' := Apply(env, db, WriteEvent(db, w, budget));
            && db'.users[w.id] == db.users[w.id].(name := w.name, email := w.email)
            && LoginEvent(env, db', w.email, password, 1) == LoggedIn(w.id, w.email, password)
  {
    var e := WriteEvent(db, w, budget);
    var db' := Apply(env, db, e);
    ApplyKeepsIntegrity(env, db, e);
    assert RowRefines(env, db.users[w.id], a[w.id]);
    assert db'.users[w.id].email == w.email;
    assert FindByEmail(db', w.email) == Some(w.id);
  }

  /** No lost update: whatever ran since the row was read, a reset included, the profile write
      leaves the account with the new name, and with a login by the new email and the password
      most recently set. */
  lemma NoLostUpdate(env: Env, s: State, actions: seq<Action>, write: Action, login: Action, k: nat)
    requires env.Sound() && Initial(s) && write.UpdateWrite? && login.Login?
    requires login.req == write.req && login.budget >= 1
    requires var (t, h) := Run(env, s, actions);
             && write.req in t.pool && t.pool[write.req].Writing?
             && LastSetAt(h, t.pool[write.req].id, k)
             && Step(env, t, write).1.Updated?
             && login.email == t.pool[write.req].email && login.password == h[k].password
    ensures var (t, h) := Run(env, s, actions);
            var w := t.pool[write.req];
            var t' := Step(env, t, write).0;
            && w.id in t'.db.users && t'.db.users[w.id].name == w.name
            && Step(env, t', login).1 == LoggedIn(w.id, w.email, h[k].password)
  {
    var (t, h) := Run(env, s, actions);
    var w := t.pool[write.req];
    RunRefines(env, s, actions);
    var a := Ledger(Opening(s.db), h);
    MostRecentlySet(Opening(s.db), h, w.id);
    StepWrite(env, t, write);
    WriteKeepsPassword(env, t.db, a, w, write.budget, h[k].password);
    StepLogin(env, Step(env, t, write).0, login);
    LoginBudget(env, Step(env, t, write).0.db, login.email, login.password, login.budget);
  }

  lemma StepWrite(env: Env, s: State, write: Action)
    requires write.UpdateWrite? && Enabled(s, write)
    ensures Step(env, s, write).1 == WriteEvent(s.db, s.pool[write.req], write.budget)
    ensures Step(env, s, write).0.db == Apply(env, s.db, WriteEvent(s.db, s.pool[write.req], write.budget))
    ensures write.req !in Step(env, s, write).0.pool
  {
  }

  lemma StepLogin(env: Env, s: State, login: Action)
    requires login.Login? && Enabled(s, login)
    ensures Step(env, s, login).1 == LoginEvent(env, s.db, login.email, login.password, login.budget)
  {
  }

  lemma LoginBudget(env: Env, db: Db, email: string, password: string, budget: nat)
    requires budget >= 1
    ensures LoginEvent(env, db, email, password, budget) == LoginEvent(env, db, email, password, 1)
  {
  }
}
