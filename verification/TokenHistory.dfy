/**
 Reset tokens over whole histories: which issued tokens are outstanding, when a token is accepted,
 and what an issued token can still do once something has killed it.
 */
module TokenHistory {
  import opened Store

  /** What ends the life of the token issued by `issue`: its use, an attempt after its expiry, a
      later request or a failed mail of the same user, and the deletion of that user. */
  predicate Kills(e: Event, issue: Event)
    requires issue.Issued?
  {
    match e
    case Issued(_, u, _, _) => u == issue.user
    case Cleaned(_, u) => u == issue.user
    case Consumed(t, _, _, _, _, _) => t == issue.token
    case Expired(t, _, _) => t == issue.token
    case Deleted(_, _, u) => u == issue.user
    case _ => false
  }

  /** The token issued at position `i` has met no killer since. */
  ghost predicate Outstanding(h: seq<Event>, i: nat) {
    && i < |h| && h[i].Issued?
    && forall j | i < j < |h| :: !Kills(h[j], h[i])
  }

  lemma OutstandingSnoc(h: seq<Event>, e: Event, i: nat)
    ensures Outstanding(h + [e], i) <==>
            || (i < |h| && Outstanding(h, i) && !Kills(e, h[i]))
            || (i == |h| && e.Issued?)
  {
    var g := h + [e];
    if i < |h| && g[i].Issued? {
      assert g[i] == h[i];
      if Outstanding(g, i) {
        assert !Kills(g[|h|], g[i]);
        forall j | i < j < |h| ensures !Kills(h[j], h[i]) {
          assert !Kills(g[j], g[i]);
        }
      }
    }
  }

  function RowOf(env: Env, issue: Event): ResetToken
    requires issue.Issued?
  {
    ResetToken(issue.user, env.digest(issue.raw), issue.expiresAt)
  }

  /** Token ids are handed out in increasing order, all below the sequence. */
  ghost predicate IdsIncrease(db: Db, h: seq<Event>) {
    && (forall i | 0 <= i < |h| && h[i].Issued? :: h[i].token < db.nextToken)
    && (forall i, j | 0 <= i < j < |h| && h[i].Issued? && h[j].Issued? :: h[i].token < h[j].token)
  }

  /** Every outstanding issue has its row, and every row an outstanding issue. */
  ghost predicate RowsAreOutstandingIssues(env: Env, db: Db, h: seq<Event>) {
    && (forall i: nat | Outstanding(h, i) ::
          h[i].token in db.tokens && db.tokens[h[i].token] == RowOf(env, h[i]))
    && (forall t | t in db.tokens :: exists i: nat :: Outstanding(h, i) && h[i].token == t)
  }

  lemma IdsStep(env: Env, db: Db, e: Event)
    requires Legit(env, db, e)
    ensures db.nextToken <= Apply(env, db, e).nextToken
    ensures e.Issued? ==> db.nextToken <= e.token < Apply(env, db, e).nextToken
  {
  }

  lemma {:induction false} TokenIdsIncrease(env: Env, db: Db, h: seq<Event>)
    requires Lawful(env, db, h)
    ensures IdsIncrease(Replay(env, db, h), h)
    ensures db.nextToken <= Replay(env, db, h).nextToken
    ensures forall i | 0 <= i < |h| && h[i].Issued? :: db.nextToken <= h[i].token
  {
    hide Apply, Legit;
    if h != [] {
      var g := h[..|h| - 1];
      TokenIdsIncrease(env, db, g);
      IdsStep(env, Replay(env, db, g), h[|h| - 1]);
      assert forall i | 0 <= i < |g| :: g[i] == h[i];
    }
  }

  lemma SameTokenSameIssue(env: Env, db: Db, h: seq<Event>, i: nat, i': nat)
    requires Lawful(env, db, h) && i < |h| && i' < |h|
    requires h[i].Issued? && h[i'].Issued? && h[i].token == h[i'].token
    ensures i == i'
  {
    TokenIdsIncrease(env, db, h);
  }

  /** One event keeps the correspondence between rows and outstanding issues. */
  lemma RowsStep(env: Env, db: Db, h: seq<Event>, e: Event)
    requires RowsAreOutstandingIssues(env, db, h) && IdsIncrease(db, h) && Legit(env, db, e)
    ensures RowsAreOutstandingIssues(env, Apply(env, db, e), h + [e])
  {
    var db', g := Apply(env, db, e), h + [e];
    forall i: nat | Outstanding(g, i)
      ensures g[i].token in db'.tokens && db'.tokens[g[i].token] == RowOf(env, g[i])
    {
      OutstandingSnoc(h, e, i);
    }
    forall t | t in db'.tokens
      ensures exists i: nat :: Outstanding(g, i) && g[i].token == t
    {
      if e.Issued? && t == e.token {
        OutstandingSnoc(h, e, |h|);
        assert Outstanding(g, |h|);
      } else {
        var i: nat :| Outstanding(h, i) && h[i].token == t;
        OutstandingSnoc(h, e, i);
        assert Outstanding(g, i);
      }
    }
  }

  /** The token table is exactly the set of outstanding issues, after any lawful history. */
  lemma {:induction false} TokensExact(env: Env, db: Db, h: seq<Event>)
    requires db.tokens == map[] && Lawful(env, db, h)
    ensures RowsAreOutstandingIssues(env, Replay(env, db, h), h)
  {
    if h != [] {
      var g := h[..|h| - 1];
      TokensExact(env, db, g);
      TokenIdsIncrease(env, db, g);
      RowsStep(env, Replay(env, db, g), g, h[|h| - 1]);
      assert g + [h[|h| - 1]] == h;
    }
  }

  /** Each successful reset or expired attempt was made with a token issued earlier, to that very
      user, whose digest is the presented one's, and which nothing had killed. */
  lemma UseHasIssue(env: Env, db: Db, h: seq<Event>, k: nat) returns (i: nat)
    requires db.tokens == map[] && Lawful(env, db, h)
    requires k < |h| && (h[k].Consumed? || h[k].Expired?)
    ensures i < k && h[i].Issued? && h[i].token == h[k].token
    ensures env.digest(h[i].raw) == env.digest(h[k].raw)
    ensures forall j | i < j < k :: !Kills(h[j], h[i])
    ensures h[k].Consumed? ==> h[i].user == h[k].user && h[k].at <= h[i].expiresAt
    ensures h[k].Expired? ==> h[i].expiresAt < h[k].at
  {
    var g := h[..k];
    LawfulPrefix(env, db, h, k);
    TokensExact(env, db, g);
    i := OutstandingIssueOf(env, Replay(env, db, g), g, h[k].token);
    assert forall j | 0 <= j < k :: g[j] == h[j];
  }

  lemma OutstandingIssueOf(env: Env, db: Db, h: seq<Event>, t: Id) returns (i: nat)
    requires RowsAreOutstandingIssues(env, db, h) && t in db.tokens
    ensures i < |h| && h[i].Issued? && h[i].token == t && db.tokens[t] == RowOf(env, h[i])
    ensures forall j | i < j < |h| :: !Kills(h[j], h[i])
  {
    i :| Outstanding(h, i) && h[i].token == t;
  }

  /** A killed token is never used again, in any continuation: a consumed, superseded, expired or
      cleaned-up token, or one of a deleted user, stays dead. */
  lemma DeadStaysDead(env: Env, db: Db, h: seq<Event>, i: nat, j: nat, k: nat)
    requires db.tokens == map[] && Lawful(env, db, h)
    requires i < j < k < |h| && h[i].Issued? && Kills(h[j], h[i])
    ensures !((h[k].Consumed? || h[k].Expired?) && h[k].token == h[i].token)
  {
    if (h[k].Consumed? || h[k].Expired?) && h[k].token == h[i].token {
      var i' := UseHasIssue(env, db, h, k);
      SameTokenSameIssue(env, db, h, i, i');
    }
  }

  /** The presented and issued raw tokens of `h` do not collide under the digest. */
  ghost predicate NoCollision(env: Env, h: seq<Event>) {
    forall i, k | 0 <= i < |h| && 0 <= k < |h| && h[i].Issued? && (h[k].Issued? || h[k].Consumed?) ::
      env.digest(h[i].raw) == env.digest(h[k].raw) ==> h[i].raw == h[k].raw
  }

  /** The random generator never repeats a raw token. */
  ghost predicate FreshRaws(h: seq<Event>) {
    forall i, j | 0 <= i < j < |h| && h[i].Issued? && h[j].Issued? :: h[i].raw != h[j].raw
  }

  /** Single use: no two successful resets of a history consume the same token row; and, when raw
      tokens are fresh and do not collide, no raw token resets a password twice. */
  lemma SingleUse(env: Env, db: Db, h: seq<Event>, j: nat, k: nat)
    requires db.tokens == map[] && Lawful(env, db, h)
    requires j < k < |h| && h[j].Consumed? && h[k].Consumed?
    ensures h[j].token != h[k].token
    ensures NoCollision(env, h) && FreshRaws(h) ==> h[j].raw != h[k].raw
  {
    var i := UseHasIssue(env, db, h, j);
    DeadStaysDead(env, db, h, i, j, k);
    if NoCollision(env, h) && FreshRaws(h) {
      var i' := UseHasIssue(env, db, h, k);
      assert h[i].raw == h[j].raw && h[i'].raw == h[k].raw;
      assert i != i';
      assert h[i].raw != h[i'].raw;
    }
  }

  /** A raw token replaced by a later request of its user never resets a password afterwards. */
  lemma SupersededNeverAccepted(env: Env, db: Db, h: seq<Event>, i: nat, j: nat, k: nat)
    requires db.tokens == map[] && Lawful(env, db, h) && NoCollision(env, h) && FreshRaws(h)
    requires i < j < k < |h| && h[i].Issued? && h[j].Issued? && h[i].user == h[j].user
    requires h[k].Consumed?
    ensures h[k].raw != h[i].raw
  {
    var i' := UseHasIssue(env, db, h, k);
    assert h[i'].raw == h[k].raw;
    if i == i' {
      DeadStaysDead(env, db, h, i, j, k);
    }
  }

  /** A row leaves the table only by an event that kills exactly that token: nothing that happens
      to another user's rows removes it, and no other kind of event does. */
  lemma RowsLeaveOnlyWhenKilled(env: Env, db: Db, e: Event, t: Id, issue: Event)
    requires db.Valid() && Legit(env, db, e)
    requires t in db.tokens && issue.Issued? && issue.token == t && issue.user == db.tokens[t].userId
    ensures t !in Apply(env, db, e).tokens <==> Kills(e, issue)
    ensures t in Apply(env, db, e).tokens ==> Apply(env, db, e).tokens[t] == db.tokens[t]
  {
  }
}
