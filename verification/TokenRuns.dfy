/** What holds of refresh tokens over whole runs of issue, refresh and revoke calls. */
module TokenRuns {
  import opened Options
  import opened Transactions
  import opened TokenFamilies
  import opened AuthData
  import opened AuthService

  datatype Call =
    | Issue(userId: Id, now: real, newId: Id, newHash: Digest)
    | Refresh(raw: Digest, now: real, newId: Id, newHash: Digest, fails: set<Await>)
    | RevokeUser(userId: Id, now: real)

  /** Identifiers and random tokens a call creates have not been issued before. */
  ghost predicate Enabled(d: AuthDb, c: Call) {
    match c
    case Issue(_, _, newId, newHash) => Unissued(d.tokens, newId, newHash)
    case Refresh(_, _, newId, newHash, _) => Unissued(d.tokens, newId, newHash)
    case RevokeUser(_, _) => true
  }

  /** The committed state after a call. */
  ghost function After(d: AuthDb, c: Call): AuthDb {
    match c
    case Issue(userId, now, newId, newHash) => d.(tokens := d.tokens[newId := NewToken(userId, newHash, now)])
    case Refresh(raw, now, newId, newHash, fails) => Refreshed(d, raw, now, newId, newHash, fails).0
    case RevokeUser(userId, now) => d.(tokens := RevokeAll(d.tokens, LiveTokens(d.tokens, userId, now)))
  }

  ghost predicate Exchanges(d: AuthDb, c: Call) {
    c.Refresh? && Refreshed(d, c.raw, c.now, c.newId, c.newHash, c.fails).1.Returned?
  }

  /** A refresh call that presents a revoked, unexpired token. */
  ghost predicate Reuse(d: AuthDb, c: Call) {
    && c.Refresh?
    && var found := FindToken(d.tokens, c.raw);
       found.Some? && d.tokens[found.value].isRevoked && d.tokens[found.value].expiresAt >= c.now
  }

  /** ... and whose theft response is committed: neither the token query nor the nested call raises. What
      the outer call still does, its own commit included, does not matter. */
  ghost predicate Theft(d: AuthDb, c: Call) {
    Reuse(d, c) && AtRead !in c.fails && AtNested !in c.fails
  }

  ghost predicate IsRun(s: seq<AuthDb>, calls: seq<Call>) {
    && |s| == |calls| + 1
    && Inv(s[0].tokens)
    && forall i :: 0 <= i < |calls| ==> Enabled(s[i], calls[i]) && s[i + 1] == After(s[i], calls[i])
  }

  // ---------------------------------------------------------------- one step

  /** Rows are never removed, their owner and digest never change, a revoked token stays revoked. */
  ghost predicate OnlyAges(t: Table, r: Table) {
    forall a :: a in t ==>
      && a in r && r[a].userId == t[a].userId && r[a].tokenHash == t[a].tokenHash
      && r[a].expiresAt == t[a].expiresAt && (t[a].isRevoked ==> r[a].isRevoked)
  }

  lemma StepKeepsInv(d: AuthDb, c: Call)
    requires Inv(d.tokens) && Enabled(d, c)
    ensures Inv(After(d, c).tokens) && OnlyAges(d.tokens, After(d, c).tokens)
  {
    match c
    case Issue(userId, now, newId, newHash) =>
      InsertKeepsInv(d.tokens, newId, NewToken(userId, newHash, now));
    case RevokeUser(userId, now) =>
      RevokeAges(d.tokens, LiveTokens(d.tokens, userId, now));
    case Refresh(raw, now, newId, newHash, _) =>
      RefreshKeepsInv(d, c);
  }

  lemma RefreshKeepsInv(d: AuthDb, c: Call)
    requires c.Refresh? && Inv(d.tokens) && Enabled(d, c)
    ensures Inv(After(d, c).tokens) && OnlyAges(d.tokens, After(d, c).tokens)
  {
    var found := FindToken(d.tokens, c.raw);
    if Theft(d, c) {
      var family := Family(d.tokens, found.value);
      assert After(d, c).tokens == RevokeAll(d.tokens, family);
      RevokeAges(d.tokens, family);
    } else if Exchanges(d, c) {
      var row := NewToken(d.tokens[found.value].userId, c.newHash, c.now);
      assert After(d, c).tokens == Rotate(d.tokens, found.value, c.newId, row);
      ExchangeKeepsInv(d.tokens, found.value, c.newId, row);
    } else {
      assert After(d, c) == d;
    }
  }

  lemma RevokeAges(t: Table, ids: set<Id>)
    requires Inv(t)
    ensures Inv(RevokeAll(t, ids)) && OnlyAges(t, RevokeAll(t, ids))
  {
    RevokeAllKeepsInv(t, ids);
  }

  lemma ExchangeKeepsInv(t: Table, a: Id, newId: Id, row: RefreshToken)
    requires Inv(t) && a in t
    requires Unissued(t, newId, row.tokenHash) && row.replacedBy.None? && row.userId == t[a].userId
    ensures Inv(Rotate(t, a, newId, row)) && OnlyAges(t, Rotate(t, a, newId, row))
  {
    RotateKeepsInv(t, a, newId, row);
  }

  /** An exchange leaves the presented token revoked. */
  lemma ExchangeRevokes(d: AuthDb, c: Call, a: Id)
    requires Inv(d.tokens) && Exchanges(d, c) && a in d.tokens && d.tokens[a].tokenHash == c.raw
    ensures !d.tokens[a].isRevoked && After(d, c).tokens[a].isRevoked
  {
    assert FindToken(d.tokens, c.raw) == Some(a);
  }

  ghost predicate Closed(t: Table, family: set<Id>, a: Id) {
    a in t && Family(t, a) == family && forall u :: u in family ==> u in t && t[u].isRevoked
  }

  lemma RevokeKeepsClosed(t: Table, ids: set<Id>, family: set<Id>, a: Id)
    requires Closed(t, family, a)
    ensures Closed(RevokeAll(t, ids), family, a)
  {
    RevokeAllKeepsFamilies(t, ids, a);
  }

  lemma InsertKeepsClosed(t: Table, newId: Id, row: RefreshToken, family: set<Id>, a: Id)
    requires Inv(t) && Inv(t[newId := row]) && newId !in t && row.replacedBy.None? && Closed(t, family, a)
    ensures Closed(t[newId := row], family, a)
  {
    FamilyUnaffected(t, t[newId := row], a, newId, newId);
  }

  lemma RotateKeepsClosed(t: Table, oldId: Id, newId: Id, row: RefreshToken, family: set<Id>, a: Id)
    requires Inv(t) && oldId in t && newId !in t && row.replacedBy.None? && Inv(Rotate(t, oldId, newId, row))
    requires Closed(t, family, a) && !t[oldId].isRevoked
    ensures Closed(Rotate(t, oldId, newId, row), family, a)
  {
    FamilyUnaffected(t, Rotate(t, oldId, newId, row), a, oldId, newId);
  }

  lemma StepKeepsClosed(d: AuthDb, c: Call, family: set<Id>, a: Id)
    requires Inv(d.tokens) && Enabled(d, c) && Closed(d.tokens, family, a)
    ensures Closed(After(d, c).tokens, family, a)
  {
    StepKeepsInv(d, c);
    match c
    case Issue(userId, now, newId, newHash) =>
      InsertKeepsClosed(d.tokens, newId, NewToken(userId, newHash, now), family, a);
    case RevokeUser(userId, now) =>
      RevokeKeepsClosed(d.tokens, LiveTokens(d.tokens, userId, now), family, a);
    case Refresh(raw, now, newId, newHash, _) =>
      var found := FindToken(d.tokens, raw);
      if Exchanges(d, c) {
        var row := NewToken(d.tokens[found.value].userId, newHash, now);
        RotateKeepsClosed(d.tokens, found.value, newId, row, family, a);
      } else if Theft(d, c) {
        RevokeKeepsClosed(d.tokens, Family(d.tokens, found.value), family, a);
      }
  }

  // ---------------------------------------------------------------- whole runs

  lemma {:induction false} RunKeepsInv(s: seq<AuthDb>, calls: seq<Call>, i: nat, j: nat)
    requires IsRun(s, calls) && i <= j < |s|
    ensures Inv(s[i].tokens) && Inv(s[j].tokens) && OnlyAges(s[i].tokens, s[j].tokens)
    decreases j
  {
    if j == 0 {
    } else {
      RunKeepsInv(s, calls, if i < j then i else j - 1, j - 1);
      StepKeepsInv(s[j - 1], calls[j - 1]);
    }
  }

  /** In every reachable state each family is a simple path of one user's tokens, and only the
      last can be live. */
  lemma ReachableFamilies(s: seq<AuthDb>, calls: seq<Call>, i: nat, a: Id) returns (chain: seq<Id>)
    requires IsRun(s, calls) && i < |s| && a in s[i].tokens
    ensures Maximal(s[i].tokens, chain) && NoDuplicates(chain)
    ensures forall u :: u in Family(s[i].tokens, a) <==> u in chain
    ensures forall k :: 0 <= k < |chain| - 1 ==> s[i].tokens[chain[k]].isRevoked
    ensures forall k :: 0 <= k < |chain| ==> s[i].tokens[chain[k]].userId == s[i].tokens[a].userId
  {
    RunKeepsInv(s, calls, i, i);
    chain := FamilyIsPath(s[i].tokens, a);
  }

  /** No refresh token is exchanged successfully twice. */
  lemma ExchangedOnce(s: seq<AuthDb>, calls: seq<Call>, i: nat, j: nat)
    requires IsRun(s, calls) && i < j < |calls|
    requires Exchanges(s[i], calls[i]) && calls[j].Refresh? && calls[j].raw == calls[i].raw
    ensures !Exchanges(s[j], calls[j])
  {
    RunKeepsInv(s, calls, i, i);
    RunKeepsInv(s, calls, i + 1, j);
    StepKeepsInv(s[i], calls[i]);
    var a := FindToken(s[i].tokens, calls[i].raw).value;
    ExchangeRevokes(s[i], calls[i], a);
    if Exchanges(s[j], calls[j]) {
      ExchangeRevokes(s[j], calls[j], a);
    }
  }

  /** When a refresh is an exchange: exactly for an unrevoked, unexpired token of an existing user, with
      nothing failing; the presented token is then revoked, and every other row is as it was. */
  lemma ExchangesExactly(d: AuthDb, c: Call)
    requires Inv(d.tokens) && c.Refresh? && Enabled(d, c)
    ensures Exchanges(d, c) <==>
      && AtRead !in c.fails && AtFlush !in c.fails && AtCommit !in c.fails
      && exists a :: a in d.tokens && d.tokens[a].tokenHash == c.raw && Presentable(d, a, c.now)
    ensures Exchanges(d, c) ==>
      var e := After(d, c);
      && e == d.(tokens := e.tokens) && e.tokens.Keys == d.tokens.Keys + {c.newId}
      && (forall a :: a in d.tokens ==>
            if d.tokens[a].tokenHash == c.raw
            then e.tokens[a] == d.tokens[a].(isRevoked := true, replacedBy := Some(c.newId))
            else e.tokens[a] == d.tokens[a])
    ensures !Exchanges(d, c) && !Theft(d, c) ==> After(d, c) == d
  {
    if a :| a in d.tokens && d.tokens[a].tokenHash == c.raw {
      assert FindToken(d.tokens, c.raw) == Some(a);
    }
  }

  /** How a refresh that is no exchange ends: in an authentication error, unless an await raised on the way. */
  lemma RefusedExactly(d: AuthDb, c: Call)
    requires Inv(d.tokens) && c.Refresh? && Enabled(d, c) && !Exchanges(d, c)
    ensures var good := exists a :: a in d.tokens && d.tokens[a].tokenHash == c.raw && Presentable(d, a, c.now);
      Refreshed(d, c.raw, c.now, c.newId, c.newHash, c.fails).1 ==
      Raised(if AtRead in c.fails || (Reuse(d, c) && AtNested in c.fails) || good
             then DatabaseError else AuthenticationError)
  {
    if a :| a in d.tokens && d.tokens[a].tokenHash == c.raw {
      assert FindToken(d.tokens, c.raw) == Some(a);
    }
  }

  predicate Presentable(d: AuthDb, a: Id, now: real)
    requires a in d.tokens
  {
    !d.tokens[a].isRevoked && now <= d.tokens[a].expiresAt && d.tokens[a].userId in d.users
  }

  /** What a refresh answers can be presented in its turn: in any later state of a run it is exchanged
      exactly within seven days and while it is not revoked. */
  lemma AnswerIsExchangeable(s: seq<AuthDb>, calls: seq<Call>, i: nat, j: nat, next: Call)
    requires IsRun(s, calls) && i < j < |s| && Exchanges(s[i], calls[i])
    requires next.Refresh? && next.fails == {} && Enabled(s[j], next)
    requires Returned(next.raw) == Refreshed(s[i], calls[i].raw, calls[i].now, calls[i].newId, calls[i].newHash,
                                             calls[i].fails).1
    ensures calls[i].newId in s[j].tokens
    ensures Exchanges(s[j], next) <==>
      next.now <= calls[i].now + 604800.0 && !s[j].tokens[calls[i].newId].isRevoked
    ensures j == i + 1 ==> !s[j].tokens[calls[i].newId].isRevoked
  {
    RunKeepsInv(s, calls, i, i);
    RunKeepsInv(s, calls, i + 1, j);
    UsersStay(s, calls, i, j);
    ExchangesExactly(s[i], calls[i]);
    var a := calls[i].newId;
    NewTokenIsLive(s[i], calls[i]);
    assert s[j].tokens[a].expiresAt == calls[i].now + 604800.0;
    ExchangesExactly(s[j], next);
  }

  lemma NewTokenIsLive(d: AuthDb, c: Call)
    requires Inv(d.tokens) && Exchanges(d, c) && Enabled(d, c)
    ensures var e := After(d, c).tokens;
      && c.newId in e && !e[c.newId].isRevoked && e[c.newId].userId in d.users
      && e[c.newId].expiresAt == c.now + 604800.0
      && Refreshed(d, c.raw, c.now, c.newId, c.newHash, c.fails).1 == Returned(e[c.newId].tokenHash)
  {
  }

  lemma {:induction false} UsersStay(s: seq<AuthDb>, calls: seq<Call>, i: nat, j: nat)
    requires IsRun(s, calls) && i <= j < |s|
    ensures s[j].users == s[i].users
  {
    if i == j {
    } else {
      UsersStay(s, calls, i, j - 1);
    }
  }

  /** Revoking a user's tokens touches the live tokens of that user only, and all of them. */
  lemma RevokesExactly(d: AuthDb, user: Id, now: real)
    ensures Enabled(d, RevokeUser(user, now))
    ensures var e := After(d, RevokeUser(user, now));
      && e == d.(tokens := e.tokens) && e.tokens.Keys == d.tokens.Keys
      && forall a :: a in d.tokens ==>
           e.tokens[a] == if d.tokens[a].userId == user && d.tokens[a].expiresAt > now
                          then d.tokens[a].(isRevoked := true) else d.tokens[a]
  {
  }

  /** The theft response revokes the family of the presented token and nothing else, in the
      committed state, although the call raises; if the nested call raises, nothing changes. */
  lemma TheftRevokesExactlyTheFamily(s: seq<AuthDb>, calls: seq<Call>, i: nat, a: Id)
    requires IsRun(s, calls) && i < |calls| && Reuse(s[i], calls[i])
    requires a in s[i].tokens && s[i].tokens[a].tokenHash == calls[i].raw
    ensures !Exchanges(s[i], calls[i])
    ensures !Theft(s[i], calls[i]) ==> s[i + 1] == s[i]
    ensures Theft(s[i], calls[i]) ==>
      && s[i + 1].tokens.Keys == s[i].tokens.Keys
      && (forall u :: u in s[i].tokens && u in Family(s[i].tokens, a) ==>
            s[i + 1].tokens[u] == s[i].tokens[u].(isRevoked := true))
      && (forall u :: u in s[i].tokens && u !in Family(s[i].tokens, a) ==> s[i + 1].tokens[u] == s[i].tokens[u])
  {
    RunKeepsInv(s, calls, i, i);
    assert FindToken(s[i].tokens, calls[i].raw) == Some(a);
  }

  /** None of the family's tokens is ever exchanged after the theft. */
  lemma NoExchangeAfterTheft(s: seq<AuthDb>, calls: seq<Call>, i: nat, j: nat, a: Id, u: Id)
    requires IsRun(s, calls) && i < j < |calls| && Theft(s[i], calls[i])
    requires a in s[i].tokens && s[i].tokens[a].tokenHash == calls[i].raw
    requires u in Family(s[i].tokens, a) && calls[j].Refresh? && calls[j].raw == s[i].tokens[u].tokenHash
    ensures !Exchanges(s[j], calls[j])
  {
    TheftClosesFamily(s, calls, i, j, a);
    RunKeepsInv(s, calls, i, j);
    assert FindToken(s[j].tokens, calls[j].raw) == Some(u);
  }

  /** After a theft the family is closed for good: all revoked, and it never grows. */
  lemma TheftClosesFamily(s: seq<AuthDb>, calls: seq<Call>, i: nat, j: nat, a: Id)
    requires IsRun(s, calls) && i < j < |s| && Theft(s[i], calls[i])
    requires a in s[i].tokens && s[i].tokens[a].tokenHash == calls[i].raw
    ensures Closed(s[j].tokens, Family(s[i].tokens, a), a)
  {
    TheftCloses(s, calls, i, a);
    ClosedStays(s, calls, i + 1, j, Family(s[i].tokens, a), a);
  }

  lemma {:induction false} ClosedStays(s: seq<AuthDb>, calls: seq<Call>, i: nat, j: nat, family: set<Id>, a: Id)
    requires IsRun(s, calls) && i <= j < |s| && Closed(s[i].tokens, family, a)
    ensures Closed(s[j].tokens, family, a)
    decreases j - i
  {
    if i == j {
    } else {
      assert Closed(s[i + 1].tokens, family, a) by {
        RunKeepsInv(s, calls, i, i);
        StepKeepsClosed(s[i], calls[i], family, a);
      }
      ClosedStays(s, calls, i + 1, j, family, a);
    }
  }

  lemma TheftCloses(s: seq<AuthDb>, calls: seq<Call>, i: nat, a: Id)
    requires IsRun(s, calls) && i < |calls| && Theft(s[i], calls[i])
    requires a in s[i].tokens && s[i].tokens[a].tokenHash == calls[i].raw
    ensures Closed(s[i + 1].tokens, Family(s[i].tokens, a), a)
  {
    RunKeepsInv(s, calls, i, i);
    assert FindToken(s[i].tokens, calls[i].raw) == Some(a);
    RevokeAllKeepsFamilies(s[i].tokens, Family(s[i].tokens, a), a);
  }
}
