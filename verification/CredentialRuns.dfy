/** Passwords, one-time tokens and session revocation over whole runs of reset and invitation calls. */
module CredentialRuns {
  import opened Options
  import opened Transactions
  import opened TokenFamilies
  import opened AuthData
  import opened AuthService
  import opened Credentials
  import TokenRuns

  // ---------------------------------------------------------------- one reset

  /** Rows of other users, and one-time tokens other than the presented one, are untouched. */
  ghost predicate OnlyTouches(d: AuthDb, e: AuthDb, id: Id, user: Id) {
    && e.users.Keys == d.users.Keys && e.resets.Keys == d.resets.Keys && e.tokens.Keys == d.tokens.Keys
    && (forall u :: u in d.users && u != user ==> e.users[u] == d.users[u] && HistoryOf(e, u) == HistoryOf(d, u))
    && (forall a :: a in d.resets && a != id ==> e.resets[a] == d.resets[a])
    && (forall a :: a in d.tokens && d.tokens[a].userId != user ==> e.tokens[a] == d.tokens[a])
    && (forall a :: a in d.tokens ==> e.tokens[a] == d.tokens[a] || e.tokens[a] == d.tokens[a].(isRevoked := true))
    && e.invitations == d.invitations
  }

  /** All together or not at all, wherever an exception occurs: the new password, its history row,
      the used flag and the revocation are committed exactly when the token and the password are
      acceptable and nothing fails up to the nested commit; otherwise nothing is. */
  lemma ResetIsAllOrNothing(d: AuthDb, raw: Digest, password: Password, now: real, revokedAt: real,
                            policy: Password -> bool, fails: set<Place>)
    ensures var e := AfterReset(d, raw, password, now, revokedAt, policy, fails);
      if ResetAccepted(d, raw, password, now, policy) && !Hit(fails, BEFORE_INNER_COMMIT) then
        var id := FindOneTime(d.resets, raw).value;
        var user := d.resets[id].userId;
        && user in e.users && e.users[user] == d.users[user].(password := Some(password))
        && HistoryOf(e, user) == HistoryOf(d, user) + [password]
        && id in e.resets && e.resets[id] == d.resets[id].(isUsed := true)
        && LiveTokens(e.tokens, user, revokedAt) == {}
        && OnlyTouches(d, e, id, user)
      else
        e == d
  {
  }

  /** The audit entry is not part of it: it is missing from a committed reset exactly when
      something fails after the nested commit. */
  lemma AuditEntryCanBeLost(d: AuthDb, raw: Digest, password: Password, now: real, revokedAt: real,
                            policy: Password -> bool, fails: set<Place>)
    requires ResetAccepted(d, raw, password, now, policy) && !Hit(fails, BEFORE_INNER_COMMIT)
    ensures AfterReset(d, raw, password, now, revokedAt, policy, fails).audit == d.audit <==>
            Hit(fails, RESET_AFTER_COMMIT)
  {
    var e := AfterReset(d, raw, password, now, revokedAt, policy, fails);
    if !Hit(fails, RESET_AFTER_COMMIT) {
      assert |e.audit| == |d.audit| + 1;
    }
  }

  /** After a committed reset, no refresh token the user held then is exchanged at a later instant. */
  lemma ResetEndsSessions(d: AuthDb, raw: Digest, password: Password, now: real, revokedAt: real,
                          policy: Password -> bool, fails: set<Place>,
                          s: seq<AuthDb>, calls: seq<TokenRuns.Call>, j: nat, a: Id)
    requires ResetAccepted(d, raw, password, now, policy) && !Hit(fails, BEFORE_INNER_COMMIT)
    requires TokenRuns.IsRun(s, calls) && s[0] == AfterReset(d, raw, password, now, revokedAt, policy, fails)
    requires a in d.tokens && d.tokens[a].userId == d.resets[FindOneTime(d.resets, raw).value].userId
    requires j < |calls| && calls[j].Refresh? && calls[j].raw == d.tokens[a].tokenHash && calls[j].now > revokedAt
    ensures !TokenRuns.Exchanges(s[j], calls[j])
  {
    TokenRuns.RunKeepsInv(s, calls, 0, j);
    assert FindToken(s[j].tokens, calls[j].raw) == Some(a);
  }

  /** At the very instant of the revocation the promise fails for exactly the tokens that expire
      at that instant: `refresh` still takes them, and the revoking query has passed them by. */
  lemma ExchangeAtTheInstant(d: AuthDb, user: Id, at: real, a: Id, newId: Id, newHash: Digest)
    requires Inv(d.tokens) && user in d.users && a in d.tokens && d.tokens[a].userId == user
    ensures var e := TokenRuns.After(d, TokenRuns.RevokeUser(user, at));
      TokenRuns.Exchanges(e, TokenRuns.Refresh(d.tokens[a].tokenHash, at, newId, newHash, {})) <==>
        !d.tokens[a].isRevoked && d.tokens[a].expiresAt == at
  {
    var e := TokenRuns.After(d, TokenRuns.RevokeUser(user, at));
    RevokeAllKeepsInv(d.tokens, LiveTokens(d.tokens, user, at));
    assert FindToken(e.tokens, d.tokens[a].tokenHash) == Some(a);
  }

  // ---------------------------------------------------------------- runs

  datatype Call =
    | Request(user: Option<Id>, now: real, newId: Id, digest: Digest, fails: set<Place>)
    | Reset(raw: Digest, password: Password, now: real, revokedAt: real, fails: set<Place>)
    | Generate(userId: Id, now: real, newId: Id, digest: Digest)
    | Accept(raw: Digest, password: Password, now: real, fails: set<Place>)
    | Resend(userId: Id, org: Option<Id>, actor: Id, now: real, issuedAt: real, newId: Id, digest: Digest,
        fails: set<Place>)

  ghost function After(d: AuthDb, c: Call, policy: Password -> bool): AuthDb {
    match c
    case Request(user, now, newId, digest, fails) => AfterRequest(d, user, now, newId, digest, fails)
    case Reset(raw, password, now, revokedAt, fails) => AfterReset(d, raw, password, now, revokedAt, policy, fails)
    case Generate(userId, now, newId, digest) =>
      d.(invitations := d.invitations[newId := NewInvitation(userId, digest, now)])
    case Accept(raw, password, now, fails) => AfterAccept(d, raw, password, now, policy, fails)
    case Resend(userId, org, actor, now, issuedAt, newId, digest, fails) =>
      AfterResend(d, userId, org, actor, now, issuedAt, newId, digest, fails)
  }

  ghost predicate Enabled(d: AuthDb, c: Call) {
    match c
    case Request(_, _, newId, digest, _) => UnissuedOneTime(d.resets, newId, digest)
    case Generate(_, _, newId, digest) => UnissuedOneTime(d.invitations, newId, digest)
    case Resend(_, _, _, now, issuedAt, newId, digest, _) =>
      now <= issuedAt && UnissuedOneTime(d.invitations, newId, digest)
    case _ => true
  }

  ghost predicate IsRun(s: seq<AuthDb>, calls: seq<Call>, policy: Password -> bool) {
    && |s| == |calls| + 1
    && UniqueHashes(s[0].resets) && UniqueHashes(s[0].invitations)
    && forall i :: 0 <= i < |calls| ==> Enabled(s[i], calls[i]) && s[i + 1] == After(s[i], calls[i], policy)
  }

  /** Rows stay; only the used flag changes, and only one way. */
  ghost predicate OnlyGetsUsed(t: map<Id, OneTimeToken>, r: map<Id, OneTimeToken>) {
    forall a :: a in t ==> a in r && (r[a] == t[a] || r[a] == t[a].(isUsed := true))
  }

  ghost predicate Consumes(d: AuthDb, c: Call, policy: Password -> bool) {
    match c
    case Reset(raw, password, now, _, fails) =>
      ResetAccepted(d, raw, password, now, policy) && !Hit(fails, BEFORE_INNER_COMMIT)
    case Accept(raw, password, now, fails) =>
      InvitationAccepted(d, raw, password, now, policy) && !Hit(fails, ACCEPT_PLACES)
    case _ => false
  }

  lemma StepOnlyUsesResets(d: AuthDb, c: Call, policy: Password -> bool)
    requires UniqueHashes(d.resets) && Enabled(d, c)
    ensures UniqueHashes(After(d, c, policy).resets) && OnlyGetsUsed(d.resets, After(d, c, policy).resets)
  {
    match c
    case Request(user, now, newId, digest, _) =>
      if user.Some? {
        AddKeepsUnique(d.resets, newId, OneTimeToken(user.value, digest, now + PASSWORD_RESET_TOKEN_TTL, false));
      }
    case Reset(raw, password, now, revokedAt, fails) =>
      ResetIsAllOrNothing(d, raw, password, now, revokedAt, policy, fails);
    case _ => assert After(d, c, policy).resets == d.resets;
  }

  lemma StepOnlyUsesInvitations(d: AuthDb, c: Call, policy: Password -> bool)
    requires UniqueHashes(d.invitations) && Enabled(d, c)
    ensures UniqueHashes(After(d, c, policy).invitations)
    ensures OnlyGetsUsed(d.invitations, After(d, c, policy).invitations)
  {
    match c
    case Generate(userId, now, newId, digest) =>
      AddKeepsUnique(d.invitations, newId, NewInvitation(userId, digest, now));
    case Accept(_, _, _, _) =>
    case Resend(userId, _, _, now, issuedAt, newId, digest, _) =>
      ResendOnlyUses(d.invitations, Outstanding(d.invitations, userId, now), newId,
                     NewInvitation(userId, digest, issuedAt));
    case _ => assert After(d, c, policy).invitations == d.invitations;
  }

  lemma ResendOnlyUses(t: map<Id, OneTimeToken>, ids: set<Id>, newId: Id, token: OneTimeToken)
    requires UniqueHashes(t) && UnissuedOneTime(t, newId, token.tokenHash)
    ensures UniqueHashes(UseUp(t, ids)[newId := token]) && OnlyGetsUsed(t, UseUp(t, ids)[newId := token])
  {
    AddKeepsUnique(UseUp(t, ids), newId, token);
  }

  lemma AddKeepsUnique(t: map<Id, OneTimeToken>, newId: Id, token: OneTimeToken)
    requires UniqueHashes(t) && UnissuedOneTime(t, newId, token.tokenHash)
    ensures UniqueHashes(t[newId := token]) && OnlyGetsUsed(t, t[newId := token])
  {
  }

  lemma {:induction false} RunOnlyUses(s: seq<AuthDb>, calls: seq<Call>, policy: Password -> bool, i: nat, j: nat)
    requires IsRun(s, calls, policy) && i <= j < |s|
    ensures UniqueHashes(s[j].resets) && OnlyGetsUsed(s[i].resets, s[j].resets)
    ensures UniqueHashes(s[j].invitations) && OnlyGetsUsed(s[i].invitations, s[j].invitations)
    decreases j
  {
    if j == 0 {
    } else {
      RunOnlyUses(s, calls, policy, if i < j then i else j - 1, j - 1);
      StepOnlyUsesResets(s[j - 1], calls[j - 1], policy);
      StepOnlyUsesInvitations(s[j - 1], calls[j - 1], policy);
    }
  }

  /** A reset token changes a password at most once. */
  lemma ResetTokenConsumedOnce(s: seq<AuthDb>, calls: seq<Call>, policy: Password -> bool, i: nat, j: nat)
    requires IsRun(s, calls, policy) && i < j < |calls|
    requires calls[i].Reset? && Consumes(s[i], calls[i], policy)
    requires calls[j].Reset? && calls[j].raw == calls[i].raw
    ensures !Consumes(s[j], calls[j], policy)
  {
    RunOnlyUses(s, calls, policy, i + 1, j);
    var a := FindOneTime(s[i].resets, calls[i].raw).value;
    assert s[i + 1].resets[a].isUsed && s[i + 1].resets[a].tokenHash == calls[i].raw;
    assert FindOneTime(s[j].resets, calls[j].raw) == Some(a);
  }

  /** An invitation activates an account at most once. */
  lemma InvitationConsumedOnce(s: seq<AuthDb>, calls: seq<Call>, policy: Password -> bool, i: nat, j: nat)
    requires IsRun(s, calls, policy) && i < j < |calls|
    requires calls[i].Accept? && Consumes(s[i], calls[i], policy)
    requires calls[j].Accept? && calls[j].raw == calls[i].raw
    ensures !Consumes(s[j], calls[j], policy)
  {
    RunOnlyUses(s, calls, policy, i + 1, j);
    var a := FindOneTime(s[i].invitations, calls[i].raw).value;
    assert s[i + 1].invitations[a].isUsed && s[i + 1].invitations[a].tokenHash == calls[i].raw;
    assert FindOneTime(s[j].invitations, calls[j].raw) == Some(a);
  }

  // ---------------------------------------------------------------- password history

  /** Entries at most five apart differ, from index `from` on. */
  ghost predicate SixDistinct(h: seq<Password>, from: nat) {
    forall i, j :: from <= i < j < |h| && j - i <= 5 ==> h[i] != h[j]
  }

  lemma SixDistinctGrows(h: seq<Password>, from: nat, password: Password)
    requires SixDistinct(h, from) && password !in LastFive(h)
    ensures SixDistinct(h + [password], from)
  {
    forall i | 0 <= i < |h| && |h| - i <= 5 ensures h[i] != password {
      assert h[i] in LastFive(h) by {
        var l := LastFive(h);
        assert l[i - (|h| - |l|)] == h[i];
      }
    }
  }

  /** From one acceptance on, any six consecutive passwords of a user are pairwise distinct. */
  lemma {:induction false} HistoryDistinct(s: seq<AuthDb>, calls: seq<Call>, policy: Password -> bool, user: Id,
      from: nat, k: nat)
    requires IsRun(s, calls, policy) && k < |s| && |HistoryOf(s[0], user)| == from + 1
    requires forall i :: 0 <= i < |calls| && calls[i].Accept? ==> HistoryOf(s[i + 1], user) == HistoryOf(s[i], user)
    ensures SixDistinct(HistoryOf(s[k], user), from)
    decreases k
  {
    if k == 0 {
    } else {
      HistoryDistinct(s, calls, policy, user, from, k - 1);
      HistoryStep(s[k - 1], calls[k - 1], policy, user);
      if calls[k - 1].Reset? && HistoryOf(s[k], user) != HistoryOf(s[k - 1], user) {
        SixDistinctGrows(HistoryOf(s[k - 1], user), from, calls[k - 1].password);
      }
    }
  }

  /** Only an acceptance, or a reset to a password unlike the last five, adds to the history. */
  lemma HistoryStep(d: AuthDb, c: Call, policy: Password -> bool, user: Id)
    ensures var h, h' := HistoryOf(d, user), HistoryOf(After(d, c, policy), user);
      h' == h || c.Accept? || (c.Reset? && c.password !in LastFive(h) && h' == h + [c.password])
  {
    if c.Reset? {
      ResetIsAllOrNothing(d, c.raw, c.password, c.now, c.revokedAt, policy, c.fails);
    }
  }

  // ---------------------------------------------------------------- invitations

  ghost function Usable(t: map<Id, OneTimeToken>, user: Id, at: real): set<Id> {
    set a | a in t && t[a].userId == user && !t[a].isUsed && t[a].expiresAt >= at
  }

  /** The call gives `user` no further invitation. */
  predicate NoNewInvitation(c: Call, user: Id) {
    (c.Generate? ==> c.userId != user) && (c.Resend? ==> c.userId != user)
  }

  /** After a resend, and until the user is sent another one, exactly the new invitation is usable
      at any later instant while it is neither used nor expired, and otherwise none is. */
  lemma {:induction false} ResendLeavesOne(s: seq<AuthDb>, calls: seq<Call>, policy: Password -> bool, j: nat, at: real)
    requires IsRun(s, calls, policy) && 0 < j < |s| && calls[0].Resend?
    requires MayResend(s[0], calls[0].userId, calls[0].org)
    requires !Hit(calls[0].fails, RESEND_BEFORE_COMMIT)
    requires forall i :: 0 < i < |calls| ==> NoNewInvitation(calls[i], calls[0].userId)
    requires at > calls[0].now
    ensures var c := calls[0];
      && c.newId in s[j].invitations
      && s[j].invitations[c.newId].expiresAt == c.issuedAt + INVITATION_TOKEN_TTL
      && Usable(s[j].invitations, c.userId, at) ==
           if !s[j].invitations[c.newId].isUsed && at <= c.issuedAt + INVITATION_TOKEN_TTL then {c.newId} else {}
    decreases j
  {
    var c := calls[0];
    assert s[1] == After(s[0], c, policy);
    if j > 1 {
      ResendLeavesOne(s, calls, policy, j - 1, at);
      RunOnlyUses(s, calls, policy, j - 1, j);
      NoneAppear(s[j - 1], calls[j - 1], policy, c.userId, at);
    }
  }

  lemma NoneAppear(d: AuthDb, c: Call, policy: Password -> bool, user: Id, at: real)
    requires NoNewInvitation(c, user) && Enabled(d, c)
    ensures Usable(After(d, c, policy).invitations, user, at) <= Usable(d.invitations, user, at)
  {
  }
}
