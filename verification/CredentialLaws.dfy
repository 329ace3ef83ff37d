/** When a reset or invitation call takes effect and what it then leaves, said of the rows alone. */
module CredentialLaws {
  import opened Options
  import opened TokenFamilies
  import opened AuthData
  import opened AuthService
  import opened Credentials
  import opened CredentialRuns

  // ---------------------------------------------------------------- one-time tokens

  /** The row of an unused token that has not expired, with an existing user. */
  ghost predicate Good(d: AuthDb, t: map<Id, OneTimeToken>, a: Id, raw: Digest, now: real) {
    a in t && t[a].tokenHash == raw && !t[a].isUsed && now <= t[a].expiresAt && t[a].userId in d.users
  }

  /** The password is none of the newest five. */
  ghost predicate New(d: AuthDb, user: Id, password: Password) {
    var h := HistoryOf(d, user);
    forall i :: 0 <= i < |h| && |h| - 5 <= i ==> h[i] != password
  }

  lemma NewIsNotRecent(d: AuthDb, user: Id, password: Password)
    ensures New(d, user, password) <==> password !in LastFive(HistoryOf(d, user))
  {
    var h := HistoryOf(d, user);
    var l := LastFive(h);
    assert forall i :: 0 <= i < |h| && |h| - 5 <= i ==> l[i - (|h| - |l|)] == h[i];
    assert forall k :: 0 <= k < |l| ==> l[k] == h[k + (|h| - |l|)];
  }

  lemma GoodIsRedeemable(d: AuthDb, t: map<Id, OneTimeToken>, a: Id, raw: Digest, now: real)
    requires UniqueHashes(t) && a in t && t[a].tokenHash == raw
    ensures FindOneTime(t, raw) == Some(a)
    ensures Redeemable(d, t, raw, now) == if Good(d, t, a, raw, now) then Some(a) else None
  {
  }

  // ---------------------------------------------------------------- password reset

  ghost predicate ResetDue(d: AuthDb, a: Id, raw: Digest, password: Password, now: real, policy: Password -> bool) {
    Good(d, d.resets, a, raw, now) && policy(password) && New(d, d.resets[a].userId, password)
  }

  lemma DueIsAccepted(d: AuthDb, raw: Digest, password: Password, now: real, policy: Password -> bool)
    requires UniqueHashes(d.resets)
    ensures ResetAccepted(d, raw, password, now, policy) <==> exists a :: ResetDue(d, a, raw, password, now, policy)
  {
    if a :| a in d.resets && d.resets[a].tokenHash == raw {
      GoodIsRedeemable(d, d.resets, a, raw, now);
      NewIsNotRecent(d, d.resets[a].userId, password);
      assert ResetAccepted(d, raw, password, now, policy) ==> ResetDue(d, a, raw, password, now, policy);
    }
  }

  /** A reset takes effect exactly for an unused, unexpired token of an existing user and a new password the
      policy admits, when no await up to the nested commit raises; an expired or used token, an unknown one, a
      refused or recent password leave the state as it is. */
  lemma ResetExactly(d: AuthDb, raw: Digest, password: Password, now: real, revokedAt: real,
                     policy: Password -> bool, fails: set<Place>)
    requires UniqueHashes(d.resets)
    ensures Enabled(d, Reset(raw, password, now, revokedAt, fails))
    ensures AfterReset(d, raw, password, now, revokedAt, policy, fails) != d <==>
      && (exists a :: ResetDue(d, a, raw, password, now, policy))
      && Lookup !in fails && LoadUser !in fails && ReadHistory !in fails && FlushPassword !in fails
      && FlushHistory !in fails && FlushToken !in fails && InnerCommit !in fails
  {
    DueIsAccepted(d, raw, password, now, policy);
    ResetIsAllOrNothing(d, raw, password, now, revokedAt, policy, fails);
    var e := AfterReset(d, raw, password, now, revokedAt, policy, fails);
    if ResetAccepted(d, raw, password, now, policy) && !Hit(fails, BEFORE_INNER_COMMIT) {
      var user := d.resets[FindOneTime(d.resets, raw).value].userId;
      assert |HistoryOf(e, user)| == |HistoryOf(d, user)| + 1;
    }
  }

  /** What it leaves: the password, its history row, the used flag, the revoked sessions, and the audit entry
      unless an await after the nested commit raises. */
  lemma ResetLeaves(d: AuthDb, a: Id, raw: Digest, password: Password, now: real, revokedAt: real,
                    policy: Password -> bool, fails: set<Place>)
    requires UniqueHashes(d.resets) && ResetDue(d, a, raw, password, now, policy) && !Hit(fails, BEFORE_INNER_COMMIT)
    ensures var e := AfterReset(d, raw, password, now, revokedAt, policy, fails);
      var user := d.resets[a].userId;
      && e.users == d.users[user := d.users[user].(password := Some(password))]
      && HistoryOf(e, user) == HistoryOf(d, user) + [password]
      && e.resets == d.resets[a := d.resets[a].(isUsed := true)]
      && e.invitations == d.invitations
      && e.audit == (if ReadUser in fails || WriteAudit in fails || OuterCommit in fails then d.audit
                     else d.audit + [AuditEntry(user, "PasswordReset")])
      && e.tokens.Keys == d.tokens.Keys
      && (forall b :: b in d.tokens ==>
            e.tokens[b] == (if d.tokens[b].userId == user && d.tokens[b].expiresAt > revokedAt
                            then d.tokens[b].(isRevoked := true) else d.tokens[b]))
  {
    GoodIsRedeemable(d, d.resets, a, raw, now);
    NewIsNotRecent(d, d.resets[a].userId, password);
  }

  /** A request creates a token exactly for an active or invited user, if nothing fails; it lasts 15 minutes. */
  lemma RequestExactly(d: AuthDb, user: Option<Id>, now: real, newId: Id, digest: Digest, fails: set<Place>)
    requires newId !in d.resets
    ensures var e := AfterRequest(d, user, now, newId, digest, fails);
      && (e != d <==>
           && user.Some? && user.value in d.users && d.users[user.value].status in {Active, PendingInvitation}
           && Lookup !in fails && FlushToken !in fails && SendMail !in fails && OuterCommit !in fails)
      && (e != d ==> e == d.(resets := d.resets[newId := OneTimeToken(user.value, digest, now + 900.0, false)]))
  {
    var e := AfterRequest(d, user, now, newId, digest, fails);
    if user.Some? && user.value in d.users {
      var status := d.users[user.value].status;
      assert status == Active || status == Inactive || status == Locked || status == PendingInvitation;
    }
    if MayRequest(d, user) && !Hit(fails, REQUEST_PLACES) {
      assert newId in e.resets;
    }
    assert Hit(fails, REQUEST_PLACES) <==>
      Lookup in fails || FlushToken in fails || SendMail in fails || OuterCommit in fails;
  }

  /** Over runs: a token requested at t resets its user's password, while it is unused, exactly up to t + 900. */
  lemma RequestedTokenWorks(s: seq<AuthDb>, calls: seq<Call>, policy: Password -> bool, i: nat, j: nat,
      password: Password, now: real, revokedAt: real)
    requires IsRun(s, calls, policy) && i < j < |s| && calls[i].Request? && s[i + 1] != s[i]
    ensures calls[i].newId in s[j].resets
    ensures var token, d := s[j].resets[calls[i].newId], s[j];
      var e := AfterReset(d, calls[i].digest, password, now, revokedAt, policy, {});
      && calls[i].user == Some(token.userId)
      && (e != d <==>
           && now <= calls[i].now + 900.0 && !token.isUsed && token.userId in d.users
           && policy(password) && New(d, token.userId, password))
      && (e != d ==> e.users[token.userId].password == Some(password))
  {
    var c, a, d := calls[i], calls[i].newId, s[j];
    RunOnlyUses(s, calls, policy, i, i);
    RequestExactly(s[i], c.user, c.now, a, c.digest, c.fails);
    RunOnlyUses(s, calls, policy, i + 1, j);
    ResetExactly(d, c.digest, password, now, revokedAt, policy, {});
    assert forall b :: ResetDue(d, b, c.digest, password, now, policy) ==> b == a;
    if ResetDue(d, a, c.digest, password, now, policy) {
      ResetLeaves(d, a, c.digest, password, now, revokedAt, policy, {});
    }
  }

  // ---------------------------------------------------------------- invitations

  /** An acceptance takes effect exactly for an unused, unexpired invitation of an existing user and a password
      the policy admits, when nothing raises. */
  lemma AcceptExactly(d: AuthDb, raw: Digest, password: Password, now: real, policy: Password -> bool,
                      fails: set<Place>)
    requires UniqueHashes(d.invitations)
    ensures Enabled(d, Accept(raw, password, now, fails))
    ensures AfterAccept(d, raw, password, now, policy, fails) != d <==>
      && (exists a :: Good(d, d.invitations, a, raw, now)) && policy(password)
      && Lookup !in fails && LoadUser !in fails && FlushPassword !in fails && FlushHistory !in fails
      && FlushToken !in fails && WriteAudit !in fails && OuterCommit !in fails
  {
    if a :| a in d.invitations && d.invitations[a].tokenHash == raw {
      GoodIsRedeemable(d, d.invitations, a, raw, now);
    }
    if InvitationAccepted(d, raw, password, now, policy) && !Hit(fails, ACCEPT_PLACES) {
      assert |AfterAccept(d, raw, password, now, policy, fails).audit| == |d.audit| + 1;
      assert Good(d, d.invitations, FindOneTime(d.invitations, raw).value, raw, now);
    }
  }

  /** What it leaves, all together: the password, its history row, the ACTIVE status, the used flag and the
      audit entry; nothing else changes. */
  lemma AcceptLeaves(d: AuthDb, a: Id, raw: Digest, password: Password, now: real, policy: Password -> bool)
    requires UniqueHashes(d.invitations) && Good(d, d.invitations, a, raw, now) && policy(password)
    ensures var e := AfterAccept(d, raw, password, now, policy, {});
      var user := d.invitations[a].userId;
      && e.users == d.users[user := d.users[user].(password := Some(password), status := Active)]
      && HistoryOf(e, user) == HistoryOf(d, user) + [password]
      && (forall other :: other != user ==> HistoryOf(e, other) == HistoryOf(d, other))
      && e.invitations == d.invitations[a := d.invitations[a].(isUsed := true)]
      && e.audit == d.audit + [AuditEntry(user, "AccountActivated")]
      && e.tokens == d.tokens && e.resets == d.resets
  {
    GoodIsRedeemable(d, d.invitations, a, raw, now);
  }

  /** A resend takes effect exactly for an invited user of the organization, if nothing up to the nested commit
      raises; it uses up that user's unused, unexpired invitations and adds one for 72 hours. */
  lemma ResendExactly(d: AuthDb, user: Id, org: Option<Id>, actor: Id, now: real, issuedAt: real, newId: Id,
                      digest: Digest, fails: set<Place>)
    requires newId !in d.invitations
    ensures var e := AfterResend(d, user, org, actor, now, issuedAt, newId, digest, fails);
      && (e != d <==>
           && user in d.users && d.users[user].organizationId == org && d.users[user].status == PendingInvitation
           && LoadUser !in fails && Lookup !in fails && FlushToken !in fails && InnerCommit !in fails)
      && (e != d ==>
           && e == d.(invitations := e.invitations, audit := e.audit)
           && e.invitations.Keys == d.invitations.Keys + {newId}
           && e.invitations[newId] == OneTimeToken(user, digest, issuedAt + 259200.0, false)
           && (forall a :: a in d.invitations ==>
                 e.invitations[a] == (if d.invitations[a].userId == user && d.invitations[a].expiresAt > now
                                      then d.invitations[a].(isUsed := true) else d.invitations[a]))
           && e.audit == (if ReadUser in fails || SendMail in fails || WriteAudit in fails || OuterCommit in fails
                          then d.audit else d.audit + [AuditEntry(actor, "InvitationResent")]))
  {
    var e := AfterResend(d, user, org, actor, now, issuedAt, newId, digest, fails);
    assert newId in e.invitations ==> e != d;
  }

  /** The call gives its user an invitation. */
  ghost predicate Invites(d: AuthDb, c: Call) {
    || c.Generate?
    || (c.Resend? && MayResend(d, c.userId, c.org) && !Hit(c.fails, RESEND_BEFORE_COMMIT))
  }

  function IssuedAt(c: Call): real {
    match c
    case Generate(_, now, _, _) => now
    case Resend(_, _, _, _, issuedAt, _, _, _) => issuedAt
    case _ => 0.0
  }

  lemma InvitationRow(d: AuthDb, c: Call, policy: Password -> bool)
    requires Invites(d, c) && Enabled(d, c)
    ensures var e := After(d, c, policy);
      && c.newId in e.invitations
      && e.invitations[c.newId] == OneTimeToken(c.userId, c.digest, IssuedAt(c) + 259200.0, false)
  {
    if c.Resend? {
      ResendExactly(d, c.userId, c.org, c.actor, c.now, c.issuedAt, c.newId, c.digest, c.fails);
    }
  }

  /** Over runs: an invitation issued at t activates its user, while it is unused, exactly up to t + 72 hours. */
  lemma InvitationWorks(s: seq<AuthDb>, calls: seq<Call>, policy: Password -> bool, i: nat, j: nat,
      password: Password, now: real)
    requires IsRun(s, calls, policy) && i < j < |s| && Invites(s[i], calls[i])
    ensures calls[i].newId in s[j].invitations
    ensures var token, d := s[j].invitations[calls[i].newId], s[j];
      var e := AfterAccept(d, calls[i].digest, password, now, policy, {});
      && token.userId == calls[i].userId
      && (e != d <==>
           && now <= IssuedAt(calls[i]) + 259200.0
           && !token.isUsed && token.userId in d.users && policy(password))
      && (e != d ==>
           && token.userId in e.users && e.users[token.userId].status == Active
           && e.users[token.userId].password == Some(password))
  {
    var c, a, d := calls[i], calls[i].newId, s[j];
    RunOnlyUses(s, calls, policy, i, i);
    RunOnlyUses(s, calls, policy, i + 1, j);
    InvitationRow(s[i], c, policy);
    assert s[i + 1] == After(s[i], c, policy);
    AcceptExactly(d, c.digest, password, now, policy, {});
    assert forall b :: Good(d, d.invitations, b, c.digest, now) ==> b == a;
    if Good(d, d.invitations, a, c.digest, now) && policy(password) {
      AcceptLeaves(d, a, c.digest, password, now, policy);
    }
  }
}
