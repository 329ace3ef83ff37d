/** Password reset and invitations (app/modules/password_reset/service.py,
    app/modules/invitations/service.py). Every await may raise: a call takes the set of places
    where the database or the mail server fails it. */
module Credentials {
  import opened Options
  import opened Transactions
  import opened TokenFamilies
  import opened AuthData
  import opened AuthService

  datatype Place =
    | Lookup | LoadUser | ReadHistory | FlushPassword | FlushHistory | FlushToken  // before any commit
    | InnerCommit                                                                  // the nested call's commit
    | ReadUser      // the commit expires the loaded user row; reading it again is a new query
    | SendMail | WriteAudit | OuterCommit                                          // after it

  const BEFORE_INNER_COMMIT := {Lookup, LoadUser, ReadHistory, FlushPassword, FlushHistory, FlushToken, InnerCommit}
  const REQUEST_PLACES := {Lookup, FlushToken, SendMail, OuterCommit}
  const RESET_AFTER_COMMIT := {ReadUser, WriteAudit, OuterCommit}
  const RESEND_BEFORE_COMMIT := {LoadUser, Lookup, FlushToken, InnerCommit}
  const RESEND_AFTER_COMMIT := {ReadUser, SendMail, WriteAudit, OuterCommit}
  const ACCEPT_PLACES := {Lookup, LoadUser, FlushPassword, FlushHistory, FlushToken, WriteAudit, OuterCommit}

  predicate Hit(fails: set<Place>, places: set<Place>) {
    exists p :: p in fails && p in places
  }

  function HistoryOf(d: AuthDb, user: Id): seq<Password> {
    if user in d.history then d.history[user] else []
  }

  function LastFive(h: seq<Password>): seq<Password> {
    if |h| <= 5 then h else h[|h| - 5..]
  }

  // ---------------------------------------------------------------- what the calls promise

  /** The row a token selects when the call may go ahead: known, unused, unexpired, with a user. */
  ghost function Redeemable(d: AuthDb, t: map<Id, OneTimeToken>, raw: Digest, now: real): (r: Option<Id>)
    ensures r.Some? ==> r.value in t && t[r.value].userId in d.users
  {
    match FindOneTime(t, raw)
    case None => None
    case Some(id) =>
      if t[id].isUsed || t[id].expiresAt < now || t[id].userId !in d.users then None else Some(id)
  }

  predicate MayRequest(d: AuthDb, user: Option<Id>) {
    user.Some? && user.value in d.users && d.users[user.value].status !in {Locked, Inactive}
  }

  /** The committed state after `request_reset`; `user` is the row the e-mail query selected. A
      failing mail call takes the token back. */
  function AfterRequest(d: AuthDb, user: Option<Id>, now: real, newId: Id, digest: Digest, fails: set<Place>): AuthDb {
    if MayRequest(d, user) && !Hit(fails, REQUEST_PLACES)
    then d.(resets := d.resets[newId := OneTimeToken(user.value, digest, now + PASSWORD_RESET_TOKEN_TTL, false)])
    else d
  }

  /** `confirm_reset` would accept this password for this token. */
  ghost predicate ResetAccepted(d: AuthDb, raw: Digest, password: Password, now: real, policy: Password -> bool) {
    var id := Redeemable(d, d.resets, raw, now);
    id.Some? && policy(password) && password !in LastFive(HistoryOf(d, d.resets[id.value].userId))
  }

  /** The four effects of a reset that must go together. */
  function ResetState(d: AuthDb, id: Id, password: Password, revokedAt: real): AuthDb
    requires id in d.resets && d.resets[id].userId in d.users
  {
    var user := d.resets[id].userId;
    d.(users := d.users[user := d.users[user].(password := Some(password))],
       history := d.history[user := HistoryOf(d, user) + [password]],
       resets := d.resets[id := d.resets[id].(isUsed := true)],
       tokens := RevokeAll(d.tokens, LiveTokens(d.tokens, user, revokedAt)))
  }

  /** The committed state after `confirm_reset`. */
  ghost function AfterReset(d: AuthDb, raw: Digest, password: Password, now: real, revokedAt: real,
                            policy: Password -> bool, fails: set<Place>): AuthDb
  {
    if !ResetAccepted(d, raw, password, now, policy) || Hit(fails, BEFORE_INNER_COMMIT) then d
    else
      var id := FindOneTime(d.resets, raw).value;
      var e := ResetState(d, id, password, revokedAt);
      if Hit(fails, RESET_AFTER_COMMIT) then e
      else e.(audit := e.audit + [AuditEntry(d.resets[id].userId, "PasswordReset")])
  }

  ghost predicate InvitationAccepted(d: AuthDb, raw: Digest, password: Password, now: real, policy: Password -> bool) {
    Redeemable(d, d.invitations, raw, now).Some? && policy(password)
  }

  /** The committed state after `accept_invitation`: one transaction, all or nothing. */
  ghost function AfterAccept(d: AuthDb, raw: Digest, password: Password, now: real,
                             policy: Password -> bool, fails: set<Place>): AuthDb
  {
    if !InvitationAccepted(d, raw, password, now, policy) || Hit(fails, ACCEPT_PLACES) then d
    else
      var id := FindOneTime(d.invitations, raw).value;
      var user := d.invitations[id].userId;
      d.(users := d.users[user := d.users[user].(password := Some(password), status := Active)],
         history := d.history[user := HistoryOf(d, user) + [password]],
         invitations := d.invitations[id := d.invitations[id].(isUsed := true)],
         audit := d.audit + [AuditEntry(user, "AccountActivated")])
  }

  function UseUp(t: map<Id, OneTimeToken>, ids: set<Id>): map<Id, OneTimeToken> {
    map a | a in t :: if a in ids then t[a].(isUsed := true) else t[a]
  }

  function Outstanding(t: map<Id, OneTimeToken>, user: Id, now: real): set<Id> {
    set a | a in t && t[a].userId == user && !t[a].isUsed && t[a].expiresAt > now
  }

  predicate MayResend(d: AuthDb, user: Id, org: Option<Id>) {
    user in d.users && d.users[user].organizationId == org && d.users[user].status == PendingInvitation
  }

  function NewInvitation(user: Id, digest: Digest, now: real): OneTimeToken {
    OneTimeToken(user, digest, now + INVITATION_TOKEN_TTL, false)
  }

  /** The committed state after `resend_invitation`; the old tokens are used up and the new one
      exists together, although nothing after the nested commit is certain. */
  ghost function AfterResend(d: AuthDb, user: Id, org: Option<Id>, actor: Id, now: real, issuedAt: real,
                             newId: Id, digest: Digest, fails: set<Place>): AuthDb
  {
    if !MayResend(d, user, org) || Hit(fails, RESEND_BEFORE_COMMIT) then d
    else
      var e := d.(invitations :=
        UseUp(d.invitations, Outstanding(d.invitations, user, now))[newId := NewInvitation(user, digest, issuedAt)]);
      if Hit(fails, RESEND_AFTER_COMMIT) then e
      else e.(audit := e.audit + [AuditEntry(actor, "InvitationResent")])
  }

  /** The user a presented token belongs to. */
  predicate Owns(t: map<Id, OneTimeToken>, raw: Digest, user: Id) {
    exists a :: a in t && t[a].tokenHash == raw && t[a].userId == user
  }

  // ---------------------------------------------------------------- the services

  class PasswordResetService {
    const db: Session<AuthDb>
    const auth: Service
    const policy: Password -> bool  // validate_password_policy found no violation

    constructor (db: Session<AuthDb>, policy: Password -> bool)
      ensures this.db == db && this.policy == policy && auth.db == db
    {
      this.db, this.policy := db, policy;
      auth := new Service(db);
    }

    method RequestReset(user: Option<Id>, now: real, newId: Id, digest: Digest, fails: set<Place>)
      returns (r: Outcome<int, Error>)
      requires db.Clean() && (user.Some? ==> user.value in db.committed.users)
      modifies db
      ensures db.Clean() && db.committed == AfterRequest(old(db.committed), user, now, newId, digest, fails)
      ensures r.Returned? <==>
        !Hit(fails, if MayRequest(old(db.committed), user) then REQUEST_PLACES else {Lookup, OuterCommit})
      ensures r == Returned(0) || r == Raised(DatabaseError)
    {
      var body := RequestResetBody(user, now, newId, digest, fails);
      r := db.Leave(body, DatabaseError, OuterCommit in fails);
    }

    method RequestResetBody(user: Option<Id>, now: real, newId: Id, digest: Digest, fails: set<Place>)
      returns (r: Outcome<int, Error>)
      requires db.Clean() && (user.Some? ==> user.value in db.committed.users)
      modifies db`working
      ensures r.Returned? <==>
        !Hit(fails, if MayRequest(db.committed, user) then {Lookup, FlushToken, SendMail} else {Lookup})
      ensures r == Returned(0) || r == Raised(DatabaseError)
      ensures r.Returned? ==> db.working == AfterRequest(db.committed, user, now, newId, digest, fails - {OuterCommit})
    {
      if Lookup in fails { return Raised(DatabaseError); }
      if user.None? || db.working.users[user.value].status in {Locked, Inactive} { return Returned(0); }
      var token := OneTimeToken(user.value, digest, now + PASSWORD_RESET_TOKEN_TTL, false);
      db.working := db.working.(resets := db.working.resets[newId := token]);
      if FlushToken in fails { return Raised(DatabaseError); }
      if SendMail in fails { return Raised(DatabaseError); }
      return Returned(0);
    }

    /** The reset is committed by the nested `revoke_all_user_tokens`, whole, before the audit entry. */
    method ConfirmReset(raw: Digest, password: Password, now: real, revokedAt: real, fails: set<Place>)
      returns (r: Outcome<Id, Error>)
      requires auth.db == db && db.Clean() && UniqueHashes(db.committed.resets)
      modifies db
      ensures db.Clean()
      ensures db.committed == AfterReset(old(db.committed), raw, password, now, revokedAt, policy, fails)
      ensures r.Returned? <==>
        && ResetAccepted(old(db.committed), raw, password, now, policy)
        && !Hit(fails, BEFORE_INNER_COMMIT + RESET_AFTER_COMMIT)
      ensures r.Returned? ==> Owns(old(db.committed).resets, raw, r.value)
      ensures r.Raised? && fails == {} ==> r.error == ValueError
      ensures r.Raised? && ResetAccepted(old(db.committed), raw, password, now, policy) ==> r.error == DatabaseError
    {
      var body := ConfirmResetBody(raw, password, now, revokedAt, fails);
      r := db.Leave(body, DatabaseError, OuterCommit in fails);
    }

    method ConfirmResetBody(raw: Digest, password: Password, now: real, revokedAt: real, fails: set<Place>)
      returns (r: Outcome<Id, Error>)
      requires auth.db == db && db.Clean() && UniqueHashes(db.committed.resets)
      modifies db
      ensures r.Returned? <==>
        && ResetAccepted(old(db.committed), raw, password, now, policy)
        && !Hit(fails, BEFORE_INNER_COMMIT + {ReadUser, WriteAudit})
      ensures r.Returned? ==> Owns(old(db.committed).resets, raw, r.value)
      ensures r.Raised? && fails == {} ==> r.error == ValueError
      ensures r.Raised? && ResetAccepted(old(db.committed), raw, password, now, policy) ==> r.error == DatabaseError
      ensures r.Raised? ==>
        db.committed == AfterReset(old(db.committed), raw, password, now, revokedAt, policy, fails)
      ensures r.Returned? ==>
        && db.working == AfterReset(old(db.committed), raw, password, now, revokedAt, policy, fails - {OuterCommit})
        && db.committed == AfterReset(old(db.committed), raw, password, now, revokedAt, policy, fails + {OuterCommit})
    {
      var checked := CheckReset(raw, password, now, fails);
      if checked.Raised? { return Raised(checked.error); }
      var id := checked.value;
      var user := db.working.resets[id].userId;
      r := WriteReset(id, password, revokedAt, fails);
      if r.Raised? { return; }
      if ReadUser in fails { return Raised(DatabaseError); }
      db.working := db.working.(audit := db.working.audit + [AuditEntry(user, "PasswordReset")]);
      if WriteAudit in fails { return Raised(DatabaseError); }
    }

    /** Every check before the first assignment. */
    method CheckReset(raw: Digest, password: Password, now: real, fails: set<Place>) returns (r: Outcome<Id, Error>)
      requires UniqueHashes(db.working.resets)
      ensures r.Returned? <==>
        ResetAccepted(db.working, raw, password, now, policy) && !Hit(fails, {Lookup, LoadUser, ReadHistory})
      ensures r.Returned? ==> FindOneTime(db.working.resets, raw) == Some(r.value)
      ensures r.Raised? && fails == {} ==> r.error == ValueError
      ensures r.Raised? && ResetAccepted(db.working, raw, password, now, policy) ==> r.error == DatabaseError
    {
      if Lookup in fails { return Raised(DatabaseError); }
      var resets := db.working.resets;
      if !exists a :: a in resets && resets[a].tokenHash == raw { return Raised(ValueError); }
      var id := Select(resets, raw);
      if resets[id].isUsed { return Raised(ValueError); }
      if resets[id].expiresAt < now { return Raised(ValueError); }
      if LoadUser in fails { return Raised(DatabaseError); }
      var user := resets[id].userId;
      if user !in db.working.users { return Raised(ValueError); }
      if !policy(password) { return Raised(ValueError); }
      if ReadHistory in fails { return Raised(DatabaseError); }
      var used := CheckPasswordHistory(HistoryOf(db.working, user), password);
      if used { return Raised(ValueError); }
      return Returned(id);
    }

    /** The assignments, and the nested call whose commit makes them durable. */
    method WriteReset(id: Id, password: Password, revokedAt: real, fails: set<Place>) returns (r: Outcome<Id, Error>)
      requires auth.db == db && db.Clean()
      requires id in db.working.resets && db.working.resets[id].userId in db.working.users
      modifies db
      ensures r.Returned? <==> !Hit(fails, {FlushPassword, FlushHistory, FlushToken, InnerCommit})
      ensures r.Raised? ==> r.error == DatabaseError
      ensures r.Raised? ==> db.committed == old(db.committed)
      ensures r.Returned? ==>
        && db.Clean() && db.committed == ResetState(old(db.committed), id, password, revokedAt)
        && r.value == old(db.working).resets[id].userId
    {
      var user := db.working.resets[id].userId;
      db.working := db.working.(users := db.working.users[user := db.working.users[user].(password := Some(password))]);
      if FlushPassword in fails { return Raised(DatabaseError); }
      db.working := db.working.(history := db.working.history[user := HistoryOf(db.working, user) + [password]]);
      if FlushHistory in fails { return Raised(DatabaseError); }
      db.working := db.working.(resets := db.working.resets[id := db.working.resets[id].(isUsed := true)]);
      if FlushToken in fails { return Raised(DatabaseError); }
      var revoked := auth.RevokeAllUserTokens(user, revokedAt, InnerCommit in fails);
      if revoked.Raised? { return Raised(revoked.error); }
      return Returned(user);
    }
  }

  class InvitationService {
    const db: Session<AuthDb>
    const policy: Password -> bool

    constructor (db: Session<AuthDb>, policy: Password -> bool)
      ensures this.db == db && this.policy == policy
    {
      this.db, this.policy := db, policy;
    }

    method GenerateInvitation(user: Id, now: real, newId: Id, digest: Digest, commitRaises: bool)
      returns (r: Outcome<Digest, Error>)
      modifies db
      ensures db.Clean() && r == (if commitRaises then Raised(DatabaseError) else Returned(digest))
      ensures commitRaises ==> db.committed == old(db.committed)
      ensures !commitRaises ==>
        db.committed ==
        old(db.working.(invitations := db.working.invitations[newId := NewInvitation(user, digest, now)]))
    {
      var invitation := OneTimeToken(user, digest, now + INVITATION_TOKEN_TTL, false);
      db.working := db.working.(invitations := db.working.invitations[newId := invitation]);
      r := db.Leave(Returned(digest), DatabaseError, commitRaises);
    }

    method AcceptInvitation(raw: Digest, password: Password, now: real, fails: set<Place>)
      returns (r: Outcome<Id, Error>)
      requires db.Clean() && UniqueHashes(db.committed.invitations)
      modifies db
      ensures db.Clean() && db.committed == AfterAccept(old(db.committed), raw, password, now, policy, fails)
      ensures r.Returned? <==>
        InvitationAccepted(old(db.committed), raw, password, now, policy) && !Hit(fails, ACCEPT_PLACES)
      ensures r.Returned? ==> Owns(old(db.committed).invitations, raw, r.value)
      ensures r.Raised? && fails == {} ==> r.error == ValueError
      ensures r.Raised? && InvitationAccepted(old(db.committed), raw, password, now, policy) ==>
        r.error == DatabaseError
    {
      var body := AcceptInvitationBody(raw, password, now, fails);
      r := db.Leave(body, DatabaseError, OuterCommit in fails);
    }

    method AcceptInvitationBody(raw: Digest, password: Password, now: real, fails: set<Place>)
      returns (r: Outcome<Id, Error>)
      requires db.Clean() && UniqueHashes(db.committed.invitations)
      modifies db
      ensures db.committed == old(db.committed)
      ensures r.Returned? <==>
        InvitationAccepted(db.committed, raw, password, now, policy) && !Hit(fails, ACCEPT_PLACES - {OuterCommit})
      ensures r.Returned? ==> Owns(db.committed.invitations, raw, r.value)
      ensures r.Raised? && fails == {} ==> r.error == ValueError
      ensures r.Raised? && InvitationAccepted(db.committed, raw, password, now, policy) ==> r.error == DatabaseError
      ensures r.Raised? ==> AfterAccept(db.committed, raw, password, now, policy, fails) == db.committed
      ensures r.Returned? ==> db.working == AfterAccept(db.committed, raw, password, now, policy, fails - {OuterCommit})
    {
      if Lookup in fails { return Raised(DatabaseError); }
      var invitations := db.working.invitations;
      if !exists a :: a in invitations && invitations[a].tokenHash == raw {
        return Raised(ValueError);
      }
      var id := Select(invitations, raw);
      if invitations[id].isUsed { return Raised(ValueError); }
      if invitations[id].expiresAt < now { return Raised(ValueError); }
      if LoadUser in fails { return Raised(DatabaseError); }
      var user := invitations[id].userId;
      if user !in db.working.users { return Raised(ValueError); }
      if !policy(password) { return Raised(ValueError); }

      var row := db.working.users[user].(password := Some(password));
      db.working := db.working.(users := db.working.users[user := row.(status := Active)]);
      if FlushPassword in fails { return Raised(DatabaseError); }
      db.working := db.working.(history := db.working.history[user := HistoryOf(db.working, user) + [password]]);
      if FlushHistory in fails { return Raised(DatabaseError); }
      var used := db.working.invitations[id].(isUsed := true);
      db.working := db.working.(invitations := db.working.invitations[id := used]);
      if FlushToken in fails { return Raised(DatabaseError); }
      db.working := db.working.(audit := db.working.audit + [AuditEntry(user, "AccountActivated")]);
      if WriteAudit in fails { return Raised(DatabaseError); }
      return Returned(user);
    }

    method ResendInvitation(user: Id, org: Option<Id>, actor: Id, now: real, issuedAt: real, newId: Id, digest: Digest,
                            fails: set<Place>)
      returns (r: Outcome<Digest, Error>)
      requires db.Clean()
      modifies db
      ensures db.Clean()
      ensures db.committed == AfterResend(old(db.committed), user, org, actor, now, issuedAt, newId, digest, fails)
      ensures r.Returned? <==>
        MayResend(old(db.committed), user, org) && !Hit(fails, RESEND_BEFORE_COMMIT + RESEND_AFTER_COMMIT)
      ensures r.Returned? ==> r.value == digest
      ensures r.Raised? && fails == {} ==> r.error == ValueError
      ensures r.Raised? && MayResend(old(db.committed), user, org) ==> r.error == DatabaseError
    {
      var body := ResendInvitationBody(user, org, actor, now, issuedAt, newId, digest, fails);
      r := db.Leave(body, DatabaseError, OuterCommit in fails);
    }

    method ResendInvitationBody(user: Id, org: Option<Id>, actor: Id, now: real, issuedAt: real, newId: Id,
                                digest: Digest, fails: set<Place>)
      returns (r: Outcome<Digest, Error>)
      requires db.Clean()
      modifies db
      ensures r.Returned? <==>
        MayResend(old(db.committed), user, org) && !Hit(fails, RESEND_BEFORE_COMMIT + {ReadUser, SendMail, WriteAudit})
      ensures r.Returned? ==> r.value == digest
      ensures r.Raised? && fails == {} ==> r.error == ValueError
      ensures r.Raised? && MayResend(old(db.committed), user, org) ==> r.error == DatabaseError
      ensures r.Raised? ==>
        db.committed == AfterResend(old(db.committed), user, org, actor, now, issuedAt, newId, digest, fails)
      ensures r.Returned? ==>
        && db.working == AfterResend(old(db.committed), user, org, actor, now, issuedAt, newId, digest,
            fails - {OuterCommit})
        && db.committed == AfterResend(old(db.committed), user, org, actor, now, issuedAt, newId, digest,
            fails + {OuterCommit})
    {
      if LoadUser in fails { return Raised(DatabaseError); }
      if user !in db.working.users || db.working.users[user].organizationId != org { return Raised(ValueError); }
      if db.working.users[user].status != PendingInvitation { return Raised(ValueError); }
      if Lookup in fails { return Raised(DatabaseError); }
      UseUpOutstanding(user, now);
      if FlushToken in fails { return Raised(DatabaseError); }
      var token := GenerateInvitation(user, issuedAt, newId, digest, InnerCommit in fails);
      if token.Raised? { return token; }
      if ReadUser in fails { return Raised(DatabaseError); }
      if SendMail in fails { return Raised(DatabaseError); }
      db.working := db.working.(audit := db.working.audit + [AuditEntry(actor, "InvitationResent")]);
      if WriteAudit in fails { return Raised(DatabaseError); }
      return token;
    }

    /** The loop over the user's unused, unexpired invitations. */
    method UseUpOutstanding(user: Id, now: real)
      modifies db`working
      ensures db.working == old(db.working).(invitations :=
        UseUp(old(db.working).invitations, Outstanding(old(db.working).invitations, user, now)))
    {
      ghost var before := db.working;
      var outstanding := Outstanding(db.working.invitations, user, now);
      var todo := outstanding;
      while todo != {}
        invariant todo <= outstanding <= before.invitations.Keys
        invariant db.working == before.(invitations := UseUp(before.invitations, outstanding - todo))
      {
        var a :| a in todo;
        var t := db.working.invitations;
        db.working := db.working.(invitations := t[a := t[a].(isUsed := true)]);
        todo := todo - {a};
      }
    }
  }

  /** `scalar_one_or_none`, when there is one. */
  method Select(t: map<Id, OneTimeToken>, raw: Digest) returns (id: Id)
    requires exists a :: a in t && t[a].tokenHash == raw
    requires UniqueHashes(t)
    ensures FindOneTime(t, raw) == Some(id)
  {
    id :| id in t && t[id].tokenHash == raw;
  }

  /** Whether the password is one of the last five; the newest five rows are read. */
  method CheckPasswordHistory(history: seq<Password>, password: Password) returns (found: bool)
    ensures found <==> password in LastFive(history)
  {
    var last := LastFive(history);
    for i := 0 to |last|
      invariant password !in last[..i]
    {
      if last[i] == password {
        return true;
      }
    }
    return false;
  }
}
