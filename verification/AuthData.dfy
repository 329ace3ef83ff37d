/** The rows the authentication, password-reset and invitation services share. */
module AuthData {
  import opened Options
  import opened TokenFamilies

  type Password = string

  datatype UserStatus = Active | Inactive | Locked | PendingInvitation

  /** bcrypt is taken as ideal: a stored hash is the password it was made from. */
  datatype User = User(
    organizationId: Option<Id>,
    status: UserStatus,
    password: Option<Password>,
    failedLoginAttempts: int,
    lastFailedLoginAt: Option<real>)

  /** A password-reset token or an invitation token. */
  datatype OneTimeToken = OneTimeToken(userId: Id, tokenHash: Digest, expiresAt: real, isUsed: bool)

  datatype AuditEntry = AuditEntry(actor: Id, action: string)

  datatype AuthDb = AuthDb(
    users: map<Id, User>,
    tokens: Table,
    resets: map<Id, OneTimeToken>,
    invitations: map<Id, OneTimeToken>,
    history: map<Id, seq<Password>>,  // a user's password_history rows, oldest first
    audit: seq<AuditEntry>)

  datatype Error = AuthenticationError | ValueError | AttributeError | DatabaseError

  const DAY := 86400.0
  const REFRESH_TOKEN_TTL := 7.0 * DAY
  const PASSWORD_RESET_TOKEN_TTL := 900.0
  const INVITATION_TOKEN_TTL := 3.0 * DAY

  /** The row a digest selects, if any (`token_hash` is unique). */
  ghost function FindToken(t: Table, digest: Digest): (r: Option<Id>)
    ensures r.Some? ==> r.value in t && t[r.value].tokenHash == digest
    ensures r.None? ==> forall a :: a in t ==> t[a].tokenHash != digest
  {
    if exists a :: a in t && t[a].tokenHash == digest
    then var a :| a in t && t[a].tokenHash == digest; Some(a)
    else None
  }

  /** A new primary key and a new random token. */
  ghost predicate Unissued(t: Table, newId: Id, digest: Digest) {
    newId !in t && forall a :: a in t ==> t[a].tokenHash != digest
  }

  ghost function FindOneTime(t: map<Id, OneTimeToken>, digest: Digest): (r: Option<Id>)
    ensures r.Some? ==> r.value in t && t[r.value].tokenHash == digest
    ensures r.None? ==> forall a :: a in t ==> t[a].tokenHash != digest
  {
    if exists a :: a in t && t[a].tokenHash == digest
    then var a :| a in t && t[a].tokenHash == digest; Some(a)
    else None
  }

  ghost predicate UniqueHashes(t: map<Id, OneTimeToken>) {
    forall a, b :: a in t && b in t && t[a].tokenHash == t[b].tokenHash ==> a == b
  }

  ghost predicate UnissuedOneTime(t: map<Id, OneTimeToken>, newId: Id, digest: Digest) {
    newId !in t && forall a :: a in t ==> t[a].tokenHash != digest
  }
}
