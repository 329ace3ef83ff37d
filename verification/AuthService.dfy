/** Login, refresh-token rotation, theft response and revocation (app/modules/auth/service.py). */
module AuthService {
  import opened Options
  import opened Transactions
  import opened TokenFamilies
  import opened AuthData

  // ---------------------------------------------------------------- what the calls promise

  function NewToken(userId: Id, digest: Digest, now: real): RefreshToken {
    RefreshToken(userId, digest, now + REFRESH_TOKEN_TTL, false, None)
  }

  /** The committed state and the answer of `refresh`. */
  ghost function Refreshed(d: AuthDb, raw: Digest, now: real, newId: Id, newHash: Digest, fails: set<Await>)
    : (AuthDb, Outcome<Digest, Error>)
  {
    if AtRead in fails then (d, Raised(DatabaseError))
    else
      match FindToken(d.tokens, raw)
      case None => (d, Raised(AuthenticationError))
      case Some(id) =>
        var token := d.tokens[id];
        if token.expiresAt < now then
          (d, Raised(AuthenticationError))
        else if token.isRevoked then
          if AtNested in fails then (d, Raised(DatabaseError))
          else (d.(tokens := RevokeAll(d.tokens, Family(d.tokens, id))), Raised(AuthenticationError))
        else if token.userId !in d.users then
          (d, Raised(AuthenticationError))
        else if AtFlush in fails || AtCommit in fails then
          (d, Raised(DatabaseError))
        else
          (d.(tokens := Rotate(d.tokens, id, newId, NewToken(token.userId, newHash, now))), Returned(newHash))
  }

  /** The committed state and the answer of `authenticate`; `user` is the row the e-mail query selected.
      A login whose own commit raises has been committed by the nested call that issued the token. */
  function LoggedIn(d: AuthDb, user: Option<Id>, password: Password, now: real, newId: Id, newHash: Digest,
      fails: set<Await>): (AuthDb, Outcome<Digest, Error>)
    requires user.Some? ==> user.value in d.users
  {
    if AtRead in fails then (d, Raised(DatabaseError))
    else if user.None? then
      (d, Raised(if AtNested in fails then DatabaseError else AuthenticationError))
    else
      var u := d.users[user.value];
      if u.password.None? && u.status !in {Locked, Inactive} then
        (d, Raised(AttributeError))
      else if Rejects(u, password) then
        if AtNested in fails then (d, Raised(DatabaseError))
        else (d.(users := d.users[user.value := Failed(u, now)]), Raised(AuthenticationError))
      else if AtFlush in fails || AtNested in fails then
        (d, Raised(DatabaseError))
      else
        (d.(users := d.users[user.value := Login(u, password, now).0],
            tokens := d.tokens[newId := NewToken(user.value, newHash, now)]),
         if AtCommit in fails then Raised(DatabaseError) else Returned(newHash))
  }

  function LiveTokens(t: Table, userId: Id, now: real): set<Id> {
    set a | a in t && t[a].userId == userId && !t[a].isRevoked && t[a].expiresAt > now
  }

  /** One login against one user row: the row afterwards, and whether it succeeded. */
  function Login(u: User, password: Password, now: real): (User, bool) {
    if Rejects(u, password) then (Failed(u, now), false)
    else (u.(failedLoginAttempts := 0, lastFailedLoginAt := None), true)
  }

  predicate Rejects(u: User, password: Password) {
    u.status in {Locked, Inactive} || u.password != Some(password)
  }

  function Failed(u: User, now: real): User {
    var n := u.failedLoginAttempts + 1;
    u.(failedLoginAttempts := n, lastFailedLoginAt := Some(now), status := if n >= 5 then Locked else u.status)
  }

  // ---------------------------------------------------------------- the service

  class Service {
    const db: Session<AuthDb>

    constructor (db: Session<AuthDb>)
      ensures this.db == db
    {
      this.db := db;
    }

    method IssueRefreshToken(userId: Id, now: real, newId: Id, newHash: Digest, commitRaises: bool)
      returns (r: Outcome<Digest, Error>)
      modifies db
      ensures db.Clean() && r == (if commitRaises then Raised(DatabaseError) else Returned(newHash))
      ensures commitRaises ==> db.committed == old(db.committed)
      ensures !commitRaises ==>
        db.committed == old(db.working.(tokens := db.working.tokens[newId := NewToken(userId, newHash, now)]))
    {
      db.working := db.working.(tokens := db.working.tokens[newId := NewToken(userId, newHash, now)]);
      r := db.Leave(Returned(newHash), DatabaseError, commitRaises);
    }

    /** A failed attempt whose commit raises, as a stale user row makes it, is not counted. */
    method HandleFailedAttempt(user: Option<Id>, now: real, commitRaises: bool) returns (r: Outcome<int, Error>)
      requires user.Some? ==> user.value in db.working.users
      modifies db
      ensures db.Clean() && r == (if commitRaises then Raised(DatabaseError) else Returned(0))
      ensures commitRaises ==> db.committed == old(db.committed)
      ensures !commitRaises && user.None? ==> db.committed == old(db.working)
      ensures !commitRaises && user.Some? ==>
        var was := old(db.working);
        db.committed == was.(users := was.users[user.value := Failed(was.users[user.value], now)])
    {
      if user.Some? {
        var id := user.value;
        var row := db.working.users[id];
        row := row.(failedLoginAttempts := row.failedLoginAttempts + 1);
        row := row.(lastFailedLoginAt := Some(now));
        if row.failedLoginAttempts >= 5 {
          row := row.(status := Locked);
        }
        db.working := db.working.(users := db.working.users[id := row]);
      }
      r := db.Leave(Returned(0), DatabaseError, commitRaises);
    }

    /** A failed login is counted although the call raises: `HandleFailedAttempt` has committed it. */
    method Authenticate(user: Option<Id>, password: Password, now: real, newId: Id, newHash: Digest, fails: set<Await>)
      returns (r: Outcome<Digest, Error>)
      requires db.Clean() && (user.Some? ==> user.value in db.committed.users)
      modifies db
      ensures db.Clean()
      ensures (db.committed, r) == LoggedIn(old(db.committed), user, password, now, newId, newHash, fails)
    {
      var body := AuthenticateBody(user, password, now, newId, newHash, fails);
      r := db.Leave(body, DatabaseError, AtCommit in fails);
    }

    method AuthenticateBody(user: Option<Id>, password: Password, now: real, newId: Id, newHash: Digest,
        fails: set<Await>)
      returns (r: Outcome<Digest, Error>)
      requires db.Clean() && (user.Some? ==> user.value in db.committed.users)
      modifies db
      ensures r.Returned? ==> db.Clean()
      ensures (db.committed, r) == LoggedIn(old(db.committed), user, password, now, newId, newHash, fails - {AtCommit})
    {
      if AtRead in fails { return Raised(DatabaseError); }
      if user.None? || db.working.users[user.value].status in {Locked, Inactive} {
        var handled := HandleFailedAttempt(user, now, AtNested in fails);
        return Raised(if handled.Raised? then handled.error else AuthenticationError);
      }
      var id := user.value;
      var row := db.working.users[id];
      if row.password.None? { return Raised(AttributeError); }
      if row.password.value != password {
        var handled := HandleFailedAttempt(user, now, AtNested in fails);
        return Raised(if handled.Raised? then handled.error else AuthenticationError);
      }
      row := row.(failedLoginAttempts := 0);
      row := row.(lastFailedLoginAt := None);
      db.working := db.working.(users := db.working.users[id := row]);
      if AtFlush in fails { return Raised(DatabaseError); }
      r := IssueRefreshToken(id, now, newId, newHash, AtNested in fails);
    }

    /** Theft response: the family is revoked, and durably so whatever the caller does next, unless this
        call itself raises. */
    method RevokeTokenFamily(token: Id, raises: bool) returns (r: Outcome<int, Error>)
      requires Inv(db.working.tokens) && token in db.working.tokens
      modifies db
      ensures db.Clean() && r == (if raises then Raised(DatabaseError) else Returned(0))
      ensures raises ==> db.committed == old(db.committed)
      ensures !raises ==>
        db.committed == old(db.working.(tokens := RevokeAll(db.working.tokens, Family(db.working.tokens, token))))
    {
      var before := db.working;
      var walked := WalkForward(before.tokens, token);
      var tokensToRevoke := WalkBackward(before.tokens, token, walked);
      RevokeEach(tokensToRevoke);
      assert RevokeAll(before.tokens, set u | u in tokensToRevoke) ==
        RevokeAll(before.tokens, Family(before.tokens, token));
      r := db.Leave(Returned(0), DatabaseError, raises);
    }

    method RevokeEach(ids: seq<Id>)
      requires forall u :: u in ids ==> u in db.working.tokens
      modifies db`working
      ensures db.working == old(db.working.(tokens := RevokeAll(db.working.tokens, set u | u in ids)))
    {
      ghost var before := db.working;
      for i := 0 to |ids|
        invariant db.working == before.(tokens := RevokeAll(before.tokens, set u | u in ids[..i]))
      {
        var t := db.working.tokens;
        db.working := db.working.(tokens := t[ids[i] := t[ids[i]].(isRevoked := true)]);
      }
      assert ids[..|ids|] == ids;
    }

    /** Everything but the theft response is undone when `refresh` raises. */
    method Refresh(raw: Digest, now: real, newId: Id, newHash: Digest, fails: set<Await>)
      returns (r: Outcome<Digest, Error>)
      requires db.Clean() && Inv(db.committed.tokens) && Unissued(db.committed.tokens, newId, newHash)
      modifies db
      ensures db.Clean()
      ensures (db.committed, r) == Refreshed(old(db.committed), raw, now, newId, newHash, fails)
    {
      var body := RefreshBody(raw, now, newId, newHash, fails);
      r := db.Leave(body, DatabaseError, AtCommit in fails);
    }

    method RefreshBody(raw: Digest, now: real, newId: Id, newHash: Digest, fails: set<Await>)
      returns (r: Outcome<Digest, Error>)
      requires db.Clean() && Inv(db.committed.tokens) && Unissued(db.committed.tokens, newId, newHash)
      modifies db
      ensures r.Raised? ==> (db.committed, r) == Refreshed(old(db.committed), raw, now, newId, newHash, fails)
      ensures r.Returned? ==>
        && db.committed == old(db.committed)
        && (db.working, r) == Refreshed(old(db.committed), raw, now, newId, newHash, fails - {AtCommit})
    {
      if AtRead in fails { return Raised(DatabaseError); }
      var d := db.working;
      if !exists a :: a in d.tokens && d.tokens[a].tokenHash == raw {
        return Raised(AuthenticationError);
      }
      var id :| id in d.tokens && d.tokens[id].tokenHash == raw;
      var token := d.tokens[id];
      if token.expiresAt < now {
        return Raised(AuthenticationError);
      }
      if token.isRevoked {
        var revoked := RevokeTokenFamily(id, AtNested in fails);
        return Raised(if revoked.Raised? then revoked.error else AuthenticationError);
      }
      if token.userId !in d.users {
        return Raised(AuthenticationError);
      }
      var replacement := RefreshToken(token.userId, newHash, now + REFRESH_TOKEN_TTL, false, None);
      db.working := db.working.(tokens := db.working.tokens[newId := replacement]);
      if AtFlush in fails { return Raised(DatabaseError); }
      token := token.(isRevoked := true);
      token := token.(replacedBy := Some(newId));
      db.working := db.working.(tokens := db.working.tokens[id := token]);
      return Returned(newHash);
    }

    method RevokeAllUserTokens(userId: Id, now: real, commitRaises: bool) returns (r: Outcome<int, Error>)
      modifies db
      ensures db.Clean() && r == (if commitRaises then Raised(DatabaseError) else Returned(0))
      ensures !commitRaises ==>
        db.committed ==
        old(db.working.(tokens := RevokeAll(db.working.tokens, LiveTokens(db.working.tokens, userId, now))))
      ensures commitRaises ==> db.committed == old(db.committed)
    {
      ghost var before := db.working;
      var live := LiveTokens(db.working.tokens, userId, now);
      var todo := live;
      while todo != {}
        invariant todo <= live <= before.tokens.Keys
        invariant db.committed == old(db.committed)
        invariant db.working == before.(tokens := RevokeAll(before.tokens, live - todo))
      {
        var a :| a in todo;
        var t := db.working.tokens;
        db.working := db.working.(tokens := t[a := t[a].(isRevoked := true)]);
        todo := todo - {a};
      }
      r := db.Leave(Returned(0), DatabaseError, commitRaises);
    }
  }
}
