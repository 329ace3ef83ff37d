/** Failed-login counting and lock-out over whole runs of `authenticate`. */
module LoginRuns {
  import opened Options
  import opened Transactions
  import opened TokenFamilies
  import opened AuthData
  import opened AuthService

  datatype Attempt = Attempt(password: Password, now: real, newId: Id, newHash: Digest)

  /** The user row after a run of logins. */
  function RowAfter(u: User, run: seq<Attempt>): (r: User)
    requires u.password.Some?
    ensures r.password == u.password
  {
    if run == [] then u
    else Login(RowAfter(u, run[..|run| - 1]), run[|run| - 1].password, run[|run| - 1].now).0
  }

  predicate Succeeds(u: User, run: seq<Attempt>, i: nat)
    requires u.password.Some? && i < |run|
  {
    Login(RowAfter(u, run[..i]), run[i].password, run[i].now).1
  }

  predicate WrongFrom(p: Password, run: seq<Attempt>, from: nat, n: nat) {
    from + n <= |run| && forall i :: from <= i < from + n ==> run[i].password != p
  }

  predicate FiveWrongInARow(p: Password, run: seq<Attempt>) {
    exists i: nat :: i <= |run| && WrongFrom(p, run, i, 5)
  }

  ghost predicate Starts(u: User, p: Password) {
    u.password == Some(p) && u.status == Active && u.failedLoginAttempts == 0
  }

  /** LOCKED after, and only after, five wrong passwords in a row; until then the counter is the
      length of the current streak of wrong ones. */
  lemma {:induction false} LockedAfterFiveWrong(u: User, p: Password, run: seq<Attempt>)
    requires Starts(u, p)
    ensures Described(RowAfter(u, run), p, run)
  {
    if run == [] {
    } else {
      LockedAfterFiveWrong(u, p, run[..|run| - 1]);
      OneMoreLogin(RowAfter(u, run[..|run| - 1]), p, run);
    }
  }

  ghost predicate Described(r: User, p: Password, run: seq<Attempt>) {
    && r.status in {Active, Locked} && r.password == Some(p)
    && (r.status == Locked <==> FiveWrongInARow(p, run))
    && (r.status == Active ==>
          && 0 <= r.failedLoginAttempts < 5 && r.failedLoginAttempts <= |run|
          && WrongFrom(p, run, |run| - r.failedLoginAttempts, r.failedLoginAttempts)
          && (r.failedLoginAttempts < |run| ==> run[|run| - r.failedLoginAttempts - 1].password == p))
  }

  lemma OneMoreLogin(r: User, p: Password, run: seq<Attempt>)
    requires run != [] && Described(r, p, run[..|run| - 1])
    ensures Described(Login(r, run[|run| - 1].password, run[|run| - 1].now).0, p, run)
  {
    var k := |run| - 1;
    var earlier := run[..k];
    if r.status == Locked {
      var i: nat :| i <= k && WrongFrom(p, earlier, i, 5);
      assert WrongFrom(p, run, i, 5);
    } else {
      var n := r.failedLoginAttempts;
      assert WrongFrom(p, run, k - n, n);
      if run[k].password != p {
        assert WrongFrom(p, run, k - n, n + 1);
      }
      if FiveWrongInARow(p, run) {
        var i: nat :| i <= |run| && WrongFrom(p, run, i, 5);
        assert i + 5 <= k ==> WrongFrom(p, earlier, i, 5);
        assert n < k ==> run[k - n - 1].password == p;
      }
    }
  }

  /** The counter is the number of failed logins since the last successful one. */
  lemma {:induction false} CounterIsFailuresSinceSuccess(u: User, p: Password, run: seq<Attempt>)
    requires Starts(u, p)
    ensures var n := RowAfter(u, run).failedLoginAttempts;
      && 0 <= n <= |run|
      && (forall i :: |run| - n <= i < |run| ==> !Succeeds(u, run, i))
      && (n < |run| ==> Succeeds(u, run, |run| - n - 1))
  {
    if run == [] {
    } else {
      var k := |run| - 1;
      var earlier := run[..k];
      CounterIsFailuresSinceSuccess(u, p, earlier);
      forall i | 0 <= i < k ensures Succeeds(u, run, i) == Succeeds(u, earlier, i) {
        assert earlier[..i] == run[..i];
      }
    }
  }

  /** Once LOCKED, no login succeeds, whatever is submitted. */
  lemma NoLoginWhenLocked(u: User, p: Password, run: seq<Attempt>, i: nat, j: nat)
    requires Starts(u, p) && i <= j < |run| && RowAfter(u, run[..i]).status == Locked
    ensures !Succeeds(u, run, j)
  {
    LockedAfterFiveWrong(u, p, run[..i]);
    LockedAfterFiveWrong(u, p, run[..j]);
    var k: nat :| k <= i && WrongFrom(p, run[..i], k, 5);
    assert WrongFrom(p, run[..j], k, 5);
  }

  // ---------------------------------------------------------------- the committed state

  function After(d: AuthDb, user: Id, run: seq<Attempt>): (r: AuthDb)
    requires user in d.users
    ensures user in r.users
  {
    if run == [] then d
    else
      var a := run[|run| - 1];
      LoggedIn(After(d, user, run[..|run| - 1]), Some(user), a.password, a.now, a.newId, a.newHash, {}).0
  }

  /** All of the above is durable: after every call, returned or raised, the committed row is
      the one the run describes, and a refresh token was committed just when the login succeeded. */
  lemma {:induction false} CommittedRow(d: AuthDb, user: Id, run: seq<Attempt>)
    requires user in d.users && d.users[user].password.Some?
    ensures After(d, user, run).users == d.users[user := RowAfter(d.users[user], run)]
    ensures run != [] ==>
      var a := run[|run| - 1];
      var before := After(d, user, run[..|run| - 1]);
      After(d, user, run).tokens ==
        if Succeeds(d.users[user], run, |run| - 1)
        then before.tokens[a.newId := NewToken(user, a.newHash, a.now)] else before.tokens
  {
    if run == [] {
      assert d.users[user := d.users[user]] == d.users;
    } else {
      var earlier := run[..|run| - 1];
      CommittedRow(d, user, earlier);
      CommittedStep(d.users, After(d, user, earlier), user, RowAfter(d.users[user], earlier), run[|run| - 1]);
    }
  }

  /** One call, on a state whose row is u. */
  lemma CommittedStep(users: map<Id, User>, d: AuthDb, user: Id, u: User, a: Attempt)
    requires user in users && u.password.Some? && d.users == users[user := u]
    ensures var e := LoggedIn(d, Some(user), a.password, a.now, a.newId, a.newHash, {}).0;
      var (after, ok) := Login(u, a.password, a.now);
      && e.users == users[user := after]
      && e.tokens == if ok then d.tokens[a.newId := NewToken(user, a.newHash, a.now)] else d.tokens
  {
    assert users[user := u][user := Login(u, a.password, a.now).0] == users[user := Login(u, a.password, a.now).0];
  }

  // ---------------------------------------------------------------- one login

  /** When a login succeeds: an existing user that is neither locked nor inactive, the right password, and
      nothing fails. Its answer can then be exchanged for seven days. */
  lemma LoginExactly(d: AuthDb, user: Option<Id>, password: Password, now: real, newId: Id, newHash: Digest,
      fails: set<Await>)
    requires user.Some? ==> user.value in d.users
    ensures var (e, r) := LoggedIn(d, user, password, now, newId, newHash, fails);
      r.Returned? <==>
        && fails == {} && user.Some? && d.users[user.value].password == Some(password)
        && (d.users[user.value].status == Active || d.users[user.value].status == PendingInvitation)
  {
    AllAwaits(fails);
  }

  lemma AllAwaits(fails: set<Await>)
    ensures fails == {} <==> AtRead !in fails && AtFlush !in fails && AtNested !in fails && AtCommit !in fails
  {
    if AtRead !in fails && AtFlush !in fails && AtNested !in fails && AtCommit !in fails {
      forall a ensures a !in fails {
        match a
        case AtRead =>
        case AtFlush =>
        case AtNested =>
        case AtCommit =>
      }
    }
  }

  /** What a login leaves: on success the counter and its time are cleared and one token is new; a rejected
      one is counted with its time, and the fifth locks; nobody else's row is touched. */
  lemma LoginLeaves(d: AuthDb, user: Id, password: Password, now: real, newId: Id, newHash: Digest)
    requires user in d.users && d.users[user].password.Some? && newId !in d.tokens
    ensures var (e, r) := LoggedIn(d, Some(user), password, now, newId, newHash, {});
      var u, v := d.users[user], e.users[user];
      && e == d.(users := e.users, tokens := e.tokens) && e.users.Keys == d.users.Keys
      && (forall other :: other in d.users && other != user ==> e.users[other] == d.users[other])
      && (forall a :: a in d.tokens ==> a in e.tokens && e.tokens[a] == d.tokens[a])
      && v.password == u.password && v.organizationId == u.organizationId
      && (r.Returned? ==>
            && v.failedLoginAttempts == 0 && v.lastFailedLoginAt == None && v.status == u.status
            && e.tokens.Keys == d.tokens.Keys + {newId} && e.tokens[newId].userId == user)
      && (r.Raised? ==>
            && r.error == AuthenticationError && e.tokens == d.tokens
            && v.failedLoginAttempts == u.failedLoginAttempts + 1 && v.lastFailedLoginAt == Some(now)
            && v.status == if u.failedLoginAttempts >= 4 then Locked else u.status)
  {
  }

  /** How a login ends that does not succeed, and when it has nevertheless left something: a rejected one
      whose counting was committed, and an accepted one whose own commit raised after the nested one. */
  lemma LoginFails(d: AuthDb, user: Option<Id>, password: Password, now: real, newId: Id, newHash: Digest,
      fails: set<Await>)
    requires (user.Some? ==> user.value in d.users) && newId !in d.tokens
    requires LoggedIn(d, user, password, now, newId, newHash, fails).1.Raised?
    ensures var (e, r) := LoggedIn(d, user, password, now, newId, newHash, fails);
      var barred := user.Some? && d.users[user.value].status in {Locked, Inactive};
      var blank := user.Some? && !barred && d.users[user.value].password == None;
      var wrong := barred || (user.Some? && !blank && d.users[user.value].password != Some(password));
      && (r.error == DatabaseError <==>
            AtRead in fails || (!blank && AtNested in fails) || (user.Some? && !blank && !wrong))
      && (r.error == AttributeError <==> AtRead !in fails && blank)
      && (r.error == AuthenticationError <==> AtRead !in fails && AtNested !in fails && (user.None? || wrong))
      && (e != d <==>
            && user.Some? && !blank && AtRead !in fails && AtNested !in fails && (wrong || AtFlush !in fails))
      && (e != d ==> e == LoggedIn(d, user, password, now, newId, newHash, {}).0)
  {
    var e := LoggedIn(d, user, password, now, newId, newHash, fails).0;
    if user.Some? {
      var u := d.users[user.value];
      assert e.users[user.value].failedLoginAttempts == u.failedLoginAttempts + 1 || newId in e.tokens ==> e != d;
    }
  }

  /** What a login answers can be presented for a refresh, for seven days. */
  lemma LoginAnswerIsExchangeable(d: AuthDb, user: Id, password: Password, now: real, newId: Id, newHash: Digest,
      raw: Digest, later: real, nextId: Id, nextHash: Digest)
    requires user in d.users && Unissued(d.tokens, newId, newHash)
    requires LoggedIn(d, Some(user), password, now, newId, newHash, {}).1 == Returned(raw)
    ensures var e := LoggedIn(d, Some(user), password, now, newId, newHash, {}).0;
      Refreshed(e, raw, later, nextId, nextHash, {}).1.Returned? <==> later <= now + 604800.0
  {
    var e := LoggedIn(d, Some(user), password, now, newId, newHash, {}).0;
    assert newId in e.tokens && e.tokens[newId].tokenHash == newHash && e.users.Keys == d.users.Keys;
    assert forall a :: a in e.tokens && a != newId ==> a in d.tokens && e.tokens[a] == d.tokens[a];
    assert FindToken(e.tokens, newHash) == Some(newId);
  }
}
