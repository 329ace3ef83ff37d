/** Overlapping logins: each loads the user row, checks the password and commits. The row has a version
    (app/modules/users/models.py), checked by an UPDATE; refresh tokens are new rows. */
module LoginProtocol {
  import opened Options
  import opened Transactions
  import opened TokenFamilies
  import opened AuthData
  import opened AuthService
  import opened LoginRuns

  type Sid = nat

  /** The version of a user row, and who updated it last. */
  datatype Stamp = Stamp(version: nat, updatedBy: Option<Id>)

  /** An open login: its row as it was loaded. `actor` is the user the request itself carries, if any. */
  datatype Login = Login(user: Id, attempt: Attempt, actor: Option<Id>, loaded: User, stamp: Stamp)

  datatype State = State(db: AuthDb, stamps: map<Id, Stamp>, open: map<Sid, Login>)

  /** In Abort a login raises: its process stops, or the database fails. Change is any other committed
      write to a user row, or a new user. */
  datatype Action =
    | Load(sid: Sid, user: Id, attempt: Attempt, actor: Option<Id>)
    | Commit(sid: Sid)
    | Abort(sid: Sid)
    | Change(user: Id, row: User, actor: Option<Id>)

  predicate Wrong(l: Login) {
    Rejects(l.loaded, l.attempt.password)
  }

  function Assigned(l: Login): User {
    AuthService.Login(l.loaded, l.attempt.password, l.attempt.now).0
  }

  /** A successful login that finds nothing to reset issues no UPDATE, and so no version check. */
  predicate Silent(l: Login) {
    Assigned(l) == l.loaded && l.stamp.updatedBy == l.actor
  }

  predicate Stale(s: State, l: Login) {
    l.user !in s.stamps || s.stamps[l.user].version != l.stamp.version
  }

  /** The login ends in a stale-data error, and leaves nothing. */
  predicate Conflict(s: State, l: Login) {
    !Silent(l) && Stale(s, l)
  }

  /** From its UPDATE to its commit a login holds the lock on the row, so the version is checked here. */
  function Committed(s: State, l: Login): State {
    if Conflict(s, l) then s
    else
      var tokens :=
        if Wrong(l) then s.db.tokens
        else s.db.tokens[l.attempt.newId := NewToken(l.user, l.attempt.newHash, l.attempt.now)];
      if Silent(l) then s.(db := s.db.(tokens := tokens))
      else
        s.(db := s.db.(users := s.db.users[l.user := Assigned(l)], tokens := tokens),
           stamps := s.stamps[l.user := Stamp(l.stamp.version + 1, l.actor)])
  }

  predicate Enabled(s: State, x: Action) {
    match x
    case Load(sid, user, _, _) => sid !in s.open && user in s.db.users && user in s.stamps
    case Commit(sid) => sid in s.open
    case Abort(sid) => sid in s.open
    case Change(_, _, _) => true
  }

  /** A row without a password, as an invited user's is, ends the login in an error of its own. */
  function Next(s: State, x: Action): State
    requires Enabled(s, x)
  {
    match x
    case Load(sid, user, attempt, actor) =>
      var row := s.db.users[user];
      if row.password.None? && row.status !in {Locked, Inactive} then s
      else s.(open := s.open[sid := Login(user, attempt, actor, row, s.stamps[user])])
    case Commit(sid) => Committed(s, s.open[sid]).(open := s.open - {sid})
    case Abort(sid) => s.(open := s.open - {sid})
    case Change(user, row, actor) =>
      var version := if user in s.stamps then s.stamps[user].version + 1 else 1;
      s.(db := s.db.(users := s.db.users[user := row]), stamps := s.stamps[user := Stamp(version, actor)])
  }

  /** An open login can be aborted at any time, and then leaves nothing; anybody's row can be written. */
  lemma AbortLeavesNothing(s: State, sid: Sid, user: Id, row: User, actor: Option<Id>)
    requires sid in s.open
    ensures Enabled(s, Abort(sid)) && Next(s, Abort(sid)) == s.(open := s.open - {sid})
    ensures Enabled(s, Change(user, row, actor)) && Next(s, Change(user, row, actor)).open == s.open
  {
  }

  // ---------------------------------------------------------------- the invariant

  ghost predicate LoginInv(s: State, l: Login) {
    && l.user in s.db.users && l.user in s.stamps && l.stamp.version <= s.stamps[l.user].version
    && (l.stamp.version == s.stamps[l.user].version ==> l.stamp == s.stamps[l.user] && l.loaded == s.db.users[l.user])
    && (l.loaded.password.Some? || l.loaded.status in {Locked, Inactive})
  }

  ghost predicate Inv(s: State) {
    s.db.users.Keys == s.stamps.Keys && forall sid :: sid in s.open ==> LoginInv(s, s.open[sid])
  }

  ghost predicate IsStep(s: State, x: Action, t: State) {
    Enabled(s, x) && t == Next(s, x)
  }

  /** The step writes the user row. */
  predicate WritesRow(s: State, x: Action, user: Id) {
    match x
    case Commit(sid) => sid in s.open && s.open[sid].user == user && !Silent(s.open[sid]) && !Conflict(s, s.open[sid])
    case Change(changed, _, _) => changed == user
    case _ => false
  }

  lemma StepKeepsInv(s: State, x: Action, t: State)
    requires Inv(s) && IsStep(s, x, t)
    ensures Inv(t)
  {
  }

  /** Versions count the writes. */
  lemma VersionStep(s: State, x: Action, t: State, user: Id)
    requires Inv(s) && IsStep(s, x, t) && user in s.stamps
    ensures user in t.stamps
    ensures t.stamps[user].version == s.stamps[user].version + if WritesRow(s, x, user) then 1 else 0
    ensures !WritesRow(s, x, user) ==> t.stamps[user] == s.stamps[user] && t.db.users[user] == s.db.users[user]
  {
  }

  // ---------------------------------------------------------------- runs

  ghost predicate IsRun(s: seq<State>, actions: seq<Action>) {
    && |s| == |actions| + 1
    && s[0].open == map[] && s[0].db.users.Keys == s[0].stamps.Keys
    && forall i :: 0 <= i < |actions| ==> IsStep(s[i], actions[i], s[i + 1])
  }

  lemma {:induction false} RunKeepsInv(s: seq<State>, actions: seq<Action>, k: nat)
    requires IsRun(s, actions) && k < |s|
    ensures Inv(s[k])
  {
    if k == 0 {
    } else {
      RunKeepsInv(s, actions, k - 1);
      assert IsStep(s[k - 1], actions[k - 1], s[k]);
      StepKeepsInv(s[k - 1], actions[k - 1], s[k]);
    }
  }

  /** An open login was loaded at an earlier step, when the row was as it remembers it. */
  ghost predicate LoadedAt(s: seq<State>, actions: seq<Action>, j: nat, k: nat, sid: Sid)
    requires |s| == |actions| + 1
  {
    && j < k < |s| && sid in s[k].open
    && var l := s[k].open[sid];
       && actions[j] == Load(sid, l.user, l.attempt, l.actor)
       && l.user in s[j].stamps && s[j].stamps[l.user] == l.stamp
       && l.user in s[j].db.users && s[j].db.users[l.user] == l.loaded
  }

  lemma {:induction false} LoadedSince(s: seq<State>, actions: seq<Action>, k: nat, sid: Sid) returns (j: nat)
    requires IsRun(s, actions) && k < |s| && sid in s[k].open
    ensures LoadedAt(s, actions, j, k, sid)
  {
    j := k - 1;
    assert IsStep(s[j], actions[j], s[k]);
    if sid in s[j].open {
      j := LoadedSince(s, actions, j, sid);
    }
  }

  /** The version moves exactly if the row was written. */
  lemma {:induction false} VersionMoves(s: seq<State>, actions: seq<Action>, j: nat, k: nat, user: Id)
    requires IsRun(s, actions) && j <= k < |s| && user in s[j].stamps
    ensures user in s[k].stamps && s[j].stamps[user].version <= s[k].stamps[user].version
    ensures s[j].stamps[user].version == s[k].stamps[user].version <==>
      forall n :: j <= n < k ==> !WritesRow(s[n], actions[n], user)
  {
    if k == j {
    } else {
      VersionMoves(s, actions, j, k - 1, user);
      RunKeepsInv(s, actions, k - 1);
      assert IsStep(s[k - 1], actions[k - 1], s[k]);
      VersionStep(s[k - 1], actions[k - 1], s[k], user);
    }
  }

  // ---------------------------------------------------------------- what a login does

  /** A wrong login is counted exactly if nobody wrote the row since it loaded it; otherwise it leaves
      the row alone. */
  lemma CountedExactly(s: seq<State>, actions: seq<Action>, j: nat, k: nat, sid: Sid)
    requires IsRun(s, actions) && k < |actions| && actions[k] == Commit(sid)
    requires LoadedAt(s, actions, j, k, sid) && Wrong(s[k].open[sid])
    ensures var l := s[k].open[sid];
      && l.user in s[k].db.users && l.user in s[k + 1].db.users && s[k + 1].db.tokens == s[k].db.tokens
      && s[k + 1].db.users[l.user] ==
         if forall n :: j <= n < k ==> !WritesRow(s[n], actions[n], l.user)
         then Failed(s[k].db.users[l.user], l.attempt.now) else s[k].db.users[l.user]
  {
    RunKeepsInv(s, actions, k);
    var l := s[k].open[sid];
    assert IsStep(s[k], actions[k], s[k + 1]) && LoginInv(s[k], l);
    VersionMoves(s, actions, j, k, l.user);
  }

  /** A login with a right password succeeds exactly if it found nothing to reset or nobody wrote the row
      since; on a row that is LOCKED by then only if it found nothing to reset. */
  lemma SucceedsExactly(s: seq<State>, actions: seq<Action>, j: nat, k: nat, sid: Sid)
    requires IsRun(s, actions) && k < |actions| && actions[k] == Commit(sid)
    requires LoadedAt(s, actions, j, k, sid) && s[k].open[sid].attempt.newId !in s[k].db.tokens
    ensures var l := s[k].open[sid];
      && l.user in s[k].db.users
      && (l.attempt.newId in s[k + 1].db.tokens <==>
           !Wrong(l) && (Silent(l) || forall n :: j <= n < k ==> !WritesRow(s[n], actions[n], l.user)))
      && (s[k].db.users[l.user].status in {Locked, Inactive} ==>
           (l.attempt.newId in s[k + 1].db.tokens <==> !Wrong(l) && Silent(l)))
  {
    RunKeepsInv(s, actions, k);
    var l := s[k].open[sid];
    assert IsStep(s[k], actions[k], s[k + 1]) && LoginInv(s[k], l);
    VersionMoves(s, actions, j, k, l.user);
  }

  /** What a silent login needs of the row it loads. */
  lemma SilentExactly(l: Login)
    ensures !Wrong(l) && Silent(l) <==>
      && l.loaded.status !in {Locked, Inactive} && l.loaded.password == Some(l.attempt.password)
      && l.loaded.failedLoginAttempts == 0 && l.loaded.lastFailedLoginAt == None && l.stamp.updatedBy == l.actor
  {
  }

  /** Of the logins that loaded the same version of a row at most one writes it: overlapping wrong logins
      are counted once. */
  lemma OneWriterPerVersion(s: seq<State>, actions: seq<Action>, i: nat, k: nat)
    requires IsRun(s, actions) && i < k < |actions| && actions[i].Commit? && actions[k].Commit?
    requires actions[i].sid in s[i].open && actions[k].sid in s[k].open
    requires s[i].open[actions[i].sid].user == s[k].open[actions[k].sid].user
    requires s[i].open[actions[i].sid].stamp.version == s[k].open[actions[k].sid].stamp.version
    ensures var user := s[i].open[actions[i].sid].user;
      !(WritesRow(s[i], actions[i], user) && WritesRow(s[k], actions[k], user))
  {
    var user := s[i].open[actions[i].sid].user;
    RunKeepsInv(s, actions, i);
    if WritesRow(s[i], actions[i], user) {
      assert LoginInv(s[i], s[i].open[actions[i].sid]) && IsStep(s[i], actions[i], s[i + 1]);
      VersionStep(s[i], actions[i], s[i + 1], user);
      VersionMoves(s, actions, i + 1, k, user);
    }
  }

  // ---------------------------------------------------------------- the row is the one of a serial run

  /** The logins from step i on that wrote the row, in the order of their commits. */
  function Effective(s: seq<State>, actions: seq<Action>, i: nat, k: nat, user: Id): seq<Attempt>
    requires |s| == |actions| + 1 && i <= k < |s|
  {
    if k == i then []
    else
      var earlier, x := Effective(s, actions, i, k - 1, user), actions[k - 1];
      if x.Commit? && WritesRow(s[k - 1], x, user) then earlier + [s[k - 1].open[x.sid].attempt] else earlier
  }

  ghost predicate OnlyLogins(actions: seq<Action>, i: nat, k: nat, user: Id)
    requires i <= k <= |actions|
  {
    forall n :: i <= n < k ==> actions[n].Change? ==> actions[n].user != user
  }

  /** While only logins write the row, it is what these logins, one after the other, leave. */
  lemma {:induction false} RowIsSerial(s: seq<State>, actions: seq<Action>, i: nat, k: nat, user: Id)
    requires IsRun(s, actions) && i <= k < |s| && OnlyLogins(actions, i, k, user)
    requires user in s[i].db.users && s[i].db.users[user].password.Some?
    ensures user in s[k].db.users
    ensures s[k].db.users[user] == RowAfter(s[i].db.users[user], Effective(s, actions, i, k, user))
  {
    if k == i {
    } else {
      RowIsSerial(s, actions, i, k - 1, user);
      RunKeepsInv(s, actions, k - 1);
      assert IsStep(s[k - 1], actions[k - 1], s[k]);
      RowStep(s[k - 1], actions[k - 1], s[k], user, s[i].db.users[user], Effective(s, actions, i, k - 1, user));
    }
  }

  /** A login that writes the row had loaded it as it is, so it goes on from there. */
  lemma RowStep(s: State, x: Action, t: State, user: Id, u: User, run: seq<Attempt>)
    requires Inv(s) && IsStep(s, x, t) && (x.Change? ==> x.user != user)
    requires user in s.db.users && u.password.Some? && s.db.users[user] == RowAfter(u, run)
    ensures user in t.db.users
    ensures t.db.users[user] ==
      RowAfter(u, if x.Commit? && WritesRow(s, x, user) then run + [s.open[x.sid].attempt] else run)
  {
    VersionStep(s, x, t, user);
    if x.Commit? && WritesRow(s, x, user) {
      assert LoginInv(s, s.open[x.sid]);
      assert (run + [s.open[x.sid].attempt])[..|run|] == run;
    }
  }

  /** So in every interleaving a row that was active with no failures is LOCKED exactly after five wrong
      logins that were counted, with no login between them that reset the counter. */
  lemma LockedExactly(s: seq<State>, actions: seq<Action>, i: nat, k: nat, user: Id, p: Password)
    requires IsRun(s, actions) && i <= k < |s| && OnlyLogins(actions, i, k, user)
    requires user in s[i].db.users && Starts(s[i].db.users[user], p)
    ensures user in s[k].db.users && Described(s[k].db.users[user], p, Effective(s, actions, i, k, user))
    ensures s[k].db.users[user].status == Locked <==> FiveWrongInARow(p, Effective(s, actions, i, k, user))
  {
    RowIsSerial(s, actions, i, k, user);
    LockedAfterFiveWrong(s[i].db.users[user], p, Effective(s, actions, i, k, user));
  }

  // ---------------------------------------------------------------- two runs

  /** The same login open in the sessions from `lo` on and below `hi`. */
  function Opened(l: Login, lo: nat, hi: nat): (r: map<Sid, Login>)
    ensures forall sid :: sid in r <==> lo <= sid < hi
    ensures forall sid :: sid in r ==> r[sid] == l
  {
    if hi <= lo then map[] else Opened(l, lo, hi - 1)[hi - 1 := l]
  }

  /** All of `n` logins load before the first commits. */
  function Scene(d: AuthDb, l: Login, n: nat, i: nat): State {
    if i <= n then State(d, map[l.user := l.stamp], Opened(l, 0, i))
    else
      State(d.(users := d.users[l.user := Assigned(l)]), map[l.user := Stamp(l.stamp.version + 1, l.actor)],
            Opened(l, i - n, n))
  }

  function Act(l: Login, n: nat, i: nat): Action {
    if i < n then Load(i, l.user, l.attempt, l.actor) else Commit(i - n)
  }

  lemma SceneLoads(d: AuthDb, l: Login, n: nat, i: nat)
    requires l.user in d.users && l.loaded == d.users[l.user] && l.loaded.password.Some? && i < n
    ensures IsStep(Scene(d, l, n, i), Act(l, n, i), Scene(d, l, n, i + 1))
  {
    assert Opened(l, 0, i)[i := l] == Opened(l, 0, i + 1);
  }

  lemma SceneCounts(d: AuthDb, l: Login, n: nat)
    requires l.user in d.users && l.loaded == d.users[l.user] && Wrong(l) && n >= 1
    ensures IsStep(Scene(d, l, n, n), Act(l, n, n), Scene(d, l, n, n + 1))
  {
    assert Opened(l, 0, n) - {0} == Opened(l, 1, n);
    var was, now := map[l.user := l.stamp], Stamp(l.stamp.version + 1, l.actor);
    assert was[l.user := now] == map[l.user := now];
    assert Opened(l, 0, n)[0] == l && !Conflict(Scene(d, l, n, n), l);
    assert Committed(Scene(d, l, n, n), l) == Scene(d, l, n, n + 1).(open := Opened(l, 0, n));
  }

  lemma SceneConflicts(d: AuthDb, l: Login, n: nat, i: nat)
    requires l.user in d.users && l.loaded == d.users[l.user] && Wrong(l) && n < i < 2 * n
    ensures IsStep(Scene(d, l, n, i), Act(l, n, i), Scene(d, l, n, i + 1))
  {
    assert Opened(l, i - n, n) - {i - n} == Opened(l, i + 1 - n, n);
    assert Conflict(Scene(d, l, n, i), l);
  }

  /** Of any number of wrong logins that all load before the first commits, one is counted; five of them
      do not lock the row. */
  lemma OverlappingWrongCountOnce(d: AuthDb, user: Id, stamp: Stamp, p: Password, a: Attempt, n: nat)
    returns (s: seq<State>, actions: seq<Action>)
    requires d.users.Keys == {user} && Starts(d.users[user], p) && a.password != p && n >= 1
    ensures IsRun(s, actions) && |actions| == 2 * n && s[0].db == d
    ensures forall i :: 0 <= i < n ==> actions[i] == Load(i, user, a, None)
    ensures forall i :: n <= i < 2 * n ==> actions[i] == Commit(i - n)
    ensures user in s[2 * n].db.users && s[2 * n].db.users[user] == Failed(d.users[user], a.now)
    ensures s[2 * n].db.users[user].status == Active && s[2 * n].db.users[user].failedLoginAttempts == 1
  {
    var l := Login(user, a, None, d.users[user], stamp);
    s := seq(2 * n + 1, i requires 0 <= i < 2 * n + 1 => Scene(d, l, n, i));
    actions := seq(2 * n, i requires 0 <= i < 2 * n => Act(l, n, i));
    forall i | 0 <= i < 2 * n ensures IsStep(s[i], actions[i], s[i + 1]) {
      if i < n {
        SceneLoads(d, l, n, i);
      } else if i == n {
        SceneCounts(d, l, n);
      } else {
        SceneConflicts(d, l, n, i);
      }
    }
  }

  /** A login that found nothing to reset succeeds although the row was locked while it was open. */
  lemma SilentLoginPassesLock(d: AuthDb, user: Id, version: nat, p: Password, a: Attempt)
    returns (s: seq<State>, actions: seq<Action>)
    requires d.users.Keys == {user} && Starts(d.users[user], p) && d.users[user].lastFailedLoginAt == None
    requires a.password == p && a.newId !in d.tokens
    ensures IsRun(s, actions) && |actions| == 3 && s[0].db == d
    ensures user in s[2].db.users && s[2].db.users[user].status == Locked && a.newId !in s[2].db.tokens
    ensures actions[2].Commit? && a.newId in s[3].db.tokens && s[3].db.users == s[2].db.users
  {
    var locked := d.users[user].(status := Locked);
    actions := [Load(0, user, a, None), Change(user, locked, Some(0)), Commit(0)];
    var s0 := State(d, map[user := Stamp(version, None)], map[]);
    var s1 := Next(s0, actions[0]);
    var s2 := Next(s1, actions[1]);
    var s3 := Next(s2, actions[2]);
    s := [s0, s1, s2, s3];
    assert IsStep(s0, actions[0], s1) && IsStep(s1, actions[1], s2) && IsStep(s2, actions[2], s3);
  }

  // ---------------------------------------------------------------- the service's method as steps

  /** A login nothing comes between is `Authenticate`: the same committed state. */
  lemma UninterruptedIsLoggedIn(s: State, sid: Sid, user: Id, a: Attempt, actor: Option<Id>)
    requires sid !in s.open && user in s.db.users && user in s.stamps
    ensures var t := Next(s, Load(sid, user, a, actor));
      var (after, answer) := LoggedIn(s.db, Some(user), a.password, a.now, a.newId, a.newHash, {});
      if sid !in t.open then after == t.db == s.db && answer == Raised(AttributeError)
      else Next(t, Commit(sid)).db == after && Next(t, Commit(sid)).open == s.open
  {
  }
}
