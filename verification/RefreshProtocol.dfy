/** Overlapping refreshes: each loads the presented token and commits the exchange later. Token rows have
    no version (app/modules/auth/models.py), so an exchange never conflicts with another. */
module RefreshProtocol {
  import opened Options
  import opened Transactions
  import opened TokenFamilies
  import opened AuthData
  import opened AuthService
  import opened TokenRuns

  type Sid = nat

  /** An exchange of a token loaded as live, or a theft response with the family it has collected. */
  datatype Work =
    | Exchanging(id: Id, now: real, newId: Id, row: RefreshToken)
    | Revoking(family: set<Id>)

  /** The committed tokens, every identifier and digest handed out, and the open calls. */
  datatype State = State(tokens: Table, ids: set<Id>, digests: set<Digest>, open: map<Sid, Work>)

  /** Revoke is `revoke_all_user_tokens`; Abort is any exception before the commit. */
  datatype Action =
    | Load(sid: Sid, raw: Digest, now: real, newId: Id, newHash: Digest)
    | Commit(sid: Sid)
    | Abort(sid: Sid)
    | Issue(id: Id, row: RefreshToken)
    | Revoke(user: Id, now: real)

  ghost predicate Enabled(s: State, x: Action) {
    match x
    case Load(sid, _, _, newId, newHash) => sid !in s.open && newId !in s.ids && newHash !in s.digests
    case Commit(sid) => sid in s.open && (s.open[sid].Exchanging? ==> s.open[sid].id in s.tokens)
    case Abort(sid) => sid in s.open
    case Issue(id, row) => id !in s.ids && row.tokenHash !in s.digests && !row.isRevoked && row.replacedBy.None?
    case Revoke(_, _) => true
  }

  /** What the first query of `refresh` decides; the user's row is taken to exist. */
  ghost function Loaded(t: Table, raw: Digest, now: real, newId: Id, newHash: Digest): Option<Work> {
    match FindToken(t, raw)
    case None => None
    case Some(id) =>
      if t[id].expiresAt < now then None
      else if t[id].isRevoked then Some(Revoking(Family(t, id)))
      else Some(Exchanging(id, now, newId, NewToken(t[id].userId, newHash, now)))
  }

  /** The exchange writes both columns of the loaded row, whatever they are by now. */
  function Done(t: Table, w: Work): Table
    requires w.Exchanging? ==> w.id in t
  {
    match w
    case Exchanging(id, _, newId, row) => Rotate(t, id, newId, row)
    case Revoking(family) => RevokeAll(t, family)
  }

  ghost function Next(s: State, x: Action): State
    requires Enabled(s, x)
  {
    match x
    case Load(sid, raw, now, newId, newHash) =>
      var work := Loaded(s.tokens, raw, now, newId, newHash);
      s.(ids := s.ids + {newId}, digests := s.digests + {newHash},
         open := if work.Some? then s.open[sid := work.value] else s.open)
    case Commit(sid) => s.(tokens := Done(s.tokens, s.open[sid]), open := s.open - {sid})
    case Abort(sid) => s.(open := s.open - {sid})
    case Issue(id, row) =>
      s.(ids := s.ids + {id}, digests := s.digests + {row.tokenHash}, tokens := s.tokens[id := row])
    case Revoke(user, now) => s.(tokens := RevokeAll(s.tokens, LiveTokens(s.tokens, user, now)))
  }

  /** An open call can be aborted at any time, and then leaves nothing; a user's tokens can be revoked. */
  lemma AbortLeavesNothing(s: State, sid: Sid, user: Id, now: real)
    requires sid in s.open
    ensures Enabled(s, Abort(sid)) && Next(s, Abort(sid)) == s.(open := s.open - {sid})
    ensures Enabled(s, Revoke(user, now)) && Next(s, Revoke(user, now)).open == s.open
    ensures Next(s, Revoke(user, now)).tokens == RevokeAll(s.tokens, LiveTokens(s.tokens, user, now))
  {
  }

  // ---------------------------------------------------------------- the invariant

  ghost predicate WorkInv(s: State, w: Work) {
    w.Exchanging? ==>
      && w.id in s.tokens && w.row.userId == s.tokens[w.id].userId
      && w.row.replacedBy.None? && !w.row.isRevoked
      && w.newId in s.ids && w.newId !in s.tokens
      && w.row.tokenHash in s.digests && forall a :: a in s.tokens ==> s.tokens[a].tokenHash != w.row.tokenHash
  }

  ghost predicate Apart(v: Work, w: Work) {
    v.Exchanging? && w.Exchanging? ==> v.newId != w.newId && v.row.tokenHash != w.row.tokenHash
  }

  ghost predicate StateInv(s: State) {
    && Inv(s.tokens) && s.tokens.Keys <= s.ids
    && (forall a :: a in s.tokens ==> s.tokens[a].tokenHash in s.digests)
    && (forall sid :: sid in s.open ==> WorkInv(s, s.open[sid]))
    && (forall i, j :: i in s.open && j in s.open && i != j ==> Apart(s.open[i], s.open[j]))
  }

  ghost predicate IsStep(s: State, x: Action, t: State) {
    Enabled(s, x) && t == Next(s, x)
  }

  /** The links stay injective, acyclic and within one user, and rows only age. */
  lemma TableStep(s: State, x: Action, t: State)
    requires StateInv(s) && IsStep(s, x, t)
    ensures Inv(t.tokens) && OnlyAges(s.tokens, t.tokens)
  {
    match x
    case Load(_, _, _, _, _) =>
    case Abort(_) =>
    case Commit(sid) =>
      var w := s.open[sid];
      if w.Exchanging? {
        assert WorkInv(s, w);
        ExchangeKeepsInv(s.tokens, w.id, w.newId, w.row);
      } else {
        RevokeAges(s.tokens, w.family);
      }
    case Issue(id, row) => InsertKeepsInv(s.tokens, id, row);
    case Revoke(user, now) => RevokeAges(s.tokens, LiveTokens(s.tokens, user, now));
  }

  lemma WorkStep(s: State, x: Action, t: State, sid: Sid)
    requires StateInv(s) && IsStep(s, x, t) && sid in t.open
    ensures WorkInv(t, t.open[sid])
  {
    if sid in s.open {
      assert WorkInv(s, s.open[sid]);
      assert x.Commit? ==> Apart(s.open[x.sid], s.open[sid]);
    }
  }

  lemma ApartStep(s: State, x: Action, t: State, i: Sid, j: Sid)
    requires StateInv(s) && IsStep(s, x, t) && i in t.open && j in t.open && i != j
    ensures Apart(t.open[i], t.open[j])
  {
    assert i in s.open ==> WorkInv(s, s.open[i]);
    assert j in s.open ==> WorkInv(s, s.open[j]);
  }

  lemma StepKeepsInv(s: State, x: Action, t: State)
    requires StateInv(s) && IsStep(s, x, t)
    ensures StateInv(t)
  {
    TableStep(s, x, t);
    forall sid | sid in t.open ensures WorkInv(t, t.open[sid]) {
      WorkStep(s, x, t, sid);
    }
    forall i, j | i in t.open && j in t.open && i != j ensures Apart(t.open[i], t.open[j]) {
      ApartStep(s, x, t, i, j);
    }
    DigestStep(s, x, t);
  }

  lemma DigestStep(s: State, x: Action, t: State)
    requires StateInv(s) && IsStep(s, x, t)
    ensures t.tokens.Keys <= t.ids && forall a :: a in t.tokens ==> t.tokens[a].tokenHash in t.digests
  {
    assert x.Commit? ==> WorkInv(s, s.open[x.sid]);
  }

  // ---------------------------------------------------------------- runs

  ghost predicate IsRun(s: seq<State>, actions: seq<Action>) {
    && |s| == |actions| + 1
    && s[0].open == map[] && StateInv(s[0])
    && forall i :: 0 <= i < |actions| ==> IsStep(s[i], actions[i], s[i + 1])
  }

  /** In every interleaving the links stay injective, acyclic and within one user; so every family is one
      simple path in which only the last token can be live. */
  lemma {:induction false} RunKeepsInv(s: seq<State>, actions: seq<Action>, k: nat)
    requires IsRun(s, actions) && k < |s|
    ensures StateInv(s[k])
  {
    if k == 0 {
    } else {
      RunKeepsInv(s, actions, k - 1);
      assert IsStep(s[k - 1], actions[k - 1], s[k]);
      StepKeepsInv(s[k - 1], actions[k - 1], s[k]);
    }
  }

  /** ... and a revoked token stays revoked. */
  lemma {:induction false} RunAges(s: seq<State>, actions: seq<Action>, i: nat, k: nat)
    requires IsRun(s, actions) && i <= k < |s|
    ensures OnlyAges(s[i].tokens, s[k].tokens)
  {
    if k == i {
    } else {
      RunAges(s, actions, i, k - 1);
      RunKeepsInv(s, actions, k - 1);
      assert IsStep(s[k - 1], actions[k - 1], s[k]);
      TableStep(s[k - 1], actions[k - 1], s[k]);
    }
  }

  /** The call of session `sid` was loaded at step j. */
  ghost predicate LoadedAt(s: seq<State>, actions: seq<Action>, j: nat, sid: Sid, w: Work)
    requires |s| == |actions| + 1
  {
    && j < |actions| && actions[j].Load? && actions[j].sid == sid
    && Loaded(s[j].tokens, actions[j].raw, actions[j].now, actions[j].newId, actions[j].newHash) == Some(w)
  }

  lemma {:induction false} LoadedSince(s: seq<State>, actions: seq<Action>, k: nat, sid: Sid) returns (j: nat)
    requires IsRun(s, actions) && k < |s| && sid in s[k].open
    ensures j < k && LoadedAt(s, actions, j, sid, s[k].open[sid])
  {
    j := k - 1;
    assert IsStep(s[j], actions[j], s[k]);
    if sid in s[j].open {
      j := LoadedSince(s, actions, j, sid);
    }
  }

  ghost predicate Exchanges(s: State, x: Action, a: Id) {
    x.Commit? && x.sid in s.open && s.open[x.sid].Exchanging? && s.open[x.sid].id == a
  }

  /** A token that is exchanged although it is revoked was loaded before, while it was live. */
  lemma ExchangedAfterRevocation(s: seq<State>, actions: seq<Action>, i: nat, k: nat, a: Id) returns (j: nat)
    requires IsRun(s, actions) && i <= k < |actions| && a in s[i].tokens && s[i].tokens[a].isRevoked
    requires Exchanges(s[k], actions[k], a)
    ensures j < i && LoadedAt(s, actions, j, actions[k].sid, s[k].open[actions[k].sid])
    ensures a in s[j].tokens && !s[j].tokens[a].isRevoked
  {
    j := LoadedSince(s, actions, k, actions[k].sid);
    if j >= i {
      RunAges(s, actions, i, j);
    }
  }

  /** A refresh token is exchanged twice only by overlapping calls: the later one had loaded it before the
      earlier one committed. */
  lemma ExchangedTwice(s: seq<State>, actions: seq<Action>, i: nat, k: nat, a: Id) returns (j: nat)
    requires IsRun(s, actions) && i < k < |actions|
    requires Exchanges(s[i], actions[i], a) && Exchanges(s[k], actions[k], a)
    ensures j < i && LoadedAt(s, actions, j, actions[k].sid, s[k].open[actions[k].sid])
  {
    assert IsStep(s[i], actions[i], s[i + 1]);
    j := ExchangedAfterRevocation(s, actions, i + 1, k, a);
  }

  // ---------------------------------------------------------------- the theft response

  /** A call that has loaded a member of the family as live is open. */
  ghost predicate OpenOn(s: State, family: set<Id>) {
    exists sid :: sid in s.open && s.open[sid].Exchanging? && s.open[sid].id in family
  }

  /** A committed theft response leaves every token it collected revoked for good, and the family closed
      unless it changed since it was collected. A member exchanged later was loaded before the commit. */
  lemma TheftRevokes(s: seq<State>, actions: seq<Action>, i: nat, k: nat, a: Id)
    requires IsRun(s, actions) && i < k < |s| && actions[i].Commit? && actions[i].sid in s[i].open
    requires s[i].open[actions[i].sid].Revoking?
    ensures var family := s[i].open[actions[i].sid].family;
      && (forall u :: u in family && u in s[i].tokens ==> u in s[k].tokens && s[k].tokens[u].isRevoked)
      && (a in s[i].tokens && Family(s[i].tokens, a) == family ==> Closed(s[i + 1].tokens, family, a))
  {
    var family := s[i].open[actions[i].sid].family;
    assert IsStep(s[i], actions[i], s[i + 1]);
    RunAges(s, actions, i + 1, k);
    RevokeAllKeepsFamilies(s[i].tokens, family, a);
  }

  /** A closed family stays closed, and no member is exchanged, if no call that has loaded a member as live
      is open. */
  lemma {:induction false} ClosedStays(s: seq<State>, actions: seq<Action>, i: nat, k: nat, family: set<Id>, a: Id)
    requires IsRun(s, actions) && i <= k < |s| && Closed(s[i].tokens, family, a) && !OpenOn(s[i], family)
    ensures Closed(s[k].tokens, family, a) && !OpenOn(s[k], family)
  {
    if k == i {
    } else {
      ClosedStays(s, actions, i, k - 1, family, a);
      RunKeepsInv(s, actions, k - 1);
      assert IsStep(s[k - 1], actions[k - 1], s[k]);
      ClosedStep(s[k - 1], actions[k - 1], s[k], family, a);
    }
  }

  lemma ClosedStep(s: State, x: Action, t: State, family: set<Id>, a: Id)
    requires StateInv(s) && IsStep(s, x, t) && Closed(s.tokens, family, a) && !OpenOn(s, family)
    ensures Closed(t.tokens, family, a) && !OpenOn(t, family)
  {
    TableStep(s, x, t);
    match x
    case Load(_, _, _, _, _) =>
    case Abort(_) =>
    case Commit(sid) =>
      var w := s.open[sid];
      if w.Exchanging? {
        assert WorkInv(s, w);
        FamilyUnaffected(s.tokens, t.tokens, a, w.id, w.newId);
      } else {
        RevokeKeepsClosed(s.tokens, w.family, family, a);
      }
    case Issue(id, row) => InsertKeepsClosed(s.tokens, id, row, family, a);
    case Revoke(user, now) => RevokeKeepsClosed(s.tokens, LiveTokens(s.tokens, user, now), family, a);
  }

  /** ... and only if: the commit of such a call opens the family again. */
  lemma ClosedBreaks(s: State, sid: Sid, family: set<Id>, a: Id)
    requires StateInv(s) && Closed(s.tokens, family, a)
    requires sid in s.open && s.open[sid].Exchanging? && s.open[sid].id in family
    ensures Enabled(s, Commit(sid)) && !Closed(Next(s, Commit(sid)).tokens, family, a)
  {
    var w := s.open[sid];
    assert WorkInv(s, w);
    var r := Rotate(s.tokens, w.id, w.newId, w.row);
    TableStep(s, Commit(sid), Next(s, Commit(sid)));
    if Reaches(s.tokens, a, w.id) {
      NewIsReached(s.tokens, r, a, w.id, w.newId);
    } else {
      OldIsLost(s.tokens, r, a, w.id, w.newId);
    }
  }

  /** If the exchanged token is `a` or comes after it, the new token joins the family of `a`. */
  lemma NewIsReached(t: Table, r: Table, a: Id, oldId: Id, newId: Id)
    requires Inv(t) && Reaches(t, a, oldId) && newId !in t && newId in r && t.Keys <= r.Keys
    requires forall b :: b in t && b != oldId ==> r[b].replacedBy == t[b].replacedBy
    requires Linked(r, oldId, newId)
    ensures newId in Family(r, a)
  {
    var p :| Path(t, p) && p[0] == a && p[|p| - 1] == oldId;
    NoCycles(t, p);
    var q := p + [newId];
    forall i, j | 0 <= i && j == i + 1 < |q| ensures Linked(r, q[i], q[j]) {
      assert j < |p| ==> Linked(t, p[i], p[j]);
    }
    assert Path(r, q) && q[0] == a && q[|q| - 1] == newId;
  }

  /** If it comes before `a`, it leaves the family of `a`. */
  lemma OldIsLost(t: Table, r: Table, a: Id, oldId: Id, newId: Id)
    requires Inv(t) && Inv(r) && a in t && oldId in t && newId !in t && !Reaches(t, a, oldId)
    requires forall b :: b in t && b != oldId ==> b in r && r[b].replacedBy == t[b].replacedBy
    requires Linked(r, oldId, newId) && newId in r && r[newId].replacedBy.None?
    ensures oldId !in Family(r, a)
  {
    assert Path(t, [oldId]) && [oldId][0] == oldId;
    if Reaches(r, oldId, a) {
      var p :| Path(r, p) && p[0] == oldId && p[|p| - 1] == a;
      EndsAtNew(r, p, oldId, newId);
    }
    if Reaches(r, a, oldId) {
      var p :| Path(r, p) && p[0] == a && p[|p| - 1] == oldId;
      NoCycles(r, p);
      StaysInTable(t, r, p, oldId);
    }
  }

  /** From the exchanged token a path leads to the new one and no further. */
  lemma EndsAtNew(r: Table, p: seq<Id>, oldId: Id, newId: Id)
    requires Path(r, p) && p[0] == oldId && Linked(r, oldId, newId) && newId in r && r[newId].replacedBy.None?
    ensures p[|p| - 1] == oldId || p[|p| - 1] == newId
  {
    assert |p| > 2 ==> Linked(r, p[1], p[2]);
    assert |p| > 1 ==> Linked(r, p[0], p[1]);
  }

  lemma StaysInTable(t: Table, r: Table, p: seq<Id>, oldId: Id)
    requires Inv(t) && Path(r, p) && NoDuplicates(p) && p[0] in t && p[|p| - 1] == oldId
    requires forall b :: b in t && b != oldId ==> b in r && r[b].replacedBy == t[b].replacedBy
    ensures Path(t, p)
  {
    PrefixInTable(t, r, p, oldId, |p| - 1);
    forall i, j | 0 <= i && j == i + 1 < |p| ensures Linked(t, p[i], p[j]) {
      assert Linked(r, p[i], p[j]);
    }
  }

  lemma {:induction false} PrefixInTable(t: Table, r: Table, p: seq<Id>, oldId: Id, n: nat)
    requires Inv(t) && Path(r, p) && NoDuplicates(p) && n < |p| && p[0] in t && p[|p| - 1] == oldId
    requires forall b :: b in t && b != oldId ==> b in r && r[b].replacedBy == t[b].replacedBy
    ensures forall i :: 0 <= i <= n ==> p[i] in t
  {
    if n == 0 {
    } else {
      PrefixInTable(t, r, p, oldId, n - 1);
      assert Linked(r, p[n - 1], p[n]);
      assert Linked(t, p[n - 1], p[n]);
    }
  }

  // ---------------------------------------------------------------- two runs

  function Token(user: Id, digest: Digest, revoked: bool, next: Option<Id>): RefreshToken {
    RefreshToken(user, digest, REFRESH_TOKEN_TTL, revoked, next)
  }

  /** Two calls exchange the live token 0 at once, for the tokens 1 and 2. */
  function Twice(user: Id, i: nat): State {
    var one, two := Token(user, 1, false, None), Token(user, 2, false, None);
    var first, second := Exchanging(0, 0.0, 1, one), Exchanging(0, 0.0, 2, two);
    match i
    case 0 => State(map[0 := Token(user, 0, false, None)], {0}, {0}, map[])
    case 1 => State(map[0 := Token(user, 0, false, None)], {0, 1}, {0, 1}, map[0 := first])
    case 2 => State(map[0 := Token(user, 0, false, None)], {0, 1, 2}, {0, 1, 2}, map[0 := first, 1 := second])
    case 3 => State(map[0 := Token(user, 0, true, Some(1)), 1 := one], {0, 1, 2}, {0, 1, 2}, map[1 := second])
    case _ => State(map[0 := Token(user, 0, true, Some(2)), 1 := one, 2 := two], {0, 1, 2}, {0, 1, 2}, map[])
  }

  function TwiceAct(i: nat): Action {
    match i
    case 0 => Load(0, 0, 0.0, 1, 1)
    case 1 => Load(1, 0, 0.0, 2, 2)
    case 2 => Commit(0)
    case _ => Commit(1)
  }

  lemma TwiceStep(user: Id, i: nat)
    requires i < 4
    ensures IsStep(Twice(user, i), TwiceAct(i), Twice(user, i + 1))
  {
    OnlyToken(Twice(user, 0).tokens, 0);
  }

  /** Both succeed, and the token of the first is in no family with the presented one any more: a theft
      response to it does not reach that token. */
  lemma OverlappingExchanges(user: Id) returns (s: seq<State>, actions: seq<Action>)
    ensures IsRun(s, actions) && |actions| == 4 && Exchanges(s[2], actions[2], 0) && Exchanges(s[3], actions[3], 0)
    ensures var t := s[4].tokens; t.Keys == {0, 1, 2} && !t[1].isRevoked && !t[2].isRevoked && 1 !in Family(t, 0)
  {
    s, actions := TwiceRun(user);
    assert Exchanges(Twice(user, 2), TwiceAct(2), 0);
    assert Exchanges(Twice(user, 3), TwiceAct(3), 0);
    TwiceEnds(user);
  }

  lemma TwiceRun(user: Id) returns (s: seq<State>, actions: seq<Action>)
    ensures IsRun(s, actions) && |actions| == 4 && Inv(s[4].tokens)
    ensures s[2] == Twice(user, 2) && actions[2] == TwiceAct(2)
    ensures s[3] == Twice(user, 3) && actions[3] == TwiceAct(3) && s[4] == Twice(user, 4)
  {
    TwiceStarts(user);
    TwiceStep(user, 0);
    TwiceStep(user, 1);
    TwiceStep(user, 2);
    TwiceStep(user, 3);
    s, actions := FourSteps(Twice(user, 0), Twice(user, 1), Twice(user, 2), Twice(user, 3), Twice(user, 4),
                            TwiceAct(0), TwiceAct(1), TwiceAct(2), TwiceAct(3));
  }

  lemma FourSteps(s0: State, s1: State, s2: State, s3: State, s4: State, a: Action, b: Action, c: Action, d: Action)
    returns (s: seq<State>, actions: seq<Action>)
    requires s0.open == map[] && StateInv(s0)
    requires IsStep(s0, a, s1) && IsStep(s1, b, s2) && IsStep(s2, c, s3) && IsStep(s3, d, s4)
    ensures s == [s0, s1, s2, s3, s4] && actions == [a, b, c, d]
    ensures IsRun(s, actions) && StateInv(s3) && StateInv(s4)
  {
    StepKeepsInv(s0, a, s1);
    StepKeepsInv(s1, b, s2);
    StepKeepsInv(s2, c, s3);
    StepKeepsInv(s3, d, s4);
    s, actions := [s0, s1, s2, s3, s4], [a, b, c, d];
  }

  lemma TwiceStarts(user: Id)
    ensures Twice(user, 0).open == map[] && StateInv(Twice(user, 0))
  {
    AloneKeepsInv(0, Token(user, 0, false, None));
  }

  lemma TwiceEnds(user: Id)
    requires Inv(Twice(user, 4).tokens)
    ensures Family(Twice(user, 4).tokens, 0) == {0, 2}
  {
    FamilyOf(Twice(user, 4).tokens, [0, 2]);
  }

  lemma OnlyToken(t: Table, a: Id)
    requires a in t && forall b :: b in t && t[b].tokenHash == a ==> b == a
    requires t[a].tokenHash == a
    ensures FindToken(t, a) == Some(a)
  {
  }

  lemma FamilyOf(t: Table, chain: seq<Id>)
    requires Inv(t) && Maximal(t, chain)
    ensures Family(t, chain[0]) == set u | u in chain
  {
    MaximalIsFamily(t, chain, 0);
  }

  lemma AloneKeepsInv(id: Id, row: RefreshToken)
    requires row.replacedBy.None?
    ensures Inv(map[id := row])
  {
    var none: Table := map[];
    assert Ranks(none, map[]);
    InsertKeepsInv(none, id, row);
    assert none[id := row] == map[id := row];
  }

  /** One call has loaded the live token 1, another presents its predecessor 0. */
  function Late(user: Id, i: nat): State {
    var used, live, next := Token(user, 0, true, Some(1)), Token(user, 1, false, None), Token(user, 2, false, None);
    var ids := if i == 0 then {0, 1} else if i == 1 then {0, 1, 2} else {0, 1, 2, 3};
    var exchange, response := Exchanging(1, 0.0, 2, next), Revoking({0, 1});
    match i
    case 0 => State(map[0 := used, 1 := live], ids, ids, map[])
    case 1 => State(map[0 := used, 1 := live], ids, ids, map[0 := exchange])
    case 2 => State(map[0 := used, 1 := live], ids, ids, map[0 := exchange, 1 := response])
    case 3 => State(map[0 := used, 1 := Token(user, 1, true, None)], ids, ids, map[0 := exchange])
    case _ => State(map[0 := used, 1 := Token(user, 1, true, Some(2)), 2 := next], ids, ids, map[])
  }

  function LateAct(i: nat): Action {
    match i
    case 0 => Load(0, 1, 0.0, 2, 2)
    case 1 => Load(1, 0, 0.0, 3, 3)
    case 2 => Commit(1)
    case _ => Commit(0)
  }

  lemma LateLoads(user: Id, i: nat)
    requires i < 2 && Inv(Late(user, 0).tokens)
    ensures IsStep(Late(user, i), LateAct(i), Late(user, i + 1))
  {
    OnlyToken(Late(user, 0).tokens, 1 - i);
    LateFamily(user);
  }

  lemma LateFamily(user: Id)
    requires Inv(Late(user, 0).tokens)
    ensures Family(Late(user, 0).tokens, 0) == {0, 1}
  {
    FamilyOf(Late(user, 0).tokens, [0, 1]);
  }

  lemma LateCommits(user: Id, i: nat)
    requires i == 2 || i == 3
    ensures IsStep(Late(user, i), LateAct(i), Late(user, i + 1))
  {
  }

  /** The exchange commits after the theft response and leaves a live token in the family. */
  lemma ExchangeSurvivesTheft(user: Id) returns (s: seq<State>, actions: seq<Action>)
    ensures IsRun(s, actions) && |actions| == 4 && s[2].open.Keys == {0, 1} && actions[2] == Commit(1)
    ensures s[2].open[1].Revoking? && Closed(s[3].tokens, {0, 1}, 0)
    ensures actions[3] == Commit(0) && 2 in s[4].tokens && !s[4].tokens[2].isRevoked && 2 in Family(s[4].tokens, 0)
  {
    s, actions := LateRun(user);
    LateFamilies(user);
  }

  lemma LateRun(user: Id) returns (s: seq<State>, actions: seq<Action>)
    ensures IsRun(s, actions) && |actions| == 4 && Inv(s[3].tokens) && Inv(s[4].tokens)
    ensures s[2] == Late(user, 2) && actions[2] == LateAct(2)
    ensures s[3] == Late(user, 3) && actions[3] == LateAct(3) && s[4] == Late(user, 4)
  {
    LateStarts(user);
    LateLoads(user, 0);
    LateLoads(user, 1);
    LateCommits(user, 2);
    LateCommits(user, 3);
    s, actions := FourSteps(Late(user, 0), Late(user, 1), Late(user, 2), Late(user, 3), Late(user, 4),
                            LateAct(0), LateAct(1), LateAct(2), LateAct(3));
  }

  lemma LateStarts(user: Id)
    ensures Late(user, 0).open == map[] && StateInv(Late(user, 0))
  {
    PairKeepsInv(user);
  }

  lemma LateFamilies(user: Id)
    requires Inv(Late(user, 3).tokens) && Inv(Late(user, 4).tokens)
    ensures Family(Late(user, 3).tokens, 0) == {0, 1} && Family(Late(user, 4).tokens, 0) == {0, 1, 2}
  {
    FamilyOf(Late(user, 3).tokens, [0, 1]);
    FamilyOf(Late(user, 4).tokens, [0, 1, 2]);
  }

  lemma PairKeepsInv(user: Id)
    ensures Inv(Late(user, 0).tokens)
  {
    var one: Table := map[0 := Token(user, 0, false, None)];
    AloneKeepsInv(0, one[0]);
    RotateKeepsInv(one, 0, 1, Token(user, 1, false, None));
    assert Rotate(one, 0, 1, Token(user, 1, false, None)) == Late(user, 0).tokens;
  }

  // ---------------------------------------------------------------- the service's method as steps

  /** A refresh nothing comes between is `Refresh`: the same committed tokens. */
  lemma UninterruptedIsRefreshed(d: AuthDb, s: State, x: Action)
    requires StateInv(s) && s.tokens == d.tokens && x.Load? && Enabled(s, x)
    requires forall a :: a in d.tokens ==> d.tokens[a].userId in d.users
    ensures var t := Next(s, x);
      var after := Refreshed(d, x.raw, x.now, x.newId, x.newHash, {}).0;
      if x.sid in t.open then Enabled(t, Commit(x.sid)) && Next(t, Commit(x.sid)).tokens == after.tokens
      else t.tokens == after.tokens == s.tokens
  {
  }
}
