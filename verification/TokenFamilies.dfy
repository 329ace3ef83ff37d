/** Refresh tokens and the linked structure `replaced_by_token_id` makes of them. */
module TokenFamilies {
  import opened Options
  type Id = nat
  type Digest = nat

  datatype RefreshToken = RefreshToken(
    userId: Id,
    tokenHash: Digest,
    expiresAt: real,
    isRevoked: bool,
    replacedBy: Option<Id>)

  /** The refresh_tokens table by primary key. */
  type Table = map<Id, RefreshToken>

  // ---------------------------------------------------------------- paths

  ghost predicate Linked(t: Table, a: Id, b: Id) {
    a in t && t[a].replacedBy == Some(b)
  }

  ghost predicate Path(t: Table, p: seq<Id>) {
    && p != []
    && (forall i :: 0 <= i < |p| ==> p[i] in t)
    && (forall i, j :: 0 <= i && j == i + 1 < |p| ==> Linked(t, p[i], p[j]))
  }

  /** b is a, or was issued in exchange for a through any number of rotations. */
  ghost predicate Reaches(t: Table, a: Id, b: Id) {
    exists p :: Path(t, p) && p[0] == a && p[|p| - 1] == b
  }

  /** Everything reachable from a forwards or backwards. */
  ghost function Family(t: Table, a: Id): set<Id> {
    set u | u in t && (Reaches(t, a, u) || Reaches(t, u, a))
  }

  predicate NoDuplicates(p: seq<Id>) {
    forall i, j :: 0 <= i < j < |p| ==> p[i] != p[j]
  }

  // ---------------------------------------------------------------- the invariant

  /** Links point into the table, to a token of the same user; nothing is replaced twice or is
      the replacement of two tokens; a replaced token is revoked; digests are unique. */
  ghost predicate WellLinked(t: Table) {
    && (forall a, b :: Linked(t, a, b) ==> b in t && t[a].isRevoked && t[b].userId == t[a].userId)
    && (forall a, b, c :: Linked(t, a, c) && Linked(t, b, c) ==> a == b)
    && (forall a, b :: a in t && b in t && t[a].tokenHash == t[b].tokenHash ==> a == b)
  }

  /** A rank that grows along every link. */
  ghost predicate Ranks(t: Table, rank: map<Id, nat>) {
    && rank.Keys == t.Keys
    && (forall a, b :: Linked(t, a, b) && b in t ==> rank[a] < rank[b])
  }

  ghost predicate Acyclic(t: Table) {
    exists rank :: Ranks(t, rank)
  }

  ghost predicate Inv(t: Table) {
    WellLinked(t) && Acyclic(t)
  }

  lemma {:induction false} RankGrows(t: Table, rank: map<Id, nat>, p: seq<Id>, i: nat, j: nat)
    requires Ranks(t, rank) && Path(t, p) && i < j < |p|
    ensures rank[p[i]] < rank[p[j]]
    decreases j
  {
    assert Linked(t, p[j - 1], p[j]);
    if i < j - 1 {
      RankGrows(t, rank, p, i, j - 1);
    }
  }

  /** No path ever comes back to a token it has passed. */
  lemma NoCycles(t: Table, p: seq<Id>)
    requires Acyclic(t) && Path(t, p)
    ensures NoDuplicates(p)
  {
    var rank :| Ranks(t, rank);
    forall i, j | 0 <= i < j < |p| ensures p[i] != p[j] {
      RankGrows(t, rank, p, i, j);
    }
  }

  lemma {:induction false} DistinctFit(p: seq<Id>, s: set<Id>)
    requires NoDuplicates(p) && forall i :: 0 <= i < |p| ==> p[i] in s
    ensures |p| <= |s|
  {
    if p == [] {
    } else {
      var last := |p| - 1;
      DistinctFit(p[..last], s - {p[last]});
    }
  }

  lemma PathFits(t: Table, p: seq<Id>)
    requires Acyclic(t) && Path(t, p)
    ensures NoDuplicates(p) && |p| <= |t|
  {
    NoCycles(t, p);
    DistinctFit(p, t.Keys);
    assert |t.Keys| == |t|;
  }

  lemma SubPath(t: Table, p: seq<Id>, i: nat, j: nat)
    requires Path(t, p) && i < j <= |p|
    ensures Path(t, p[i..j])
  {
  }

  lemma PathGrows(t: Table, p: seq<Id>, q: seq<Id>)
    requires Inv(t) && Path(t, p) && Path(t, q) && Linked(t, p[|p| - 1], q[0])
    ensures Path(t, p + q) && NoDuplicates(p + q) && |p + q| <= |t|
  {
    PathFits(t, p + q);
  }

  // ---------------------------------------------------------------- families are maximal paths

  ghost predicate IsFirst(t: Table, a: Id) {
    forall b :: !Linked(t, b, a)
  }

  /** A path that can be extended at neither end. */
  ghost predicate Maximal(t: Table, p: seq<Id>) {
    Path(t, p) && IsFirst(t, p[0]) && t[p[|p| - 1]].replacedBy.None?
  }

  lemma {:induction false} ForwardStays(t: Table, chain: seq<Id>, k: nat, p: seq<Id>, i: nat)
    requires Maximal(t, chain) && k < |chain|
    requires Path(t, p) && p[0] == chain[k] && i < |p|
    ensures k + i < |chain| && p[i] == chain[k + i]
  {
    if i == 0 {
    } else {
      ForwardStays(t, chain, k, p, i - 1);
      assert Linked(t, p[i - 1], p[i]);
      assert k + i < |chain| ==> Linked(t, chain[k + i - 1], chain[k + i]);
    }
  }

  lemma {:induction false} BackwardStays(t: Table, chain: seq<Id>, k: nat, p: seq<Id>, i: nat)
    requires WellLinked(t) && Maximal(t, chain) && k < |chain|
    requires Path(t, p) && p[|p| - 1] == chain[k] && i < |p|
    ensures i <= k && p[|p| - 1 - i] == chain[k - i]
  {
    if i == 0 {
    } else {
      BackwardStays(t, chain, k, p, i - 1);
      assert Linked(t, p[|p| - 1 - i], p[|p| - i]);
      assert i <= k ==> Linked(t, chain[k - i], chain[k - i + 1]);
    }
  }

  lemma ChainInFamily(t: Table, chain: seq<Id>, k: nat, j: nat)
    requires Path(t, chain) && k < |chain| && j < |chain|
    ensures chain[j] in Family(t, chain[k])
  {
    var lo, hi := if k <= j then k else j, if k <= j then j else k;
    SubPath(t, chain, lo, hi + 1);
    var p := chain[lo..hi + 1];
    assert Path(t, p) && p[0] == chain[lo] && p[|p| - 1] == chain[hi];
  }

  lemma FamilyInChain(t: Table, chain: seq<Id>, k: nat, u: Id)
    requires WellLinked(t) && Maximal(t, chain) && k < |chain| && u in Family(t, chain[k])
    ensures u in chain
  {
    if Reaches(t, chain[k], u) {
      var p :| Path(t, p) && p[0] == chain[k] && p[|p| - 1] == u;
      ForwardStays(t, chain, k, p, |p| - 1);
    } else {
      var p :| Path(t, p) && p[0] == u && p[|p| - 1] == chain[k];
      BackwardStays(t, chain, k, p, |p| - 1);
    }
  }

  /** A maximal path is the family of each of its members. */
  lemma MaximalIsFamily(t: Table, chain: seq<Id>, k: nat)
    requires WellLinked(t) && Maximal(t, chain) && k < |chain|
    ensures forall u :: u in Family(t, chain[k]) <==> u in chain
  {
    forall u | u in chain ensures u in Family(t, chain[k]) {
      var j :| 0 <= j < |chain| && chain[j] == u;
      ChainInFamily(t, chain, k, j);
    }
    forall u | u in Family(t, chain[k]) ensures u in chain {
      FamilyInChain(t, chain, k, u);
    }
  }

  lemma {:induction false} Extend(t: Table, p: seq<Id>) returns (chain: seq<Id>, k: nat)
    requires Inv(t) && Path(t, p)
    ensures Maximal(t, chain) && k < |chain| && chain[k] == p[0]
    decreases |t| - |p|
  {
    PathFits(t, p);
    var last := p[|p| - 1];
    if t[last].replacedBy.Some? {
      PathGrows(t, p, [t[last].replacedBy.value]);
      chain, k := Extend(t, p + [t[last].replacedBy.value]);
    } else if !IsFirst(t, p[0]) {
      var b :| Linked(t, b, p[0]);
      PathGrows(t, [b], p);
      chain, k := Extend(t, [b] + p);
      assert Linked(t, chain[k], p[0]);
      assert k + 1 < |chain| ==> Linked(t, chain[k], chain[k + 1]);
      k := k + 1;
    } else {
      chain, k := p, 0;
    }
  }

  /** Every family is one simple path, of one user, in which only the last token can be live. */
  lemma FamilyIsPath(t: Table, a: Id) returns (chain: seq<Id>)
    requires Inv(t) && a in t
    ensures Maximal(t, chain) && NoDuplicates(chain)
    ensures forall u :: u in Family(t, a) <==> u in chain
    ensures forall i :: 0 <= i < |chain| - 1 ==> t[chain[i]].isRevoked
    ensures forall i :: 0 <= i < |chain| ==> t[chain[i]].userId == t[a].userId
  {
    assert Path(t, [a]);
    var k;
    chain, k := Extend(t, [a]);
    NoCycles(t, chain);
    MaximalIsFamily(t, chain, k);
    forall i | 0 <= i < |chain| ensures t[chain[i]].userId == t[a].userId {
      SameUser(t, chain, 0, i);
      SameUser(t, chain, 0, k);
    }
    forall i | 0 <= i < |chain| - 1 ensures t[chain[i]].isRevoked {
      assert Linked(t, chain[i], chain[i + 1]);
    }
  }

  lemma {:induction false} SameUser(t: Table, p: seq<Id>, i: nat, j: nat)
    requires WellLinked(t) && Path(t, p) && i <= j < |p|
    ensures t[p[i]].userId == t[p[j]].userId
    decreases j
  {
    if i == j {
    } else {
      SameUser(t, p, i, j - 1);
      assert Linked(t, p[j - 1], p[j]);
    }
  }

  // ---------------------------------------------------------------- collecting a family

  /** The first walk of `_revoke_token_family`: along `replaced_by_token_id` to the newest token.
      It ends because a path never repeats a token. */
  method WalkForward(t: Table, start: Id) returns (walked: seq<Id>)
    requires Inv(t) && start in t
    ensures Path(t, walked) && walked[0] == start && t[walked[|walked| - 1]].replacedBy.None?
  {
    walked := [start];
    var current := start;
    PathFits(t, walked);
    while t[current].replacedBy.Some?
      invariant Path(t, walked) && |walked| <= |t|
      invariant walked[0] == start && walked[|walked| - 1] == current
      decreases |t| - |walked|
    {
      var next := t[current].replacedBy.value;
      assert Linked(t, current, next);
      if next !in t {
        break;
      }
      PathGrows(t, walked, [next]);
      walked := walked + [next];
      current := next;
    }
  }

  /** The second walk: from the presented token back to the root, adding what is not yet listed. */
  method WalkBackward(t: Table, start: Id, walked: seq<Id>) returns (collected: seq<Id>)
    requires Inv(t) && Path(t, walked) && walked[0] == start && t[walked[|walked| - 1]].replacedBy.None?
    ensures NoDuplicates(collected)
    ensures forall u :: u in collected <==> u in Family(t, start)
  {
    collected := walked;
    var current := start;
    ghost var chain := walked;
    PathFits(t, chain);
    while true
      invariant Path(t, chain) && |walked| <= |chain| <= |t|
      invariant NoDuplicates(collected) && Same(collected, chain)
      invariant chain[0] == current && chain[|chain| - |walked|..] == walked
      decreases |t| - |chain|
    {
      if !exists b :: b in t && t[b].replacedBy == Some(current) {
        assert IsFirst(t, current);
        break;
      }
      var prev :| prev in t && t[prev].replacedBy == Some(current);
      PathGrows(t, [prev], chain);
      SameGrows(collected, chain, prev);
      if prev !in collected {
        collected := collected + [prev];
      }
      chain := [prev] + chain;
      current := prev;
    }
    SuffixEnds(chain, walked);
    MaximalIsFamily(t, chain, |chain| - |walked|);
  }

  lemma SuffixEnds(chain: seq<Id>, walked: seq<Id>)
    requires walked != [] && |walked| <= |chain| && chain[|chain| - |walked|..] == walked
    ensures chain[|chain| - |walked|] == walked[0] && chain[|chain| - 1] == walked[|walked| - 1]
  {
    var k := |chain| - |walked|;
    assert chain[k..][0] == walked[0] && chain[k..][|walked| - 1] == walked[|walked| - 1];
  }

  ghost predicate Same(p: seq<Id>, q: seq<Id>) {
    forall u :: u in p <==> u in q
  }

  lemma SameGrows(p: seq<Id>, q: seq<Id>, a: Id)
    requires Same(p, q) && NoDuplicates(p) && NoDuplicates([a] + q)
    ensures a !in p && NoDuplicates(p + [a]) && Same(p + [a], [a] + q)
  {
    assert ([a] + q)[0] == a;
    assert forall i :: 0 <= i < |q| ==> q[i] == ([a] + q)[i + 1];
  }

  // ---------------------------------------------------------------- changes to the table

  function RevokeAll(t: Table, ids: set<Id>): (r: Table)
    ensures r.Keys == t.Keys
  {
    map a | a in t :: if a in ids then t[a].(isRevoked := true) else t[a]
  }

  function Rotate(t: Table, oldId: Id, newId: Id, row: RefreshToken): Table
    requires oldId in t
  {
    t[newId := row][oldId := t[oldId].(isRevoked := true, replacedBy := Some(newId))]
  }

  lemma RevokeAllKeepsInv(t: Table, ids: set<Id>)
    requires Inv(t)
    ensures Inv(RevokeAll(t, ids))
  {
    var r := RevokeAll(t, ids);
    var rank :| Ranks(t, rank);
    forall a, b | Linked(r, a, b)
      ensures b in r && r[a].isRevoked && r[b].userId == r[a].userId && rank[a] < rank[b]
    {
      assert Linked(t, a, b);
    }
    forall a, b, c | Linked(r, a, c) && Linked(r, b, c) ensures a == b {
      assert Linked(t, a, c) && Linked(t, b, c);
    }
    assert Ranks(r, rank);
  }

  lemma RevokeAllKeepsFamilies(t: Table, ids: set<Id>, a: Id)
    ensures Family(RevokeAll(t, ids), a) == Family(t, a)
  {
    var r := RevokeAll(t, ids);
    assert forall x, y :: Linked(r, x, y) <==> Linked(t, x, y);
    assert forall p :: Path(r, p) <==> Path(t, p);
  }

  /** Changing links elsewhere, or adding tokens, leaves a family as it was. */
  lemma FamilyUnaffected(t: Table, r: Table, a: Id, oldId: Id, newId: Id)
    requires Inv(t) && Inv(r) && a in t && newId !in t && oldId !in Family(t, a)
    requires t.Keys <= r.Keys
    requires forall b :: b in t && b != oldId ==> r[b].replacedBy == t[b].replacedBy
    requires forall b, c :: Linked(r, b, c) ==> Linked(t, b, c) || c == newId
    ensures Family(r, a) == Family(t, a)
  {
    var chain := FamilyIsPath(t, a);
    assert a in chain by {
      assert Path(t, [a]) && [a][0] == a;
    }
    var k :| 0 <= k < |chain| && chain[k] == a;
    assert forall i :: 0 <= i < |chain| ==> chain[i] in Family(t, a);
    forall i, j | 0 <= i && j == i + 1 < |chain| ensures Linked(r, chain[i], chain[j]) {
      assert Linked(t, chain[i], chain[j]);
    }
    MaximalIsFamily(r, chain, k);
  }

  lemma InsertKeepsInv(t: Table, newId: Id, row: RefreshToken)
    requires Inv(t) && newId !in t && row.replacedBy.None?
    requires forall a :: a in t ==> t[a].tokenHash != row.tokenHash
    ensures Inv(t[newId := row])
  {
    var r := t[newId := row];
    var rank :| Ranks(t, rank);
    assert forall a, b :: Linked(r, a, b) ==> Linked(t, a, b);
    assert Ranks(r, rank[newId := 0]);
  }

  /** A link that is overwritten is one link less. */
  lemma RotateKeepsInv(t: Table, oldId: Id, newId: Id, row: RefreshToken)
    requires Inv(t) && oldId in t
    requires newId !in t && row.replacedBy.None? && row.userId == t[oldId].userId
    requires forall a :: a in t ==> t[a].tokenHash != row.tokenHash
    ensures Inv(Rotate(t, oldId, newId, row))
  {
    var r := Rotate(t, oldId, newId, row);
    var rank :| Ranks(t, rank);
    assert forall a, b :: Linked(r, a, b) ==> Linked(t, a, b) || (a == oldId && b == newId);
    assert Ranks(r, rank[newId := rank[oldId] + 1]);
  }
}
