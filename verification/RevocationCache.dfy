/** The in-memory cache of revoked token identifiers (app/modules/auth/service.py, RevocationCache). */
module RevocationCache {
  type Jti = nat

  /** A row of revoked_tokens. */
  datatype RevokedToken = RevokedToken(jti: Jti, revokedAt: real, expiresAt: real)

  /** What a store that never evicts would hold after warming from the table. */
  function Warmed(recorded: map<Jti, real>, rows: seq<RevokedToken>, now: real): map<Jti, real> {
    if rows == [] then recorded
    else
      var earlier := Warmed(recorded, rows[..|rows| - 1], now);
      var row := rows[|rows| - 1];
      if row.expiresAt > now then earlier[row.jti := row.revokedAt] else earlier
  }

  /** Row i is the last unexpired one of its identifier. */
  ghost predicate LastRow(rows: seq<RevokedToken>, now: real, j: Jti, i: nat) {
    && i < |rows| && rows[i].jti == j && rows[i].expiresAt > now
    && forall k :: i < k < |rows| && rows[k].jti == j ==> rows[k].expiresAt <= now
  }

  /** Warming records the identifiers of the unexpired rows, each at the time of its last one, and keeps the
      others as they were. */
  lemma {:induction false} WarmedExactly(recorded: map<Jti, real>, rows: seq<RevokedToken>, now: real, j: Jti)
    ensures var w := Warmed(recorded, rows, now);
      && (j in w <==> j in recorded || exists i: nat :: LastRow(rows, now, j, i))
      && (forall i: nat :: LastRow(rows, now, j, i) ==> j in w && w[j] == rows[i].revokedAt)
      && (j in w && !(exists i: nat :: LastRow(rows, now, j, i)) ==> j in recorded && w[j] == recorded[j])
  {
    if rows == [] {
    } else {
      var k := |rows| - 1;
      WarmedExactly(recorded, rows[..k], now, j);
      if rows[k].jti == j && rows[k].expiresAt > now {
        assert LastRow(rows, now, j, k);
      } else {
        forall i: nat ensures LastRow(rows, now, j, i) <==> LastRow(rows[..k], now, j, i) {
        }
      }
    }
  }

  class Cache {
    const ttl: real
    var store: map<Jti, real>
    ghost var recorded: map<Jti, real>  // the same, never evicting
    ghost var clock: real               // the latest call

    /** What the store has lost was already too old. */
    ghost predicate Valid()
      reads this
    {
      && (forall j :: j in store ==> j in recorded && recorded[j] == store[j])
      && (forall j :: j in recorded && j !in store ==> clock - recorded[j] > ttl)
    }

    constructor (ttl: real, ghost now: real)
      ensures Valid() && this.ttl == ttl && recorded == map[] && clock == now
    {
      this.ttl := ttl;
      store, recorded, clock := map[], map[], now;
    }

    method Revoke(jti: Jti, now: real)
      requires Valid() && clock <= now
      modifies this
      ensures Valid() && clock == now && recorded == old(recorded)[jti := now]
    {
      store, recorded, clock := store[jti := now], recorded[jti := now], now;
    }

    /** Answers as the store that never evicts: recorded, and last recorded at most the TTL ago. */
    method IsRevoked(jti: Jti, now: real) returns (r: bool)
      requires Valid() && clock <= now
      modifies this
      ensures Valid() && clock == now && recorded == old(recorded)
      ensures r <==> jti in recorded && now - recorded[jti] <= ttl
      ensures store == map j | j in old(store) && now - old(store)[j] <= ttl :: old(store)[j]
    {
      EvictExpired(now);
      r := jti in store;
    }

    method EvictExpired(now: real)
      requires Valid() && clock <= now
      modifies this
      ensures Valid() && clock == now && recorded == old(recorded)
      ensures store == map j | j in old(store) && now - old(store)[j] <= ttl :: old(store)[j]
    {
      var expired := set j | j in store && now - store[j] > ttl;
      clock := now;
      ghost var todo := expired;
      while expired != {}
        invariant expired <= todo && recorded == old(recorded) && clock == now
        invariant store == map j | j in old(store) && (j in expired || j !in todo) :: old(store)[j]
        decreases expired
      {
        var k :| k in expired;
        store := store - {k};
        expired := expired - {k};
      }
    }

    /** What `IsRevoked` affirms after warming: the identifiers of unexpired rows, for the TTL counted from
        the revocation, beside those it affirmed before. */
    method WarmFromDb(rows: seq<RevokedToken>, now: real)
      requires Valid() && clock <= now
      modifies this
      ensures Valid() && clock == now && recorded == Warmed(old(recorded), rows, now)
      ensures forall j, i: nat :: LastRow(rows, now, j, i) ==> j in recorded && recorded[j] == rows[i].revokedAt
      ensures forall j :: (forall i: nat :: !LastRow(rows, now, j, i)) ==>
        (j in recorded <==> j in old(recorded)) && (j in recorded ==> recorded[j] == old(recorded)[j])
    {
      forall j {
        WarmedExactly(recorded, rows, now, j);
      }
      clock := now;
      for i := 0 to |rows|
        invariant Valid() && clock == now && recorded == Warmed(old(recorded), rows[..i], now)
      {
        assert rows[..i + 1][..i] == rows[..i];
        if rows[i].expiresAt > now {
          store := store[rows[i].jti := rows[i].revokedAt];
          recorded := recorded[rows[i].jti := rows[i].revokedAt];
        }
      }
      assert rows[..|rows|] == rows;
    }
  }
}
