/** The per-organization allowed-origins cache (app/middleware/cors.py, `_get_allowed_origins`),
    filled by requests that interleave at the database read. */
module OriginsCache {
  type Org = nat
  type Origins = seq<string>

  const TTL := 60.0

  datatype Entry = Entry(origins: Origins, expiry: real)

  // ---------------------------------------------------------------- the dictionary

  datatype Lookup = Hit(origins: Origins) | Miss

  class Cache {
    var entries: map<Org, Entry>

    constructor ()
      ensures entries == map[]
    {
      entries := map[];
    }

    /** Up to the first await: serve an unexpired entry, or drop an expired one. */
    method Get(org: Org, now: real) returns (found: Lookup)
      modifies this
      ensures (entries, found) == Looked(old(entries), org, now)
    {
      if org in entries {
        var entry := entries[org];
        if now < entry.expiry {
          return Hit(entry.origins);
        }
        entries := entries - {org};
      }
      return Miss;
    }

    /** After the await; `started` is the time the request read before it. */
    method Put(org: Org, origins: Origins, started: real)
      modifies this
      ensures entries == old(entries)[org := Entry(origins, started + TTL)]
    {
      entries := entries[org := Entry(origins, started + TTL)];
    }
  }

  function Looked(entries: map<Org, Entry>, org: Org, now: real): (map<Org, Entry>, Lookup) {
    if org !in entries then (entries, Miss)
    else if now < entries[org].expiry then (entries, Hit(entries[org].origins))
    else (entries - {org}, Miss)
  }

  // ---------------------------------------------------------------- interleaved requests

  type Rid = nat

  /** A request waiting for the database, and later holding its answer. */
  datatype Fetch = Waiting(org: Org, started: real) | Fetched(org: Org, started: real, origins: Origins)

  datatype System = System(
    clock: real,
    database: map<Org, Origins>,
    entries: map<Org, Entry>,
    fetches: map<Rid, Fetch>)

  datatype Action =
    | Tick(to: real)
    | Update(updated: Org, origins: Origins)  // an administrator edits or creates the organization
    | Remove(removed: Org)                    // or soft-deletes it
    | Start(rid: Rid, org: Org)
    | Read(rid: Rid)
    | Finish(rid: Rid)
    | Fail(rid: Rid)
    | Invalidate(invalidated: Org)            // an external deletion from the dictionary

  /** What the database answers; no organization is the empty list. */
  function Answer(database: map<Org, Origins>, org: Org): Origins {
    if org in database then database[org] else []
  }

  predicate Enabled(s: System, a: Action) {
    match a
    case Tick(to) => s.clock <= to
    case Start(rid, _) => rid !in s.fetches
    case Read(rid) => rid in s.fetches && s.fetches[rid].Waiting?
    case Finish(rid) => rid in s.fetches && s.fetches[rid].Fetched?
    case Fail(rid) => rid in s.fetches
    case _ => true
  }

  function Next(s: System, a: Action): System
    requires Enabled(s, a)
  {
    match a
    case Tick(to) => s.(clock := to)
    case Update(org, origins) => s.(database := s.database[org := origins])
    case Remove(org) => s.(database := s.database - {org})
    case Start(rid, org) =>
      var (entries, found) := Looked(s.entries, org, s.clock);
      s.(entries := entries, fetches := if found.Hit? then s.fetches else s.fetches[rid := Waiting(org, s.clock)])
    case Read(rid) =>
      var f := s.fetches[rid];
      s.(fetches := s.fetches[rid := Fetched(f.org, f.started, Answer(s.database, f.org))])
    case Finish(rid) =>
      var f := s.fetches[rid];
      s.(entries := s.entries[f.org := Entry(f.origins, f.started + TTL)], fetches := s.fetches - {rid})
    case Fail(rid) => s.(fetches := s.fetches - {rid})
    case Invalidate(org) => s.(entries := s.entries - {org})
  }

  ghost predicate IsRun(s: seq<System>, actions: seq<Action>) {
    && |s| == |actions| + 1
    && s[0].entries == map[] && s[0].fetches == map[]
    && forall i :: 0 <= i < |actions| ==> Enabled(s[i], actions[i]) && s[i + 1] == Next(s[i], actions[i])
  }

  /** In state i the database answered `origins` for org, no earlier than `since`. */
  predicate AnsweredAt(s: seq<System>, i: int, org: Org, origins: Origins, since: real) {
    0 <= i < |s| && Answer(s[i].database, org) == origins && s[i].clock >= since
  }

  ghost predicate AnsweredBy(s: seq<System>, k: int, org: Org, origins: Origins, since: real) {
    exists i :: i <= k && AnsweredAt(s, i, org, origins, since)
  }

  /** Every cached or fetched list was the database's answer, and its lifetime counts from no later. */
  ghost predicate Backed(s: seq<System>, k: int)
    requires 0 <= k < |s|
  {
    && (forall org :: org in s[k].entries ==>
        AnsweredBy(s, k, org, s[k].entries[org].origins, s[k].entries[org].expiry - TTL))
    && (forall rid :: rid in s[k].fetches ==>
          var f := s[k].fetches[rid];
          f.started <= s[k].clock && (f.Fetched? ==> AnsweredBy(s, k, f.org, f.origins, f.started)))
  }

  lemma AnswersStay(s: seq<System>, k: int, org: Org, origins: Origins, since: real)
    requires AnsweredBy(s, k, org, origins, since)
    ensures AnsweredBy(s, k + 1, org, origins, since)
  {
    var i :| i <= k && AnsweredAt(s, i, org, origins, since);
    assert i <= k + 1 && AnsweredAt(s, i, org, origins, since);
  }

  lemma StepKeepsEntry(s: seq<System>, actions: seq<Action>, k: nat, org: Org)
    requires IsRun(s, actions) && k < |actions| && Backed(s, k) && org in s[k + 1].entries
    ensures AnsweredBy(s, k + 1, org, s[k + 1].entries[org].origins, s[k + 1].entries[org].expiry - TTL)
  {
    var before, t, a := s[k], s[k + 1], actions[k];
    assert t == Next(before, a);
    if a.Finish? && before.fetches[a.rid].org == org {
      var f := before.fetches[a.rid];
      assert t.entries[org].expiry - TTL == f.started;
      AnswersStay(s, k, org, f.origins, f.started);
    } else {
      assert org in before.entries && t.entries[org] == before.entries[org];
      AnswersStay(s, k, org, t.entries[org].origins, t.entries[org].expiry - TTL);
    }
  }

  lemma StepKeepsFetch(s: seq<System>, actions: seq<Action>, k: nat, rid: Rid)
    requires IsRun(s, actions) && k < |actions| && Backed(s, k) && rid in s[k + 1].fetches
    ensures var f := s[k + 1].fetches[rid];
      f.started <= s[k + 1].clock && (f.Fetched? ==> AnsweredBy(s, k + 1, f.org, f.origins, f.started))
  {
    var before, t, a := s[k], s[k + 1], actions[k];
    assert t == Next(before, a);
    var f := t.fetches[rid];
    if a == Read(rid) {
      assert AnsweredAt(s, k + 1, f.org, f.origins, f.started);
    } else if rid in before.fetches {
      assert f == before.fetches[rid];
      if f.Fetched? {
        AnswersStay(s, k, f.org, f.origins, f.started);
      }
    }
  }

  lemma StepKeepsBacked(s: seq<System>, actions: seq<Action>, k: nat)
    requires IsRun(s, actions) && k < |actions| && Backed(s, k)
    ensures Backed(s, k + 1)
  {
    var t := s[k + 1];
    forall org | org in t.entries
      ensures AnsweredBy(s, k + 1, org, t.entries[org].origins, t.entries[org].expiry - TTL)
    {
      StepKeepsEntry(s, actions, k, org);
    }
    forall rid | rid in t.fetches
      ensures var f := t.fetches[rid];
        f.started <= t.clock && (f.Fetched? ==> AnsweredBy(s, k + 1, f.org, f.origins, f.started))
    {
      StepKeepsFetch(s, actions, k, rid);
    }
  }

  lemma {:induction false} RunIsBacked(s: seq<System>, actions: seq<Action>, k: nat)
    requires IsRun(s, actions) && k < |s|
    ensures Backed(s, k)
  {
    if k == 0 {
    } else {
      RunIsBacked(s, actions, k - 1);
      StepKeepsBacked(s, actions, k - 1);
    }
  }

  lemma {:induction false} ClockGrows(s: seq<System>, actions: seq<Action>, i: nat, k: nat)
    requires IsRun(s, actions) && i <= k < |s|
    ensures s[i].clock <= s[k].clock
    decreases k - i
  {
    if i == k {
    } else {
      ClockGrows(s, actions, i + 1, k);
    }
  }

  /** Bounded staleness: a list served from the cache was the database's answer less than 60
      seconds ago, whatever fills, expiries, deletions, failures and updates came in between. */
  lemma ServedListsAreFresh(s: seq<System>, actions: seq<Action>, k: nat, origins: Origins) returns (i: nat)
    requires IsRun(s, actions) && k < |actions| && actions[k].Start?
    requires Looked(s[k].entries, actions[k].org, s[k].clock).1 == Hit(origins)
    ensures i <= k && Answer(s[i].database, actions[k].org) == origins
    ensures s[i].clock <= s[k].clock && s[k].clock - s[i].clock < TTL
  {
    RunIsBacked(s, actions, k);
    var org := actions[k].org;
    var since := s[k].entries[org].expiry - TTL;
    var n :| n <= k && AnsweredAt(s, n, org, origins, since);
    i := n;
    ClockGrows(s, actions, i, k);
  }

  /** A list that a request fetched itself was the database's answer while the request ran. */
  lemma FetchedListsAreFresh(s: seq<System>, actions: seq<Action>, k: nat) returns (i: nat)
    requires IsRun(s, actions) && k < |actions| && actions[k].Finish?
    ensures var f := s[k].fetches[actions[k].rid];
      i <= k && Answer(s[i].database, f.org) == f.origins && f.started <= s[i].clock <= s[k].clock
  {
    RunIsBacked(s, actions, k);
    var f := s[k].fetches[actions[k].rid];
    var n :| n <= k && AnsweredAt(s, n, f.org, f.origins, f.started);
    i := n;
    ClockGrows(s, actions, i, k);
  }

  // ---------------------------------------------------------------- how long a list is served

  /** The action stores or deletes the organization's list. */
  predicate Touches(s: System, a: Action, org: Org)
    requires Enabled(s, a)
  {
    (a.Finish? && s.fetches[a.rid].org == org) || (a.Invalidate? && a.invalidated == org)
  }

  /** A list stored by a request that started at t is served exactly before t + 60 seconds, until another
      request stores or somebody deletes the organization's entry. */
  lemma StoredListIsServed(s: seq<System>, actions: seq<Action>, i: nat, k: nat)
    requires IsRun(s, actions) && i < k < |actions| && actions[i].Finish? && actions[k].Start?
    requires actions[k].org == s[i].fetches[actions[i].rid].org
    requires forall n :: i < n < k ==> !Touches(s[n], actions[n], actions[k].org)
    ensures var f := s[i].fetches[actions[i].rid];
      if s[k].clock < f.started + 60.0
      then Looked(s[k].entries, f.org, s[k].clock).1 == Hit(f.origins) && s[k + 1] == s[k]
      else Looked(s[k].entries, f.org, s[k].clock).1 == Miss
           && s[k + 1].fetches[actions[k].rid] == Waiting(f.org, s[k].clock)
  {
    EntryStays(s, actions, i, k, actions[k].org);
    assert s[k + 1] == Next(s[k], actions[k]);
  }

  lemma {:induction false} EntryStays(s: seq<System>, actions: seq<Action>, i: nat, k: nat, org: Org)
    requires IsRun(s, actions) && i < k < |s| && actions[i].Finish? && org == s[i].fetches[actions[i].rid].org
    requires forall n :: i < n < k ==> !Touches(s[n], actions[n], org)
    ensures var f := s[i].fetches[actions[i].rid];
      if org in s[k].entries then s[k].entries[org] == Entry(f.origins, f.started + 60.0)
      else f.started + 60.0 <= s[k].clock
  {
    assert s[k] == Next(s[k - 1], actions[k - 1]);
    if k == i + 1 {
    } else {
      EntryStays(s, actions, i, k - 1, org);
    }
  }

  /** A request that finds no list stores what the database answers, counted from its own start. */
  lemma FillExactly(s: System, rid: Rid, org: Org)
    requires rid !in s.fetches && (org in s.entries ==> s.entries[org].expiry <= s.clock)
    ensures var t := Next(s, Start(rid, org));
      && Enabled(t, Read(rid)) && Enabled(Next(t, Read(rid)), Finish(rid))
      && Next(Next(t, Read(rid)), Finish(rid)).entries ==
         s.entries[org := Entry(if org in s.database then s.database[org] else [], s.clock + 60.0)]
      && Next(Next(t, Read(rid)), Finish(rid)).fetches == s.fetches
  {
  }
}
