/** The table of counters by key (app/middleware/rate_limit.py, RateLimiter). */
module RateLimiter {
  import opened Transactions
  import opened SlidingWindow

  // ---------------------------------------------------------------- the table as a value

  datatype Group = AuthFailures | InvitationAccept | ResetRequest | ResetConfirm | Agent | Tenant

  /** An endpoint group and a client; clients (an IP, an org, an agent key) are known by number. */
  datatype Key = Key(group: Group, client: nat)

  datatype Call = Call(key: Key, window: nat, max: int, now: real)

  /** `get_counter`: a key keeps the parameters of its first call. */
  function CounterFor(table: map<Key, CounterState>, c: Call): CounterState {
    if c.key in table then table[c.key] else CounterState(c.window, c.max, [])
  }

  /** What `check` makes of a decision. */
  function Reply(d: Decision): Outcome<(int, int), Decision> {
    match d
    case Allowed(remaining) => Returned((0, remaining))
    case Denied(retryAfter) => Returned((retryAfter, 0))
    case IndexError => Raised(d)
  }

  /** `check` raises exactly on a counter built without a positive limit; otherwise it answers 0
      exactly on admission. */
  lemma ZeroMeansAdmitted(c: CounterState, clock: real, now: real)
    requires Sorted(c.log, clock) && clock <= now && Bounded(c.log, c.window, c.max)
    ensures Reply(Answer(c, now)).Raised? <==> c.max <= 0
    ensures c.max > 0 ==>
      var wait := Reply(Answer(c, now)).value.0; wait >= 0 && (wait == 0 <==> Answer(c, now).Allowed?)
  {
    RaisesOnlyWithoutLimit(c.log, c.window, c.max, now);
    if Answer(c, now).Denied? {
      RetryAfterIsLeast(c.log, c.window, c.max, clock, now, 1);
    }
  }

  /** What the two numbers of a reply mean: an admitted caller is told how many more admissions the window has
      room for; a refused one is told 0 of them and the least whole number of seconds after which it is
      admitted. */
  lemma ReplyExactly(c: CounterState, clock: real, now: real, k: nat)
    requires Sorted(c.log, clock) && clock <= now && Bounded(c.log, c.window, c.max) && c.max > 0 && k >= 1
    ensures var n := CountIn(c.log, now - c.window as real, now);
      var reply := Reply(Answer(c, now));
      && reply.Returned?
      && var (wait, remaining) := reply.value;
         if n < c.max
         then wait == 0 && remaining == c.max - CountIn(Next(c, now).log, now - c.window as real, now)
         else
           && remaining == 0 && 1 <= wait <= c.window + 1
           && (CountIn(c.log, now + k as real - c.window as real, now + k as real) < c.max <==> k >= wait)
  {
    RaisesOnlyWithoutLimit(c.log, c.window, c.max, now);
    assert (c.log + [now])[..|c.log|] == c.log;
    if Answer(c, now).Denied? {
      RetryAfterIsLeast(c.log, c.window, c.max, clock, now, k);
    }
  }

  // ---------------------------------------------------------------- traces

  function TableAfter(calls: seq<Call>): map<Key, CounterState> {
    if calls == [] then map[]
    else
      var before := TableAfter(calls[..|calls| - 1]);
      var c := calls[|calls| - 1];
      before[c.key := Next(CounterFor(before, c), c.now)]
  }

  /** The answers an interleaved trace gives to one key's calls. */
  function AnswersTo(calls: seq<Call>, key: Key): seq<Decision> {
    if calls == [] then []
    else
      var c := calls[|calls| - 1];
      var earlier := AnswersTo(calls[..|calls| - 1], key);
      if c.key != key then earlier
      else earlier + [Answer(CounterFor(TableAfter(calls[..|calls| - 1]), c), c.now)]
  }

  function CallsOf(calls: seq<Call>, key: Key): seq<Call> {
    if calls == [] then []
    else
      var c := calls[|calls| - 1];
      var earlier := CallsOf(calls[..|calls| - 1], key);
      if c.key != key then earlier else earlier + [c]
  }

  /** One key's calls alone, on one counter. */
  function CounterAfter(counter: CounterState, calls: seq<Call>): CounterState {
    if calls == [] then counter
    else Next(CounterAfter(counter, calls[..|calls| - 1]), calls[|calls| - 1].now)
  }

  function AnswersAlone(counter: CounterState, calls: seq<Call>): seq<Decision> {
    if calls == [] then []
    else
      AnswersAlone(counter, calls[..|calls| - 1]) +
      [Answer(CounterAfter(counter, calls[..|calls| - 1]), calls[|calls| - 1].now)]
  }

  lemma {:induction false} TablesProject(calls: seq<Call>, key: Key)
    ensures key in TableAfter(calls) <==> CallsOf(calls, key) != []
    ensures CallsOf(calls, key) != [] ==>
      TableAfter(calls)[key] == CounterAfter(FirstCounter(CallsOf(calls, key)), CallsOf(calls, key))
  {
    if calls == [] {
    } else {
      TablesProject(calls[..|calls| - 1], key);
      if calls[|calls| - 1].key == key {
        Snoc(CallsOf(calls[..|calls| - 1], key), calls[|calls| - 1]);
      }
    }
  }

  /** The counter a key's first call builds. */
  function FirstCounter(calls: seq<Call>): CounterState
    requires calls != []
  {
    CounterState(calls[0].window, calls[0].max, [])
  }

  lemma Snoc<T>(s: seq<T>, a: T)
    ensures (s + [a])[..|s + [a]| - 1] == s && (s + [a])[|s + [a]| - 1] == a
    ensures (s + [a])[0] == if s == [] then a else s[0]
  {
  }

  /** A key's calls in any interleaved trace are answered as they would be alone, on a counter
      built with the parameters of its first call. */
  lemma {:induction false} KeysAreIndependent(calls: seq<Call>, key: Key)
    ensures AnswersTo(calls, key) ==
      if CallsOf(calls, key) == [] then []
      else AnswersAlone(FirstCounter(CallsOf(calls, key)), CallsOf(calls, key))
  {
    if calls == [] {
    } else {
      var earlier := calls[..|calls| - 1];
      KeysAreIndependent(earlier, key);
      TablesProject(earlier, key);
      if calls[|calls| - 1].key == key {
        Snoc(CallsOf(earlier, key), calls[|calls| - 1]);
      }
    }
  }

  /** Over any trace at nondecreasing times, every closed window of every key holds at most its
      limit of admissions. */
  lemma {:induction false} EveryWindowIsBounded(calls: seq<Call>, key: Key, clock: real)
    requires forall i, j :: 0 <= i < j < |calls| ==> calls[i].now <= calls[j].now
    requires forall i :: 0 <= i < |calls| ==> calls[i].now <= clock
    requires key in TableAfter(calls)
    ensures var c := TableAfter(calls)[key]; Sorted(c.log, clock) && Bounded(c.log, c.window, c.max)
  {
    var earlier := calls[..|calls| - 1];
    var last := calls[|calls| - 1];
    if key in TableAfter(earlier) {
      EveryWindowIsBounded(earlier, key, last.now);
    } else {
      assert Bounded([], last.window, last.max);
    }
    if last.key == key {
      var c := CounterFor(TableAfter(earlier), last);
      AdmitKeepsBounded(c.log, c.window, c.max, last.now, last.now);
    }
  }

  lemma Overwrite<K, V>(m: map<K, V>, k: K, v: V, w: V)
    ensures m[k := v][k := w] == m[k := w]
  {
  }

  // ---------------------------------------------------------------- the limiter

  /** The limiter as a value: its counters, and the time of the latest call. */
  datatype LimiterState = LimiterState(table: map<Key, CounterState>, clock: real)

  class Limiter {
    var counters: map<Key, SlidingWindowCounter>
    ghost var state: LimiterState
    ghost var owner: map<SlidingWindowCounter, Key>  // no counter serves two keys

    ghost predicate Valid()
      reads this, owner.Keys
    {
      && state.table.Keys == counters.Keys
      && (forall k :: k in counters ==> counters[k] in owner && owner[counters[k]] == k)
      && (forall k :: k in counters ==>
            counters[k].Valid() && counters[k].clock <= state.clock && counters[k].state == state.table[k])
    }

    constructor (ghost now: real)
      ensures Valid() && state == LimiterState(map[], now) && owner == map[]
    {
      counters, state, owner := map[], LimiterState(map[], now), map[];
    }

    method GetCounter(key: Key, windowSeconds: nat, maxRequests: int) returns (c: SlidingWindowCounter)
      requires Valid()
      modifies this
      ensures Valid() && fresh(owner.Keys - old(owner.Keys))
      ensures key in counters && counters[key] == c
      ensures state.clock == old(state.clock)
      ensures var was := old(state.table);
        state.table == was[key := CounterFor(was, Call(key, windowSeconds, maxRequests, state.clock))]
    {
      if key !in counters {
        c := new SlidingWindowCounter(windowSeconds, maxRequests, state.clock);
        counters := counters[key := c];
        owner := owner[c := key];
        state := state.(table := state.table[key := c.state]);
      } else {
        c := counters[key];
      }
    }

    /** (retry_after, remaining): the table moves as its specification says. */
    method Check(key: Key, windowSeconds: nat, maxRequests: int, now: real)
      returns (r: Outcome<(int, int), Decision>)
      requires Valid() && state.clock <= now
      modifies this, owner.Keys
      ensures Valid() && fresh(owner.Keys - old(owner.Keys))
      ensures var counter := CounterFor(old(state.table), Call(key, windowSeconds, maxRequests, now));
        state == LimiterState(old(state.table)[key := Next(counter, now)], now) && r == Reply(Answer(counter, now))
    {
      var _ := GetCounter(key, windowSeconds, maxRequests);
      Overwrite(old(state.table), key, state.table[key], Next(state.table[key], now));
      var d := Ask(key, now);
      r := Reply(d);
    }

    /** The decision of a key's counter. */
    method Ask(key: Key, now: real) returns (d: Decision)
      requires Valid() && state.clock <= now && key in counters
      modifies this`state, counters[key]
      ensures Valid() && d == Answer(old(state.table)[key], now)
      ensures state == LimiterState(old(state.table)[key := Next(old(state.table)[key], now)], now)
    {
      d := counters[key].IsAllowed(now);
      state := LimiterState(state.table[key := Next(state.table[key], now)], now);
      forall k | k in counters
        ensures counters[k].Valid() && counters[k].clock <= now && counters[k].state == state.table[k]
      {
        assert k == key || counters[k] != counters[key];
      }
    }

    lemma CountersAreSound(key: Key, windowSeconds: nat, maxRequests: int)
      requires Valid()
      ensures var c := CounterFor(state.table, Call(key, windowSeconds, maxRequests, state.clock));
        Sorted(c.log, state.clock) && Bounded(c.log, c.window, c.max)
    {
      if key !in counters {
        assert Bounded([], windowSeconds, maxRequests);
      }
    }
  }
}
