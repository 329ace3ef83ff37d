/** The sliding-window counter (app/middleware/rate_limit.py). Times are reals and do not decrease. */
module SlidingWindow {

  /** The answer of `is_allowed`; with no request allowed at all the deque is empty and
      indexing it raises. */
  datatype Decision = Allowed(remaining: int) | Denied(retryAfter: int) | IndexError

  // ---------------------------------------------------------------- the full admission log

  function CountIn(log: seq<real>, from: real, to: real): nat {
    if log == [] then 0
    else CountIn(log[..|log| - 1], from, to) + if from <= log[|log| - 1] <= to then 1 else 0
  }

  function Since(log: seq<real>, cutoff: real): seq<real> {
    if log == [] then []
    else Since(log[..|log| - 1], cutoff) + if log[|log| - 1] >= cutoff then [log[|log| - 1]] else []
  }

  ghost predicate Sorted(log: seq<real>, clock: real) {
    && (forall i, j :: InOrder(log, i, j))
    && (forall i :: 0 <= i < |log| ==> log[i] <= clock)
  }

  ghost predicate InOrder(log: seq<real>, i: int, j: int) {
    0 <= i < j < |log| ==> log[i] <= log[j]
  }

  /** Every closed interval of length `window` holds at most `max` admissions. */
  ghost predicate Bounded(log: seq<real>, window: nat, max: int) {
    forall from, to :: IntervalBounded(log, window, max, from, to)
  }

  ghost predicate IntervalBounded(log: seq<real>, window: nat, max: int, from: real, to: real) {
    to - from <= window as real ==> CountIn(log, from, to) <= if max < 0 then 0 else max
  }

  /** The decision on the full log, which never forgets an admission. */
  function Decide(log: seq<real>, window: nat, max: int, now: real): Decision {
    var n := CountIn(log, now - window as real, now);
    if n < max then Allowed(max - n - 1)
    else if n == 0 then IndexError
    else Denied(RetryAfter(log, window, now))
  }

  function RetryAfter(log: seq<real>, window: nat, now: real): int {
    var recent := Since(log, now - window as real);
    if recent == [] then 0 else (window as real - (now - recent[0])).Floor + 1
  }

  function Admit(log: seq<real>, window: nat, max: int, now: real): seq<real> {
    if Decide(log, window, max, now).Allowed? then log + [now] else log
  }

  /** A counter as a value: its parameters and its full admission log. */
  datatype CounterState = CounterState(window: nat, max: int, log: seq<real>)

  function Answer(c: CounterState, now: real): Decision {
    Decide(c.log, c.window, c.max, now)
  }

  function Next(c: CounterState, now: real): CounterState {
    c.(log := Admit(c.log, c.window, c.max, now))
  }

  // ---------------------------------------------------------------- facts about logs

  lemma SortedPrefix(log: seq<real>, clock: real)
    requires Sorted(log, clock) && log != []
    ensures Sorted(log[..|log| - 1], clock)
    ensures forall i :: 0 <= i < |log| ==> log[i] <= log[|log| - 1]
  {
    var prefix := log[..|log| - 1];
    forall i, j ensures InOrder(prefix, i, j) {
      assert InOrder(log, i, j);
    }
    forall i | 0 <= i < |log| ensures log[i] <= log[|log| - 1] {
      assert InOrder(log, i, |log| - 1);
    }
  }

  lemma SortedSnoc(log: seq<real>, now: real)
    requires Sorted(log, now)
    ensures Sorted(log + [now], now)
  {
    forall i, j ensures InOrder(log + [now], i, j) {
      assert InOrder(log, i, j);
    }
  }

  /** The window is a suffix of the log. */
  lemma SinceIsSuffix(log: seq<real>, cutoff: real, clock: real)
    requires Sorted(log, clock)
    ensures var r := Since(log, cutoff);
      && |r| <= |log| && r == log[|log| - |r|..] && |r| == CountIn(log, cutoff, clock)
      && (forall i :: 0 <= i < |log| ==> (log[i] >= cutoff <==> i >= |log| - |r|))
  {
    SinceIsCount(log, cutoff, clock);
    SinceIsTail(log, cutoff, clock);
    forall i | 0 <= i < |log| ensures log[i] >= cutoff <==> i >= |log| - |Since(log, cutoff)| {
      SinceFrom(log, cutoff, clock, i);
    }
  }

  lemma {:induction false} SinceIsCount(log: seq<real>, cutoff: real, clock: real)
    requires Sorted(log, clock)
    ensures |Since(log, cutoff)| == CountIn(log, cutoff, clock) <= |log|
  {
    if log == [] {
    } else {
      SortedPrefix(log, clock);
      SinceIsCount(log[..|log| - 1], cutoff, clock);
    }
  }

  lemma {:induction false} SinceFrom(log: seq<real>, cutoff: real, clock: real, i: nat)
    requires Sorted(log, clock) && i < |log|
    ensures log[i] >= cutoff <==> |Since(log, cutoff)| >= |log| - i
  {
    var k := |log| - 1;
    SortedPrefix(log, clock);
    SinceIsCount(log[..k], cutoff, clock);
    if i < k {
      SinceFrom(log[..k], cutoff, clock, i);
    } else if k > 0 {
      SinceFrom(log[..k], cutoff, clock, k - 1);
    }
  }

  lemma {:induction false} SinceIsTail(log: seq<real>, cutoff: real, clock: real)
    requires Sorted(log, clock)
    ensures |Since(log, cutoff)| <= |log| && Since(log, cutoff) == log[|log| - |Since(log, cutoff)|..]
  {
    if log == [] {
    } else {
      var k := |log| - 1;
      SortedPrefix(log, clock);
      SinceIsTail(log[..k], cutoff, clock);
      if log[k] >= cutoff {
        TailSnoc(log, k - |Since(log[..k], cutoff)|);
      } else if k > 0 {
        SinceFrom(log[..k], cutoff, clock, k - 1);
      }
    }
  }

  lemma TailSnoc(log: seq<real>, from: nat)
    requires from < |log|
    ensures log[..|log| - 1][from..] + [log[|log| - 1]] == log[from..]
  {
  }

  lemma {:induction false} CountGrows(log: seq<real>, clock: real, from: real, to: real, cutoff: real)
    requires Sorted(log, clock) && cutoff <= from
    ensures CountIn(log, from, to) <= CountIn(log, cutoff, clock)
  {
    if log == [] {
    } else {
      SortedPrefix(log, clock);
      CountGrows(log[..|log| - 1], clock, from, to, cutoff);
    }
  }

  lemma {:induction false} SortedBounds(log: seq<real>, clock: real, now: real, cutoff: real)
    requires Sorted(log, clock) && clock <= now
    ensures CountIn(log, cutoff, now) == CountIn(log, cutoff, clock)
  {
    if log == [] {
    } else {
      SortedPrefix(log, clock);
      SortedBounds(log[..|log| - 1], clock, now, cutoff);
    }
  }

  /** Admitting keeps the bound on every closed interval. */
  lemma AdmitKeepsBounded(log: seq<real>, window: nat, max: int, clock: real, now: real)
    requires Sorted(log, clock) && clock <= now && Bounded(log, window, max)
    ensures Sorted(Admit(log, window, max, now), now) && Bounded(Admit(log, window, max, now), window, max)
  {
    var cutoff := now - window as real;
    if CountIn(log, cutoff, now) < max {
      var r := log + [now];
      assert r[..|log|] == log;
      SortedSnoc(log, now);
      forall from, to ensures IntervalBounded(r, window, max, from, to) {
        assert IntervalBounded(log, window, max, from, to);
        if from <= now <= to && to - from <= window as real {
          CountGrows(log, now, from, to, cutoff);
        }
      }
    }
  }

  /** The wait a denial names is the least: with no call in between, a call k whole seconds
      later is admitted exactly when k reaches it; it lies between 1 and window + 1. */
  lemma RetryAfterIsLeast(log: seq<real>, window: nat, max: int, clock: real, now: real, k: nat)
    requires Sorted(log, clock) && clock <= now && Bounded(log, window, max) && k >= 1
    requires Decide(log, window, max, now).Denied?
    ensures var r := Decide(log, window, max, now).retryAfter;
      && 1 <= r <= window + 1
      && (Decide(log, window, max, now + k as real).Allowed? <==> k >= r)
  {
    var w := window as real;
    assert IntervalBounded(log, window, max, now - w, now);
    StillFull(log, window, max, now, k as real);
    var oldest := Since(log, now - w)[0];
    assert now - w <= oldest <= now by {
      SinceIsSuffix(log, now - w, now);
    }
    FloorLeast(w - (now - oldest), k);
    FloorLeast(w - (now - oldest), window + 1);
  }

  /** The window is still full after a wait exactly while it holds its oldest entry. */
  lemma StillFull(log: seq<real>, window: nat, max: int, now: real, wait: real)
    requires Sorted(log, now) && wait > 0.0 && max > 0
    requires CountIn(log, now - window as real, now) == max
    ensures Since(log, now - window as real) != []
    ensures CountIn(log, now + wait - window as real, now + wait) < max <==>
            wait > window as real - (now - Since(log, now - window as real)[0])
  {
    var cutoff := now - window as real;
    SinceIsCount(log, cutoff, now);
    SinceIsTail(log, cutoff, now);
    SinceIsCount(log, cutoff + wait, now);
    SortedBounds(log, now, now + wait, cutoff + wait);
    SinceFrom(log, cutoff + wait, now, |log| - max);
  }

  lemma FloorLeast(x: real, k: nat)
    ensures k as real > x <==> k >= x.Floor + 1
  {
  }

  /** For a positive limit a denial is never the exception, so `check` answers 0 exactly on admission. */
  lemma RaisesOnlyWithoutLimit(log: seq<real>, window: nat, max: int, now: real)
    requires Bounded(log, window, max)
    ensures Decide(log, window, max, now).IndexError? <==> max <= 0
  {
    assert IntervalBounded(log, window, max, now - window as real, now);
  }

  /** What the window alone decides, and what admitting then leaves. */
  lemma DecidedByWindow(log: seq<real>, window: nat, max: int, clock: real, now: real)
    requires Sorted(log, clock) && clock <= now
    ensures var recent := Since(log, now - window as real);
      && Decide(log, window, max, now) ==
           (if |recent| < max then Allowed(max - |recent| - 1)
            else if recent == [] then IndexError
            else Denied((window as real - (now - recent[0])).Floor + 1))
      && Since(log + [now], now - window as real) == recent + [now]
  {
    SinceIsSuffix(log, now - window as real, now);
    assert (log + [now])[..|log|] == log;
  }

  /** log[first..] is what the log has from cutoff on. */
  ghost predicate WindowFrom(log: seq<real>, cutoff: real, first: nat) {
    first <= |log| && forall i :: RightSide(log, cutoff, first, i)
  }

  ghost predicate RightSide(log: seq<real>, cutoff: real, first: nat, i: int) {
    0 <= i < |log| ==> (log[i] >= cutoff <==> i >= first)
  }

  lemma WindowGrows(log: seq<real>, cutoff: real, first: nat, now: real)
    requires WindowFrom(log, cutoff, first) && cutoff <= now
    ensures WindowFrom(log + [now], cutoff, first) && (log + [now])[first..] == log[first..] + [now]
  {
    forall i ensures RightSide(log + [now], cutoff, first, i) {
      assert RightSide(log, cutoff, first, i);
    }
  }

  lemma WindowStarts(log: seq<real>, cutoff: real, clock: real, first: nat)
    requires Sorted(log, clock) && first <= |log| && (first < |log| ==> log[first] >= cutoff)
    requires forall i :: 0 <= i < first ==> log[i] < cutoff
    ensures WindowFrom(log, cutoff, first)
  {
    forall i ensures RightSide(log, cutoff, first, i) {
      assert InOrder(log, first, i);
    }
  }

  lemma WindowIsSince(log: seq<real>, cutoff: real, clock: real, first: nat)
    requires Sorted(log, clock) && WindowFrom(log, cutoff, first)
    ensures log[first..] == Since(log, cutoff)
  {
    SinceIsSuffix(log, cutoff, clock);
    var n := |log| - |Since(log, cutoff)|;
    assert RightSide(log, cutoff, first, n) && RightSide(log, cutoff, first, first);
    assert n < |log| ==> (log[n] >= cutoff <==> n >= n);
    assert first < |log| ==> (log[first] >= cutoff <==> first >= n);
  }

  // ---------------------------------------------------------------- the counter

  class SlidingWindowCounter {
    const windowSeconds: nat
    const maxRequests: int
    var timestamps: seq<real>
    ghost var state: CounterState  // with every admission so far
    ghost var first: nat           // how many of them the deque has dropped
    ghost var clock: real          // the latest call

    ghost predicate Valid()
      reads this
    {
      && state.window == windowSeconds && state.max == maxRequests
      && Sorted(state.log, clock)
      && Bounded(state.log, windowSeconds, maxRequests)
      && WindowFrom(state.log, clock - windowSeconds as real, first)
      && timestamps == state.log[first..]
    }

    constructor (windowSeconds: nat, maxRequests: int, ghost now: real)
      ensures Valid() && clock == now && state == CounterState(windowSeconds, maxRequests, [])
    {
      this.windowSeconds, this.maxRequests := windowSeconds, maxRequests;
      timestamps, state, first, clock := [], CounterState(windowSeconds, maxRequests, []), 0, now;
      new;
      assert Bounded([], windowSeconds, maxRequests);
    }

    /** The deque is the full log restricted to the current window. */
    lemma DequeIsWindow()
      requires Valid()
      ensures timestamps == Since(state.log, clock - windowSeconds as real)
    {
      WindowIsSince(state.log, clock - windowSeconds as real, clock, first);
    }

    /** Timestamps outside the window leave from the front. */
    method Evict(cutoff: real)
      requires Sorted(state.log, clock) && first <= |state.log| && timestamps == state.log[first..]
      requires clock - windowSeconds as real <= cutoff && WindowFrom(state.log, clock - windowSeconds as real, first)
      modifies this`timestamps, this`first
      ensures WindowFrom(state.log, cutoff, first) && timestamps == state.log[first..]
    {
      ghost var before := clock - windowSeconds as real;
      forall i | 0 <= i < first ensures state.log[i] < cutoff {
        assert RightSide(state.log, before, first, i);
      }
      while timestamps != [] && timestamps[0] < cutoff
        invariant first <= |state.log| && timestamps == state.log[first..]
        invariant forall i :: 0 <= i < first ==> state.log[i] < cutoff
        decreases |timestamps|
      {
        timestamps := timestamps[1..];
        first := first + 1;
      }
      WindowStarts(state.log, cutoff, clock, first);
    }

    /** The evicting deque decides as the full log does. */
    method IsAllowed(now: real) returns (d: Decision)
      requires Valid() && clock <= now
      modifies this
      ensures Valid() && clock == now
      ensures d == Answer(old(state), now) && state == Next(old(state), now)
    {
      Evict(now - windowSeconds as real);
      WindowIsSince(state.log, now - windowSeconds as real, clock, first);
      DecidedByWindow(state.log, windowSeconds, maxRequests, clock, now);
      clock := now;
      if |timestamps| >= maxRequests {
        d := Deny(now);
      } else {
        d := Admitted(now);
      }
    }

    /** The window is full: wait until its oldest entry leaves it. */
    method Deny(now: real) returns (d: Decision)
      ensures d == if timestamps == [] then IndexError
                   else Denied((windowSeconds as real - (now - timestamps[0])).Floor + 1)
    {
      if timestamps == [] {
        return IndexError;
      }
      var oldest := timestamps[0];
      return Denied((windowSeconds as real - (now - oldest)).Floor + 1);
    }

    /** There is room: the call is recorded. */
    method Admitted(now: real) returns (d: Decision)
      requires Valid() && clock == now && |timestamps| < maxRequests
      requires Decide(state.log, windowSeconds, maxRequests, now).Allowed?
      modifies this`timestamps, this`state
      ensures Valid() && state == old(state).(log := old(state).log + [now])
      ensures d == Allowed(maxRequests - old(|timestamps|) - 1)
    {
      AdmitKeepsBounded(state.log, windowSeconds, maxRequests, now, now);
      WindowGrows(state.log, now - windowSeconds as real, first, now);
      timestamps := timestamps + [now];
      state := state.(log := state.log + [now]);
      return Allowed(maxRequests - |timestamps|);
    }
  }
}
