/** Failure counting and lock-out on the auth paths (app/middleware/rate_limit.py, the auth branch
    of `dispatch`, `_check_lockout`, `_set_lockout`). */
module AuthLockout {
  import opened Options
  import opened Transactions
  import opened SlidingWindow
  import opened RateLimiter

  const WINDOW: nat := 300
  const MAX_FAILURES := 5
  const LOCKOUT: nat := 900

  /** What the middleware knows about one IP. */
  datatype IpState = IpState(failures: seq<real>, lockedUntil: Option<real>)

  /** One request, by its three clock readings (arrival, failure count, lock-out) and the status
      the handler would answer with. */
  datatype Request = Request(arrive: real, checked: real, locked: real, handlerStatus: int)

  datatype Response = Passed(status: int) | TooMany(retryAfter: int)

  /** One request of one IP: its state afterwards, the response, and whether the handler ran. */
  function Serve(s: IpState, r: Request): (IpState, Response, bool) {
    if s.lockedUntil.Some? && r.arrive < s.lockedUntil.value then
      (s, TooMany((s.lockedUntil.value - r.arrive).Floor + 1), false)
    else
      var (after, response) := Judge(s.(lockedUntil := None), r);
      (after, response, true)
  }

  /** What becomes of the handler's answer. */
  function Judge(s: IpState, r: Request): (IpState, Response) {
    if r.handlerStatus != 401 then
      (s, Passed(r.handlerStatus))
    else if Decide(s.failures, WINDOW, MAX_FAILURES, r.checked).Allowed? then
      (s.(failures := s.failures + [r.checked]), Passed(401))
    else
      (s.(lockedUntil := Some(r.locked + LOCKOUT as real)), TooMany(LOCKOUT))
  }

  // ---------------------------------------------------------------- serial runs of one IP

  ghost predicate Serial(run: seq<Request>) {
    && (forall i :: 0 <= i < |run| ==> run[i].arrive <= run[i].checked <= run[i].locked)
    && (forall i, j :: 0 <= i < j < |run| ==> run[i].locked <= run[j].arrive)
  }

  function StateAfter(run: seq<Request>): IpState {
    if run == [] then IpState([], None) else Serve(StateAfter(run[..|run| - 1]), run[|run| - 1]).0
  }

  function ResponseTo(run: seq<Request>): Response
    requires run != []
  {
    Serve(StateAfter(run[..|run| - 1]), run[|run| - 1]).1
  }

  predicate HandlerRuns(run: seq<Request>)
    requires run != []
  {
    Serve(StateAfter(run[..|run| - 1]), run[|run| - 1]).2
  }

  /** When the responses that left as 401 were counted. */
  function Left401(run: seq<Request>): seq<real> {
    if run == [] then []
    else
      var earlier := Left401(run[..|run| - 1]);
      if ResponseTo(run) == Passed(401) then earlier + [run[|run| - 1].checked] else earlier
  }

  /** When the handler runs that failed were counted. */
  function FailedRuns(run: seq<Request>): seq<real> {
    if run == [] then []
    else
      var earlier := FailedRuns(run[..|run| - 1]);
      if HandlerRuns(run) && run[|run| - 1].handlerStatus == 401 then earlier + [run[|run| - 1].checked] else earlier
  }

  /** When the lock-outs were set. */
  function Lockouts(run: seq<Request>): seq<real> {
    if run == [] then []
    else
      var earlier := Lockouts(run[..|run| - 1]);
      if HandlerRuns(run) && ResponseTo(run).TooMany? then earlier + [run[|run| - 1].checked] else earlier
  }

  ghost predicate Apart(times: seq<real>, gap: real) {
    forall i, j :: 0 <= i < j < |times| ==> times[i] + gap <= times[j]
  }

  /** Every earlier lock-out either is over at `clock` or still stands. */
  ghost predicate Guarded(times: seq<real>, lockedUntil: Option<real>, clock: real) {
    forall i :: 0 <= i < |times| ==>
      times[i] + LOCKOUT as real <= clock || (lockedUntil.Some? && times[i] + LOCKOUT as real <= lockedUntil.value)
  }

  lemma {:induction false} LockoutsApart(run: seq<Request>)
    requires Serial(run)
    ensures Apart(Lockouts(run), LOCKOUT as real)
    ensures run != [] ==> Guarded(Lockouts(run), StateAfter(run).lockedUntil, run[|run| - 1].locked)
    ensures run == [] ==> Lockouts(run) == []
  {
    if run == [] {
    } else {
      var earlier := run[..|run| - 1];
      var r := run[|run| - 1];
      LockoutsApart(earlier);
      assert earlier != [] ==> earlier[|earlier| - 1].locked <= r.arrive;
      LockoutStep(StateAfter(earlier), r, Lockouts(earlier), r.arrive);
    }
  }

  /** A request keeps the lock-outs apart: none is set while one stands. */
  lemma LockoutStep(s: IpState, r: Request, times: seq<real>, clock: real)
    requires r.arrive <= r.checked <= r.locked && clock <= r.arrive
    requires Apart(times, LOCKOUT as real) && Guarded(times, s.lockedUntil, clock)
    ensures var (after, response, ran) := Serve(s, r);
      var grown := if ran && response.TooMany? then times + [r.checked] else times;
      Apart(grown, LOCKOUT as real) && Guarded(grown, after.lockedUntil, r.locked)
  {
  }

  /** The 401 responses are what the counter admits. */
  lemma {:induction false} FailuresAreTheCounter(run: seq<Request>)
    ensures Left401(run) == StateAfter(run).failures
  {
    if run == [] {
    } else {
      FailuresAreTheCounter(run[..|run| - 1]);
    }
  }

  lemma {:induction false} FailuresBounded(run: seq<Request>)
    requires Serial(run)
    ensures run != [] ==> Sorted(StateAfter(run).failures, run[|run| - 1].checked)
    ensures Bounded(StateAfter(run).failures, WINDOW, MAX_FAILURES)
  {
    if run == [] {
      assert forall from, to :: IntervalBounded([], WINDOW, MAX_FAILURES, from, to);
    } else {
      var earlier := run[..|run| - 1];
      var r := run[|run| - 1];
      var failures := StateAfter(earlier).failures;
      FailuresBounded(earlier);
      assert earlier != [] ==> earlier[|earlier| - 1].checked <= r.checked;
      assert Sorted(failures, r.checked);
      AdmitKeepsBounded(failures, WINDOW, MAX_FAILURES, r.checked, r.checked);
    }
  }

  lemma {:induction false} FailuresSplit(run: seq<Request>, from: real, to: real)
    ensures CountIn(FailedRuns(run), from, to) == CountIn(Left401(run), from, to) + CountIn(Lockouts(run), from, to)
  {
    if run == [] {
    } else {
      FailuresSplit(run[..|run| - 1], from, to);
      CountSnoc(FailedRuns(run[..|run| - 1]), run[|run| - 1].checked, from, to);
      CountSnoc(Left401(run[..|run| - 1]), run[|run| - 1].checked, from, to);
      CountSnoc(Lockouts(run[..|run| - 1]), run[|run| - 1].checked, from, to);
    }
  }

  lemma CountSnoc(log: seq<real>, t: real, from: real, to: real)
    ensures CountIn(log + [t], from, to) == CountIn(log, from, to) + if from <= t <= to then 1 else 0
  {
    assert (log + [t])[..|log|] == log;
  }

  lemma {:induction false} ApartAtMostOne(times: seq<real>, gap: real, from: real, to: real)
    requires Apart(times, gap) && to - from < gap
    ensures CountIn(times, from, to) <= 1
    ensures CountIn(times, from, to) == 1 ==> exists i :: 0 <= i < |times| && from <= times[i] <= to
  {
    if times == [] {
    } else {
      ApartAtMostOne(times[..|times| - 1], gap, from, to);
    }
  }

  /** In any closed 300 seconds at most five responses leave as 401, and at most six handler runs fail. */
  lemma FailuresAreBounded(run: seq<Request>, from: real, to: real)
    requires Serial(run) && to - from <= WINDOW as real
    ensures CountIn(Left401(run), from, to) <= 5
    ensures CountIn(FailedRuns(run), from, to) <= 6
  {
    FailuresAreTheCounter(run);
    FailuresBounded(run);
    assert IntervalBounded(Left401(run), WINDOW, MAX_FAILURES, from, to);
    LockoutsApart(run);
    ApartAtMostOne(Lockouts(run), LOCKOUT as real, from, to);
    FailuresSplit(run, from, to);
  }

  /** What becomes of a request that the handler answers: any answer but 401 passes; a 401 passes exactly if
      fewer than five left in the 300 seconds up to it, and is otherwise answered with a lock-out of 900. */
  lemma Leaves401Exactly(run: seq<Request>)
    requires run != [] && HandlerRuns(run)
    ensures var r, earlier := run[|run| - 1], run[..|run| - 1];
      var few := CountIn(Left401(earlier), r.checked - 300.0, r.checked) < 5;
      && (ResponseTo(run) == if r.handlerStatus != 401 || few then Passed(r.handlerStatus) else TooMany(900))
      && (r.handlerStatus == 401 && !few ==> StateAfter(run).lockedUntil == Some(r.locked + 900.0))
      && (r.handlerStatus != 401 || few ==> StateAfter(run).lockedUntil == None)
  {
    FailuresAreTheCounter(run[..|run| - 1]);
    JudgedExactly(StateAfter(run[..|run| - 1]), run[|run| - 1]);
  }

  lemma JudgedExactly(s: IpState, r: Request)
    requires Serve(s, r).2
    ensures var (after, response, _) := Serve(s, r);
      var few := CountIn(s.failures, r.checked - 300.0, r.checked) < 5;
      && (response == if r.handlerStatus != 401 || few then Passed(r.handlerStatus) else TooMany(900))
      && after.lockedUntil == if r.handlerStatus == 401 && !few then Some(r.locked + 900.0) else None
  {
    assert WINDOW as real == 300.0 && LOCKOUT as real == 900.0;
  }

  ghost predicate SetsLockout(run: seq<Request>, i: nat)
    requires i < |run|
  {
    HandlerRuns(run[..i + 1]) && ResponseTo(run[..i + 1]) == TooMany(LOCKOUT)
  }

  lemma {:induction false} LockoutStands(run: seq<Request>, i: nat, j: nat)
    requires Serial(run) && i < j <= |run| && SetsLockout(run, i)
    requires j == i + 1 || run[j - 1].arrive < run[i].locked + LOCKOUT as real
    ensures StateAfter(run[..j]).lockedUntil == Some(run[i].locked + LOCKOUT as real)
    decreases j
  {
    assert run[..j][..j - 1] == run[..j - 1];
    if j > i + 1 {
      assert run[j - 2].locked <= run[j - 1].arrive;
      LockoutStands(run, i, j - 1);
    }
  }

  /** From a lock-out set at T, no request that arrives before T + 900 reaches the handler. */
  lemma LockoutHolds(run: seq<Request>, i: nat, j: nat)
    requires Serial(run) && i < j < |run| && SetsLockout(run, i)
    requires run[j].arrive < run[i].locked + 900.0
    ensures !HandlerRuns(run[..j + 1]) && ResponseTo(run[..j + 1]).TooMany?
  {
    assert run[..j + 1][..j] == run[..j];
    if j > i + 1 {
      assert run[j - 1].arrive <= run[j - 1].locked <= run[j].arrive;
    }
    LockoutStands(run, i, j);
  }

  /** The request reaches the handler if it comes k seconds later. */
  predicate AdmittedAfter(s: IpState, r: Request, k: nat) {
    Serve(s, r.(arrive := r.arrive + k as real)).2
  }

  /** The whole waits after which a locked-out client is let through: from the Retry-After it is told on,
      and from one second less exactly if the lock-out ends a whole number of seconds away. */
  lemma LockoutRetryAfter(s: IpState, r: Request, k: nat)
    requires s.lockedUntil.Some? && r.arrive < s.lockedUntil.value
    ensures var wait := Serve(s, r).1.retryAfter;
      var left := s.lockedUntil.value - r.arrive;
      AdmittedAfter(s, r, k) <==> k >= if left == left.Floor as real then wait - 1 else wait
  {
    FloorLeast(s.lockedUntil.value - r.arrive, k);
  }

  /** Waiting less than announced is enough exactly if the lock-out ends a whole number of seconds away. */
  lemma ShorterWaitSuffices(s: IpState, r: Request)
    requires s.lockedUntil.Some? && r.arrive < s.lockedUntil.value
    ensures var wait := Serve(s, r).1.retryAfter;
      var left := s.lockedUntil.value - r.arrive;
      (exists k: nat :: k < wait && AdmittedAfter(s, r, k)) <==> left == left.Floor as real
  {
    var wait := Serve(s, r).1.retryAfter;
    var left := s.lockedUntil.value - r.arrive;
    forall k: nat | k < wait && AdmittedAfter(s, r, k) ensures left == left.Floor as real {
      LockoutRetryAfter(s, r, k);
    }
    if left == left.Floor as real {
      LockoutRetryAfter(s, r, wait - 1);
    }
  }

  // ---------------------------------------------------------------- the middleware

  function AuthKey(ip: nat): Key {
    Key(AuthFailures, ip)
  }

  /** One IP's state, as the counter table and the lock-out dictionary hold it. */
  function StateOf(table: map<Key, CounterState>, lockouts: map<nat, real>, ip: nat): IpState {
    IpState(if AuthKey(ip) in table then table[AuthKey(ip)].log else [],
            if ip in lockouts then Some(lockouts[ip]) else None)
  }

  ghost predicate AuthCounters(table: map<Key, CounterState>) {
    forall ip :: AuthKey(ip) in table ==> table[AuthKey(ip)].window == WINDOW && table[AuthKey(ip)].max == MAX_FAILURES
  }

  class RateLimitMiddleware {
    const rateLimiter: Limiter
    var authLockouts: map<nat, real>

    ghost predicate Valid()
      reads this, rateLimiter, rateLimiter.owner.Keys
    {
      rateLimiter.Valid() && AuthCounters(rateLimiter.state.table)
    }

    ghost function State(ip: nat): IpState
      reads this, rateLimiter
    {
      StateOf(rateLimiter.state.table, authLockouts, ip)
    }

    constructor (ghost now: real)
      ensures Valid() && fresh(rateLimiter) && fresh(rateLimiter.owner.Keys)
      ensures rateLimiter.state.clock == now && forall ip :: State(ip) == IpState([], None)
    {
      rateLimiter := new Limiter(now);
      authLockouts := map[];
    }

    method CheckLockout(ip: nat, now: real) returns (seconds: int)
      modifies this`authLockouts
      ensures ip in old(authLockouts) && now < old(authLockouts)[ip] ==>
        seconds == (old(authLockouts)[ip] - now).Floor + 1 && seconds > 0 && authLockouts == old(authLockouts)
      ensures !(ip in old(authLockouts) && now < old(authLockouts)[ip]) ==>
        seconds == 0 && authLockouts == old(authLockouts) - {ip}
    {
      if ip !in authLockouts {
        return 0;
      }
      var lockoutUntil := authLockouts[ip];
      if now >= lockoutUntil {
        authLockouts := authLockouts - {ip};
        return 0;
      }
      return (lockoutUntil - now).Floor + 1;
    }

    method SetLockout(ip: nat, duration: nat, now: real)
      modifies this`authLockouts
      ensures authLockouts == old(authLockouts)[ip := now + duration as real]
    {
      authLockouts := authLockouts[ip := now + duration as real];
    }

    /** A POST to a token path. Only the requesting IP's state moves. */
    method DispatchAuth(ip: nat, r: Request) returns (response: Response, handlerRan: bool)
      requires Valid() && rateLimiter.state.clock <= r.checked
      modifies this, rateLimiter, rateLimiter.owner.Keys
      ensures Valid() && fresh(rateLimiter.owner.Keys - old(rateLimiter.owner.Keys))
      ensures (State(ip), response, handlerRan) == Serve(old(State(ip)), r)
      ensures forall other :: other != ip ==> State(other) == old(State(other))
    {
      var lockoutUntil := CheckLockout(ip, r.arrive);
      if lockoutUntil > 0 {
        return TooMany(lockoutUntil), false;
      }
      handlerRan := true;
      response := AfterHandler(ip, r);
    }

    method AfterHandler(ip: nat, r: Request) returns (response: Response)
      requires Valid() && rateLimiter.state.clock <= r.checked
      modifies this, rateLimiter, rateLimiter.owner.Keys
      ensures Valid() && fresh(rateLimiter.owner.Keys - old(rateLimiter.owner.Keys))
      ensures (State(ip), response) == Judge(old(State(ip)), r)
      ensures forall other :: other != ip ==> State(other) == old(State(other))
    {
      response := Passed(r.handlerStatus);
      if response.status == 401 {
        var retryAfter := CountFailure(ip, r.checked);
        if retryAfter > 0 {
          SetLockout(ip, LOCKOUT, r.locked);
          response := TooMany(900);
        }
      }
    }

    /** The check on the failure counter, which never raises: its limit is positive. */
    method CountFailure(ip: nat, now: real) returns (retryAfter: int)
      requires Valid() && rateLimiter.state.clock <= now
      modifies rateLimiter, rateLimiter.owner.Keys
      ensures Valid() && fresh(rateLimiter.owner.Keys - old(rateLimiter.owner.Keys))
      ensures retryAfter > 0 <==> !Decide(old(State(ip)).failures, WINDOW, MAX_FAILURES, now).Allowed?
      ensures State(ip) == old(State(ip)).(failures := Admit(old(State(ip)).failures, WINDOW, MAX_FAILURES, now))
      ensures forall other :: other != ip ==> State(other) == old(State(other))
    {
      ghost var c := CounterFor(rateLimiter.state.table, Call(AuthKey(ip), WINDOW, MAX_FAILURES, now));
      rateLimiter.CountersAreSound(AuthKey(ip), WINDOW, MAX_FAILURES);
      ZeroMeansAdmitted(c, rateLimiter.state.clock, now);
      var check := rateLimiter.Check(AuthKey(ip), WINDOW, MAX_FAILURES, now);
      retryAfter := if check.Returned? then check.value.0 else 0;
    }
  }
}
