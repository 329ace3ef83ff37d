/** Domain events: registry, dispatch with status update, and retry
    (app/domain_events/handlers.py, publisher.py, retry.py). */
module DomainEvents {
  import opened Options
  type Id = nat
  type Handler = nat

  datatype EventStatus = Pending | Processed | Failed

  datatype DomainEvent = DomainEvent(eventType: string, status: EventStatus, processedAt: Option<real>)

  type Outbox = map<Id, DomainEvent>

  type Registry = map<string, seq<Handler>>

  datatype Call = Call(event: Id, handler: Handler)

  /** One dispatch attempt: handler number `failsAt` raises if there is one; the commit may raise. */
  datatype Attempt = Attempt(failsAt: nat, commitRaises: bool, now: real)

  // ---------------------------------------------------------------- what an attempt does

  function HandlersOf(registry: Registry, eventType: string): seq<Handler> {
    if eventType in registry then registry[eventType] else []
  }

  function CallsTo(id: Id, handlers: seq<Handler>): seq<Call> {
    seq(|handlers|, i requires 0 <= i < |handlers| => Call(id, handlers[i]))
  }

  /** The handlers an attempt calls, up to and including the one that raises. */
  function Called(handlers: seq<Handler>, failsAt: nat): seq<Handler> {
    if failsAt < |handlers| then handlers[..failsAt + 1] else handlers
  }

  function Updated(e: DomainEvent, handlers: seq<Handler>, a: Attempt): DomainEvent {
    if a.commitRaises then e
    else if a.failsAt < |handlers| then e.(status := Failed)
    else e.(status := Processed, processedAt := Some(a.now))
  }

  /** The event row after `_dispatch_with_status_update`. */
  function Dispatched(outbox: Outbox, registry: Registry, id: Id, a: Attempt): Outbox {
    if id !in outbox then outbox
    else outbox[id := Updated(outbox[id], HandlersOf(registry, outbox[id].eventType), a)]
  }

  function CallsMade(outbox: Outbox, registry: Registry, id: Id, a: Attempt): seq<Call> {
    if id !in outbox then [] else CallsTo(id, Called(HandlersOf(registry, outbox[id].eventType), a.failsAt))
  }

  /** The registry after a sequence of registrations. */
  function Registered(regs: seq<(string, Handler)>): Registry {
    if regs == [] then map[]
    else
      var earlier, (eventType, handler) := Registered(regs[..|regs| - 1]), regs[|regs| - 1];
      earlier[eventType := HandlersOf(earlier, eventType) + [handler]]
  }

  function RegisteredFor(regs: seq<(string, Handler)>, eventType: string): seq<Handler> {
    if regs == [] then []
    else
      var earlier := RegisteredFor(regs[..|regs| - 1], eventType);
      if regs[|regs| - 1].0 == eventType then earlier + [regs[|regs| - 1].1] else earlier
  }

  /** The handlers of a type are those registered for it, in the order of their registration. */
  lemma {:induction false} HandlersInOrder(regs: seq<(string, Handler)>, eventType: string)
    ensures HandlersOf(Registered(regs), eventType) == RegisteredFor(regs, eventType)
  {
    if regs == [] {
    } else {
      HandlersInOrder(regs[..|regs| - 1], eventType);
    }
  }

  // ---------------------------------------------------------------- retry

  /** The attempt each visited event will get. */
  predicate Planned(ids: seq<Id>, attempts: map<Id, Attempt>) {
    forall i :: 0 <= i < |ids| ==> ids[i] in attempts
  }

  /** The rows after the first `n` attempts of a retry run over `ids`. */
  function Retried(outbox: Outbox, registry: Registry, ids: seq<Id>, n: nat, attempts: map<Id, Attempt>): Outbox
    requires n <= |ids| && Planned(ids, attempts)
  {
    if n == 0 then outbox
    else Dispatched(Retried(outbox, registry, ids, n - 1, attempts), registry, ids[n - 1], attempts[ids[n - 1]])
  }

  /** The handler calls of these attempts. */
  function RunCalls(outbox: Outbox, registry: Registry, ids: seq<Id>, n: nat, attempts: map<Id, Attempt>): seq<Call>
    requires n <= |ids| && Planned(ids, attempts)
  {
    if n == 0 then []
    else
      RunCalls(outbox, registry, ids, n - 1, attempts) +
      CallsMade(Retried(outbox, registry, ids, n - 1, attempts), registry, ids[n - 1], attempts[ids[n - 1]])
  }

  /** How many of these attempts raise. */
  function RaisesIn(outbox: Outbox, ids: seq<Id>, n: nat, attempts: map<Id, Attempt>): nat
    requires n <= |ids| && Planned(ids, attempts)
  {
    if n == 0 then 0
    else
      var id := ids[n - 1];
      RaisesIn(outbox, ids, n - 1, attempts) + if id in outbox && attempts[id].commitRaises then 1 else 0
  }

  predicate NoCallOf(calls: seq<Call>, id: Id) {
    forall i :: 0 <= i < |calls| ==> calls[i].event != id
  }

  /** The attempts whose status commit raises. */
  function Raising(ids: seq<Id>, n: nat, attempts: map<Id, Attempt>): set<nat>
    requires n <= |ids| && Planned(ids, attempts)
  {
    set i: nat | i < n && attempts[ids[i]].commitRaises
  }

  lemma {:induction false} RaisesExactly(outbox: Outbox, ids: seq<Id>, n: nat, attempts: map<Id, Attempt>)
    requires n <= |ids| && Planned(ids, attempts) && forall i :: 0 <= i < n ==> ids[i] in outbox
    ensures RaisesIn(outbox, ids, n, attempts) == |Raising(ids, n, attempts)|
  {
    if n == 0 {
      assert Raising(ids, 0, attempts) == {};
    } else {
      RaisesExactly(outbox, ids, n - 1, attempts);
      RaisingGrows(ids, n, attempts);
    }
  }

  lemma RaisingGrows(ids: seq<Id>, n: nat, attempts: map<Id, Attempt>)
    requires 0 < n <= |ids| && Planned(ids, attempts)
    ensures var earlier := Raising(ids, n - 1, attempts);
      && n - 1 !in earlier
      && Raising(ids, n, attempts) == if attempts[ids[n - 1]].commitRaises then earlier + {n - 1} else earlier
  {
  }

  ghost predicate Distinct(ids: seq<Id>) {
    forall i, j :: 0 <= i < j < |ids| ==> ids[i] != ids[j]
  }

  lemma {:induction false} RetriedKeys(outbox: Outbox, registry: Registry, ids: seq<Id>, n: nat,
      attempts: map<Id, Attempt>)
    requires n <= |ids| && Planned(ids, attempts)
    ensures Retried(outbox, registry, ids, n, attempts).Keys == outbox.Keys
  {
    if n == 0 {
    } else {
      RetriedKeys(outbox, registry, ids, n - 1, attempts);
    }
  }

  /** Each listed event is dispatched once, from the row it had before the run, and no other row changes. */
  lemma {:induction false} RetriedOnce(outbox: Outbox, registry: Registry, ids: seq<Id>, n: nat,
      attempts: map<Id, Attempt>, id: Id)
    requires n <= |ids| && Planned(ids, attempts) && Distinct(ids) && id in outbox
    ensures var r := Retried(outbox, registry, ids, n, attempts);
      && id in r
      && ((forall i :: 0 <= i < n ==> ids[i] != id) ==> r[id] == outbox[id])
      && (forall i :: 0 <= i < n && ids[i] == id ==>
            r[id] == Updated(outbox[id], HandlersOf(registry, outbox[id].eventType), attempts[id]))
  {
    if n == 0 {
    } else {
      RetriedOnce(outbox, registry, ids, n - 1, attempts, id);
    }
  }

  /** Attempts at other events make no call for this one. */
  lemma {:induction false} OthersNotCalled(outbox: Outbox, registry: Registry, ids: seq<Id>, m: nat, n: nat,
      attempts: map<Id, Attempt>, id: Id)
    requires m <= n <= |ids| && Planned(ids, attempts)
    requires forall i :: m <= i < n ==> ids[i] != id
    ensures var earlier := RunCalls(outbox, registry, ids, m, attempts);
      var calls := RunCalls(outbox, registry, ids, n, attempts);
      earlier <= calls && NoCallOf(calls[|earlier|..], id)
  {
    if n == m {
    } else {
      OthersNotCalled(outbox, registry, ids, m, n - 1, attempts, id);
      var before := Retried(outbox, registry, ids, n - 1, attempts);
      NoCallAppend(RunCalls(outbox, registry, ids, m, attempts), RunCalls(outbox, registry, ids, n - 1, attempts),
                   CallsMade(before, registry, ids[n - 1], attempts[ids[n - 1]]), id);
    }
  }

  lemma NoCallAppend(earlier: seq<Call>, calls: seq<Call>, more: seq<Call>, id: Id)
    requires earlier <= calls && NoCallOf(calls[|earlier|..], id) && NoCallOf(more, id)
    ensures earlier <= calls + more && NoCallOf((calls + more)[|earlier|..], id)
  {
    assert (calls + more)[|earlier|..] == calls[|earlier|..] + more;
  }

  /** A listed event is called by its own attempt alone: one prefix of its handlers, once. */
  lemma CalledOnce(outbox: Outbox, registry: Registry, ids: seq<Id>, i: nat, attempts: map<Id, Attempt>)
    requires i < |ids| && Planned(ids, attempts) && Distinct(ids) && ids[i] in outbox
    ensures var before := RunCalls(outbox, registry, ids, i, attempts);
      var own := CallsMade(outbox, registry, ids[i], attempts[ids[i]]);
      var calls := RunCalls(outbox, registry, ids, |ids|, attempts);
      && NoCallOf(before, ids[i])
      && before + own <= calls && NoCallOf(calls[|before + own|..], ids[i])
  {
    RetriedOnce(outbox, registry, ids, i, attempts, ids[i]);
    OthersNotCalled(outbox, registry, ids, 0, i, attempts, ids[i]);
    OthersNotCalled(outbox, registry, ids, i + 1, |ids|, attempts, ids[i]);
  }

  // ---------------------------------------------------------------- the dispatcher

  class Dispatcher {
    var registry: Registry
    var outbox: Outbox          // the committed domain_events rows
    ghost var calls: seq<Call>  // every handler call so far

    constructor ()
      ensures registry == map[] && outbox == map[] && calls == []
    {
      registry, outbox, calls := map[], map[], [];
    }

    method RegisterHandler(eventType: string, handler: Handler)
      modifies this`registry
      ensures forall regs :: old(registry) == Registered(regs) ==> registry == Registered(regs + [(eventType, handler)])
      ensures registry == old(registry)[eventType := HandlersOf(old(registry), eventType) + [handler]]
    {
      registry := registry[eventType := HandlersOf(registry, eventType) + [handler]];
    }

    method DispatchEvent(id: Id, eventType: string, failsAt: nat) returns (raised: bool)
      modifies this`calls
      ensures raised <==> failsAt < |HandlersOf(registry, eventType)|
      ensures calls == old(calls) + CallsTo(id, Called(HandlersOf(registry, eventType), failsAt))
    {
      var handlers := HandlersOf(registry, eventType);
      for i := 0 to |handlers|
        invariant i <= failsAt
        invariant calls == old(calls) + CallsTo(id, handlers[..i])
      {
        assert CallsTo(id, handlers[..i + 1]) == CallsTo(id, handlers[..i]) + [Call(id, handlers[i])];
        calls := calls + [Call(id, handlers[i])];
        if i == failsAt {
          return true;
        }
      }
      assert handlers[..|handlers|] == handlers;
      return false;
    }

    /** Raises only if the commit of the status does: a handler's exception becomes FAILED. */
    method DispatchWithStatusUpdate(id: Id, a: Attempt) returns (raised: bool)
      modifies this`calls, this`outbox
      ensures outbox == Dispatched(old(outbox), registry, id, a)
      ensures calls == old(calls) + CallsMade(old(outbox), registry, id, a)
      ensures raised <==> id in old(outbox) && a.commitRaises
    {
      if id !in outbox {
        return false;
      }
      var event := outbox[id];
      var failed := DispatchEvent(id, event.eventType, a.failsAt);
      if !failed {
        event := event.(status := Processed);
        event := event.(processedAt := Some(a.now));
      } else {
        event := event.(status := Failed);
      }
      if a.commitRaises {
        assert outbox == outbox[id := outbox[id]];
        return true;
      }
      outbox := outbox[id := event];
      return false;
    }

    /** Rows with status FAILED, each once. */
    method SelectFailed() returns (failed: seq<Id>)
      ensures forall id :: id in failed <==> id in outbox && outbox[id].status == Failed
      ensures Distinct(failed)
    {
      failed := [];
      var rest := set id | id in outbox && outbox[id].status == Failed;
      while rest != {}
        invariant forall id :: id in failed || id in rest <==> id in outbox && outbox[id].status == Failed
        invariant forall id :: id in failed ==> id !in rest
        invariant Distinct(failed)
      {
        var id :| id in rest;
        failed := failed + [id];
        rest := rest - {id};
      }
    }

    /** Dispatches the listed events in order; an attempt that raises does not stop the run. */
    method DispatchAll(failed: seq<Id>, attempts: map<Id, Attempt>) returns (retried: nat, errors: nat)
      requires Planned(failed, attempts)
      modifies this`calls, this`outbox
      ensures outbox == Retried(old(outbox), registry, failed, |failed|, attempts)
      ensures calls == old(calls) + RunCalls(old(outbox), registry, failed, |failed|, attempts)
      ensures errors == RaisesIn(old(outbox), failed, |failed|, attempts) && retried + errors == |failed|
    {
      retried, errors := 0, 0;
      ghost var before := outbox;
      for i := 0 to |failed|
        invariant outbox == Retried(before, registry, failed, i, attempts)
        invariant calls == old(calls) + RunCalls(before, registry, failed, i, attempts)
        invariant errors == RaisesIn(before, failed, i, attempts) && retried + errors == i
      {
        RetriedKeys(before, registry, failed, i, attempts);
        var raised := DispatchWithStatusUpdate(failed[i], attempts[failed[i]]);
        if raised {
          errors := errors + 1;
        } else {
          retried := retried + 1;
        }
      }
    }

    /** `errors` counts the commits that raised, and `retried` every other attempt: one that left the
        event FAILED again too, though the docstring calls those events successful. */
    method RetryFailedEvents(attempts: map<Id, Attempt>)
      returns (retried: nat, errors: nat, total: nat, failed: seq<Id>)
      requires outbox.Keys <= attempts.Keys
      modifies this`calls, this`outbox
      ensures forall id :: id in failed <==> id in old(outbox) && old(outbox)[id].status == Failed
      ensures Distinct(failed)
      ensures outbox == Retried(old(outbox), registry, failed, |failed|, attempts)
      ensures calls == old(calls) + RunCalls(old(outbox), registry, failed, |failed|, attempts)
      ensures total == |failed| && retried + errors == total
      ensures Planned(failed, attempts) && errors == |Raising(failed, |failed|, attempts)|
    {
      failed := SelectFailed();
      assert forall i :: 0 <= i < |failed| ==> failed[i] in failed;
      RaisesExactly(outbox, failed, |failed|, attempts);
      retried, errors := DispatchAll(failed, attempts);
      total := |failed|;
    }
  }
}
