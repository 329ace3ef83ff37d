/** Publishing, background tasks and retry runs in any interleaving, every attempt in two steps: it loads
    its row and calls the handlers, and later commits the status. */
module EventRuns {
  import opened Options
  import opened DomainEvents

  type Rid = nat

  datatype Worker = BackgroundTask(id: Id) | RetryRun(rid: Rid)

  /** An attempt between its handler calls and its commit. */
  datatype Active = Active(id: Id, loaded: DomainEvent, raised: bool)

  /** The committed rows, the ids ever published, the scheduled tasks, the ids each retry run has
      still to visit, the attempts under way, and every handler call made. */
  datatype State = State(outbox: Outbox, used: set<Id>, tasks: set<Id>, runs: map<Rid, seq<Id>>,
      active: map<Worker, Active>, calls: seq<Call>)

  /** Lose drops a scheduled task: the process stops, or loading the event raises. In Skip the loading
      raises in a retry run. Cut ends an attempt before its commit, and with it the rest of its retry run:
      the process stops, or a handler ends in an exception that is no `Exception`, such as a cancellation. */
  datatype Action =
    | Publish(id: Id, eventType: string, background: bool, commits: bool)
    | Lose(id: Id)
    | BeginTask(id: Id, failsAt: nat)
    | StartRetry(rid: Rid, found: seq<Id>)
    | BeginRetry(rid: Rid, failsAt: nat)
    | Skip(rid: Rid)
    | Cut(worker: Worker)
    | Finish(worker: Worker, commitRaises: bool, now: real)

  ghost predicate IsFailed(outbox: Outbox, id: Id) {
    id in outbox && outbox[id].status == Failed
  }

  ghost predicate Enabled(s: State, x: Action) {
    match x
    case Publish(id, _, _, _) => id !in s.used
    case Lose(id) => id in s.tasks
    case BeginTask(id, _) => id in s.tasks
    case StartRetry(rid, found) =>
      rid !in s.runs && Distinct(found) && forall id :: id in found <==> IsFailed(s.outbox, id)
    case BeginRetry(rid, _) => rid in s.runs && s.runs[rid] != [] && RetryRun(rid) !in s.active
    case Skip(rid) => rid in s.runs && s.runs[rid] != [] && RetryRun(rid) !in s.active
    case Cut(w) => w in s.active || (w.RetryRun? && w.rid in s.runs)
    case Finish(w, _, _) => w in s.active && s.active[w].id in s.outbox
  }

  function Begun(s: State, w: Worker, id: Id, failsAt: nat, registry: Registry): State {
    if id !in s.outbox then s
    else
      var handlers := HandlersOf(registry, s.outbox[id].eventType);
      s.(active := s.active[w := Active(id, s.outbox[id], failsAt < |handlers|)],
         calls := s.calls + CallsTo(id, Called(handlers, failsAt)))
  }

  /** The UPDATE holds the columns that differ from the loaded row, and has no version check. */
  function Written(row: DomainEvent, a: Active, now: real): DomainEvent {
    if a.raised then row.(status := if a.loaded.status == Failed then row.status else Failed)
    else row.(status := if a.loaded.status == Processed then row.status else Processed,
              processedAt := if a.loaded.processedAt == Some(now) then row.processedAt else Some(now))
  }

  /** A publisher whose transaction rolls back leaves no row; its task may even have been scheduled. */
  ghost function Next(s: State, x: Action, registry: Registry): State
    requires Enabled(s, x)
  {
    match x
    case Publish(id, eventType, background, commits) =>
      s.(used := s.used + {id},
         outbox := if commits then s.outbox[id := DomainEvent(eventType, Pending, None)] else s.outbox,
         tasks := if background then s.tasks + {id} else s.tasks)
    case Lose(id) => s.(tasks := s.tasks - {id})
    case BeginTask(id, failsAt) => Begun(s.(tasks := s.tasks - {id}), BackgroundTask(id), id, failsAt, registry)
    case StartRetry(rid, found) => s.(runs := s.runs[rid := found])
    case BeginRetry(rid, failsAt) =>
      Begun(s.(runs := s.runs[rid := s.runs[rid][1..]]), RetryRun(rid), s.runs[rid][0], failsAt, registry)
    case Skip(rid) => s.(runs := s.runs[rid := s.runs[rid][1..]])
    case Cut(w) =>
      s.(active := s.active - {w}, runs := if w.RetryRun? && w.rid in s.runs then s.runs[w.rid := []] else s.runs)
    case Finish(w, commitRaises, now) =>
      var a := s.active[w];
      s.(active := s.active - {w},
         outbox := if commitRaises then s.outbox else s.outbox[a.id := Written(s.outbox[a.id], a, now)])
  }

  // ---------------------------------------------------------------- the invariant

  ghost predicate RowInv(e: DomainEvent) {
    (e.status == Processed ==> e.processedAt.Some?) && (e.status == Pending ==> e.processedAt.None?)
  }

  /** Only its own task works on a PENDING event, and that task alone. */
  ghost predicate ActiveInv(outbox: Outbox, w: Worker, a: Active) {
    && a.id in outbox && RowInv(a.loaded)
    && match w
       case BackgroundTask(id) => a.id == id && a.loaded == outbox[id] && a.loaded.status == Pending
       case RetryRun(_) =>
         && a.loaded.status != Pending && outbox[a.id].status != Pending
         && (a.loaded.processedAt.Some? ==> outbox[a.id].processedAt.Some?)
  }

  ghost predicate ListInv(outbox: Outbox, list: seq<Id>) {
    forall i :: 0 <= i < |list| ==> list[i] in outbox && outbox[list[i]].status != Pending
  }

  ghost predicate TaskInv(s: State, id: Id) {
    id in s.outbox ==> s.outbox[id].status == Pending && BackgroundTask(id) !in s.active
  }

  ghost predicate Inv(s: State) {
    && s.outbox.Keys <= s.used && s.tasks <= s.used
    && (forall id :: id in s.outbox ==> RowInv(s.outbox[id]))
    && (forall id :: id in s.tasks ==> TaskInv(s, id))
    && (forall w :: w in s.active ==> ActiveInv(s.outbox, w, s.active[w]))
    && (forall rid :: rid in s.runs ==> ListInv(s.outbox, s.runs[rid]))
    && (forall i :: 0 <= i < |s.calls| ==> s.calls[i].event in s.outbox)
  }

  /** A worker may load this event: it is not in the way of another one. */
  ghost predicate MayBegin(s: State, w: Worker, id: Id) {
    && w !in s.active
    && match w
       case BackgroundTask(task) => task == id && id !in s.tasks && (id in s.outbox ==> s.outbox[id].status == Pending)
       case RetryRun(_) => id in s.outbox && s.outbox[id].status != Pending
  }

  lemma BegunKeepsInv(s: State, w: Worker, id: Id, failsAt: nat, registry: Registry)
    requires Inv(s) && MayBegin(s, w, id)
    ensures Inv(Begun(s, w, id, failsAt, registry))
  {
  }

  lemma FinishKeepsInv(s: State, w: Worker, commitRaises: bool, now: real, registry: Registry)
    requires Inv(s) && w in s.active
    ensures Inv(Next(s, Finish(w, commitRaises, now), registry))
  {
    assert ActiveInv(s.outbox, w, s.active[w]);
  }

  lemma StartKeepsInv(s: State, rid: Rid, found: seq<Id>, registry: Registry)
    requires Inv(s) && Enabled(s, StartRetry(rid, found))
    ensures Inv(Next(s, StartRetry(rid, found), registry))
  {
    forall i | 0 <= i < |found| ensures IsFailed(s.outbox, found[i]) {
      assert found[i] in found;
    }
  }

  lemma BeginTaskKeepsInv(s: State, id: Id, failsAt: nat, registry: Registry)
    requires Inv(s) && id in s.tasks
    ensures Inv(Next(s, BeginTask(id, failsAt), registry))
  {
    assert TaskInv(s, id);
    BegunKeepsInv(s.(tasks := s.tasks - {id}), BackgroundTask(id), id, failsAt, registry);
  }

  lemma BeginRetryKeepsInv(s: State, rid: Rid, failsAt: nat, registry: Registry)
    requires Inv(s) && Enabled(s, BeginRetry(rid, failsAt))
    ensures Inv(Next(s, BeginRetry(rid, failsAt), registry))
  {
    assert ListInv(s.outbox, s.runs[rid]);
    BegunKeepsInv(s.(runs := s.runs[rid := s.runs[rid][1..]]), RetryRun(rid), s.runs[rid][0], failsAt, registry);
  }

  lemma StepKeepsInv(s: State, x: Action, registry: Registry)
    requires Inv(s) && Enabled(s, x)
    ensures Inv(Next(s, x, registry))
  {
    match x
    case Publish(_, _, _, _) =>
    case Lose(_) =>
    case BeginTask(id, failsAt) => BeginTaskKeepsInv(s, id, failsAt, registry);
    case StartRetry(rid, found) => StartKeepsInv(s, rid, found, registry);
    case BeginRetry(rid, failsAt) => BeginRetryKeepsInv(s, rid, failsAt, registry);
    case Skip(_) =>
    case Cut(_) =>
    case Finish(w, commitRaises, now) => FinishKeepsInv(s, w, commitRaises, now, registry);
  }

  // ---------------------------------------------------------------- runs

  ghost predicate IsStep(s: State, x: Action, t: State, registry: Registry) {
    Enabled(s, x) && t == Next(s, x, registry)
  }

  ghost predicate IsRun(s: seq<State>, actions: seq<Action>, registry: Registry) {
    && |s| == |actions| + 1
    && s[0] == State(map[], {}, {}, map[], map[], [])
    && forall i :: 0 <= i < |actions| ==> IsStep(s[i], actions[i], s[i + 1], registry)
  }

  /** In every interleaving: PROCESSED rows have a processing time and PENDING ones none, a PENDING row
      is worked on by its own task only, and handlers are called for committed events only. */
  lemma {:induction false} RunKeepsInv(s: seq<State>, actions: seq<Action>, registry: Registry, k: nat)
    requires IsRun(s, actions, registry) && k < |s|
    ensures Inv(s[k])
  {
    if k == 0 {
    } else {
      RunKeepsInv(s, actions, registry, k - 1);
      assert IsStep(s[k - 1], actions[k - 1], s[k], registry);
      StepKeepsInv(s[k - 1], actions[k - 1], registry);
    }
  }

  // ---------------------------------------------------------------- PENDING events

  /** Committed and PENDING, and nobody is going to dispatch it. */
  ghost predicate Orphan(s: State, id: Id) {
    id in s.outbox && s.outbox[id].status == Pending && id !in s.tasks && BackgroundTask(id) !in s.active
  }

  /** Published without background tasks, its task lost, its attempt cut off, or the status commit of its
      attempt raised. */
  ghost predicate Orphans(x: Action, id: Id) {
    match x
    case Publish(published, _, background, commits) => published == id && commits && !background
    case Lose(task) => task == id
    case Cut(w) => w == BackgroundTask(id)
    case Finish(w, commitRaises, _) => w == BackgroundTask(id) && commitRaises
    case _ => false
  }

  lemma OrphanStep(s: State, x: Action, t: State, registry: Registry, id: Id)
    requires Inv(s) && IsStep(s, x, t, registry) && id in t.outbox
    requires !Orphan(s, id)
    ensures Orphan(t, id) <==> Orphans(x, id)
  {
    assert id in s.tasks ==> TaskInv(s, id);
    assert (x.Finish? || x.Cut?) && x.worker in s.active ==> ActiveInv(s.outbox, x.worker, s.active[x.worker]);
    assert x.BeginRetry? || x.Skip? ==> ListInv(s.outbox, s.runs[x.rid]);
  }

  lemma OrphanStays(s: State, x: Action, t: State, registry: Registry, id: Id)
    requires Inv(s) && IsStep(s, x, t, registry) && Orphan(s, id)
    ensures Orphan(t, id) && t.outbox[id] == s.outbox[id]
    ensures s.calls <= t.calls && NoCallOf(t.calls[|s.calls|..], id)
    ensures !Orphans(x, id)
  {
    assert (x.Finish? || x.Cut?) && x.worker in s.active ==> ActiveInv(s.outbox, x.worker, s.active[x.worker]);
    assert x.BeginRetry? || x.Skip? ==> ListInv(s.outbox, s.runs[x.rid]);
  }

  lemma {:induction false} NotYetUsed(s: seq<State>, actions: seq<Action>, registry: Registry, k: nat, id: Id)
    requires IsRun(s, actions, registry) && k < |s| && id !in s[k].used
    ensures forall j :: 0 <= j < k ==> !Orphans(actions[j], id)
  {
    if k == 0 {
    } else {
      RunKeepsInv(s, actions, registry, k - 1);
      assert IsStep(s[k - 1], actions[k - 1], s[k], registry);
      var w := BackgroundTask(id);
      assert w in s[k - 1].active ==> ActiveInv(s[k - 1].outbox, w, s[k - 1].active[w]);
      NotYetUsed(s, actions, registry, k - 1, id);
    }
  }

  /** Which PENDING events nobody is going to dispatch. */
  lemma {:induction false} OrphanExactly(s: seq<State>, actions: seq<Action>, registry: Registry, k: nat, id: Id)
    requires IsRun(s, actions, registry) && k < |s| && id in s[k].outbox
    ensures Orphan(s[k], id) <==> exists j :: 0 <= j < k && Orphans(actions[j], id)
  {
    if k == 0 {
    } else {
      RunKeepsInv(s, actions, registry, k - 1);
      assert IsStep(s[k - 1], actions[k - 1], s[k], registry);
      if id in s[k - 1].outbox {
        OrphanExactly(s, actions, registry, k - 1, id);
      } else {
        NotYetUsed(s, actions, registry, k - 1, id);
      }
      if Orphan(s[k - 1], id) {
        OrphanStays(s[k - 1], actions[k - 1], s[k], registry, id);
      } else {
        OrphanStep(s[k - 1], actions[k - 1], s[k], registry, id);
      }
    }
  }

  /** The shortest such run: one publication without background tasks. */
  lemma PublishedWithoutTask(id: Id, eventType: string, registry: Registry)
    returns (s: seq<State>, actions: seq<Action>)
    ensures IsRun(s, actions, registry) && |actions| == 1 && Orphan(s[1], id)
  {
    var start := State(map[], {}, {}, map[], map[], []);
    actions := [Publish(id, eventType, false, true)];
    s := [start, Next(start, actions[0], registry)];
    assert IsStep(s[0], actions[0], s[1], registry);
  }

  /** The other three can happen to any PENDING event: losing its scheduled task, cutting off its attempt and
      a raising status commit each strand it. */
  lemma PendingCanBeStranded(s: State, registry: Registry, id: Id, now: real)
    requires Inv(s) && id in s.outbox && s.outbox[id].status == Pending
    ensures id in s.tasks ==> Enabled(s, Lose(id)) && Orphan(Next(s, Lose(id), registry), id)
    ensures var w := BackgroundTask(id);
      w in s.active ==>
        && Enabled(s, Cut(w)) && Orphan(Next(s, Cut(w), registry), id)
        && Enabled(s, Finish(w, true, now)) && Orphan(Next(s, Finish(w, true, now), registry), id)
  {
    assert id in s.tasks ==> TaskInv(s, id);
    var w := BackgroundTask(id);
    assert w in s.active ==> ActiveInv(s.outbox, w, s.active[w]);
  }

  /** Such an event stays PENDING and no handler is called for it again: the retry job selects FAILED
      rows only, against what the publisher's documentation says. */
  lemma {:induction false} OrphanIsStuck(s: seq<State>, actions: seq<Action>, registry: Registry, i: nat, k: nat,
      id: Id)
    requires IsRun(s, actions, registry) && i <= k < |s| && Orphan(s[i], id)
    ensures Orphan(s[k], id) && s[k].outbox[id] == s[i].outbox[id]
    ensures s[i].calls <= s[k].calls && NoCallOf(s[k].calls[|s[i].calls|..], id)
  {
    if k == i {
    } else {
      OrphanIsStuck(s, actions, registry, i, k - 1, id);
      RunKeepsInv(s, actions, registry, k - 1);
      assert IsStep(s[k - 1], actions[k - 1], s[k], registry);
      OrphanStays(s[k - 1], actions[k - 1], s[k], registry, id);
    }
  }

  /** Every other PENDING event can still leave PENDING: its task can run, and a running one can commit. */
  lemma TaskCanFinish(s: seq<State>, actions: seq<Action>, registry: Registry, k: nat, id: Id, failsAt: nat, now: real)
    requires IsRun(s, actions, registry) && k < |s| && id in s[k].outbox && s[k].outbox[id].status == Pending
    requires forall j :: 0 <= j < k ==> !Orphans(actions[j], id)
    ensures var begin, finish := BeginTask(id, failsAt), Finish(BackgroundTask(id), false, now);
      if id in s[k].tasks then
        && Enabled(s[k], begin) && Enabled(Next(s[k], begin, registry), finish)
        && Next(Next(s[k], begin, registry), finish, registry).outbox[id].status ==
           if failsAt < |HandlersOf(registry, s[k].outbox[id].eventType)| then Failed else Processed
      else Enabled(s[k], finish) && Next(s[k], finish, registry).outbox[id].status != Pending
  {
    OrphanExactly(s, actions, registry, k, id);
    RunKeepsInv(s, actions, registry, k);
    if id in s[k].tasks {
      assert TaskInv(s[k], id);
    } else {
      assert ActiveInv(s[k].outbox, BackgroundTask(id), s[k].active[BackgroundTask(id)]);
    }
  }

  // ---------------------------------------------------------------- PROCESSED events

  /** The commit of an attempt that returned and whose row was not PROCESSED when loaded. */
  ghost predicate Completes(s: State, x: Action, id: Id) {
    x.Finish? && !x.commitRaises && x.worker in s.active &&
    s.active[x.worker].id == id && !s.active[x.worker].raised && s.active[x.worker].loaded.status != Processed
  }

  /** The commit of an attempt that raised though it had loaded the row as PROCESSED. */
  ghost predicate Undoes(s: State, x: Action, id: Id) {
    x.Finish? && !x.commitRaises && x.worker in s.active &&
    s.active[x.worker].id == id && s.active[x.worker].raised && s.active[x.worker].loaded.status == Processed
  }

  /** The only steps that make a row PROCESSED or leave it. */
  lemma StatusStep(s: State, x: Action, t: State, registry: Registry, id: Id)
    requires Inv(s) && IsStep(s, x, t, registry) && id in s.outbox
    ensures id in t.outbox && t.outbox[id].eventType == s.outbox[id].eventType
    ensures t.outbox[id].status == Processed <==>
      Completes(s, x, id) || (s.outbox[id].status == Processed && !Undoes(s, x, id))
  {
    assert x.Finish? ==> ActiveInv(s.outbox, x.worker, s.active[x.worker]);
  }

  ghost predicate Begins(s: State, x: Action, w: Worker, id: Id) {
    id in s.outbox &&
    match x
    case BeginTask(task, _) => w == BackgroundTask(task) && task == id
    case BeginRetry(rid, _) => w == RetryRun(rid) && rid in s.runs && s.runs[rid] != [] && s.runs[rid][0] == id
    case _ => false
  }

  function FailsAt(x: Action): nat {
    match x
    case BeginTask(_, failsAt) => failsAt
    case BeginRetry(_, failsAt) => failsAt
    case _ => 0
  }

  /** Worker `w` began at step j with event `id` and its attempt has not ended before k. */
  ghost predicate Since(s: seq<State>, actions: seq<Action>, j: nat, k: nat, w: Worker, id: Id)
    requires |s| == |actions| + 1
  {
    && j < k < |s| && Begins(s[j], actions[j], w, id)
    && forall n :: j < n < k ==> !Ends(actions[n], w)
  }

  ghost predicate Ends(x: Action, w: Worker) {
    (x.Finish? || x.Cut?) && x.worker == w
  }

  function Loaded(e: DomainEvent, id: Id, failsAt: nat, registry: Registry): Active {
    Active(id, e, failsAt < |HandlersOf(registry, e.eventType)|)
  }

  lemma ActiveStep(s: State, x: Action, t: State, registry: Registry, w: Worker)
    requires Inv(s) && IsStep(s, x, t, registry)
    ensures w in t.active ==>
      if w in s.active then t.active[w] == s.active[w] && !Ends(x, w)
      else
        var a := t.active[w];
        Begins(s, x, w, a.id) && a == Loaded(s.outbox[a.id], a.id, FailsAt(x), registry)
    ensures forall id :: Begins(s, x, w, id) ==> w in t.active && t.active[w].id == id
    ensures w in s.active && !Ends(x, w) ==> w in t.active
  {
    assert x.BeginTask? ==> TaskInv(s, x.id);
  }

  /** Every attempt under way began at one step of the run, with the row it loaded there. */
  lemma {:induction false} ActiveSince(s: seq<State>, actions: seq<Action>, registry: Registry, k: nat, w: Worker)
    returns (j: nat)
    requires IsRun(s, actions, registry) && k < |s| && w in s[k].active
    ensures var a := s[k].active[w];
      Since(s, actions, j, k, w, a.id) && a == Loaded(s[j].outbox[a.id], a.id, FailsAt(actions[j]), registry)
  {
    j := k - 1;
    RunKeepsInv(s, actions, registry, j);
    assert IsStep(s[j], actions[j], s[k], registry);
    ActiveStep(s[j], actions[j], s[k], registry, w);
    if w in s[j].active {
      j := ActiveSince(s, actions, registry, j, w);
    }
  }

  lemma {:induction false} StillActive(s: seq<State>, actions: seq<Action>, registry: Registry, j: nat, k: nat,
      w: Worker, id: Id)
    requires IsRun(s, actions, registry) && Since(s, actions, j, k, w, id)
    ensures w in s[k].active && s[k].active[w] == Loaded(s[j].outbox[id], id, FailsAt(actions[j]), registry)
  {
    RunKeepsInv(s, actions, registry, k - 1);
    assert IsStep(s[k - 1], actions[k - 1], s[k], registry);
    ActiveStep(s[k - 1], actions[k - 1], s[k], registry, w);
    if k == j + 1 {
      assert Begins(s[j], actions[j], w, id);
    } else {
      StillActive(s, actions, registry, j, k - 1, w, id);
    }
  }

  /** An attempt that loaded the row while it was not PROCESSED, and in which no handler raises. */
  ghost predicate Success(s: seq<State>, actions: seq<Action>, registry: Registry, j: nat, k: nat, w: Worker, id: Id)
    requires |s| == |actions| + 1
  {
    Since(s, actions, j, k, w, id) && s[j].outbox[id].status != Processed &&
    FailsAt(actions[j]) >= |HandlersOf(registry, s[j].outbox[id].eventType)|
  }

  /** A row becomes PROCESSED exactly when such an attempt commits. */
  lemma ReachedExactly(s: seq<State>, actions: seq<Action>, registry: Registry, k: nat, id: Id)
    requires IsRun(s, actions, registry) && k < |actions|
    requires id in s[k].outbox && s[k].outbox[id].status != Processed
    ensures id in s[k + 1].outbox
    ensures s[k + 1].outbox[id].status == Processed <==>
      actions[k].Finish? && !actions[k].commitRaises &&
      exists j :: Success(s, actions, registry, j, k, actions[k].worker, id)
  {
    RunKeepsInv(s, actions, registry, k);
    assert IsStep(s[k], actions[k], s[k + 1], registry);
    StatusStep(s[k], actions[k], s[k + 1], registry, id);
    if Completes(s[k], actions[k], id) {
      var j := ActiveSince(s, actions, registry, k, actions[k].worker);
      assert Success(s, actions, registry, j, k, actions[k].worker, id);
    } else if actions[k].Finish? {
      forall j | Success(s, actions, registry, j, k, actions[k].worker, id)
        ensures Completes(s[k], actions[k], id) || actions[k].commitRaises
      {
        StillActive(s, actions, registry, j, k, actions[k].worker, id);
      }
    }
  }

  /** A retry run visits the event though it is PROCESSED by now, and a handler raises. */
  ghost predicate StaleFailure(s: seq<State>, actions: seq<Action>, registry: Registry, j: nat, k: nat, w: Worker,
      id: Id)
    requires |s| == |actions| + 1
  {
    Since(s, actions, j, k, w, id) && s[j].outbox[id].status == Processed &&
    FailsAt(actions[j]) < |HandlersOf(registry, s[j].outbox[id].eventType)|
  }

  /** PROCESSED is left exactly when such a visit commits. */
  lemma LeftExactly(s: seq<State>, actions: seq<Action>, registry: Registry, k: nat, id: Id)
    requires IsRun(s, actions, registry) && k < |actions|
    requires id in s[k].outbox && s[k].outbox[id].status == Processed
    ensures id in s[k + 1].outbox
    ensures s[k + 1].outbox[id].status != Processed <==>
      actions[k].Finish? && !actions[k].commitRaises &&
      exists j :: StaleFailure(s, actions, registry, j, k, actions[k].worker, id)
  {
    RunKeepsInv(s, actions, registry, k);
    assert IsStep(s[k], actions[k], s[k + 1], registry);
    StatusStep(s[k], actions[k], s[k + 1], registry, id);
    if Undoes(s[k], actions[k], id) {
      var j := ActiveSince(s, actions, registry, k, actions[k].worker);
      assert StaleFailure(s, actions, registry, j, k, actions[k].worker, id);
    } else if actions[k].Finish? {
      forall j | StaleFailure(s, actions, registry, j, k, actions[k].worker, id)
        ensures Undoes(s[k], actions[k], id) || actions[k].commitRaises
      {
        StillActive(s, actions, registry, j, k, actions[k].worker, id);
      }
    }
  }

  lemma ListStep(s: State, x: Action, t: State, registry: Registry, rid: Rid, n: nat)
    requires IsStep(s, x, t, registry) && rid in t.runs && n < |t.runs[rid]|
    ensures if rid in s.runs then t.runs[rid][n] in s.runs[rid]
      else x.StartRetry? && x.rid == rid && IsFailed(s.outbox, t.runs[rid][n])
  {
    if x.StartRetry? && x.rid == rid {
      assert x.found[n] in x.found;
    }
  }

  /** Whatever a retry run still visits was FAILED when the run began. */
  lemma {:induction false} ListedSince(s: seq<State>, actions: seq<Action>, registry: Registry, k: nat, rid: Rid,
      n: nat) returns (i: nat)
    requires IsRun(s, actions, registry) && k < |s| && rid in s[k].runs && n < |s[k].runs[rid]|
    ensures i < k && actions[i].StartRetry? && actions[i].rid == rid && IsFailed(s[i].outbox, s[k].runs[rid][n])
  {
    i := k - 1;
    assert IsStep(s[i], actions[i], s[k], registry);
    ListStep(s[i], actions[i], s[k], registry, rid, n);
    if rid in s[i].runs {
      var m :| 0 <= m < |s[i].runs[rid]| && s[i].runs[rid][m] == s[k].runs[rid][n];
      i := ListedSince(s, actions, registry, i, rid, m);
    }
  }

  /** A PROCESSED event was delivered: at some step all its handlers were called in order. */
  lemma {:induction false} ProcessedWasDelivered(s: seq<State>, actions: seq<Action>, registry: Registry, k: nat,
      id: Id) returns (j: nat, m: nat)
    requires IsRun(s, actions, registry) && k < |s| && id in s[k].outbox && s[k].outbox[id].status == Processed
    ensures j < m < k && actions[m].Finish? && !actions[m].commitRaises
    ensures Since(s, actions, j, m, actions[m].worker, id)
    ensures s[j + 1].calls == s[j].calls + CallsTo(id, HandlersOf(registry, s[k].outbox[id].eventType))
  {
    m := k - 1;
    RunKeepsInv(s, actions, registry, m);
    assert IsStep(s[m], actions[m], s[k], registry);
    assert id in s[m].outbox;
    StatusStep(s[m], actions[m], s[k], registry, id);
    if s[m].outbox[id].status == Processed {
      j, m := ProcessedWasDelivered(s, actions, registry, m, id);
    } else {
      j := CompletedWasDelivered(s, actions, registry, m, id);
    }
  }

  lemma CompletedWasDelivered(s: seq<State>, actions: seq<Action>, registry: Registry, m: nat, id: Id)
    returns (j: nat)
    requires IsRun(s, actions, registry) && m < |actions| && id in s[m].outbox && Completes(s[m], actions[m], id)
    ensures Since(s, actions, j, m, actions[m].worker, id)
    ensures s[j + 1].calls == s[j].calls + CallsTo(id, HandlersOf(registry, s[m].outbox[id].eventType))
  {
    j := ActiveSince(s, actions, registry, m, actions[m].worker);
    assert IsStep(s[j], actions[j], s[j + 1], registry);
    TypeStays(s, actions, registry, j, m, id);
  }

  lemma {:induction false} TypeStays(s: seq<State>, actions: seq<Action>, registry: Registry, j: nat, k: nat, id: Id)
    requires IsRun(s, actions, registry) && j <= k < |s| && id in s[j].outbox
    ensures id in s[k].outbox && s[k].outbox[id].eventType == s[j].outbox[id].eventType
  {
    if k == j {
    } else {
      TypeStays(s, actions, registry, j, k - 1, id);
      RunKeepsInv(s, actions, registry, k - 1);
      assert IsStep(s[k - 1], actions[k - 1], s[k], registry);
      StatusStep(s[k - 1], actions[k - 1], s[k], registry, id);
    }
  }

  /** An attempt calls the handlers in order up to the one that raises; no other step calls any. */
  lemma CallsExactly(s: State, x: Action, t: State, registry: Registry)
    requires Inv(s) && IsStep(s, x, t, registry)
    ensures t.calls != s.calls ==> exists w, id :: Begins(s, x, w, id)
    ensures forall w, id :: Begins(s, x, w, id) ==>
      var handlers := HandlersOf(registry, s.outbox[id].eventType);
      var n := if FailsAt(x) < |handlers| then FailsAt(x) + 1 else |handlers|;
      && t.calls == s.calls + CallsTo(id, handlers[..n])
      && w in t.active && (t.active[w].raised <==> FailsAt(x) < |handlers|)
  {
    if t.calls != s.calls {
      var w := if x.BeginTask? then BackgroundTask(x.id) else RetryRun(x.rid);
      assert Begins(s, x, w, if x.BeginTask? then x.id else s.runs[x.rid][0]);
    }
    forall w, id | Begins(s, x, w, id)
      ensures var handlers := HandlersOf(registry, s.outbox[id].eventType);
        FailsAt(x) >= |handlers| ==> handlers[..|handlers|] == handlers
    {
    }
  }

  /** Calling the whole list is not yet PROCESSED: of a row that was not PROCESSED, all handlers are called
      even if the last one raises, and the commit then makes it PROCESSED exactly if none raised. */
  lemma WholeListExactly(s: State, w: Worker, id: Id, a: Attempt, registry: Registry)
    requires id in s.outbox && s.outbox[id].status != Processed && !a.commitRaises
    ensures var handlers := HandlersOf(registry, s.outbox[id].eventType);
      var t := Begun(s, w, id, a.failsAt, registry);
      && (t.calls == s.calls + CallsTo(id, handlers) <==> a.failsAt + 1 >= |handlers|)
      && (Next(t, Finish(w, false, a.now), registry).outbox[id].status == Processed <==> a.failsAt >= |handlers|)
  {
    var handlers := HandlersOf(registry, s.outbox[id].eventType);
    var called := Called(handlers, a.failsAt);
    assert a.failsAt + 1 >= |handlers| ==> called == handlers;
    assert |s.calls + CallsTo(id, called)| == |s.calls| + |called|;
    assert |s.calls + CallsTo(id, handlers)| == |s.calls| + |handlers|;
  }

  // ---------------------------------------------------------------- one retry run at a time

  ghost predicate Busy(s: State, rid: Rid) {
    (rid in s.runs && s.runs[rid] != []) || RetryRun(rid) in s.active
  }

  /** A busy retry run can be over at any time, and an idle one can pass over its next event. */
  lemma RetryRunCanEnd(s: State, registry: Registry, rid: Rid)
    requires Inv(s) && Busy(s, rid)
    ensures Enabled(s, Cut(RetryRun(rid))) && !Busy(Next(s, Cut(RetryRun(rid)), registry), rid)
    ensures RetryRun(rid) !in s.active ==>
      && rid in s.runs && Enabled(s, Skip(rid))
      && Next(s, Skip(rid), registry) == s.(runs := s.runs[rid := s.runs[rid][1..]])
  {
  }

  /** No retry run starts before the last one is over. */
  ghost predicate SerialRetries(s: seq<State>, actions: seq<Action>)
    requires |s| == |actions| + 1
  {
    forall i, rid :: 0 <= i < |actions| && actions[i].StartRetry? ==> !Busy(s[i], rid)
  }

  ghost predicate FailedList(outbox: Outbox, list: seq<Id>) {
    forall i :: 0 <= i < |list| ==> IsFailed(outbox, list[i])
  }

  ghost predicate RetryInv(s: State, rid: Rid, a: Active) {
    && a.loaded.status == Failed && a.id in s.outbox && s.outbox[a.id] == a.loaded
    && rid in s.runs && a.id !in s.runs[rid]
  }

  ghost predicate SerialInv(s: State) {
    && (forall id :: id in s.outbox ==> (s.outbox[id].processedAt.Some? <==> s.outbox[id].status == Processed))
    && (forall rid :: rid in s.runs ==> Distinct(s.runs[rid]) && FailedList(s.outbox, s.runs[rid]))
    && (forall rid, other :: Busy(s, rid) && Busy(s, other) ==> rid == other)
    && (forall w :: w in s.active && w.RetryRun? ==> RetryInv(s, w.rid, s.active[w]))
  }

  lemma BusyStep(s: State, x: Action, t: State, registry: Registry, rid: Rid)
    requires Inv(s) && IsStep(s, x, t, registry) && Busy(t, rid)
    ensures Busy(s, rid) || (x.StartRetry? && x.rid == rid)
  {
  }

  lemma SerialBegin(s: State, x: Action, t: State, registry: Registry)
    requires Inv(s) && SerialInv(s) && IsStep(s, x, t, registry) && (x.BeginRetry? || x.Skip?)
    ensures forall rid :: rid in t.runs ==> Distinct(t.runs[rid]) && FailedList(t.outbox, t.runs[rid])
    ensures forall w :: w in t.active && w.RetryRun? ==> RetryInv(t, w.rid, t.active[w])
  {
    var list := s.runs[x.rid];
    assert Distinct(list) && FailedList(s.outbox, list);
    assert list[0] !in list[1..];
    assert FailedList(t.outbox, list[1..]) by {
      assert forall i :: 0 <= i < |list[1..]| ==> list[1..][i] == list[i + 1];
    }
    forall w | w in t.active && w.RetryRun? ensures RetryInv(t, w.rid, t.active[w]) {
      if w in s.active {
        assert Busy(s, w.rid) && Busy(s, x.rid);
      }
    }
  }

  lemma SerialFinish(s: State, x: Action, t: State, registry: Registry)
    requires Inv(s) && SerialInv(s) && IsStep(s, x, t, registry) && x.Finish?
    ensures forall rid :: rid in t.runs ==> Distinct(t.runs[rid]) && FailedList(t.outbox, t.runs[rid])
    ensures forall w :: w in t.active && w.RetryRun? ==> RetryInv(t, w.rid, t.active[w])
  {
    var a := s.active[x.worker];
    assert ActiveInv(s.outbox, x.worker, a);
    assert x.worker.RetryRun? ==> RetryInv(s, x.worker.rid, a) && Busy(s, x.worker.rid);
    forall rid | rid in t.runs ensures Distinct(t.runs[rid]) && FailedList(t.outbox, t.runs[rid]) {
      assert t.runs[rid] != [] ==> Busy(s, rid);
      assert FailedList(s.outbox, s.runs[rid]);
    }
    forall w | w in t.active && w.RetryRun? ensures RetryInv(t, w.rid, t.active[w]) {
      assert Busy(s, w.rid) && RetryInv(s, w.rid, s.active[w]);
    }
  }

  lemma SerialCut(s: State, x: Action, t: State, registry: Registry)
    requires Inv(s) && SerialInv(s) && IsStep(s, x, t, registry) && x.Cut?
    ensures forall rid :: rid in t.runs ==> Distinct(t.runs[rid]) && FailedList(t.outbox, t.runs[rid])
    ensures forall w :: w in t.active && w.RetryRun? ==> RetryInv(t, w.rid, t.active[w])
  {
  }

  lemma SerialStep(s: State, x: Action, t: State, registry: Registry)
    requires Inv(s) && SerialInv(s) && IsStep(s, x, t, registry)
    requires x.StartRetry? ==> forall rid :: !Busy(s, rid)
    ensures SerialInv(t)
  {
    forall rid, other | Busy(t, rid) && Busy(t, other) ensures rid == other {
      BusyStep(s, x, t, registry, rid);
      BusyStep(s, x, t, registry, other);
    }
    if x.BeginRetry? || x.Skip? {
      SerialBegin(s, x, t, registry);
    } else if x.Finish? {
      SerialFinish(s, x, t, registry);
    } else if x.Cut? {
      SerialCut(s, x, t, registry);
    } else if x.StartRetry? {
      assert forall i :: 0 <= i < |x.found| ==> x.found[i] in x.found;
    }
  }

  /** With serial retry runs a processing time stands for PROCESSED and for nothing else. */
  lemma {:induction false} SerialKeepsInv(s: seq<State>, actions: seq<Action>, registry: Registry, k: nat)
    requires IsRun(s, actions, registry) && SerialRetries(s, actions) && k < |s|
    ensures SerialInv(s[k])
  {
    if k == 0 {
    } else {
      SerialKeepsInv(s, actions, registry, k - 1);
      RunKeepsInv(s, actions, registry, k - 1);
      assert IsStep(s[k - 1], actions[k - 1], s[k], registry);
      SerialStep(s[k - 1], actions[k - 1], s[k], registry);
    }
  }

  lemma ProcessedStays(s: State, x: Action, t: State, registry: Registry, id: Id)
    requires Inv(s) && SerialInv(s) && IsStep(s, x, t, registry)
    requires id in s.outbox && s.outbox[id].status == Processed
    ensures id in t.outbox && t.outbox[id] == s.outbox[id]
    ensures s.calls <= t.calls && NoCallOf(t.calls[|s.calls|..], id)
  {
    assert x.Finish? ==> ActiveInv(s.outbox, x.worker, s.active[x.worker]);
    assert x.Finish? && x.worker.RetryRun? ==> RetryInv(s, x.worker.rid, s.active[x.worker]);
    assert x.BeginRetry? ==> FailedList(s.outbox, s.runs[x.rid]);
    assert x.BeginTask? ==> TaskInv(s, x.id);
  }

  /** With serial retry runs PROCESSED is final: the row never changes and no handler is called for it again. */
  lemma {:induction false} ProcessedIsFinal(s: seq<State>, actions: seq<Action>, registry: Registry, i: nat, k: nat,
      id: Id)
    requires IsRun(s, actions, registry) && SerialRetries(s, actions) && i <= k < |s|
    requires id in s[i].outbox && s[i].outbox[id].status == Processed
    ensures id in s[k].outbox && s[k].outbox[id] == s[i].outbox[id]
    ensures s[i].calls <= s[k].calls && NoCallOf(s[k].calls[|s[i].calls|..], id)
  {
    if k == i {
    } else {
      ProcessedIsFinal(s, actions, registry, i, k - 1, id);
      RunKeepsInv(s, actions, registry, k - 1);
      SerialKeepsInv(s, actions, registry, k - 1);
      assert IsStep(s[k - 1], actions[k - 1], s[k], registry);
      ProcessedStays(s[k - 1], actions[k - 1], s[k], registry, id);
    }
  }

  /** Two retry runs that found the same FAILED event, of an event type with the one handler 0. */
  function Scene(id: Id, eventType: string, now: real, i: nat): State {
    var pending, failed := DomainEvent(eventType, Pending, None), DomainEvent(eventType, Failed, None);
    var processed, undone := failed.(status := Processed, processedAt := Some(now)), failed.(processedAt := Some(now));
    var c := Call(id, 0);
    match i
    case 0 => State(map[], {}, {}, map[], map[], [])
    case 1 => State(map[id := pending], {id}, {id}, map[], map[], [])
    case 2 => State(map[id := pending], {id}, {}, map[], map[BackgroundTask(id) := Active(id, pending, true)], [c])
    case 3 => State(map[id := failed], {id}, {}, map[], map[], [c])
    case 4 => State(map[id := failed], {id}, {}, map[0 := [id]], map[], [c])
    case 5 => State(map[id := failed], {id}, {}, map[0 := [id], 1 := [id]], map[], [c])
    case 6 =>
      State(map[id := failed], {id}, {}, map[0 := [], 1 := [id]], map[RetryRun(0) := Active(id, failed, false)], [c, c])
    case 7 => State(map[id := processed], {id}, {}, map[0 := [], 1 := [id]], map[], [c, c])
    case 8 =>
      State(map[id := processed], {id}, {}, map[0 := [], 1 := []], map[RetryRun(1) := Active(id, processed, true)],
            [c, c, c])
    case _ => State(map[id := undone], {id}, {}, map[0 := [], 1 := []], map[], [c, c, c])
  }

  function Act(id: Id, eventType: string, now: real, i: nat): Action {
    match i
    case 0 => Publish(id, eventType, true, true)
    case 1 => BeginTask(id, 0)
    case 2 => Finish(BackgroundTask(id), false, now)
    case 3 => StartRetry(0, [id])
    case 4 => StartRetry(1, [id])
    case 5 => BeginRetry(0, 1)
    case 6 => Finish(RetryRun(0), false, now)
    case 7 => BeginRetry(1, 0)
    case _ => Finish(RetryRun(1), false, now)
  }

  lemma OneCall(id: Id)
    ensures Called([0], 0) == Called([0], 1) == [0] && CallsTo(id, [0]) == [Call(id, 0)]
  {
  }

  lemma SceneStarts(id: Id, eventType: string, now: real, i: nat)
    requires i < 5
    ensures IsStep(Scene(id, eventType, now, i), Act(id, eventType, now, i), Scene(id, eventType, now, i + 1),
                   map[eventType := [0]])
  {
    OneCall(id);
  }

  lemma SceneEnds(id: Id, eventType: string, now: real, i: nat)
    requires 5 <= i < 9
    ensures IsStep(Scene(id, eventType, now, i), Act(id, eventType, now, i), Scene(id, eventType, now, i + 1),
                   map[eventType := [0]])
  {
    OneCall(id);
    if i < 7 {
    } else {
    }
  }

  /** The proviso is needed: the event is PROCESSED and then FAILED again. */
  lemma ConcurrentRetriesCanUndo(id: Id, eventType: string, now: real) returns (s: seq<State>, actions: seq<Action>)
    ensures IsRun(s, actions, map[eventType := [0]]) && |actions| == 9
    ensures id in s[7].outbox && s[7].outbox[id] == DomainEvent(eventType, Processed, Some(now))
    ensures id in s[9].outbox && s[9].outbox[id] == DomainEvent(eventType, Failed, Some(now))
  {
    s := seq(10, i requires 0 <= i < 10 => Scene(id, eventType, now, i));
    actions := seq(9, i requires 0 <= i < 9 => Act(id, eventType, now, i));
    forall i | 0 <= i < 9 ensures IsStep(s[i], actions[i], s[i + 1], map[eventType := [0]]) {
      if i < 5 {
        SceneStarts(id, eventType, now, i);
      } else {
        SceneEnds(id, eventType, now, i);
      }
    }
  }

  // ---------------------------------------------------------------- the dispatcher's methods as steps

  /** An attempt nothing comes between is `Dispatched`. */
  lemma AttemptIsDispatch(s: State, w: Worker, id: Id, a: Attempt, registry: Registry)
    requires w !in s.active && id in s.outbox
    ensures var t := Begun(s, w, id, a.failsAt, registry);
      && Enabled(t, Finish(w, a.commitRaises, a.now))
      && Next(t, Finish(w, a.commitRaises, a.now), registry) ==
         s.(outbox := Dispatched(s.outbox, registry, id, a), calls := s.calls + CallsMade(s.outbox, registry, id, a))
  {
    var t := Begun(s, w, id, a.failsAt, registry);
    var u := Next(t, Finish(w, a.commitRaises, a.now), registry);
    assert u.active == s.active;
    assert u.outbox == Dispatched(s.outbox, registry, id, a);
  }

  /** What `RetryFailedEvents` promises after `n` of its dispatches. */
  ghost function AfterVisits(s: State, rid: Rid, found: seq<Id>, n: nat, attempts: map<Id, Attempt>,
      registry: Registry): State
    requires n <= |found| && Planned(found, attempts)
  {
    s.(outbox := Retried(s.outbox, registry, found, n, attempts),
       calls := s.calls + RunCalls(s.outbox, registry, found, n, attempts),
       runs := s.runs[rid := found[n..]])
  }

  /** A retry run nothing comes between is StartRetry and one BeginRetry and Finish for each event. */
  lemma RetryRunIsRetried(s: State, rid: Rid, found: seq<Id>, n: nat, attempts: map<Id, Attempt>, registry: Registry)
    requires Enabled(s, StartRetry(rid, found)) && RetryRun(rid) !in s.active && Planned(found, attempts)
    ensures AfterVisits(s, rid, found, 0, attempts, registry) == Next(s, StartRetry(rid, found), registry)
    ensures n < |found| ==>
      var a := attempts[found[n]];
      var begin, finish := BeginRetry(rid, a.failsAt), Finish(RetryRun(rid), a.commitRaises, a.now);
      var t := AfterVisits(s, rid, found, n, attempts, registry);
      && Enabled(t, begin) && Enabled(Next(t, begin, registry), finish)
      && Next(Next(t, begin, registry), finish, registry) == AfterVisits(s, rid, found, n + 1, attempts, registry)
  {
    assert found[0..] == found;
    if n < |found| {
      assert found[n] in found;
      RetriedKeys(s.outbox, registry, found, n, attempts);
      VisitIsDispatch(AfterVisits(s, rid, found, n, attempts, registry), rid, found, n, attempts[found[n]], registry);
      AfterNext(s, rid, found, n, attempts, registry);
    }
  }

  lemma AfterNext(s: State, rid: Rid, found: seq<Id>, n: nat, attempts: map<Id, Attempt>, registry: Registry)
    requires n < |found| && Planned(found, attempts)
    ensures AfterVisits(s, rid, found, n + 1, attempts, registry) ==
      Visited(AfterVisits(s, rid, found, n, attempts, registry), rid, found, n, attempts[found[n]], registry)
  {
    var t := AfterVisits(s, rid, found, n, attempts, registry);
    assert s.runs[rid := found[n + 1..]] == t.runs[rid := found[n + 1..]];
  }

  ghost function Visited(s: State, rid: Rid, found: seq<Id>, n: nat, a: Attempt, registry: Registry): State
    requires n < |found|
  {
    s.(outbox := Dispatched(s.outbox, registry, found[n], a),
       calls := s.calls + CallsMade(s.outbox, registry, found[n], a),
       runs := s.runs[rid := found[n + 1..]])
  }

  lemma VisitIsDispatch(s: State, rid: Rid, found: seq<Id>, n: nat, a: Attempt, registry: Registry)
    requires n < |found| && rid in s.runs && s.runs[rid] == found[n..] && RetryRun(rid) !in s.active
    requires found[n] in s.outbox
    ensures var begin, finish := BeginRetry(rid, a.failsAt), Finish(RetryRun(rid), a.commitRaises, a.now);
      && Enabled(s, begin) && Enabled(Next(s, begin, registry), finish)
      && Next(Next(s, begin, registry), finish, registry) == Visited(s, rid, found, n, a, registry)
  {
    assert s.runs[rid][1..] == found[n + 1..] && s.runs[rid][0] == found[n];
    AttemptIsDispatch(s.(runs := s.runs[rid := found[n + 1..]]), RetryRun(rid), found[n], a, registry);
  }
}
