/** Any number of sessions that load journeys and later try to move them, in any interleaving.
    A flush is the version-checked UPDATE: it holds the row until its session commits or aborts. */
module JourneyProtocol {
  import opened Options
  import opened Transactions
  import opened Journeys

  type Sid = nat

  datatype SessionState =
    | Idle
    | Loaded(id: Id, copy: Journey)
    | Flushed(id: Id, copy: Journey, to: Stage, actor: Id, now: real, background: bool)

  datatype System = System(db: JourneyDb, sessions: map<Sid, SessionState>, queued: seq<Task>)

  datatype Action =
    | Create(newId: Id, candidate: Id, withTasks: bool)
    | Load(sid: Sid, journey: Id)
    | Flush(sid: Sid, to: Stage, actor: Id, comments: string, now: real, background: bool)
    | Commit(sid: Sid)
    | Abort(sid: Sid)

  function At(s: System, sid: Sid): SessionState {
    if sid in s.sessions then s.sessions[sid] else Idle
  }

  predicate HoldsRow(s: System, sid: Sid, id: Id) {
    At(s, sid).Flushed? && At(s, sid).id == id
  }

  ghost predicate Enabled(s: System, a: Action) {
    match a
    case Create(newId, _, _) => newId !in s.db.journeys
    case Load(sid, id) => At(s, sid).Idle? && id in s.db.journeys
    case Flush(sid, _, _, _, _, _) => At(s, sid).Loaded? && forall other :: !HoldsRow(s, other, At(s, sid).id)
    case Commit(sid) => At(s, sid).Flushed?
    case Abort(sid) => !At(s, sid).Idle?
  }

  /** The service raises, or the UPDATE matches no row. */
  predicate Rejected(s: System, a: Action)
    requires a.Flush? && At(s, a.sid).Loaded?
  {
    var l := At(s, a.sid);
    || a.to !in ValidTransitions(l.copy.stage)
    || |a.comments| > 2000
    || !(l.id in s.db.journeys && s.db.journeys[l.id].version == l.copy.version)
  }

  ghost function Next(s: System, a: Action): System
    requires Enabled(s, a)
  {
    match a
    case Create(newId, candidate, withTasks) =>
      s.(db := Created(s.db, newId, candidate),
         queued := s.queued + if withTasks then [Dispatch(JourneyCreated(newId))] else [])
    case Load(sid, id) => s.(sessions := s.sessions[sid := Loaded(id, s.db.journeys[id])])
    case Flush(sid, to, actor, comments, now, background) =>
      var l := At(s, sid);
      s.(sessions := s.sessions[sid := if Rejected(s, a) then Idle
          else Flushed(l.id, l.copy, to, actor, now, background)])
    case Commit(sid) =>
      var w := At(s, sid);
      System(Transitioned(s.db, w.id, w.copy, w.to, w.actor, w.now), s.sessions[sid := Idle],
             s.queued + TasksOf(w.id, w.copy.stage, w.to, w.background))
    case Abort(sid) => s.(sessions := s.sessions[sid := Idle])
  }

  /** A flush that commits at once is the service's transition on the committed state. */
  lemma FlushThenCommit(s: System, a: Action)
    requires a.Flush? && Enabled(s, a) && At(s, a.sid).id in s.db.journeys
    ensures var l := At(s, a.sid);
      var t := Next(s, a);
      var result := TransitionResult(s.db, l.id, l.copy, a.to, a.actor, a.comments, a.now, a.background, {});
      if Rejected(s, a) then result.0 == t.db && result.1.Raised? && t.queued == s.queued
      else result.0 == Next(t, Commit(a.sid)).db && Next(t, Commit(a.sid)).queued == s.queued + result.2
  {
  }

  /** An idle session can load any journey, flush a transition of it if no other session holds the row, and
      commit or abort it: what comes of it is the service's transition of the stored row. */
  lemma LoadFlushCommit(s: System, sid: Sid, id: Id, to: Stage, actor: Id, comments: string, now: real,
      background: bool)
    requires At(s, sid).Idle? && id in s.db.journeys && forall other :: !HoldsRow(s, other, id)
    ensures Enabled(s, Load(sid, id))
    ensures var loaded, flush := Next(s, Load(sid, id)), Flush(sid, to, actor, comments, now, background);
      && Enabled(loaded, Abort(sid)) && Enabled(loaded, flush)
      && var (e, r, tasks) :=
           TransitionResult(s.db, id, s.db.journeys[id], to, actor, comments, now, background, {});
         if r.Raised? then Next(loaded, flush).db == e && Next(loaded, flush).queued == s.queued
         else
           && Enabled(Next(loaded, flush), Abort(sid)) && Enabled(Next(loaded, flush), Commit(sid))
           && Next(Next(loaded, flush), Commit(sid)).db == e
           && Next(Next(loaded, flush), Commit(sid)).queued == s.queued + tasks
           && Next(Next(loaded, flush), Abort(sid)).db == s.db
  {
    var loaded, flush := Next(s, Load(sid, id)), Flush(sid, to, actor, comments, now, background);
    assert forall other :: HoldsRow(loaded, other, id) ==> HoldsRow(s, other, id);
    FlushThenCommit(loaded, flush);
  }

  // ---------------------------------------------------------------- one journey's rows

  function HistoryOf(h: seq<HistoryRow>, id: Id): seq<HistoryRow> {
    if h == [] then []
    else
      var earlier := HistoryOf(h[..|h| - 1], id);
      if h[|h| - 1].journey == id then earlier + [h[|h| - 1]] else earlier
  }

  function MovesOf(events: seq<Event>, id: Id): seq<(Stage, Stage)> {
    if events == [] then []
    else
      var earlier := MovesOf(events[..|events| - 1], id);
      var e := events[|events| - 1];
      if e.StageChanged? && e.journey == id then earlier + [(e.from, e.to)] else earlier
  }

  function SurveysFor(queued: seq<Task>, id: Id): nat {
    if queued == [] then 0
    else SurveysFor(queued[..|queued| - 1], id) + if queued[|queued| - 1] == CreateSurvey(id) then 1 else 0
  }

  /** A contiguous path from SOURCED to the stage along the valid transitions. */
  ghost predicate LegalPath(h: seq<HistoryRow>, stage: Stage) {
    && (h == [] ==> stage == Sourced)
    && (h != [] ==> h[0].from == Sourced && h[|h| - 1].to == stage)
    && (forall i :: 0 <= i < |h| ==> h[i].to in ValidTransitions(h[i].from))
    && (forall i :: 0 < i < |h| ==> h[i].from == h[i - 1].to)
  }

  /** The events published for a journey are its history rows, one for one. */
  ghost predicate Published(moves: seq<(Stage, Stage)>, h: seq<HistoryRow>) {
    |moves| == |h| && forall i :: 0 <= i < |h| ==> moves[i] == (h[i].from, h[i].to)
  }

  ghost predicate Visits(h: seq<HistoryRow>, stage: Stage) {
    exists i :: 0 <= i < |h| && h[i].to == stage
  }

  ghost predicate FlagsMatch(j: Journey, join: JoinRecord, id: Id, h: seq<HistoryRow>) {
    && (j.overall == Completed <==> j.stage == OfferAccepted)
    && (j.offerRespondedAt.Some? <==> j.stage == OfferAccepted)
    && (join.isEncrypted <==> j.stage == OfferAccepted)
    && (join.isEncrypted ==>
          && join.candidateEncrypted == Some(Encrypted(j.candidate))
          && join.journeyEncrypted == Some(Encrypted(id)))
    && (j.offerExtendedAt.Some? <==> Visits(h, OfferExtended))
    && (j.stage in TERMINAL_STAGES ==> j.stageStatus.None?)
  }

  ghost predicate JourneyOk(d: JourneyDb, id: Id)
    requires id in d.journeys
  {
    var h := HistoryOf(d.history, id);
    && LegalPath(h, d.journeys[id].stage)
    && Published(MovesOf(d.events, id), h)
    && d.journeys[id].version == 1 + |h|
    && id in d.joins && FlagsMatch(d.journeys[id], d.joins[id], id, h)
  }

  ghost predicate RowsOk(d: JourneyDb) {
    && (forall id :: id in d.journeys ==> JourneyOk(d, id))
    && (forall id :: id !in d.journeys ==> HistoryOf(d.history, id) == [] && MovesOf(d.events, id) == [])
  }

  ghost predicate SessionOk(d: JourneyDb, st: SessionState) {
    match st
    case Idle => true
    case Loaded(id, copy) =>
      && id in d.journeys && copy.version <= d.journeys[id].version
      && (copy.version == d.journeys[id].version ==> copy == d.journeys[id])
    case Flushed(id, copy, to, _, _, _) =>
      id in d.journeys && copy == d.journeys[id] && to in ValidTransitions(copy.stage)
  }

  ghost predicate SessionsOk(s: System) {
    && (forall sid :: SessionOk(s.db, At(s, sid)))
    && (forall a, b, id :: HoldsRow(s, a, id) && HoldsRow(s, b, id) ==> a == b)
  }

  /** At most one survey is queued for a journey, and only after it has left LOOP_INTERVIEW. */
  ghost predicate SurveysOk(s: System) {
    forall id :: SurveysFor(s.queued, id) <= if Leaves(HistoryOf(s.db.history, id), LoopInterview) then 1 else 0
  }

  ghost predicate Leaves(h: seq<HistoryRow>, stage: Stage) {
    exists i :: 0 <= i < |h| && h[i].from == stage
  }

  ghost predicate Inv(s: System) {
    RowsOk(s.db) && SessionsOk(s) && SurveysOk(s)
  }

  // ---------------------------------------------------------------- one step

  lemma HistorySnoc(h: seq<HistoryRow>, row: HistoryRow, id: Id)
    ensures HistoryOf(h + [row], id) == if row.journey == id then HistoryOf(h, id) + [row] else HistoryOf(h, id)
  {
    assert (h + [row])[..|h|] == h;
  }

  lemma MovesSnoc(events: seq<Event>, e: Event, id: Id)
    ensures MovesOf(events + [e], id) ==
      if e.StageChanged? && e.journey == id then MovesOf(events, id) + [(e.from, e.to)] else MovesOf(events, id)
  {
    assert (events + [e])[..|events|] == events;
  }

  lemma PathGrows(h: seq<HistoryRow>, row: HistoryRow, stage: Stage)
    requires LegalPath(h, stage) && row.from == stage && row.to in ValidTransitions(stage)
    ensures LegalPath(h + [row], row.to)
    ensures Visits(h + [row], OfferExtended) <==> Visits(h, OfferExtended) || row.to == OfferExtended
  {
    var g := h + [row];
    assert g[|h|] == row && forall i :: 0 <= i < |h| ==> g[i] == h[i];
  }

  lemma MovedJourneyOk(d: JourneyDb, id: Id, to: Stage, actor: Id, now: real)
    requires id in d.journeys && JourneyOk(d, id) && to in ValidTransitions(d.journeys[id].stage)
    ensures JourneyOk(Transitioned(d, id, d.journeys[id], to, actor, now), id)
  {
    var j := d.journeys[id];
    var row := HistoryRow(id, j.stage, to, actor, now);
    HistorySnoc(d.history, row, id);
    MovesSnoc(d.events, StageChanged(id, j.stage, to), id);
    PathGrows(HistoryOf(d.history, id), row, j.stage);
  }

  lemma OthersUntouched(d: JourneyDb, id: Id, to: Stage, actor: Id, now: real, other: Id)
    requires id in d.journeys && other != id
    ensures var e := Transitioned(d, id, d.journeys[id], to, actor, now);
      && HistoryOf(e.history, other) == HistoryOf(d.history, other)
      && MovesOf(e.events, other) == MovesOf(d.events, other)
      && (other in d.journeys && JourneyOk(d, other) ==> JourneyOk(e, other))
  {
    HistorySnoc(d.history, HistoryRow(id, d.journeys[id].stage, to, actor, now), other);
    MovesSnoc(d.events, StageChanged(id, d.journeys[id].stage, to), other);
  }

  lemma TransitionKeepsRows(d: JourneyDb, id: Id, to: Stage, actor: Id, now: real)
    requires RowsOk(d) && id in d.journeys && to in ValidTransitions(d.journeys[id].stage)
    ensures RowsOk(Transitioned(d, id, d.journeys[id], to, actor, now))
  {
    MovedJourneyOk(d, id, to, actor, now);
    forall other | other != id
      ensures var e := Transitioned(d, id, d.journeys[id], to, actor, now);
        if other in d.journeys then JourneyOk(e, other)
        else HistoryOf(e.history, other) == [] && MovesOf(e.events, other) == []
    {
      OthersUntouched(d, id, to, actor, now, other);
    }
  }

  lemma CreateKeepsRows(d: JourneyDb, id: Id, candidate: Id)
    requires RowsOk(d) && id !in d.journeys
    ensures RowsOk(Created(d, id, candidate))
  {
    var e := Created(d, id, candidate);
    forall other ensures MovesOf(e.events, other) == MovesOf(d.events, other) {
      MovesSnoc(d.events, JourneyCreated(id), other);
    }
    forall other | other in e.journeys ensures JourneyOk(e, other) {
      assert other != id ==> JourneyOk(d, other);
    }
  }

  lemma StepKeepsRows(s: System, a: Action)
    requires RowsOk(s.db) && SessionsOk(s) && Enabled(s, a)
    ensures RowsOk(Next(s, a).db)
  {
    match a
    case Create(newId, candidate, _) => CreateKeepsRows(s.db, newId, candidate);
    case Commit(sid) =>
      var w := At(s, sid);
      assert SessionOk(s.db, w);
      TransitionKeepsRows(s.db, w.id, w.to, w.actor, w.now);
    case _ =>
  }

  lemma StepKeepsSessions(s: System, a: Action)
    requires SessionsOk(s) && Enabled(s, a)
    ensures SessionsOk(Next(s, a))
  {
    var t := Next(s, a);
    forall other ensures SessionOk(t.db, At(t, other)) {
      assert SessionOk(s.db, At(s, other));
      if a.Commit? {
        assert SessionOk(s.db, At(s, a.sid));
        assert HoldsRow(s, other, At(s, a.sid).id) && HoldsRow(s, a.sid, At(s, a.sid).id) ==> other == a.sid;
      }
    }
    forall x, y, id | HoldsRow(t, x, id) && HoldsRow(t, y, id) ensures x == y {
      assert HoldsRow(s, x, id) || (a.Flush? && a.sid == x && At(s, x).id == id);
      assert HoldsRow(s, y, id) || (a.Flush? && a.sid == y && At(s, y).id == id);
    }
  }

  lemma SurveysSnoc(queued: seq<Task>, task: Task, id: Id)
    ensures SurveysFor(queued + [task], id) == SurveysFor(queued, id) + if task == CreateSurvey(id) then 1 else 0
  {
    assert (queued + [task])[..|queued|] == queued;
  }

  lemma TasksCounted(queued: seq<Task>, id: Id, from: Stage, to: Stage, background: bool, other: Id)
    ensures SurveysFor(queued + TasksOf(id, from, to, background), other) ==
      SurveysFor(queued, other) + if background && from == LoopInterview && other == id then 1 else 0
  {
    var dispatch := Dispatch(StageChanged(id, from, to));
    if background {
      SurveysSnoc(queued, dispatch, other);
      SurveysSnoc(queued + [dispatch], CreateSurvey(id), other);
      assert queued + [dispatch, CreateSurvey(id)] == queued + [dispatch] + [CreateSurvey(id)];
      assert [dispatch] + [CreateSurvey(id)] == [dispatch, CreateSurvey(id)];
      assert [dispatch] + [] == [dispatch];
    } else {
      assert queued + [] == queued;
    }
  }

  /** What one step does to a journey's survey tasks: a commit that leaves LOOP_INTERVIEW with
      background tasks queues one, nothing else queues any. */
  lemma StepSurveys(s: System, a: Action, id: Id)
    requires Enabled(s, a)
    ensures SurveysFor(Next(s, a).queued, id) == SurveysFor(s.queued, id) + if SurveyStep(s, a, id) then 1 else 0
  {
    match a
    case Create(newId, _, withTasks) =>
      SurveysSnoc(s.queued, Dispatch(JourneyCreated(newId)), id);
      assert s.queued + [] == s.queued;
    case Commit(sid) =>
      var w := At(s, sid);
      TasksCounted(s.queued, w.id, w.copy.stage, w.to, w.background, id);
    case _ =>
  }

  ghost predicate SurveyStep(s: System, a: Action, id: Id) {
    && a.Commit? && At(s, a.sid).Flushed? && At(s, a.sid).id == id
    && At(s, a.sid).copy.stage == LoopInterview && At(s, a.sid).background
  }

  lemma StepKeepsSurveys(s: System, a: Action)
    requires Inv(s) && Enabled(s, a)
    ensures SurveysOk(Next(s, a))
  {
    var t := Next(s, a);
    forall id ensures SurveysFor(t.queued, id) <= if Leaves(HistoryOf(t.db.history, id), LoopInterview) then 1 else 0 {
      StepSurveys(s, a, id);
      if a.Commit? {
        var w := At(s, a.sid);
        var row := HistoryRow(w.id, w.copy.stage, w.to, w.actor, w.now);
        assert SessionOk(s.db, w);
        HistorySnoc(s.db.history, row, id);
        var h := HistoryOf(s.db.history, id);
        assert forall i :: 0 <= i < |h| ==> (h + [row])[i] == h[i];
        assert (h + [row])[|h|] == row;
        if w.id == id {
          assert JourneyOk(s.db, id);
          LeavesOnce(h, w.copy.stage);
        }
      }
    }
  }

  lemma StepKeepsInv(s: System, a: Action)
    requires Inv(s) && Enabled(s, a)
    ensures Inv(Next(s, a))
  {
    StepKeepsRows(s, a);
    StepKeepsSessions(s, a);
    StepKeepsSurveys(s, a);
  }

  // ---------------------------------------------------------------- the shape of a path

  lemma {:induction false} RanksGrow(h: seq<HistoryRow>, stage: Stage, i: nat, j: nat)
    requires LegalPath(h, stage) && i <= j < |h|
    ensures Rank(h[i].from) < Rank(h[i].to) <= Rank(h[j].to)
    ensures i < j ==> Rank(h[i].to) < Rank(h[j].to) && Rank(h[i].to) <= Rank(h[j].from)
    ensures j < Rank(h[j].to)
    decreases j
  {
    if i < j {
      RanksGrow(h, stage, i, j - 1);
    } else if j > 0 {
      RanksGrow(h, stage, j - 1, j - 1);
    }
  }

  /** A journey at a stage has not left it before. */
  lemma LeavesOnce(h: seq<HistoryRow>, stage: Stage)
    requires LegalPath(h, stage)
    ensures !Leaves(h, stage)
  {
    if Leaves(h, stage) {
      var i :| 0 <= i < |h| && h[i].from == stage;
      RanksGrow(h, stage, i, |h| - 1);
    }
  }

  // ---------------------------------------------------------------- runs

  ghost predicate IsRun(s: seq<System>, actions: seq<Action>) {
    && |s| == |actions| + 1
    && s[0] == System(JourneyDb(map[], map[], [], []), map[], [])
    && forall i :: 0 <= i < |actions| ==> Enabled(s[i], actions[i]) && s[i + 1] == Next(s[i], actions[i])
  }

  lemma {:induction false} RunKeepsInv(s: seq<System>, actions: seq<Action>, k: nat)
    requires IsRun(s, actions) && k < |s|
    ensures Inv(s[k])
  {
    if k == 0 {
    } else {
      RunKeepsInv(s, actions, k - 1);
      StepKeepsInv(s[k - 1], actions[k - 1]);
    }
  }

  /** In every interleaving the committed history of a journey is a path from SOURCED to its stage
      along the valid transitions, of at most seven rows and strictly growing rank, with one event
      per row, and the offer fields and the join record say what the path says. */
  lemma CommittedHistoryIsLegal(s: seq<System>, actions: seq<Action>, k: nat, id: Id)
    requires IsRun(s, actions) && k < |s| && id in s[k].db.journeys
    ensures var d := s[k].db;
      var h := HistoryOf(d.history, id);
      && LegalPath(h, d.journeys[id].stage) && |h| <= 7
      && (forall i, j :: 0 <= i < j < |h| ==> Rank(h[i].to) < Rank(h[j].to))
      && Published(MovesOf(d.events, id), h)
      && d.journeys[id].version == 1 + |h|
      && id in d.joins && FlagsMatch(d.journeys[id], d.joins[id], id, h)
  {
    RunKeepsInv(s, actions, k);
    assert JourneyOk(s[k].db, id);
    var h := HistoryOf(s[k].db.history, id);
    forall i, j | 0 <= i < j < |h| ensures Rank(h[i].to) < Rank(h[j].to) {
      RanksGrow(h, s[k].db.journeys[id].stage, i, j);
    }
    if h != [] {
      RanksGrow(h, s[k].db.journeys[id].stage, 0, |h| - 1);
    }
  }

  /** In every interleaving a journey climbs the ladder one stage at a time: row i of its history leaves the
      i-th stage, so no stage is skipped, and an offer is answered after exactly seven rows. */
  lemma HistoryClimbsTheLadder(s: seq<System>, actions: seq<Action>, k: nat, id: Id)
    requires IsRun(s, actions) && k < |s| && id in s[k].db.journeys
    ensures var h, stage := HistoryOf(s[k].db.history, id), s[k].db.journeys[id].stage;
      && |h| <= 7
      && (forall i :: 0 <= i < |h| ==> h[i].from == LADDER[i] && OneUp(i, h[i].to))
      && (forall i :: 0 <= i < |h| - 1 ==> h[i].to == LADDER[i + 1])
      && (stage in {OfferAccepted, OfferDeclined} ==> |h| == 7)
      && (stage in LADDER ==> |h| < 7 && stage == LADDER[|h|])
  {
    CommittedHistoryIsLegal(s, actions, k, id);
    var h, stage := HistoryOf(s[k].db.history, id), s[k].db.journeys[id].stage;
    forall i | 0 <= i < |h| ensures h[i].from == LADDER[i] && OneUp(i, h[i].to) {
      PathClimbs(h, stage, i);
    }
    forall i | 0 <= i < |h| - 1 ensures h[i].to == LADDER[i + 1] {
      PathClimbs(h, stage, i + 1);
    }
    if h != [] {
      LastStage(|h| - 1, stage);
    }
  }

  lemma {:induction false} PathClimbs(h: seq<HistoryRow>, stage: Stage, i: nat)
    requires LegalPath(h, stage) && i < |h|
    ensures i < 7 && h[i].from == LADDER[i] && OneUp(i, h[i].to)
  {
    if i == 0 {
      TransitionsAreOneUp(0, h[0].to);
    } else {
      PathClimbs(h, stage, i - 1);
      NextOnLadder(i - 1, h[i].from, h[i].to);
    }
  }

  /** A stage that has been reached in one step and is left again is the next on the ladder. */
  lemma NextOnLadder(i: nat, stage: Stage, to: Stage)
    requires i < 7 && OneUp(i, stage) && to in ValidTransitions(stage)
    ensures i < 6 && stage == LADDER[i + 1] && OneUp(i + 1, to)
  {
    OnLadder(stage);
    TransitionsAreOneUp(if i < 6 then i + 1 else i, to);
  }

  lemma LastStage(i: nat, stage: Stage)
    requires i < 7 && OneUp(i, stage)
    ensures stage in {OfferAccepted, OfferDeclined} ==> i == 6
    ensures stage in LADDER ==> i < 6 && stage == LADDER[i + 1]
  {
  }

  lemma {:induction false} VersionsGrow(s: seq<System>, actions: seq<Action>, i: nat, k: nat, id: Id)
    requires IsRun(s, actions) && i <= k < |s| && id in s[i].db.journeys
    ensures id in s[k].db.journeys && s[i].db.journeys[id].version <= s[k].db.journeys[id].version
    decreases k - i
  {
    if i == k {
    } else {
      RunKeepsInv(s, actions, i);
      StepVersions(s[i], actions[i], id);
      VersionsGrow(s, actions, i + 1, k, id);
    }
  }

  lemma StepVersions(s: System, a: Action, id: Id)
    requires SessionsOk(s) && Enabled(s, a) && id in s.db.journeys
    ensures id in Next(s, a).db.journeys && s.db.journeys[id].version <= Next(s, a).db.journeys[id].version
  {
    if a.Commit? {
      assert SessionOk(s.db, At(s, a.sid));
    }
  }

  lemma StepKeepsTerminal(s: System, a: Action, id: Id)
    requires SessionsOk(s) && Enabled(s, a) && id in s.db.journeys && s.db.journeys[id].stage in TERMINAL_STAGES
    ensures id in Next(s, a).db.journeys && Next(s, a).db.journeys[id] == s.db.journeys[id]
  {
    if a.Commit? {
      assert SessionOk(s.db, At(s, a.sid));
    }
  }

  /** A journey that is rejected, declined, accepted or withdrawn never changes again. */
  lemma {:induction false} TerminalIsFinal(s: seq<System>, actions: seq<Action>, i: nat, k: nat, id: Id)
    requires IsRun(s, actions) && i <= k < |s| && id in s[i].db.journeys
    requires s[i].db.journeys[id].stage in TERMINAL_STAGES
    ensures id in s[k].db.journeys && s[k].db.journeys[id] == s[i].db.journeys[id]
    decreases k - i
  {
    if i == k {
    } else {
      assert SessionsOk(s[i]) by {
        RunKeepsInv(s, actions, i);
      }
      StepKeepsTerminal(s[i], actions[i], id);
      TerminalIsFinal(s, actions, i + 1, k, id);
    }
  }

  /** Of the sessions that loaded one version of a journey, at most one commits a transition. */
  lemma OneWinnerPerVersion(s: seq<System>, actions: seq<Action>, i: nat, k: nat)
    requires IsRun(s, actions) && i < k < |actions| && actions[i].Commit? && actions[k].Commit?
    requires At(s[i], actions[i].sid).id == At(s[k], actions[k].sid).id
    ensures At(s[i], actions[i].sid).copy.version < At(s[k], actions[k].sid).copy.version
  {
    RunKeepsInv(s, actions, i);
    RunKeepsInv(s, actions, k);
    var w := At(s[i], actions[i].sid);
    assert SessionOk(s[i].db, w) && SessionOk(s[k].db, At(s[k], actions[k].sid));
    VersionsGrow(s, actions, i + 1, k, w.id);
  }

  /** A session whose journey has moved on since it loaded it changes nothing, whatever it asks for. */
  lemma LoserLeavesNothing(s: seq<System>, actions: seq<Action>, i: nat, k: nat)
    requires IsRun(s, actions) && i < k < |actions| && actions[i].Commit? && actions[k].Flush?
    requires var l := At(s[k], actions[k].sid); var w := At(s[i], actions[i].sid);
      l.id == w.id && l.copy.version <= w.copy.version
    ensures s[k + 1].db == s[k].db && s[k + 1].queued == s[k].queued && At(s[k + 1], actions[k].sid) == Idle
  {
    RunKeepsInv(s, actions, i);
    var w := At(s[i], actions[i].sid);
    assert SessionOk(s[i].db, w);
    VersionsGrow(s, actions, i + 1, k, w.id);
    assert Rejected(s[k], actions[k]);
  }

  /** A survey task is queued exactly once for a journey that leaves LOOP_INTERVIEW with background
      tasks, and never otherwise. */
  lemma {:induction false} SurveyQueuedOnce(s: seq<System>, actions: seq<Action>, k: nat, id: Id)
    requires IsRun(s, actions) && k < |s|
    ensures SurveysFor(s[k].queued, id) ==
      if exists i :: 0 <= i < k && SurveyStep(s[i], actions[i], id) then 1 else 0
  {
    RunKeepsInv(s, actions, k);
    assert SurveysFor(s[k].queued, id) <= 1;
    if k == 0 {
    } else {
      SurveyQueuedOnce(s, actions, k - 1, id);
      StepSurveys(s[k - 1], actions[k - 1], id);
      if i :| 0 <= i < k && SurveyStep(s[i], actions[i], id) {
        assert i == k - 1 || i < k - 1;
      }
    }
  }
}
