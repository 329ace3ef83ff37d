/** Interview journeys: the stage graph and the service (app/modules/journeys/service.py). */
module Journeys {
  import opened Options
  import opened Transactions

  type Id = nat

  datatype Stage =
    | Sourced | RecruiterScreen | ManagerScreen | LoopInterview | PanelReview | OfferPending | OfferExtended
    | Rejected | OfferDeclined | OfferAccepted | Withdrawn

  datatype StageStatus = Scheduled | InProgress | Complete

  datatype OverallStatus = Active | OnHold | Completed | Cancelled

  const TERMINAL_STAGES := {Rejected, OfferDeclined, OfferAccepted, Withdrawn}

  function ValidTransitions(s: Stage): set<Stage> {
    match s
    case Sourced => {RecruiterScreen, Rejected, Withdrawn}
    case RecruiterScreen => {ManagerScreen, Rejected, Withdrawn}
    case ManagerScreen => {LoopInterview, Rejected, Withdrawn}
    case LoopInterview => {PanelReview, Rejected, Withdrawn}
    case PanelReview => {OfferPending, Rejected, Withdrawn}
    case OfferPending => {OfferExtended, Rejected, Withdrawn}
    case OfferExtended => {OfferAccepted, OfferDeclined, Withdrawn}
    case Rejected => {}
    case OfferDeclined => {}
    case OfferAccepted => {}
    case Withdrawn => {}
  }

  function Rank(s: Stage): nat {
    match s
    case Sourced => 0
    case RecruiterScreen => 1
    case ManagerScreen => 2
    case LoopInterview => 3
    case PanelReview => 4
    case OfferPending => 5
    case OfferExtended => 6
    case _ => 7
  }

  // ---------------------------------------------------------------- rows

  /** A versioned row of interview_journeys. */
  datatype Journey = Journey(
    candidate: Id,
    stage: Stage,
    stageStatus: Option<StageStatus>,
    overall: OverallStatus,
    offerExtendedAt: Option<real>,
    offerRespondedAt: Option<real>,
    version: nat)

  datatype HistoryRow = HistoryRow(journey: Id, from: Stage, to: Stage, changedBy: Id, changedAt: real)

  datatype Event = JourneyCreated(journey: Id) | StageChanged(journey: Id, from: Stage, to: Stage)

  /** An AES-GCM field, as the value it decrypts to. */
  datatype Cipher = Encrypted(plain: Id)

  datatype JoinRecord = JoinRecord(
    candidate: Id,
    candidateEncrypted: Option<Cipher>,
    journeyEncrypted: Option<Cipher>,
    isEncrypted: bool)

  datatype JourneyDb = JourneyDb(
    journeys: map<Id, Journey>,
    joins: map<Id, JoinRecord>,
    history: seq<HistoryRow>,
    events: seq<Event>)

  datatype Task = Dispatch(event: Event) | CreateSurvey(journey: Id)

  datatype Error = HttpException(status: int) | StaleDataError | DatabaseError

  // ---------------------------------------------------------------- what a transition does

  /** The row after its assignments and the UPDATE, which bumps the version. */
  function Moved(j: Journey, to: Stage, now: real): Journey {
    j.(stage := to,
       stageStatus := if to in TERMINAL_STAGES then None else j.stageStatus,
       overall := if to == OfferAccepted then Completed else j.overall,
       offerRespondedAt := if to == OfferAccepted then Some(now) else j.offerRespondedAt,
       offerExtendedAt := if to == OfferExtended then Some(now) else j.offerExtendedAt,
       version := j.version + 1)
  }

  function EncryptedJoin(join: JoinRecord, journey: Id, candidate: Id): JoinRecord {
    join.(candidateEncrypted := Some(Encrypted(candidate)), journeyEncrypted := Some(Encrypted(journey)),
        isEncrypted := true)
  }

  /** The committed effect of moving journey `id`, loaded as `j`. */
  function Transitioned(d: JourneyDb, id: Id, j: Journey, to: Stage, actor: Id, now: real): JourneyDb {
    JourneyDb(
      d.journeys[id := Moved(j, to, now)],
      if to == OfferAccepted && id in d.joins then d.joins[id := EncryptedJoin(d.joins[id], id, j.candidate)]
          else d.joins,
      d.history + [HistoryRow(id, j.stage, to, actor, now)],
      d.events + [StageChanged(id, j.stage, to)])
  }

  /** The background tasks a transition adds when the request can run them; one that raises runs none. */
  function TasksOf(id: Id, from: Stage, to: Stage, background: bool): seq<Task> {
    if !background then []
    else [Dispatch(StageChanged(id, from, to))] + if from == LoopInterview then [CreateSurvey(id)] else []
  }

  /** The committed state, the answer and the tasks of `transition_stage` on a journey loaded as `j`. */
  function TransitionResult(d: JourneyDb, id: Id, j: Journey, to: Stage, actor: Id, comments: string, now: real,
                            background: bool, fails: set<Await>): (JourneyDb, Outcome<Journey, Error>, seq<Task>)
    requires id in d.journeys
  {
    if to !in ValidTransitions(j.stage) then (d, Raised(HttpException(400)), [])
    else if |comments| > 2000 then (d, Raised(HttpException(422)), [])
    else if d.journeys[id].version != j.version then (d, Raised(StaleDataError), [])
    else if AtFlush in fails || (to == OfferAccepted && AtRead in fails) then (d, Raised(DatabaseError), [])
    else if AtCommit in fails then (d, Raised(DatabaseError), TasksOf(id, j.stage, to, background))
    else (Transitioned(d, id, j, to, actor, now), Returned(Moved(j, to, now)), TasksOf(id, j.stage, to, background))
  }

  function NewJourney(candidate: Id): Journey {
    Journey(candidate, Sourced, None, Active, None, None, 1)
  }

  function Created(d: JourneyDb, id: Id, candidate: Id): JourneyDb {
    JourneyDb(d.journeys[id := NewJourney(candidate)], d.joins[id := JoinRecord(candidate, None, None, false)],
              d.history, d.events + [JourneyCreated(id)])
  }

  // ---------------------------------------------------------------- which transitions there are

  /** The seven live stages, in the order a journey takes them. */
  const LADDER := [Sourced, RecruiterScreen, ManagerScreen, LoopInterview, PanelReview, OfferPending, OfferExtended]

  /** From a live stage a journey moves one up, or is withdrawn, or is rejected if no offer is out; the
      answer to an offer takes the place of the next stage. */
  predicate OneUp(i: nat, to: Stage)
    requires i < 7
  {
    || to == Withdrawn
    || (i < 6 && (to == LADDER[i + 1] || to == Rejected))
    || (i == 6 && (to == OfferAccepted || to == OfferDeclined))
  }

  lemma TransitionsAreOneUp(i: nat, to: Stage)
    requires i < 7
    ensures to in ValidTransitions(LADDER[i]) <==> OneUp(i, to)
  {
  }

  /** When a transition returns: one step up the ladder, at most 2000 characters of comment, the stored row
      still the loaded one, and nothing fails. */
  lemma TransitionExactly(d: JourneyDb, id: Id, j: Journey, to: Stage, actor: Id, comments: string, now: real,
      background: bool, fails: set<Await>)
    requires id in d.journeys
    ensures var (e, r, tasks) := TransitionResult(d, id, j, to, actor, comments, now, background, fails);
      var allowed := exists i: nat :: i < 7 && LADDER[i] == j.stage && OneUp(i, to);
      && (r.Returned? <==>
           && allowed && |comments| <= 2000 && d.journeys[id].version == j.version
           && AtFlush !in fails && AtCommit !in fails && (to == OfferAccepted ==> AtRead !in fails))
      && (r == Raised(HttpException(400)) <==> !allowed)
      && (r == Raised(HttpException(422)) <==> allowed && |comments| > 2000)
      && (r.Raised? ==> e == d)
  {
    forall i: nat | i < 7 ensures to in ValidTransitions(LADDER[i]) <==> OneUp(i, to) {
      TransitionsAreOneUp(i, to);
    }
    OnLadder(j.stage);
  }

  lemma OnLadder(stage: Stage)
    ensures stage in {Rejected, OfferDeclined, OfferAccepted, Withdrawn} <==>
      !exists i: nat :: i < 7 && LADDER[i] == stage
    ensures stage in {Rejected, OfferDeclined, OfferAccepted, Withdrawn} ==> ValidTransitions(stage) == {}
  {
    assert LADDER[0] == Sourced && LADDER[1] == RecruiterScreen && LADDER[2] == ManagerScreen;
    assert LADDER[3] == LoopInterview && LADDER[4] == PanelReview && LADDER[5] == OfferPending;
    assert LADDER[6] == OfferExtended;
  }

  // ---------------------------------------------------------------- the service

  class InterviewJourneyService {
    const db: Session<JourneyDb>

    constructor (db: Session<JourneyDb>)
      ensures this.db == db
    {
      this.db := db;
    }

    method CreateJourney(id: Id, candidate: Id, fails: set<Await>) returns (r: Outcome<Journey, Error>)
      requires db.Clean() && id !in db.committed.journeys
      modifies db
      ensures db.Clean() && (r.Returned? <==> AtFlush !in fails && AtCommit !in fails)
      ensures r.Returned? ==>
        db.committed == Created(old(db.committed), id, candidate) && r.value == db.committed.journeys[id]
      ensures r.Raised? ==> db.committed == old(db.committed)
    {
      var j := Journey(candidate, Sourced, None, Active, None, None, 1);
      db.working := db.working.(journeys := db.working.journeys[id := j]);
      db.working := db.working.(joins := db.working.joins[id := JoinRecord(candidate, None, None, false)]);
      r := Returned(j);
      if AtFlush in fails {
        r := Raised(DatabaseError);
      } else {
        db.working := db.working.(events := db.working.events + [JourneyCreated(id)]);
      }
      r := db.Leave(r, DatabaseError, AtCommit in fails);
    }

    /** `journey` is the row as this session loaded it; the stored row may have moved on. */
    method TransitionStage(id: Id, journey: Journey, to: Stage, actor: Id, comments: string, now: real,
        background: bool, fails: set<Await>)
      returns (r: Outcome<Journey, Error>, tasks: seq<Task>)
      requires db.Clean() && id in db.committed.journeys
      modifies db
      ensures db.Clean()
      ensures (db.committed, r, tasks) ==
        TransitionResult(old(db.committed), id, journey, to, actor, comments, now, background, fails)
    {
      var body;
      body, tasks := TransitionBody(id, journey, to, actor, comments, now, background, fails);
      r := db.Leave(body, DatabaseError, AtCommit in fails);
    }

    method TransitionBody(id: Id, journey: Journey, to: Stage, actor: Id, comments: string, now: real,
        background: bool, fails: set<Await>)
      returns (r: Outcome<Journey, Error>, tasks: seq<Task>)
      requires db.Clean() && id in db.committed.journeys
      modifies db
      ensures db.committed == old(db.committed)
      ensures
        var result := TransitionResult(old(db.committed), id, journey, to, actor, comments, now, background,
                                       fails - {AtCommit});
        r == result.1 && tasks == result.2 && (r.Returned? ==> db.working == result.0)
    {
      tasks := [];
      if to !in ValidTransitions(journey.stage) { return Raised(HttpException(400)), []; }
      if |comments| > 2000 { return Raised(HttpException(422)), []; }
      var from := journey.stage;
      var j := journey.(stage := to);
      if to in TERMINAL_STAGES {
        j := j.(stageStatus := None);
      }
      if to == OfferAccepted {
        j := j.(overall := Completed);
        j := j.(offerRespondedAt := Some(now));
        // the query in _encrypt_join_record flushes the journey first
        var ok := FlushJourney(id, journey, j);
        if !ok { return Raised(StaleDataError), []; }
        if AtRead in fails { return Raised(DatabaseError), []; }
        EncryptJoinRecord(id, journey.candidate);
      } else {
        if to == OfferExtended {
          j := j.(offerExtendedAt := Some(now));
        }
        var ok := FlushJourney(id, journey, j);
        if !ok { return Raised(StaleDataError), []; }
      }
      db.working := db.working.(history := db.working.history + [HistoryRow(id, from, to, actor, now)]);
      if AtFlush in fails { return Raised(DatabaseError), []; }
      db.working := db.working.(events := db.working.events + [StageChanged(id, from, to)]);
      if background {
        tasks := [Dispatch(StageChanged(id, from, to))];
      }
      if from == LoopInterview && background {
        tasks := tasks + [CreateSurvey(id)];
      }
      return Returned(j.(version := j.version + 1)), tasks;
    }

    /** UPDATE ... WHERE version = the loaded version; no row matched is a stale-data error. */
    method FlushJourney(id: Id, loaded: Journey, j: Journey) returns (ok: bool)
      requires id in db.working.journeys
      modifies db`working
      ensures ok <==> old(db.working).journeys[id].version == loaded.version
      ensures var w := old(db.working);
        db.working == if ok then w.(journeys := w.journeys[id := j.(version := loaded.version + 1)]) else w
    {
      ok := db.working.journeys[id].version == loaded.version;
      if ok {
        db.working := db.working.(journeys := db.working.journeys[id := j.(version := loaded.version + 1)]);
      }
    }

    method EncryptJoinRecord(id: Id, candidate: Id)
      modifies db`working
      ensures db.working == old(db.working).(joins :=
        if id in old(db.working).joins
            then old(db.working).joins[id := EncryptedJoin(old(db.working).joins[id], id, candidate)]
        else old(db.working).joins)
    {
      if id in db.working.joins {
        var join := db.working.joins[id];
        join := join.(candidateEncrypted := Some(Encrypted(candidate)));
        join := join.(journeyEncrypted := Some(Encrypted(id)));
        join := join.(isEncrypted := true);
        db.working := db.working.(joins := db.working.joins[id := join]);
      }
    }
  }
}
