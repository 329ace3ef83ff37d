/** Saving questionnaire answers (app/modules/questionnaires/service.py, `save_answers`). */
module Questionnaires {
  import opened Options
  import opened Transactions

  type Id = nat
  type Question = string

  datatype ResponseStatus = Draft | Incomplete | Submitted

  datatype Response = Response(candidate: Id, questionnaire: Id, organization: Id, status: ResponseStatus,
      isDeleted: bool, version: nat, updatedBy: Option<Id>)

  datatype AnswerRow = AnswerRow(response: Id, question: Question, answer: string, isDeleted: bool)

  datatype Db = Db(
    responses: map<Id, Response>,
    required: map<Id, set<Question>>,  // the required questions of each live questionnaire
    links: map<Id, seq<Id>>,           // the questionnaires linked to each requisition
    rows: seq<AnswerRow>)

  datatype Error = HttpException(status: int) | IntegrityError | DatabaseError

  type Answers = map<Question, string>

  // ---------------------------------------------------------------- rows as a map

  /** uk_response_question: one row per response and question, deleted rows included. */
  ghost predicate UniqueRows(rows: seq<AnswerRow>) {
    forall i, j :: 0 <= i < j < |rows| ==> rows[i].response != rows[j].response || rows[i].question != rows[j].question
  }

  /** The live rows of one response. */
  function Live(rows: seq<AnswerRow>, response: Id): Answers {
    if rows == [] then map[]
    else
      var earlier := Live(rows[..|rows| - 1], response);
      var row := rows[|rows| - 1];
      if row.response == response && !row.isDeleted then earlier[row.question := row.answer] else earlier
  }

  /** A deleted row blocks a new answer to its question. */
  ghost predicate Blocked(rows: seq<AnswerRow>, response: Id, question: Question) {
    exists i :: 0 <= i < |rows| && rows[i].response == response && rows[i].question == question && rows[i].isDeleted
  }

  lemma {:induction false} LiveHas(rows: seq<AnswerRow>, response: Id, question: Question)
    ensures question in Live(rows, response) <==>
      exists i :: 0 <= i < |rows| && rows[i].response == response && rows[i].question == question && !rows[i].isDeleted
  {
    if rows == [] {
    } else {
      var k := |rows| - 1;
      LiveHas(rows[..k], response, question);
      if i :| 0 <= i < |rows| && rows[i].response == response && rows[i].question == question && !rows[i].isDeleted {
        assert i < k ==> rows[..k][i] == rows[i];
      }
    }
  }

  lemma {:induction false} UpdateLive(rows: seq<AnswerRow>, i: nat, answer: string, other: Id)
    requires UniqueRows(rows) && i < |rows| && !rows[i].isDeleted
    ensures UniqueRows(rows[i := rows[i].(answer := answer)])
    ensures Live(rows[i := rows[i].(answer := answer)], other) ==
      if other == rows[i].response then Live(rows, other)[rows[i].question := answer] else Live(rows, other)
  {
    var k := |rows| - 1;
    var updated := rows[i := rows[i].(answer := answer)];
    if i == k {
      assert updated[..k] == rows[..k];
    } else {
      UpdateLive(rows[..k], i, answer, other);
      assert updated[..k] == rows[..k][i := rows[i].(answer := answer)];
    }
  }

  lemma AppendLive(rows: seq<AnswerRow>, row: AnswerRow, other: Id)
    requires UniqueRows(rows) && !row.isDeleted
    requires row.question !in Live(rows, row.response) && !Blocked(rows, row.response, row.question)
    ensures UniqueRows(rows + [row])
    ensures Live(rows + [row], other) ==
      if other == row.response then Live(rows, other)[row.question := row.answer] else Live(rows, other)
  {
    LiveHas(rows, row.response, row.question);
    assert (rows + [row])[..|rows|] == rows;
  }

  lemma BlockedStays(rows: seq<AnswerRow>, updated: seq<AnswerRow>, response: Id, question: Question)
    requires |rows| <= |updated|
    requires forall i :: 0 <= i < |rows| ==> updated[i] == rows[i].(answer := updated[i].answer)
    requires forall i :: |rows| <= i < |updated| ==> !updated[i].isDeleted
    ensures Blocked(updated, response, question) <==> Blocked(rows, response, question)
  {
    if i :| 0 <= i < |rows| && rows[i].response == response && rows[i].question == question && rows[i].isDeleted {
      assert updated[i].isDeleted;
    }
  }

  // ---------------------------------------------------------------- what a save does

  predicate Reachable(d: Db, response: Id, org: Id, authorized: bool) {
    && response in d.responses && !d.responses[response].isDeleted
    && d.responses[response].organization == org && authorized
  }

  predicate Has(responses: map<Id, Response>, id: Id, candidate: Id, questionnaire: Id) {
    && id in responses && !responses[id].isDeleted
    && responses[id].candidate == candidate && responses[id].questionnaire == questionnaire
  }

  /** The candidate has a live response to the questionnaire. */
  predicate Answering(responses: map<Id, Response>, candidate: Id, questionnaire: Id) {
    exists id :: id in responses && Has(responses, id, candidate, questionnaire)
  }

  predicate Deleted(responses: map<Id, Response>, candidate: Id, questionnaire: Id) {
    exists id :: id in responses && responses[id].candidate == candidate && responses[id].questionnaire == questionnaire
                 && responses[id].isDeleted
  }

  /** uk_candidate_questionnaire counts deleted rows, so the insert would fail. */
  predicate Stuck(responses: map<Id, Response>, candidate: Id, questionnaire: Id) {
    !Answering(responses, candidate, questionnaire) && Deleted(responses, candidate, questionnaire)
  }

  predicate FreshIds(d: Db, requisition: Id, ids: seq<Id>)
    requires requisition in d.links
  {
    && |ids| == |d.links[requisition]|
    && (forall i :: 0 <= i < |ids| ==> ids[i] !in d.responses)
    && (forall i, j :: 0 <= i < j < |ids| ==> ids[i] != ids[j])
  }

  /** Nothing is lost, and what was created are drafts for linked questionnaires that had no response. */
  ghost predicate Progress(d: Db, e: Db, candidate: Id, requisition: Id, created: seq<Id>)
    requires requisition in d.links
  {
    && e == d.(responses := e.responses)
    && (forall id :: id in d.responses ==> id in e.responses && e.responses[id] == d.responses[id])
    && (forall id :: id in e.responses <==> id in d.responses || id in created)
    && (forall id :: id in created ==>
          && id !in d.responses && Has(e.responses, id, candidate, e.responses[id].questionnaire)
          && e.responses[id].status == Draft && e.responses[id].questionnaire in d.links[requisition]
          && !Answering(d.responses, candidate, e.responses[id].questionnaire)
          && !Deleted(d.responses, candidate, e.responses[id].questionnaire))
  }

  /** Every linked questionnaire now has a response, and if each had one before, nothing was created. */
  ghost predicate Completed(d: Db, e: Db, candidate: Id, requisition: Id, created: seq<Id>)
    requires requisition in d.links
  {
    && Progress(d, e, candidate, requisition, created)
    && AllAnswered(e, candidate, requisition)
  }

  /** The created rows are drafts of this candidate in this organization. */
  ghost predicate NewDrafts(responses: map<Id, Response>, created: seq<Id>, candidate: Id, org: Id, user: Option<Id>) {
    forall id :: id in created ==>
      id in responses && responses[id] == Response(candidate, responses[id].questionnaire, org, Draft, false, 1, user)
  }

  /** Every linked questionnaire has a response. */
  predicate AllAnswered(d: Db, candidate: Id, requisition: Id)
    requires requisition in d.links
  {
    forall q :: q in d.links[requisition] ==> Answering(d.responses, candidate, q)
  }

  lemma NothingCreated(d: Db, e: Db, candidate: Id, requisition: Id, created: seq<Id>)
    requires requisition in d.links && Completed(d, e, candidate, requisition, created)
    ensures created == [] <==> AllAnswered(d, candidate, requisition)
  {
    EmptyOrMember(created);
    if created == [] {
      assert e.responses == d.responses;
    }
  }

  /** Repeating the call creates nothing. */
  lemma RepeatCreatesNothing(d: Db, e: Db, f: Db, candidate: Id, requisition: Id, first: seq<Id>, second: seq<Id>)
    requires requisition in d.links && requisition in e.links
    requires Completed(d, e, candidate, requisition, first) && Completed(e, f, candidate, requisition, second)
    ensures second == [] && f == e && !exists q :: q in e.links[requisition] && Stuck(e.responses, candidate, q)
  {
    EmptyOrMember(second);
    assert f.responses == e.responses;
  }

  lemma EmptyOrMember(ids: seq<Id>)
    ensures ids == [] || ids[0] in ids
  {
  }

  lemma ProgressGrows(d: Db, e: Db, candidate: Id, requisition: Id, created: seq<Id>, newId: Id, row: Response)
    requires requisition in d.links && Progress(d, e, candidate, requisition, created) && newId !in e.responses
    requires row.candidate == candidate && row.status == Draft && !row.isDeleted
    requires row.questionnaire in d.links[requisition]
    requires !Answering(e.responses, candidate, row.questionnaire)
    requires !Deleted(e.responses, candidate, row.questionnaire)
    ensures Progress(d, e.(responses := e.responses[newId := row]), candidate, requisition, created + [newId])
    ensures Answering(e.responses[newId := row], candidate, row.questionnaire)
    ensures !Stuck(d.responses, candidate, row.questionnaire)
  {
    AnsweringStays(d.responses, e.responses, candidate, row.questionnaire);
    DeletedStays(d.responses, e.responses, candidate, row.questionnaire);
    assert Has(e.responses[newId := row], newId, candidate, row.questionnaire);
  }

  /** The questionnaires seen so far have a response, and none of them stood in the way. */
  ghost predicate Covered(d: Db, e: Db, candidate: Id, links: seq<Id>) {
    forall q :: q in links ==> Answering(e.responses, candidate, q) && !Stuck(d.responses, candidate, q)
  }

  lemma DraftGrows(d: Db, e: Db, candidate: Id, requisition: Id, created: seq<Id>, links: seq<Id>, newId: Id,
      row: Response)
    requires requisition in d.links && Progress(d, e, candidate, requisition, created) && newId !in e.responses
    requires NewDrafts(e.responses, created, candidate, row.organization, row.updatedBy)
    requires Covered(d, e, candidate, links) && row.questionnaire in d.links[requisition]
    requires row == Response(candidate, row.questionnaire, row.organization, Draft, false, 1, row.updatedBy)
    requires !Answering(e.responses, candidate, row.questionnaire)
    requires !Deleted(e.responses, candidate, row.questionnaire)
    ensures var f := e.(responses := e.responses[newId := row]);
      && Progress(d, f, candidate, requisition, created + [newId])
      && NewDrafts(f.responses, created + [newId], candidate, row.organization, row.updatedBy)
      && Covered(d, f, candidate, links + [row.questionnaire])
  {
    ProgressGrows(d, e, candidate, requisition, created, newId, row);
    forall q | q in links ensures Answering(e.responses[newId := row], candidate, q) {
      AnsweringStays(e.responses, e.responses[newId := row], candidate, q);
    }
  }

  lemma DeletedStays(before: map<Id, Response>, after: map<Id, Response>, candidate: Id, questionnaire: Id)
    requires forall id :: id in before ==> id in after && after[id] == before[id]
    ensures Deleted(before, candidate, questionnaire) ==> Deleted(after, candidate, questionnaire)
  {
    if id :| id in before && before[id].candidate == candidate && before[id].questionnaire == questionnaire
             && before[id].isDeleted {
      assert id in after && after[id].isDeleted;
    }
  }

  lemma DeletedIsOld(d: Db, e: Db, candidate: Id, requisition: Id, created: seq<Id>, questionnaire: Id)
    requires requisition in d.links && Progress(d, e, candidate, requisition, created)
    requires Deleted(e.responses, candidate, questionnaire)
    ensures Deleted(d.responses, candidate, questionnaire)
  {
    var id :| id in e.responses && e.responses[id].candidate == candidate
              && e.responses[id].questionnaire == questionnaire && e.responses[id].isDeleted;
    assert id in created ==> Has(e.responses, id, candidate, e.responses[id].questionnaire);
  }

  lemma StuckFromTheStart(d: Db, e: Db, candidate: Id, requisition: Id, created: seq<Id>, questionnaire: Id)
    requires requisition in d.links && Progress(d, e, candidate, requisition, created)
    requires Stuck(e.responses, candidate, questionnaire)
    ensures Stuck(d.responses, candidate, questionnaire)
  {
    AnsweringStays(d.responses, e.responses, candidate, questionnaire);
    DeletedIsOld(d, e, candidate, requisition, created, questionnaire);
  }

  lemma CreatedIsNotStuck(d: Db, e: Db, candidate: Id, requisition: Id, created: seq<Id>, questionnaire: Id)
    requires requisition in d.links && Progress(d, e, candidate, requisition, created)
    requires Answering(e.responses, candidate, questionnaire)
    ensures !Stuck(d.responses, candidate, questionnaire)
  {
    var id :| id in e.responses && Has(e.responses, id, candidate, questionnaire);
    if id in d.responses {
      assert Has(d.responses, id, candidate, questionnaire);
    }
  }

  lemma AnsweringStays(before: map<Id, Response>, after: map<Id, Response>, candidate: Id, questionnaire: Id)
    requires forall id :: id in before ==> id in after && after[id] == before[id]
    ensures Answering(before, candidate, questionnaire) ==> Answering(after, candidate, questionnaire)
  {
    if id :| id in before && Has(before, id, candidate, questionnaire) {
      assert Has(after, id, candidate, questionnaire);
    }
  }

  datatype Verdict = Ignored | Refused(error: Error) | Saves

  /** What becomes of a save, by the state it finds. */
  ghost function VerdictOn(d: Db, response: Id, org: Id, authorized: bool, answers: Answers, final: bool): Verdict {
    var entry := EntryOf(d, response, org, authorized, answers, final);
    if entry != Saves then entry
    else if exists q :: q in answers && q !in Live(d.rows, response) && Blocked(d.rows, response, q)
        then Refused(IntegrityError)
    else Saves
  }

  /** What the checks before the first write say. */
  function EntryOf(d: Db, response: Id, org: Id, authorized: bool, answers: Answers, final: bool): Verdict {
    if !Reachable(d, response, org, authorized) then Ignored
    else if d.responses[response].status == Submitted then Refused(HttpException(409))
    else if d.responses[response].questionnaire !in d.required then Refused(HttpException(404))
    else if final && !(d.required[d.responses[response].questionnaire] <= answers.Keys) then Refused(HttpException(422))
    else Saves
  }

  /** The response row after a save. An UPDATE, and with it a new version, needs a column that changes:
      the status, or `updated_by`, which the flush listener sets to the current user. */
  function Touched(row: Response, user: Option<Id>, final: bool): Response {
    var status := if final then Submitted else Incomplete;
    if row.status == status && row.updatedBy == user then row
    else row.(status := status, updatedBy := user, version := row.version + 1)
  }

  /** The rows of every response are what they were, but for the right-biased merge of the saved
      answers into one; its status becomes SUBMITTED or INCOMPLETE. */
  ghost predicate Merged(d: Db, e: Db, response: Id, user: Option<Id>, answers: Answers, final: bool)
    requires response in d.responses
  {
    && e.responses == d.responses[response := Touched(d.responses[response], user, final)]
    && e.required == d.required && e.links == d.links && UniqueRows(e.rows)
    && Live(e.rows, response) == Live(d.rows, response) + answers
    && (forall other :: other != response ==> Live(e.rows, other) == Live(d.rows, other))
  }

  class QuestionnaireService {
    const db: Session<Db>

    constructor (db: Session<Db>)
      ensures this.db == db
    {
      this.db := db;
    }

    /** A save either merges all its answers or changes nothing. */
    method SaveAnswers(response: Id, org: Id, authorized: bool, user: Option<Id>, answers: Answers, final: bool,
        fails: set<Await>)
      returns (r: Outcome<Option<Response>, Error>)
      requires db.Clean() && UniqueRows(db.committed.rows)
      modifies db
      ensures db.Clean() && (r.Raised? ==> db.committed == old(db.committed))
      ensures var d := old(db.committed);
        if AtRead in fails then r == Raised(DatabaseError)
        else
          match VerdictOn(d, response, org, authorized, answers, final)
          case Ignored =>
            db.committed == d && r == (if AtCommit in fails then Raised(DatabaseError) else Returned(None))
          case Refused(error) => r == Raised(error)
          case Saves =>
            if AtFlush in fails || AtCommit in fails then r == Raised(DatabaseError)
            else
              && Merged(d, db.committed, response, user, answers, final)
              && r == Returned(Some(db.committed.responses[response]))
    {
      var body := SaveBody(response, org, authorized, user, answers, final, fails);
      r := db.Leave(body, DatabaseError, AtCommit in fails);
    }

    method SaveBody(response: Id, org: Id, authorized: bool, user: Option<Id>, answers: Answers, final: bool,
        fails: set<Await>)
      returns (r: Outcome<Option<Response>, Error>)
      requires db.Clean() && UniqueRows(db.committed.rows)
      modifies db`working
      ensures var d := old(db.committed);
        if AtRead in fails then r == Raised(DatabaseError)
        else
          match VerdictOn(d, response, org, authorized, answers, final)
          case Ignored => r == Returned(None) && db.working == d
          case Refused(error) => r == Raised(error)
          case Saves =>
            if AtFlush in fails then r == Raised(DatabaseError)
            else
              && Merged(d, db.working, response, user, answers, final)
              && r == Returned(Some(db.working.responses[response]))
    {
      if AtRead in fails { return Raised(DatabaseError); }
      var d := db.working;
      if !Reachable(d, response, org, authorized) { return Returned(None); }
      var row := d.responses[response];
      if row.status == Submitted { return Raised(HttpException(409)); }
      if row.questionnaire !in d.required { return Raised(HttpException(404)); }
      var missing := d.required[row.questionnaire] - answers.Keys;
      if final && missing != {} {
        assert exists q :: q in missing;
        return Raised(HttpException(422));
      }
      assert forall q :: q in d.required[row.questionnaire] ==> q in missing || q in answers.Keys;
      row := Touched(row, user, final);
      db.working := db.working.(responses := db.working.responses[response := row]);
      var ok := UpsertAll(response, answers);
      if !ok {
        assert exists q :: q in answers && q !in Live(d.rows, response) && Blocked(d.rows, response, q);
        return Raised(IntegrityError);
      }
      if AtFlush in fails { return Raised(DatabaseError); }
      return Returned(Some(row));
    }

    /** For each linked questionnaire without a response of this candidate one is created, unless a
        deleted response stands in the way of one of them; a second call therefore creates nothing. If
        something was created the portal service issues a token, and undoes it all if that raises. */
    method AutoCreateResponses(candidate: Id, requisition: Id, org: Id, user: Option<Id>, newIds: seq<Id>,
        fails: set<Await>)
      returns (r: Outcome<seq<Id>, Error>)
      requires db.Clean() && requisition in db.committed.links && FreshIds(db.committed, requisition, newIds)
      modifies db
      ensures db.Clean() && (r.Raised? ==> db.committed == old(db.committed))
      ensures var d := old(db.committed);
        && (r.Returned? ==>
             && Completed(d, db.committed, candidate, requisition, r.value)
             && NewDrafts(db.committed.responses, r.value, candidate, org, user))
        && (r.Returned? <==>
             && AtRead !in fails && AtFlush !in fails && AtCommit !in fails
             && (forall q :: q in d.links[requisition] ==> !Stuck(d.responses, candidate, q))
             && (AtNested in fails ==> AllAnswered(d, candidate, requisition)))
        && (r == Raised(HttpException(500)) <==>
             && AtRead !in fails && AtFlush !in fails && AtNested in fails
             && (forall q :: q in d.links[requisition] ==> !Stuck(d.responses, candidate, q))
             && !AllAnswered(d, candidate, requisition))
        && (r == Raised(IntegrityError) <==>
             AtRead !in fails && exists q :: q in d.links[requisition] && Stuck(d.responses, candidate, q))
    {
      var body: Outcome<seq<Id>, Error>;
      if AtRead in fails {
        body := Raised(DatabaseError);
      } else {
        body := AutoCreateBody(candidate, requisition, org, user, newIds);
        if body.Returned? {
          NothingCreated(db.committed, db.working, candidate, requisition, body.value);
          if AtFlush in fails {
            body := Raised(DatabaseError);
          } else if body.value != [] && AtNested in fails {
            body := Raised(HttpException(500));
          }
        }
      }
      r := db.Leave(body, DatabaseError, AtCommit in fails);
    }

    method AutoCreateBody(candidate: Id, requisition: Id, org: Id, user: Option<Id>, newIds: seq<Id>)
      returns (r: Outcome<seq<Id>, Error>)
      requires db.Clean() && requisition in db.committed.links && FreshIds(db.committed, requisition, newIds)
      modifies db`working
      ensures var d := db.committed;
        if exists q :: q in d.links[requisition] && Stuck(d.responses, candidate, q)
        then r == Raised(IntegrityError)
        else
          && r.Returned? && Completed(d, db.working, candidate, requisition, r.value)
          && NewDrafts(db.working.responses, r.value, candidate, org, user)
    {
      var links := db.working.links[requisition];
      ghost var before := db.working;
      var created := [];
      for i := 0 to |links|
        invariant Progress(before, db.working, candidate, requisition, created)
        invariant NewDrafts(db.working.responses, created, candidate, org, user)
        invariant Covered(before, db.working, candidate, links[..i])
        invariant forall j :: i <= j < |links| ==> newIds[j] !in db.working.responses
      {
        assert links[..i + 1] == links[..i] + [links[i]];
        if !Answering(db.working.responses, candidate, links[i]) {
          if Deleted(db.working.responses, candidate, links[i]) {
            StuckFromTheStart(before, db.working, candidate, requisition, created, links[i]);
            return Raised(IntegrityError);
          }
          var row := Response(candidate, links[i], org, Draft, false, 1, user);
          DraftGrows(before, db.working, candidate, requisition, created, links[..i], newIds[i], row);
          db.working := db.working.(responses := db.working.responses[newIds[i] := row]);
          created := created + [newIds[i]];
        } else {
          CreatedIsNotStuck(before, db.working, candidate, requisition, created, links[i]);
        }
      }
      assert links[..|links|] == links;
      return Returned(created);
    }

    /** The loop over the answers: update the live row of a question, or insert one. */
    method UpsertAll(response: Id, answers: Answers) returns (ok: bool)
      requires UniqueRows(db.working.rows)
      modifies db`working
      ensures ok <==> forall q :: q in answers && q !in Live(old(db.working).rows, response) ==>
          !Blocked(old(db.working).rows, response, q)
      ensures ok ==>
        && db.working == old(db.working).(rows := db.working.rows) && UniqueRows(db.working.rows)
        && Live(db.working.rows, response) == Live(old(db.working).rows, response) + answers
        && forall other :: other != response ==> Live(db.working.rows, other) == Live(old(db.working).rows, other)
    {
      ghost var before := db.working.rows;
      var todo := answers.Keys;
      while todo != {}
        invariant todo <= answers.Keys
        invariant db.working == old(db.working).(rows := db.working.rows) && UniqueRows(db.working.rows)
        invariant Live(db.working.rows, response) == Live(before, response) + (answers - todo)
        invariant forall other :: other != response ==> Live(db.working.rows, other) == Live(before, other)
        invariant forall q :: Blocked(db.working.rows, response, q) <==> Blocked(before, response, q)
        invariant forall q :: q in answers.Keys - todo && q !in Live(before, response) ==> !Blocked(before, response, q)
      {
        var q :| q in todo;
        var done := UpsertOne(response, q, answers[q]);
        if !done {
          return false;
        }
        todo := todo - {q};
      }
      assert answers - todo == answers;
      return true;
    }

    method UpsertOne(response: Id, question: Question, answer: string) returns (ok: bool)
      requires UniqueRows(db.working.rows)
      modifies db`working
      ensures ok <==>
        question in Live(old(db.working).rows, response) || !Blocked(old(db.working).rows, response, question)
      ensures ok ==>
        && db.working == old(db.working).(rows := db.working.rows) && UniqueRows(db.working.rows)
        && Live(db.working.rows, response) == Live(old(db.working).rows, response)[question := answer]
        && (forall other :: other != response ==> Live(db.working.rows, other) == Live(old(db.working).rows, other))
        && (forall q :: Blocked(db.working.rows, response, q) <==> Blocked(old(db.working).rows, response, q))
    {
      ghost var before := db.working.rows;
      var i, found := 0, false;
      while i < |db.working.rows| && !found
        invariant i <= |db.working.rows| && db.working == old(db.working)
        invariant found ==> i < |db.working.rows| && db.working.rows[i].response == response
                            && db.working.rows[i].question == question
        invariant !found ==> forall j :: 0 <= j < i ==> before[j].response != response || before[j].question != question
        decreases |db.working.rows| - i, !found
      {
        if db.working.rows[i].response == response && db.working.rows[i].question == question {
          found := true;
        } else {
          i := i + 1;
        }
      }
      LiveHas(before, response, question);
      if found && db.working.rows[i].isDeleted {
        return false;
      }
      if found {
        forall other ensures Live(before[i := before[i].(answer := answer)], other) ==
          if other == response then Live(before, other)[question := answer] else Live(before, other)
        {
          UpdateLive(before, i, answer, other);
        }
        UpdateLive(before, i, answer, response);
        db.working := db.working.(rows := db.working.rows[i := db.working.rows[i].(answer := answer)]);
      } else {
        var row := AnswerRow(response, question, answer, false);
        forall other ensures Live(before + [row], other) ==
          if other == response then Live(before, other)[question := answer] else Live(before, other)
        {
          AppendLive(before, row, other);
        }
        AppendLive(before, row, response);
        db.working := db.working.(rows := db.working.rows + [row]);
      }
      forall q ensures Blocked(db.working.rows, response, q) <==> Blocked(before, response, q) {
        BlockedStays(before, db.working.rows, response, q);
      }
      return true;
    }
  }

  // ---------------------------------------------------------------- runs of saves of one response

  datatype Save = Save(response: Id, org: Id, authorized: bool, user: Option<Id>, answers: Answers, final: bool)

  ghost predicate Accepted(d: Db, s: Save) {
    VerdictOn(d, s.response, s.org, s.authorized, s.answers, s.final).Saves?
  }

  ghost predicate SaveStep(d: Db, e: Db, s: Save) {
    if Accepted(d, s)
    then Merged(d, e, s.response, s.user, s.answers, s.final)
    else e == d
  }

  ghost predicate IsRun(d: seq<Db>, saves: seq<Save>) {
    && |d| == |saves| + 1
    && UniqueRows(d[0].rows)
    && forall i :: 0 <= i < |saves| ==> SaveStep(d[i], d[i + 1], saves[i])
  }

  /** The right-biased merge of the saves of a response that went through. */
  ghost function MergeOf(d: seq<Db>, saves: seq<Save>, k: nat, response: Id): Answers
    requires k <= |saves| && |d| == |saves| + 1
  {
    if k == 0 then Live(d[0].rows, response)
    else
      var s := saves[k - 1];
      var earlier := MergeOf(d, saves, k - 1, response);
      if s.response == response && Accepted(d[k - 1], s)
      then earlier + s.answers else earlier
  }

  /** When a save is accepted: for a live response of the caller's organization, by an authorized caller, that
      is not SUBMITTED and whose questionnaire exists, with every required answer in a final save, and with no
      deleted row in the way. */
  lemma AcceptedExactly(d: Db, s: Save)
    requires UniqueRows(d.rows)
    ensures Accepted(d, s) <==>
      && s.authorized && s.response in d.responses
      && var row := d.responses[s.response];
         && !row.isDeleted && row.organization == s.org && row.status != Submitted && row.questionnaire in d.required
         && (s.final ==> forall q :: q in d.required[row.questionnaire] ==> q in s.answers)
         && !exists i :: 0 <= i < |d.rows| && d.rows[i].response == s.response && d.rows[i].isDeleted
                         && d.rows[i].question in s.answers
  {
    forall i | 0 <= i < |d.rows| && d.rows[i].response == s.response && d.rows[i].isDeleted
      ensures d.rows[i].question !in Live(d.rows, s.response) && Blocked(d.rows, s.response, d.rows[i].question)
    {
      LiveHas(d.rows, s.response, d.rows[i].question);
    }
  }

  /** How a save is refused: 409 for a SUBMITTED response, 404 without its questionnaire, 422 for a final save
      without a required answer; and in silence if the response is not the caller's to see. */
  lemma RefusedExactly(d: Db, s: Save)
    ensures var verdict := VerdictOn(d, s.response, s.org, s.authorized, s.answers, s.final);
      var visible := s.authorized && s.response in d.responses && !d.responses[s.response].isDeleted
        && d.responses[s.response].organization == s.org;
      && (verdict == Ignored <==> !visible)
      && (visible ==>
            var row := d.responses[s.response];
            var known := row.status != Submitted && row.questionnaire in d.required;
            && (verdict == Refused(HttpException(409)) <==> row.status == Submitted)
            && (verdict == Refused(HttpException(404)) <==>
                  row.status != Submitted && row.questionnaire !in d.required)
            && (verdict == Refused(HttpException(422)) <==>
                  known && s.final && exists q :: q in d.required[row.questionnaire] && q !in s.answers))
  {
  }

  /** What an accepted save leaves of the responses: this one's status, and with any change its version and its
      last updater; every other row is untouched. */
  lemma SavedLeaves(d: Db, e: Db, s: Save)
    requires Accepted(d, s) && SaveStep(d, e, s)
    ensures s.response in e.responses && e.responses.Keys == d.responses.Keys
    ensures forall id :: id in d.responses && id != s.response ==> e.responses[id] == d.responses[id]
    ensures var was, row := d.responses[s.response], e.responses[s.response];
      && row.status == (if s.final then Submitted else Incomplete) && row.updatedBy == s.user
      && row == was.(status := row.status, updatedBy := row.updatedBy, version := row.version)
      && row.version == was.version + if row.status != was.status || row.updatedBy != was.updatedBy then 1 else 0
    ensures forall q :: q in s.answers ==>
      q in Live(e.rows, s.response) && Live(e.rows, s.response)[q] == s.answers[q]
  {
  }

  /** A save for another organization, for a deleted response, or by an unauthorized caller leaves everything
      as it is, and so does any other one that is not accepted. */
  lemma OthersSavesChangeNothing(d: seq<Db>, saves: seq<Save>, k: nat)
    requires IsRun(d, saves) && k < |saves|
    requires var s := saves[k];
      || !s.authorized || s.response !in d[k].responses
      || d[k].responses[s.response].isDeleted || d[k].responses[s.response].organization != s.org
    ensures d[k + 1] == d[k]
  {
    LiveRowsAreTheMerge(d, saves, k, saves[k].response);
    AcceptedExactly(d[k], saves[k]);
    assert SaveStep(d[k], d[k + 1], saves[k]);
  }

  /** Under any sequence of saves, one after the other, the live rows of a response are one map: the merge of the
      successful saves, with at most one row per question. */
  lemma {:induction false} LiveRowsAreTheMerge(d: seq<Db>, saves: seq<Save>, k: nat, response: Id)
    requires IsRun(d, saves) && k <= |saves|
    ensures UniqueRows(d[k].rows) && Live(d[k].rows, response) == MergeOf(d, saves, k, response)
  {
    if k == 0 {
    } else {
      LiveRowsAreTheMerge(d, saves, k - 1, response);
      assert SaveStep(d[k - 1], d[k], saves[k - 1]);
    }
  }

  /** If saves do not overlap, a SUBMITTED response never changes again. */
  lemma {:induction false} SubmittedIsFinal(d: seq<Db>, saves: seq<Save>, i: nat, k: nat, response: Id)
    requires IsRun(d, saves) && i <= k <= |saves|
    requires response in d[i].responses && d[i].responses[response].status == Submitted
    ensures response in d[k].responses && d[k].responses[response] == d[i].responses[response]
    ensures Live(d[k].rows, response) == Live(d[i].rows, response)
    decreases k
  {
    if k == i {
    } else {
      SubmittedIsFinal(d, saves, i, k - 1, response);
      assert SaveStep(d[k - 1], d[k], saves[k - 1]);
    }
  }

  /** ... and holds an answer for every question required when it was submitted. */
  lemma SubmittedIsComplete(d: seq<Db>, saves: seq<Save>, i: nat, k: nat)
    requires IsRun(d, saves) && i < k <= |saves| && saves[i].final && Accepted(d[i], saves[i])
    ensures var s := saves[i];
      && s.response in d[k].responses && d[k].responses[s.response].status == Submitted
      && d[i].required[d[i].responses[s.response].questionnaire] <= Live(d[k].rows, s.response).Keys
  {
    assert SaveStep(d[i], d[i + 1], saves[i]);
    SubmittedIsFinal(d, saves, i + 1, k, saves[i].response);
  }
}
