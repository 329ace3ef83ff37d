/** Overlapping saves of questionnaire answers: every save loads its response, reads the answers one by
    one and commits. The response row has a version, the answer rows have none (app/base_model.py). */
module QuestionnaireProtocol {
  import opened Options
  import opened Questionnaires

  type Sid = nat

  /** An open save: the response row and the required questions it loaded, and the answers it has read. */
  datatype Saver = Saver(save: Save, loaded: Response, required: set<Question>, seen: map<Question, Option<string>>)

  datatype State = State(db: Db, open: map<Sid, Saver>)

  /** Create is the commit of a new response, Require that of a questionnaire's new text. */
  datatype Action =
    | Load(sid: Sid, save: Save)
    | Read(sid: Sid, question: Question)
    | Commit(sid: Sid)
    | Abort(sid: Sid)
    | Create(id: Id, row: Response)
    | Require(questionnaire: Id, required: set<Question>)

  function EntryFor(d: Db, save: Save): Verdict {
    EntryOf(d, save.response, save.org, save.authorized, save.answers, save.final)
  }

  function Found(d: Db, response: Id, question: Question): Option<string> {
    var live := Live(d.rows, response);
    if question in live then Some(live[question]) else None
  }

  /** Nothing of the response row changes, so no UPDATE and no version check is issued. */
  predicate Silent(a: Saver) {
    !a.save.final && a.loaded.status == Incomplete && a.loaded.updatedBy == a.save.user
  }

  /** The answers that are written: an answer equal to the one read is not. */
  function Writes(a: Saver): Answers {
    map q | q in a.save.answers && (q in a.seen ==> a.seen[q] != Some(a.save.answers[q])) :: a.save.answers[q]
  }

  /** The flush or commit raises: StaleDataError for the response, or IntegrityError for an insert. From
      its UPDATE to its commit a save holds the lock on the row, so the version is checked here. */
  ghost predicate Conflict(d: Db, a: Saver) {
    || a.save.response !in d.responses
    || (!Silent(a) && d.responses[a.save.response].version != a.loaded.version)
    || exists q :: q in a.seen && a.seen[q] == None
         && (q in Live(d.rows, a.save.response) || Blocked(d.rows, a.save.response, q))
  }

  ghost predicate Applied(d: Db, e: Db, a: Saver)
    requires a.save.response in d.responses
  {
    var r := a.save.response;
    && e.responses ==
       (if Silent(a) then d.responses else d.responses[r := Touched(a.loaded, a.save.user, a.save.final)])
    && e.required == d.required && e.links == d.links && UniqueRows(e.rows)
    && Live(e.rows, r) == Live(d.rows, r) + Writes(a)
    && (forall other :: other != r ==> Live(e.rows, other) == Live(d.rows, other))
  }

  ghost predicate IsStep(s: State, x: Action, t: State) {
    match x
    case Load(sid, save) =>
      && sid !in s.open
      && t == if EntryFor(s.db, save) != Saves then s
              else
                var loaded := s.db.responses[save.response];
                s.(open := s.open[sid := Saver(save, loaded, s.db.required[loaded.questionnaire], map[])])
    case Read(sid, q) =>
      && sid in s.open && q in s.open[sid].save.answers && q !in s.open[sid].seen
      && var a := s.open[sid];
         t == s.(open := s.open[sid := a.(seen := a.seen[q := Found(s.db, a.save.response, q)])])
    case Commit(sid) =>
      && sid in s.open && s.open[sid].seen.Keys == s.open[sid].save.answers.Keys && t.open == s.open - {sid}
      && if Conflict(s.db, s.open[sid]) then t.db == s.db else Applied(s.db, t.db, s.open[sid])
    case Abort(sid) => sid in s.open && t == s.(open := s.open - {sid})
    case Create(id, row) =>
      id !in s.db.responses && row.status == Draft && t == s.(db := s.db.(responses := s.db.responses[id := row]))
    case Require(questionnaire, required) =>
      t == s.(db := s.db.(required := s.db.required[questionnaire := required]))
  }

  // ---------------------------------------------------------------- the invariant

  ghost predicate SaverInv(d: Db, a: Saver) {
    var r := a.save.response;
    && a.loaded.status != Submitted && (a.save.final ==> a.required <= a.save.answers.Keys)
    && r in d.responses && a.loaded.version <= d.responses[r].version
    && a.save.authorized && d.responses[r].organization == a.save.org && !d.responses[r].isDeleted
    && a.loaded.organization == a.save.org && !a.loaded.isDeleted
    && (a.loaded.version == d.responses[r].version ==> a.loaded == d.responses[r])
    && a.seen.Keys <= a.save.answers.Keys
    && (forall q :: q in a.seen && a.seen[q].Some? ==> q in Live(d.rows, r))
  }

  ghost predicate Inv(s: State) {
    UniqueRows(s.db.rows) && forall sid :: sid in s.open ==> SaverInv(s.db, s.open[sid])
  }

  lemma AppliedKeepsSaver(d: Db, e: Db, a: Saver, b: Saver)
    requires SaverInv(d, a) && SaverInv(d, b) && !Conflict(d, a) && Applied(d, e, a)
    ensures SaverInv(e, b)
  {
  }

  lemma StepKeepsInv(s: State, x: Action, t: State)
    requires Inv(s) && IsStep(s, x, t)
    ensures Inv(t)
  {
    if x.Commit? && !Conflict(s.db, s.open[x.sid]) {
      forall sid | sid in t.open ensures SaverInv(t.db, t.open[sid]) {
        AppliedKeepsSaver(s.db, t.db, s.open[x.sid], s.open[sid]);
      }
    }
  }

  // ---------------------------------------------------------------- what one step does to a response

  /** The commit of a save of this response that changes some live answer, though it checked no version. */
  ghost predicate Overwrites(s: State, x: Action, response: Id) {
    && x.Commit? && x.sid in s.open && s.open[x.sid].save.response == response
    && Silent(s.open[x.sid]) && !Conflict(s.db, s.open[x.sid])
    && exists q :: q in Writes(s.open[x.sid]) && Found(s.db, response, q) != Some(Writes(s.open[x.sid])[q])
  }

  /** The row of a SUBMITTED response is never changed, and its answers exactly by such a commit. */
  lemma SubmittedStep(s: State, x: Action, t: State, response: Id)
    requires Inv(s) && IsStep(s, x, t)
    requires response in s.db.responses && s.db.responses[response].status == Submitted
    ensures response in t.db.responses && t.db.responses[response] == s.db.responses[response]
    ensures Live(t.db.rows, response) != Live(s.db.rows, response) <==> Overwrites(s, x, response)
  {
    if x.Commit? && s.open[x.sid].save.response == response && !Conflict(s.db, s.open[x.sid]) {
      assert SaverInv(s.db, s.open[x.sid]);
      MergeChanges(Live(s.db.rows, response), Writes(s.open[x.sid]));
    }
  }

  lemma MergeChanges(before: Answers, writes: Answers)
    ensures before + writes == before <==> forall q :: q in writes ==> q in before && before[q] == writes[q]
  {
    if before + writes == before {
      forall q | q in writes ensures q in before && before[q] == writes[q] {
        assert q in before + writes && (before + writes)[q] == writes[q];
      }
    }
  }

  lemma KeysGrow(s: State, x: Action, t: State, response: Id)
    requires IsStep(s, x, t)
    ensures Live(s.db.rows, response).Keys <= Live(t.db.rows, response).Keys
  {
  }

  // ---------------------------------------------------------------- runs

  ghost predicate IsRun(s: seq<State>, actions: seq<Action>) {
    && |s| == |actions| + 1
    && s[0].open == map[] && UniqueRows(s[0].db.rows)
    && forall i :: 0 <= i < |actions| ==> IsStep(s[i], actions[i], s[i + 1])
  }

  lemma {:induction false} RunKeepsInv(s: seq<State>, actions: seq<Action>, k: nat)
    requires IsRun(s, actions) && k < |s|
    ensures Inv(s[k])
  {
    if k == 0 {
    } else {
      RunKeepsInv(s, actions, k - 1);
      assert IsStep(s[k - 1], actions[k - 1], s[k]);
      StepKeepsInv(s[k - 1], actions[k - 1], s[k]);
    }
  }

  /** In every interleaving the row of a SUBMITTED response is final, and no answer to it is lost. */
  lemma {:induction false} SubmittedRowIsFinal(s: seq<State>, actions: seq<Action>, i: nat, k: nat, response: Id)
    requires IsRun(s, actions) && i <= k < |s|
    requires response in s[i].db.responses && s[i].db.responses[response].status == Submitted
    ensures response in s[k].db.responses && s[k].db.responses[response] == s[i].db.responses[response]
    ensures Live(s[i].db.rows, response).Keys <= Live(s[k].db.rows, response).Keys
  {
    if k == i {
    } else {
      SubmittedRowIsFinal(s, actions, i, k - 1, response);
      RunKeepsInv(s, actions, k - 1);
      assert IsStep(s[k - 1], actions[k - 1], s[k]);
      SubmittedStep(s[k - 1], actions[k - 1], s[k], response);
      KeysGrow(s[k - 1], actions[k - 1], s[k], response);
    }
  }

  /** In every interleaving a live response or one of its answers changes only by the commit of an authorized save
      for the response's own organization. */
  lemma ChangesAreOwn(s: seq<State>, actions: seq<Action>, k: nat, response: Id)
    requires IsRun(s, actions) && k < |actions| && response in s[k].db.responses
    requires s[k + 1].db.responses[response] != s[k].db.responses[response] ||
             Live(s[k + 1].db.rows, response) != Live(s[k].db.rows, response)
    ensures actions[k].Commit? && actions[k].sid in s[k].open
    ensures var save, row := s[k].open[actions[k].sid].save, s[k].db.responses[response];
      save.response == response && save.authorized && save.org == row.organization && !row.isDeleted
  {
    RunKeepsInv(s, actions, k);
    assert IsStep(s[k], actions[k], s[k + 1]);
    assert actions[k].Commit? ==> SaverInv(s[k].db, s[k].open[actions[k].sid]);
  }

  /** In every interleaving a final save that commits leaves the response SUBMITTED, with an answer to
      every question that was required when the save began. */
  lemma SubmittedIsComplete(s: seq<State>, actions: seq<Action>, i: nat, k: nat)
    requires IsRun(s, actions) && i < k < |s| && actions[i].Commit? && actions[i].sid in s[i].open
    requires s[i].open[actions[i].sid].save.final && !Conflict(s[i].db, s[i].open[actions[i].sid])
    ensures var a := s[i].open[actions[i].sid];
      var r := a.save.response;
      && r in s[k].db.responses && s[k].db.responses[r].status == Submitted
      && a.required <= a.save.answers.Keys <= Live(s[k].db.rows, r).Keys
  {
    var a := s[i].open[actions[i].sid];
    RunKeepsInv(s, actions, i);
    assert SaverInv(s[i].db, a) && IsStep(s[i], actions[i], s[i + 1]);
    forall q | q in a.save.answers ensures q in Live(s[i + 1].db.rows, a.save.response) {
      assert q in a.seen;
    }
    SubmittedRowIsFinal(s, actions, i + 1, k, a.save.response);
  }

  /** An open save was loaded at an earlier step, when the response row was as it remembers it. */
  lemma {:induction false} LoadedSince(s: seq<State>, actions: seq<Action>, k: nat, sid: Sid) returns (j: nat)
    requires IsRun(s, actions) && k < |s| && sid in s[k].open
    ensures var a := s[k].open[sid];
      && j < k && actions[j] == Load(sid, a.save)
      && a.save.response in s[j].db.responses && s[j].db.responses[a.save.response] == a.loaded
  {
    j := k - 1;
    assert IsStep(s[j], actions[j], s[k]);
    if sid in s[j].open {
      j := LoadedSince(s, actions, j, sid);
    }
  }

  /** Exactly when an answer to a SUBMITTED response changes: a draft save commits that was loaded when
      the response was INCOMPLETE and last updated by the same user, and it writes another answer. */
  lemma SubmittedChangesExactly(s: seq<State>, actions: seq<Action>, k: nat, response: Id) returns (j: nat)
    requires IsRun(s, actions) && k < |actions|
    requires response in s[k].db.responses && s[k].db.responses[response].status == Submitted
    ensures Live(s[k + 1].db.rows, response) != Live(s[k].db.rows, response) <==> Overwrites(s[k], actions[k], response)
    ensures Overwrites(s[k], actions[k], response) ==>
      var save := s[k].open[actions[k].sid].save;
      && j < k && actions[j] == Load(actions[k].sid, save) && !save.final
      && response in s[j].db.responses && s[j].db.responses[response].status == Incomplete
      && s[j].db.responses[response].updatedBy == save.user
  {
    RunKeepsInv(s, actions, k);
    assert IsStep(s[k], actions[k], s[k + 1]);
    SubmittedStep(s[k], actions[k], s[k + 1], response);
    j := 0;
    if Overwrites(s[k], actions[k], response) {
      j := LoadedSince(s, actions, k, actions[k].sid);
    }
  }

  // ---------------------------------------------------------------- the live rows

  /** What the committed saves wrote, merged in the order of their commits. */
  ghost function MergeOf(s: seq<State>, actions: seq<Action>, k: nat, response: Id): Answers
    requires |s| == |actions| + 1 && k <= |actions|
  {
    if k == 0 then Live(s[0].db.rows, response)
    else MergeOf(s, actions, k - 1, response) + Written(s[k - 1], actions[k - 1], response)
  }

  /** What a step writes into the answers of a response. */
  ghost function Written(s: State, x: Action, response: Id): Answers {
    if x.Commit? && x.sid in s.open && s.open[x.sid].save.response == response && !Conflict(s.db, s.open[x.sid])
    then Writes(s.open[x.sid]) else map[]
  }

  lemma {:induction false} LiveRowsAreTheMerge(s: seq<State>, actions: seq<Action>, k: nat, response: Id)
    requires IsRun(s, actions) && k <= |actions|
    ensures UniqueRows(s[k].db.rows) && Live(s[k].db.rows, response) == MergeOf(s, actions, k, response)
  {
    RunKeepsInv(s, actions, k);
    if k == 0 {
    } else {
      LiveRowsAreTheMerge(s, actions, k - 1, response);
      LiveStep(s, actions, k - 1, response);
    }
  }

  lemma LiveStep(s: seq<State>, actions: seq<Action>, k: nat, response: Id)
    requires IsRun(s, actions) && k < |actions|
    ensures Live(s[k + 1].db.rows, response) == Live(s[k].db.rows, response) + Written(s[k], actions[k], response)
  {
    assert IsStep(s[k], actions[k], s[k + 1]);
  }

  /** A committed save is merged whole unless an answer it did not write, because it had read that very
      answer, was changed by another save meanwhile. */
  lemma MergedExactly(s: seq<State>, actions: seq<Action>, k: nat)
    requires IsRun(s, actions) && k < |actions|
    requires actions[k].Commit? && actions[k].sid in s[k].open && !Conflict(s[k].db, s[k].open[actions[k].sid])
    ensures var a := s[k].open[actions[k].sid];
      var r := a.save.response;
      Live(s[k + 1].db.rows, r) == Live(s[k].db.rows, r) + a.save.answers <==>
      forall q :: q in a.seen && a.seen[q] == Some(a.save.answers[q]) ==> Found(s[k].db, r, q) == a.seen[q]
  {
    RunKeepsInv(s, actions, k);
    assert IsStep(s[k], actions[k], s[k + 1]);
    var a := s[k].open[actions[k].sid];
    assert SaverInv(s[k].db, a);
    var live := Live(s[k].db.rows, a.save.response);
    if live + Writes(a) == live + a.save.answers {
      forall q | q in a.seen && a.seen[q] == Some(a.save.answers[q])
        ensures q in live && live[q] == a.save.answers[q]
      {
        assert (live + a.save.answers)[q] == a.save.answers[q] && q !in Writes(a);
      }
    }
  }

  // ---------------------------------------------------------------- a save that overwrites

  /** User `u` is the last to have updated the INCOMPLETE response 0 and has a draft save (0) and a final
      one (1) open; the final one commits first. */
  function Scene(u: Option<Id>, i: nat): State {
    var incomplete := Response(0, 0, 0, Incomplete, false, 1, u);
    var submitted := incomplete.(status := Submitted, version := 2);
    var draft := Saver(SaveOf(u, "b", false), incomplete, {"q"}, map[]);
    var final := Saver(SaveOf(u, "a", true), incomplete, {"q"}, map[]);
    var d := Db(map[0 := incomplete], map[0 := {"q"}], map[], []);
    var e := d.(responses := map[0 := submitted], rows := [AnswerRow(0, "q", "a", false)]);
    match i
    case 0 => State(d, map[])
    case 1 => State(d, map[0 := draft])
    case 2 => State(d, map[0 := draft, 1 := final])
    case 3 => State(d, map[0 := draft, 1 := final.(seen := map["q" := None])])
    case 4 => State(e, map[0 := draft])
    case 5 => State(e, map[0 := draft.(seen := map["q" := Some("a")])])
    case _ => State(e.(rows := [AnswerRow(0, "q", "b", false)]), map[])
  }

  function SaveOf(u: Option<Id>, answer: string, final: bool): Save {
    Save(0, 0, true, u, map["q" := answer], final)
  }

  function Act(u: Option<Id>, i: nat): Action {
    match i
    case 0 => Load(0, SaveOf(u, "b", false))
    case 1 => Load(1, SaveOf(u, "a", true))
    case 2 => Read(1, "q")
    case 3 => Commit(1)
    case 4 => Read(0, "q")
    case _ => Commit(0)
  }

  lemma LiveOfOne(answer: string)
    ensures Live([AnswerRow(0, "q", answer, false)], 0) == map["q" := answer]
    ensures forall other: Id :: other != 0 ==> Live([AnswerRow(0, "q", answer, false)], other) == map[]
  {
    var rows := [AnswerRow(0, "q", answer, false)];
    assert rows[..0] == [];
  }

  lemma SceneOpens(u: Option<Id>, i: nat)
    requires i < 3
    ensures IsStep(Scene(u, i), Act(u, i), Scene(u, i + 1))
  {
  }

  lemma SceneSubmits(u: Option<Id>)
    ensures IsStep(Scene(u, 3), Act(u, 3), Scene(u, 4))
  {
    LiveOfOne("a");
  }

  lemma SceneOverwrites(u: Option<Id>, i: nat)
    requires i == 4 || i == 5
    ensures IsStep(Scene(u, i), Act(u, i), Scene(u, i + 1))
  {
    LiveOfOne("a");
    LiveOfOne("b");
    assert "a" != "b";
  }

  /** The proviso of the serial result is needed: a SUBMITTED response's answer is overwritten. */
  lemma DraftOverwritesSubmitted(u: Option<Id>) returns (s: seq<State>, actions: seq<Action>)
    ensures IsRun(s, actions) && |actions| == 6
    ensures forall k :: 4 <= k <= 6 ==> 0 in s[k].db.responses && s[k].db.responses[0].status == Submitted
    ensures Found(s[4].db, 0, "q") == Some("a") && Found(s[6].db, 0, "q") == Some("b")
  {
    s := seq(7, i requires 0 <= i < 7 => Scene(u, i));
    actions := seq(6, i requires 0 <= i < 6 => Act(u, i));
    forall i | 0 <= i < 6 ensures IsStep(s[i], actions[i], s[i + 1]) {
      if i < 3 {
        SceneOpens(u, i);
      } else if i == 3 {
        SceneSubmits(u);
      } else {
        SceneOverwrites(u, i);
      }
    }
    LiveOfOne("a");
    LiveOfOne("b");
  }

  // ---------------------------------------------------------------- the service's method as steps

  /** A save that has read the answers to `done` from an unchanged database. */
  ghost function OpenAfter(s: State, sid: Sid, save: Save, done: set<Question>): State
    requires EntryFor(s.db, save) == Saves
  {
    var loaded := s.db.responses[save.response];
    s.(open := s.open[sid := Saver(save, loaded, s.db.required[loaded.questionnaire],
                                   map q | q in done :: Found(s.db, save.response, q))])
  }

  /** A save nothing comes between is `SaveAnswers`: same verdict, same new state. */
  lemma UninterruptedIsSave(s: State, sid: Sid, save: Save, done: set<Question>, q: Question, t: State)
    requires UniqueRows(s.db.rows) && sid !in s.open && EntryFor(s.db, save) == Saves && done <= save.answers.Keys
    ensures IsStep(s, Load(sid, save), OpenAfter(s, sid, save, {}))
    ensures q in save.answers && q !in done ==>
      IsStep(OpenAfter(s, sid, save, done), Read(sid, q), OpenAfter(s, sid, save, done + {q}))
    ensures IsStep(OpenAfter(s, sid, save, save.answers.Keys), Commit(sid), t) <==>
      t.open == s.open &&
      match VerdictOn(s.db, save.response, save.org, save.authorized, save.answers, save.final)
      case Saves => Merged(s.db, t.db, save.response, save.user, save.answers, save.final)
      case _ => t.db == s.db
  {
    if q in save.answers && q !in done {
      ReadIsNext(s, sid, save, done, q);
    }
    assert OpenAfter(s, sid, save, save.answers.Keys).open - {sid} == s.open;
    CommitIsMerge(s.db, t.db, OpenAfter(s, sid, save, save.answers.Keys).open[sid]);
  }

  lemma ReadIsNext(s: State, sid: Sid, save: Save, done: set<Question>, q: Question)
    requires EntryFor(s.db, save) == Saves && q in save.answers && q !in done
    ensures IsStep(OpenAfter(s, sid, save, done), Read(sid, q), OpenAfter(s, sid, save, done + {q}))
  {
    var seen := map p | p in done :: Found(s.db, save.response, p);
    assert seen[q := Found(s.db, save.response, q)] == map p | p in done + {q} :: Found(s.db, save.response, p);
    assert OpenAfter(s, sid, save, done).open[sid].seen == seen;
  }

  lemma CommitIsMerge(d: Db, e: Db, a: Saver)
    requires UniqueRows(d.rows) && a.save.response in d.responses && a.loaded == d.responses[a.save.response]
    requires a.loaded.status != Submitted
    requires a.seen == map q | q in a.save.answers :: Found(d, a.save.response, q)
    ensures Conflict(d, a) <==>
      exists q :: q in a.save.answers && q !in Live(d.rows, a.save.response) && Blocked(d.rows, a.save.response, q)
    ensures Applied(d, e, a) <==> Merged(d, e, a.save.response, a.save.user, a.save.answers, a.save.final)
  {
    assert Live(d.rows, a.save.response) + Writes(a) == Live(d.rows, a.save.response) + a.save.answers;
  }
}
