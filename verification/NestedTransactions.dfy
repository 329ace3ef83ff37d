/** What `@transactional` methods that call each other on one session make durable, for every
    nesting (app/service_base.py, app/decorators.py). The wrapper commits on every normal return,
    nested or not, and no service catches what a nested call raises. */
module NestedTransactions {

  /** A method body: writes, and calls of other transactional methods, each of which may raise
      once its own body is done. */
  datatype Step<W> = Write(w: W) | Call(body: seq<Step<W>>, raises: bool)

  /** The session, with states as the writes that made them. */
  datatype State<W> = State(committed: seq<W>, working: seq<W>, raised: bool)

  function Exec<W>(steps: seq<Step<W>>, s: State<W>): State<W>
    decreases steps
  {
    if steps == [] || s.raised then s
    else
      var rest := steps[1..];
      match steps[0]
      case Write(w) => Exec(rest, s.(working := s.working + [w]))
      case Call(body, raises) => Exec(rest, Leave(Exec(body, s), raises))
  }

  /** Leaving `atomic_transaction`. */
  function Leave<W>(s: State<W>, raises: bool): State<W> {
    if s.raised || raises then State(s.committed, s.committed, true) else State(s.working, s.working, false)
  }

  // ---------------------------------------------------------------- the same, as a flat trace

  datatype Event<W> = Wrote(w: W) | Returned | Raise

  /** What happens in time order; nothing follows a raise. */
  function Trace<W>(steps: seq<Step<W>>): seq<Event<W>>
    decreases steps
  {
    if steps == [] then []
    else
      var first := match steps[0]
        case Write(w) => [Wrote(w)]
        case Call(body, raises) => Called(Trace(body), raises);
      if Raises(first) then first else first + Trace(steps[1..])
  }

  function Called<W>(inner: seq<Event<W>>, raises: bool): seq<Event<W>> {
    if Raises(inner) then inner else inner + [if raises then Raise else Returned]
  }

  predicate Raises<W>(trace: seq<Event<W>>) {
    trace != [] && trace[|trace| - 1].Raise?
  }

  function Writes<W>(trace: seq<Event<W>>): seq<W> {
    if trace == [] then []
    else
      var earlier := Writes(trace[..|trace| - 1]);
      if trace[|trace| - 1].Wrote? then earlier + [trace[|trace| - 1].w] else earlier
  }

  /** The trace up to the last normal return of a nested call. */
  function LastReturn<W>(trace: seq<Event<W>>): seq<Event<W>> {
    if trace == [] || trace[|trace| - 1].Returned? then trace else LastReturn(trace[..|trace| - 1])
  }

  function Final<W>(trace: seq<Event<W>>, s: State<W>): State<W> {
    var durable := if LastReturn(trace) == [] then s.committed else s.working + Writes(LastReturn(trace));
    State(durable, if Raises(trace) then durable else s.working + Writes(trace), Raises(trace))
  }

  lemma {:induction false} WritesAppend<W>(a: seq<Event<W>>, b: seq<Event<W>>)
    ensures Writes(a + b) == Writes(a) + Writes(b)
    ensures LastReturn(a + b) == if LastReturn(b) == [] then LastReturn(a) else a + LastReturn(b)
  {
    if b == [] {
      assert a + b == a;
    } else {
      var k := |b| - 1;
      WritesAppend(a, b[..k]);
      assert (a + b)[..|a + b| - 1] == a + b[..k] && (a + b)[|a + b| - 1] == b[k];
      if b[k].Wrote? {
        assert Writes(a) + (Writes(b[..k]) + [b[k].w]) == Writes(a) + Writes(b[..k]) + [b[k].w];
      }
    }
  }

  lemma LastReturnOf<W>(trace: seq<Event<W>>, e: Event<W>)
    ensures LastReturn(trace + [e]) == if e.Returned? then trace + [e] else LastReturn(trace)
    ensures Writes(trace + [e]) == if e.Wrote? then Writes(trace) + [e.w] else Writes(trace)
  {
    assert (trace + [e])[..|trace|] == trace;
  }

  lemma FinalAppend<W>(a: seq<Event<W>>, b: seq<Event<W>>, s: State<W>)
    requires !s.raised && !Raises(a)
    ensures Final(a + b, s) == Final(b, Final(a, s))
  {
    WritesAppend(a, b);
    WritesAppend(a, LastReturn(b));
    assert b != [] ==> (a + b)[|a + b| - 1] == b[|b| - 1];
    assert b == [] ==> a + b == a;
    assert s.working + (Writes(a) + Writes(b)) == s.working + Writes(a) + Writes(b);
    assert s.working + (Writes(a) + Writes(LastReturn(b))) == s.working + Writes(a) + Writes(LastReturn(b));
  }

  /** The nested execution is the flat one. */
  lemma {:induction false} ExecIsFinal<W>(steps: seq<Step<W>>, s: State<W>)
    requires !s.raised
    ensures Exec(steps, s) == Final(Trace(steps), s)
    decreases steps
  {
    if steps == [] {
    } else {
      var rest := steps[1..];
      match steps[0] {
        case Write(w) =>
          var mid := s.(working := s.working + [w]);
          WriteIsFinal(w, s);
          ExecIsFinal(rest, mid);
          FinalAppend([Wrote(w)], Trace(rest), s);
        case Call(body, raises) =>
          ExecIsFinal(body, s);
          var mid := Leave(Exec(body, s), raises);
          var first := Called(Trace(body), raises);
          LeaveIsFinal(Trace(body), raises, s);
          if !mid.raised {
            ExecIsFinal(rest, mid);
            FinalAppend(first, Trace(rest), s);
          }
      }
    }
  }

  lemma WriteIsFinal<W>(w: W, s: State<W>)
    requires !s.raised
    ensures Final([Wrote(w)], s) == s.(working := s.working + [w])
  {
    LastReturnOf<W>([], Wrote(w));
    assert [] + [Wrote(w)] == [Wrote(w)];
  }

  lemma LeaveIsFinal<W>(inner: seq<Event<W>>, raises: bool, s: State<W>)
    requires !s.raised
    ensures Leave(Final(inner, s), raises) ==
      Final(Called(inner, raises), s)
  {
    LastReturnOf(inner, if raises then Raise else Returned);
  }

  /** What is durable after a transactional call on a clean session: everything if it returns;
      if it raises, what was written up to the last nested call that had returned. So a call that
      raises leaves nothing behind if and only if no nested call returned after a write. */
  lemma DurableAfter<W>(body: seq<Step<W>>, raises: bool, before: seq<W>)
    ensures var end := Leave(Exec(body, State(before, before, false)), raises);
      var trace := Trace(body);
      && end.raised == (raises || Raises(trace)) && end.working == end.committed
      && (!end.raised ==> end.committed == before + Writes(trace))
      && (end.raised ==> end.committed == before + Writes(LastReturn(trace)))
      && (end.raised ==> (end.committed == before <==> Writes(LastReturn(trace)) == []))
  {
    ExecIsFinal(body, State(before, before, false));
    var durable := Writes(LastReturn(Trace(body)));
    assert before + [] == before;
    assert |before + durable| == |before| + |durable|;
  }
}
