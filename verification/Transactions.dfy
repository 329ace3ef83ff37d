/** The transaction layer: one database session, and the wrapper every `@transactional`
    method runs in (app/service_base.py, app/decorators.py). */
module Transactions {

  /** How a Python call ends: it returns a value or raises. */
  datatype Outcome<+T, +E> = Returned(value: T) | Raised(error: E)

  /** Where a call may raise: at a read, at a flush, in a call of another service method, or at its own commit. */
  datatype Await = AtRead | AtFlush | AtNested | AtCommit

  /** An SQLAlchemy session: the rows every later session will see, and the rows this one sees. */
  class Session<S> {
    var committed: S
    var working: S

    constructor (initial: S)
      ensures committed == initial && working == initial
    {
      committed, working := initial, initial;
    }

    ghost predicate Clean()
      reads this
    {
      committed == working
    }

    method Commit()
      modifies this
      ensures committed == old(working) && working == old(working)
    {
      committed := working;
    }

    method Rollback()
      modifies this
      ensures committed == old(committed) && working == old(committed)
    {
      working := committed;
    }

    /** Leaving `atomic_transaction`: commit if the body returned; roll back and re-raise if the
        body raised, or if the commit itself does. The wrapper does not know whether it is nested. */
    method Leave<T, E>(body: Outcome<T, E>, commitError: E, commitRaises: bool) returns (r: Outcome<T, E>)
      modifies this
      ensures Clean()
      ensures body.Returned? && !commitRaises ==> r == body && committed == old(working)
      ensures body.Returned? && commitRaises ==> r == Raised(commitError) && committed == old(committed)
      ensures body.Raised? ==> r == body && committed == old(committed)
    {
      if body.Returned? && !commitRaises {
        Commit();
        r := body;
      } else {
        Rollback();
        r := if body.Raised? then body else Raised(commitError);
      }
    }
  }
}
