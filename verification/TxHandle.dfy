/** The client's transaction handle: its four states and how each answer moves them.

  A JavaScript `async` method runs in one piece up to its next `await`. `TxHandle`
  below has one method per such piece; the functions above it are what the pieces
  compute, and `TxProtocol` composes those functions with a server. */
module TxHandles {

  /** `code` in the body of an error answer. */
  datatype Code = NoCode | Busy | ConflictCode | ConstraintCode | OtherCode

  /** What the server answers on a transaction route. */
  datatype Reply =
    | Bookmark(number: nat)
    | Done
    | Refusal(status: nat, code: Code)

  /** What `call` throws once `fetchJson` and `txJson` have mapped the answer. */
  datatype Thrown =
    | Conflict
    | Constraint
    | Expired
    | Answered(status: nat, code: Code)
    | NetworkFailure

  datatype Outcome = Resolved(reply: Reply) | Threw(err: Thrown)

  datatype HandleState = Open | Committing | Unknown | Finished

  /** An error answer, as the class of error it is thrown as. */
  function Classify(status: nat, code: Code): Thrown
  {
    if status == 409 && code == ConstraintCode then Constraint
    else if status == 409 && code != Busy then Conflict
    else if status == 404 || status == 410 then Expired
    else Answered(status, code)
  }

  function Receive(reply: Reply): Outcome
  {
    if reply.Refusal? then Threw(Classify(reply.status, reply.code)) else Resolved(reply)
  }

  /** The errors by which the server says the commit ended the transaction. */
  predicate EndedByServer(err: Thrown) { err.Conflict? || err.Constraint? || err.Expired? }

  predicate IsBusy(err: Thrown) { err.Answered? && err.code == Busy }

  /** A commit answered with anything else has to ask the server. */
  predicate NeedsProbe(out: Outcome)
  {
    out.Threw? && out.err.Answered? && !IsBusy(out.err)
  }

  function AfterCommit(out: Outcome): HandleState
    requires !NeedsProbe(out)
  {
    if out.Resolved? || EndedByServer(out.err) then Finished
    else if IsBusy(out.err) then Open
    else Unknown
  }

  function AfterProbe(out: Outcome): HandleState
  {
    if out.Resolved? then Open else if out.err.Expired? then Finished else Unknown
  }

  function AfterRollback(state: HandleState, out: Outcome): HandleState
  {
    if out.Resolved? || out.err.Expired? then Finished else state
  }

  class TxHandle {
    var state: HandleState

    constructor ()
      ensures state == Open
    {
      state := Open;
    }

    method AssertOpen() returns (ok: bool)
      ensures ok <==> state == Open
    {
      if state == Committing { return false; }
      if state == Unknown { return false; }
      if state == Finished { return false; }
      return true;
    }

    /** `commit` up to the request; `send` says a request goes out. */
    method CommitStart() returns (send: bool)
      modifies this
      ensures send <==> old(state) == Open
      ensures state == if send then Committing else old(state)
    {
      send := AssertOpen();
      if send { state := Committing; }
    }

    /** `commit` from the answer on; `probe` says the handle has to ask before it settles. */
    method CommitAnswered(out: Outcome) returns (probe: bool)
      modifies this
      ensures probe <==> NeedsProbe(out)
      ensures state == if probe then old(state) else AfterCommit(out)
    {
      probe := false;
      match out
      case Resolved(_) => state := Finished;
      case Threw(err) =>
        if err.Conflict? || err.Constraint? || err.Expired? {
          state := Finished;
        } else if err.Answered? && err.code == Busy {
          state := Open;
        } else if err.Answered? {
          probe := true;
        } else {
          state := Unknown;
        }
    }

    method ProbeAnswered(out: Outcome)
      modifies this
      ensures state == AfterProbe(out)
    {
      match out
      case Resolved(_) => state := Open;
      case Threw(err) => state := if err.Expired? then Finished else Unknown;
    }

    /** `rollback` up to the request: silent when finished, refused unless open. */
    method RollbackStart() returns (send: bool, throws: bool)
      ensures send <==> state == Open
      ensures throws <==> state == Committing || state == Unknown
    {
      if state == Finished { return false, false; }
      send := AssertOpen();
      throws := !send;
    }

    method RollbackAnswered(out: Outcome) returns (throws: bool)
      modifies this
      ensures state == AfterRollback(old(state), out)
      ensures throws <==> out.Threw? && !out.err.Expired?
    {
      throws := false;
      match out
      case Resolved(_) => state := Finished;
      case Threw(err) =>
        if err.Expired? { state := Finished; } else { throws := true; }
    }
  }
}
