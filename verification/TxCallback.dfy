/** `transaction(fn)`: commit when the callback resolves, roll back when it throws.

  The callback may start calls on the handle and not wait for them, so the wrapper's
  own steps interleave with every event of `TxProtocol`. */
module TxCallback {
  import opened TxHandles
  import opened TxProtocol
  import opened TxSafety

  /** An error value thrown by the callback. */
  type FnError = nat

  datatype Cause =
    | FromFn(err: FnError)
    | FromCommit(thrown: Thrown)
    | FromAssertOpen

  datatype Wrapper =
    | InCallback
    | RollingBack(err: FnError, id: nat)
    | CommittingFor(id: nat)
    | ReturnedNormally
    | Rejected(cause: Cause)

  datatype Session = Session(sys: System, at: Wrapper)

  datatype Act = Inner(e: Event) | FnResolves | FnThrows(err: FnError)

  const Begun := Session(Init, InCallback)

  /** Where the wrapper is after the handle moved from `s` to `t`. */
  function Follow(s: System, t: System, at: Wrapper): Wrapper
  {
    match at
    case RollingBack(err, id) => if id in t.waiting then at else Rejected(FromFn(err))
    case CommittingFor(id) =>
      if id in t.waiting then at
      else if |t.requests| > |s.requests| then CommittingFor(|s.requests|)
      else if |t.log| > 0 && t.log[|t.log| - 1].Failed? then Rejected(FromCommit(t.log[|t.log| - 1].err))
      else ReturnedNormally
    case _ => at
  }

  function Step(w: Session, a: Act): Session
  {
    match a
    case Inner(e) => Session(Do(w.sys, e), Follow(w.sys, Do(w.sys, e), w.at))
    case FnThrows(err) =>
      if w.at != InCallback then w
      else if w.sys.handle == Open
      then Session(Do(w.sys, CallRollback), RollingBack(err, |w.sys.requests|))
      else w.(at := Rejected(FromFn(err)))
    case FnResolves =>
      if w.at != InCallback then w
      else if w.sys.handle == Finished then w.(at := ReturnedNormally)
      else if w.sys.handle == Open
      then Session(Do(w.sys, CallCommit), CommittingFor(|w.sys.requests|))
      else w.(at := Rejected(FromAssertOpen))
  }

  function Play(w: Session, acts: seq<Act>): Session
    decreases |acts|
  {
    if acts == [] then w else Step(Play(w, acts[..|acts| - 1]), acts[|acts| - 1])
  }

  /** The call whose request is `id`, after one event: still waiting, or settled. */
  lemma CallAfter(s: System, e: Event, id: nat)
    requires id in s.waiting && id < |s.requests|
    ensures var t := Do(s, e);
      if id in t.waiting then t.waiting[id] == s.waiting[id]
      else exists out :: t == Settle(s, id, out) && CanSettle(s, id, out)
  {
    if e == Deliver(id) && s.requests[id].reply.Some? {
      var out := Receive(s.requests[id].reply.value);
      assert Do(s, e) == Settle(s, id, out) && CanSettle(s, id, out);
    } else if e == Lose(id) {
      assert Do(s, e) == Settle(s, id, Threw(NetworkFailure)) && CanSettle(s, id, Threw(NetworkFailure));
    }
  }

  /** How a commit call stops waiting: it asks the server, it throws, or it resolves and
    finishes the handle. */
  lemma CommitCallSettles(s: System, id: nat, out: Outcome)
    requires id in s.waiting && id < |s.requests| && CommitCall(s.waiting[id])
    ensures var t := Settle(s, id, out);
      if |t.requests| > |s.requests| then |s.requests| in t.waiting && CommitCall(t.waiting[|s.requests|])
      else
        && |t.log| == |s.log| + 1
        && (t.log[|s.log|].Failed? ==> t.log[|s.log|].kind == Commit)
        && (!t.log[|s.log|].Failed? ==> t.handle == Finished && s.waiting[id].AwaitCommit? && out.Resolved?)
        && (!t.log[|s.log|].Failed? && out.reply.Bookmark? ==> t.log[|s.log|].Returned?)
  {
  }

  ghost predicate SessionInv(w: Session)
  {
    && Inv(w.sys)
    && (w.at.RollingBack? ==> w.at.id in w.sys.waiting && w.sys.waiting[w.at.id].AwaitRollback?)
    && (w.at.CommittingFor? ==> w.at.id in w.sys.waiting && CommitCall(w.sys.waiting[w.at.id]))
  }

  lemma FollowKept(s: System, e: Event, at: Wrapper)
    requires forall i <- s.waiting :: i < |s.requests|
    requires at.RollingBack? ==> at.id in s.waiting && s.waiting[at.id].AwaitRollback?
    requires at.CommittingFor? ==> at.id in s.waiting && CommitCall(s.waiting[at.id])
    ensures var t, to := Do(s, e), Follow(s, Do(s, e), at);
      && (to.RollingBack? ==> to.id in t.waiting && t.waiting[to.id].AwaitRollback?)
      && (to.CommittingFor? ==> to.id in t.waiting && CommitCall(t.waiting[to.id]))
  {
    if at.RollingBack? || at.CommittingFor? {
      CallAfter(s, e, at.id);
      if at.CommittingFor? && at.id !in Do(s, e).waiting {
        var out :| Do(s, e) == Settle(s, at.id, out) && CanSettle(s, at.id, out);
        CommitCallSettles(s, at.id, out);
      }
    }
  }

  lemma InnerKeepsSession(w: Session, e: Event)
    requires SessionInv(w)
    ensures SessionInv(Step(w, Inner(e)))
  {
    StepKeepsInv(w.sys, e);
    FollowKept(w.sys, e, w.at);
  }

  lemma StepKeepsSession(w: Session, a: Act)
    requires SessionInv(w)
    ensures SessionInv(Step(w, a))
  {
    match a
    case Inner(e) => InnerKeepsSession(w, e);
    case FnThrows(_) => StepKeepsInv(w.sys, CallRollback);
    case FnResolves => StepKeepsInv(w.sys, CallCommit);
  }

  lemma {:induction false} PlayKeepsSession(acts: seq<Act>)
    ensures SessionInv(Play(Begun, acts))
    decreases |acts|
  {
    if acts != [] {
      PlayKeepsSession(acts[..|acts| - 1]);
      StepKeepsSession(Play(Begun, acts[..|acts| - 1]), acts[|acts| - 1]);
    }
  }

  /** The step by which `transaction` returns leaves the handle finished, and when it was
    the wrapper's own commit that ended it the writes were applied exactly once. */
  lemma ReturnsOnlyFinished(acts: seq<Act>, a: Act)
    ensures var w := Play(Begun, acts);
      var t := Step(w, a);
      !w.at.ReturnedNormally? && t.at.ReturnedNormally? ==>
        && t.sys.handle == Finished
        && (w.at.CommittingFor? ==> t.sys.applied == 1)
  {
    PlayKeepsSession(acts);
    var w := Play(Begun, acts);
    if w.at.CommittingFor? && a.Inner? && Step(w, a).at.ReturnedNormally? {
      ReturnedByCommit(w.sys, a.e, w.at.id);
    }
  }

  lemma ReturnedByCommit(s: System, e: Event, id: nat)
    requires Inv(s) && id in s.waiting && CommitCall(s.waiting[id])
    requires Follow(s, Do(s, e), CommittingFor(id)).ReturnedNormally?
    ensures Do(s, e).handle == Finished && Do(s, e).applied == 1 && Retired(Do(s, e))
  {
    CallAfter(s, e, id);
    var out :| Do(s, e) == Settle(s, id, out) && CanSettle(s, id, out);
    ReturnedIsLogged(s, id, out);
    StepKeepsInv(s, e);
  }

  lemma ReturnedIsLogged(s: System, id: nat, out: Outcome)
    requires TokenInv(s) && CommitInv(s) && HandleInv(s)
    requires id in s.waiting && CommitCall(s.waiting[id]) && CanSettle(s, id, out)
    requires Follow(s, Settle(s, id, out), CommittingFor(id)).ReturnedNormally?
    ensures |Settle(s, id, out).log| == |s.log| + 1 && Settle(s, id, out).log[|s.log|].Returned?
  {
    CommitCallSettles(s, id, out);
    assert s.requests[id].reply.Some? && CommitReplyOk(s, s.requests[id]);
  }

  predicate Carries(at: Wrapper, err: FnError)
  {
    at == Rejected(FromFn(err)) || (at.RollingBack? && at.err == err)
  }

  /** After the callback throws `err`, the wrapper can only ever end by rethrowing `err`,
    whatever the rollback does. */
  lemma {:induction false} RethrowsCallbackError(acts: seq<Act>, err: FnError, later: seq<Act>)
    requires Play(Begun, acts).at == InCallback
    ensures Carries(Play(Begun, acts + [FnThrows(err)] + later).at, err)
    decreases |later|
  {
    var all := acts + [FnThrows(err)] + later;
    if later == [] {
      assert all[..|all| - 1] == acts;
    } else {
      RethrowsCallbackError(acts, err, later[..|later| - 1]);
      assert all[..|all| - 1] == acts + [FnThrows(err)] + later[..|later| - 1];
    }
  }

  /** The callback leaves committing to the wrapper. */
  predicate NoOwnCommit(acts: seq<Act>)
  {
    forall i :: 0 <= i < |acts| ==> acts[i] != Inner(CallCommit)
  }

  ghost predicate Undecided(w: Session)
  {
    w.at.InCallback? || w.at.RollingBack? || w.at == Rejected(FromAssertOpen) || (w.at.Rejected? && w.at.cause.FromFn?)
  }

  ghost predicate AtomicInv(w: Session)
  {
    && SessionInv(w)
    && (Undecided(w) ==> w.sys.lastCommit == -1)
    && (w.at.ReturnedNormally? && w.sys.lastCommit >= 0 ==> w.sys.applied == 1 && Retired(w.sys))
  }

  /** Only a commit call sends a commit request. */
  lemma NoNewCommit(s: System, e: Event)
    requires e != CallCommit
    ensures Do(s, e).lastCommit == s.lastCommit
  {
  }

  lemma AppliedKept(s: System, e: Event)
    requires Inv(s) && s.applied == 1
    ensures Do(s, e).applied == 1
  {
    StepKeepsInv(s, e);
  }

  lemma AtomicInner(w: Session, e: Event)
    requires AtomicInv(w) && e != CallCommit
    ensures AtomicInv(Step(w, Inner(e)))
  {
    StepKeepsSession(w, Inner(e));
    NoNewCommit(w.sys, e);
    if w.at.CommittingFor? && Step(w, Inner(e)).at.ReturnedNormally? {
      ReturnedByCommit(w.sys, e, w.at.id);
    } else if w.at.ReturnedNormally? && w.sys.lastCommit >= 0 {
      RetiredStep(w.sys, e);
      AppliedKept(w.sys, e);
    }
  }

  lemma AtomicStep(w: Session, a: Act)
    requires AtomicInv(w) && a != Inner(CallCommit)
    ensures AtomicInv(Step(w, a))
  {
    if a.Inner? { AtomicInner(w, a.e); } else { StepKeepsSession(w, a); }
  }

  lemma {:induction false} AtomicPlay(acts: seq<Act>)
    requires NoOwnCommit(acts)
    ensures AtomicInv(Play(Begun, acts))
    decreases |acts|
  {
    if acts == [] {
      PlayKeepsSession(acts);
    } else {
      AtomicPlay(acts[..|acts| - 1]);
      AtomicStep(Play(Begun, acts[..|acts| - 1]), acts[|acts| - 1]);
    }
  }

  /** All or nothing, when the callback does not commit by itself: a rejection with the
    callback's error means no commit was ever sent and nothing is applied; a normal
    return means the writes are applied exactly once, unless no commit was sent because
    the callback had ended the transaction. */
  lemma AllOrNothing(acts: seq<Act>)
    requires NoOwnCommit(acts)
    ensures var w := Play(Begun, acts);
      && (w.at.Rejected? && !w.at.cause.FromCommit? ==> w.sys.lastCommit == -1 && w.sys.applied == 0)
      && (w.at.ReturnedNormally? ==> w.sys.applied == if w.sys.lastCommit >= 0 then 1 else 0)
  {
    AtomicPlay(acts);
  }
}
