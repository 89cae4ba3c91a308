/** What `transaction(fn)` does at each turn: that it commits when the callback resolves,
  rolls back when it throws, and how each answer to that call ends it. */
module TxWrapper {
  import opened Options
  import opened TxHandles
  import opened TxProtocol
  import opened TxSafety
  import opened TxProgress
  import opened TxCallback

  /** The handle's events in a session. */
  ghost function Events(acts: seq<Act>): seq<Event>
    decreases |acts|
  {
    if acts == [] then []
    else
      var w, a := Play(Begun, acts[..|acts| - 1]), acts[|acts| - 1];
      Events(acts[..|acts| - 1]) +
      match a
      case Inner(e) => [e]
      case FnThrows(_) => if w.at == InCallback && w.sys.handle == Open then [CallRollback] else []
      case FnResolves => if w.at == InCallback && w.sys.handle == Open then [CallCommit] else []
  }

  /** A session's handle and server are those of a run, so all that holds of runs holds here. */
  lemma {:induction false} PlayIsARun(acts: seq<Act>)
    ensures Play(Begun, acts).sys == Exec(Init, Events(acts))
    decreases |acts|
  {
    if acts != [] {
      var front, a := acts[..|acts| - 1], acts[|acts| - 1];
      PlayIsARun(front);
      var es := Events(front);
      assert es + [] == es;
      if a.Inner? { ExecSnoc(Init, es, a.e); }
      ExecSnoc(Init, es, CallRollback);
      ExecSnoc(Init, es, CallCommit);
    }
  }

  lemma PlaySnoc(acts: seq<Act>, a: Act)
    ensures Play(Begun, acts + [a]) == Step(Play(Begun, acts), a)
  {
    assert (acts + [a])[..|acts|] == acts;
  }

  // ---- the callback ends --------------------------------------------------------------------

  /** The one new request is of this kind, and its call waits as `await`. */
  ghost predicate SentOne(s: System, t: System, kind: Kind, await: Await)
  {
    && t.requests == s.requests + [Request(kind, Pending, false, None)]
    && t.waiting == s.waiting[|s.requests| := await]
    && t.slot == s.slot && t.applied == s.applied && t.log == s.log
  }

  /** The callback resolves: on an open handle the wrapper sends one commit and waits for it;
    on a finished one it returns; on any other it rejects, because the handle refuses. */
  lemma ResolvingDecides(acts: seq<Act>)
    requires Play(Begun, acts).at == InCallback
    ensures var w, t := Play(Begun, acts), Play(Begun, acts + [FnResolves]);
      if w.sys.handle == Open then
        && SentOne(w.sys, t.sys, Commit, AwaitCommit) && t.sys.handle == Committing
        && t.at == CommittingFor(|w.sys.requests|)
      else if w.sys.handle == Finished then t == Session(w.sys, ReturnedNormally)
      else t == Session(w.sys, Rejected(FromAssertOpen))
  {
    PlaySnoc(acts, FnResolves);
  }

  /** The callback throws: on an open handle the wrapper sends one rollback and waits for it;
    on any other it rejects with the callback's error at once. */
  lemma ThrowingDecides(acts: seq<Act>, err: FnError)
    requires Play(Begun, acts).at == InCallback
    ensures var w, t := Play(Begun, acts), Play(Begun, acts + [FnThrows(err)]);
      if w.sys.handle == Open then
        && SentOne(w.sys, t.sys, Rollback, AwaitRollback) && t.sys.handle == Open
        && t.at == RollingBack(err, |w.sys.requests|)
      else t == Session(w.sys, Rejected(FromFn(err)))
  {
    PlaySnoc(acts, FnThrows(err));
  }

  /** The handle's refusal is what the wrapper rejects with only if the callback resolved
    while a commit was in flight or its outcome unknown. */
  lemma RefusedOnlyBesideCommit(acts: seq<Act>, a: Act)
    ensures var w, t := Play(Begun, acts), Play(Begun, acts + [a]);
      w.at != t.at && t.at == Rejected(FromAssertOpen) ==>
        w.at == InCallback && a == FnResolves && (w.sys.handle == Committing || w.sys.handle == Unknown)
  {
    PlaySnoc(acts, a);
  }

  // ---- the awaited call settles ---------------------------------------------------------------

  /** Nothing moves the wrapper but the end of the callback and the end of the call it awaits. */
  lemma OnlyTheAwaitedCallMoves(acts: seq<Act>, e: Event)
    ensures var w, t := Play(Begun, acts), Play(Begun, acts + [Inner(e)]);
      t.at != w.at ==>
        && (w.at.CommittingFor? || w.at.RollingBack?)
        && (e == Lose(w.at.id) || (e == Deliver(w.at.id) && HasAnswer(w.sys, w.at.id)))
  {
    var w := Play(Begun, acts);
    PlaySnoc(acts, Inner(e));
    PlayKeepsSession(acts);
    if w.at.CommittingFor? || w.at.RollingBack? { StillWaits(w.sys, e, w.at.id); }
  }

  lemma StillWaits(s: System, e: Event, id: nat)
    requires id in s.waiting && id < |s.requests|
    ensures id !in Do(s, e).waiting ==> e == Lose(id) || (e == Deliver(id) && HasAnswer(s, id))
  {
  }

  /** How the wrapper ends for this answer to its commit. */
  ghost predicate CommitAnswered(w: Session, reply: Reply, t: Session)
  {
    match reply
    case Bookmark(_) => t.at == ReturnedNormally && t.sys.handle == Finished && t.sys.applied == 1
    case Done => false
    case Refusal(status, code) =>
      if status == 409 then
        t.at == Rejected(FromCommit(if code == Busy then Answered(409, Busy)
                                    else if code == ConstraintCode then Constraint else Conflict))
      else if status == 404 || status == 410 then t.at == Rejected(FromCommit(Expired))
      else t.at == CommittingFor(|w.sys.requests|) && t.sys.handle == w.sys.handle
  }

  /** The wrapper's commit is answered: a bookmark returns, with the writes applied; a
    refusal rejects with the error it is thrown as; anything else waits for the probe. */
  lemma CommitAnswerEnds(acts: seq<Act>)
    requires var w := Play(Begun, acts);
      w.at.CommittingFor? && HasAnswer(w.sys, w.at.id) && w.sys.waiting[w.at.id].AwaitCommit?
    ensures var w := Play(Begun, acts);
      CommitAnswered(w, w.sys.requests[w.at.id].reply.value, Play(Begun, acts + [Inner(Deliver(w.at.id))]))
  {
    var w, es := Play(Begun, acts), Events(acts);
    var id := w.at.id;
    PlaySnoc(acts, Inner(Deliver(id)));
    PlayIsARun(acts);
    CommitAnswerDecides(es, id);
    ExecSnoc(Init, es, Deliver(id));
    BookmarkIsApplied(es, id);
    DeliveryKeepsServer(w.sys, id);
    DeliverySends(w.sys, id);
  }

  lemma BookmarkIsApplied(es: seq<Event>, id: nat)
    requires HasAnswer(Exec(Init, es), id) && Exec(Init, es).waiting[id].AwaitCommit?
    ensures Exec(Init, es).requests[id].reply.value.Bookmark? ==> Exec(Init, es).applied == 1
  {
    var s := Exec(Init, es);
    RunKeepsInv(Init, es);
    assert CommitReplyOk(s, s.requests[id]);
  }

  /** A call that settles without a new request leaves the requests alone. */
  lemma DeliverySends(s: System, id: nat)
    ensures var t := Do(s, Deliver(id));
      |t.requests| > |s.requests| ==> HasAnswer(s, id) && s.waiting[id].AwaitCommit? && t.log == s.log
    ensures var t := Do(s, Deliver(id)); |t.requests| <= |s.requests| ==> t.requests == s.requests
  {
  }

  /** The probe after the wrapper's commit ends, in whatever way: it rejects with the commit's
    own error. */
  lemma ProbeEnds(acts: seq<Act>, e: Event)
    requires var w := Play(Begun, acts);
      w.at.CommittingFor? && w.at.id in w.sys.waiting && w.sys.waiting[w.at.id].AwaitProbe? &&
      (e == Lose(w.at.id) || (e == Deliver(w.at.id) && HasAnswer(w.sys, w.at.id)))
    ensures var w := Play(Begun, acts);
      Play(Begun, acts + [Inner(e)]).at == Rejected(FromCommit(w.sys.waiting[w.at.id].err))
  {
    PlaySnoc(acts, Inner(e));
    ProbeRejects(Play(Begun, acts).sys, Play(Begun, acts).at.id, e);
  }

  lemma ProbeRejects(s: System, id: nat, e: Event)
    requires id in s.waiting && s.waiting[id].AwaitProbe? && (e == Lose(id) || (e == Deliver(id) && HasAnswer(s, id)))
    ensures Follow(s, Do(s, e), CommittingFor(id)) == Rejected(FromCommit(s.waiting[id].err))
  {
  }

  /** The answer to the wrapper's commit is lost: it rejects with the network's error, and the
    handle is unknown. */
  lemma LostCommitEnds(acts: seq<Act>)
    requires var w := Play(Begun, acts);
      w.at.CommittingFor? && w.at.id in w.sys.waiting && w.sys.waiting[w.at.id].AwaitCommit?
    ensures var w, t := Play(Begun, acts), Play(Begun, acts + [Inner(Lose(Play(Begun, acts).at.id))]);
      t.at == Rejected(FromCommit(NetworkFailure)) && t.sys.handle == Unknown
  {
    PlaySnoc(acts, Inner(Lose(Play(Begun, acts).at.id)));
  }

  /** The wrapper's rollback ends, in whatever way: it rejects with the callback's error. */
  lemma RollbackEndsSession(acts: seq<Act>, e: Event)
    requires var w := Play(Begun, acts);
      w.at.RollingBack? && (e == Lose(w.at.id) || (e == Deliver(w.at.id) && HasAnswer(w.sys, w.at.id)))
    ensures var w := Play(Begun, acts); Play(Begun, acts + [Inner(e)]).at == Rejected(FromFn(w.at.err))
  {
    var w := Play(Begun, acts);
    PlaySnoc(acts, Inner(e));
    PlayKeepsSession(acts);
    if e.Deliver? { RollbackSettles(w.sys, w.at.id, Receive(w.sys.requests[w.at.id].reply.value)); }
  }

  // ---- whole transactions -----------------------------------------------------------------------

  lemma PlayFour(acts: seq<Act>, a: Act, b: Act, c: Act, d: Act)
    ensures Play(Begun, acts + [a, b, c, d]) == Step(Step(Step(Step(Play(Begun, acts), a), b), c), d)
  {
    var all := acts + [a] + [b] + [c] + [d];
    assert acts + [a, b, c, d] == all;
    PlaySnoc(acts, a);
    PlaySnoc(acts + [a], b);
    PlaySnoc(acts + [a] + [b], c);
    PlaySnoc(acts + [a] + [b] + [c], d);
  }

  /** The callback resolves on a live transaction and the engine accepts: `transaction`
    returns, and the writes are applied. */
  lemma ResolvedIsCommitted(acts: seq<Act>, b: bool, bookmark: nat)
    requires Play(Begun, acts).at == InCallback && Live(Play(Begun, acts).sys)
    ensures var n := |Play(Begun, acts).sys.requests|;
      var ends := Inner(EndCommit(n, Committed(bookmark)));
      var t := Play(Begun, acts + [FnResolves, Inner(Arrive(n, b)), ends, Inner(Deliver(n))]);
      t.at == ReturnedNormally && t.sys.applied == 1
  {
    var w := Play(Begun, acts);
    var s, n, v := w.sys, |w.sys.requests|, Committed(bookmark);
    PlayFour(acts, FnResolves, Inner(Arrive(n, b)), Inner(EndCommit(n, v)), Inner(Deliver(n)));
    PlayIsARun(acts);
    OpenMeansNothingApplied(Events(acts));
    var t := Do(Do(s, CallCommit), Arrive(n, b));
    CommitReaches(s, b);
    CommitEnds(t, n, v);
    CommitRuns(s, t, b, bookmark);
    var u := Do(t, EndCommit(n, v));
    CommitDelivered(u, n);
    DeliverySends(u, n);
    assert Step(Step(w, FnResolves), Inner(Arrive(n, b))) == Session(t, CommittingFor(n));
  }

  /** The callback throws on a live transaction: it is rolled back on the server, nothing is
    applied, and `transaction` rejects with the callback's error. */
  lemma ThrownIsRolledBack(acts: seq<Act>, err: FnError, b: bool)
    requires Play(Begun, acts).at == InCallback && Live(Play(Begun, acts).sys)
    ensures var n := |Play(Begun, acts).sys.requests|;
      var t := Play(Begun, acts + [FnThrows(err), Inner(Arrive(n, b)), Inner(EndRollback(n)), Inner(Deliver(n))]);
      t.at == Rejected(FromFn(err)) && t.sys.slot == Gone && t.sys.applied == 0
  {
    var w := Play(Begun, acts);
    var s, n := w.sys, |w.sys.requests|;
    PlayFour(acts, FnThrows(err), Inner(Arrive(n, b)), Inner(EndRollback(n)), Inner(Deliver(n)));
    PlayIsARun(acts);
    OpenMeansNothingApplied(Events(acts));
    var t := Do(Do(s, CallRollback), Arrive(n, b));
    RollbackReaches(s, b);
    RollbackEnds(t, n);
    RollbackRuns(s, t, b);
    RollbackDelivered(Do(t, EndRollback(n)), n);
    assert Step(Step(w, FnThrows(err)), Inner(Arrive(n, b))) == Session(t, RollingBack(err, n));
  }
}
