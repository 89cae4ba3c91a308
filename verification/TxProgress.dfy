/** What each answer does to the handle, and that calls on a live transaction go through.

  The safety results would hold of a client that gave up on every answer. These say, in
  terms of what the server sent, which state every answer leads to and which events alone
  lead to each state. */
module TxProgress {
  import opened Options
  import opened TxHandles
  import opened TxProtocol
  import opened TxSafety

  // ---- one answer -----------------------------------------------------------------------

  /** The call `id` waits, and the server has answered it. */
  ghost predicate HasAnswer(s: System, id: nat)
  {
    id in s.waiting && id < |s.requests| && s.requests[id].reply.Some?
  }

  ghost predicate CommitSettled(s: System, id: nat, reply: Reply, t: System)
  {
    match reply
    case Bookmark(number) => t.handle == Finished && t.log == s.log + [Returned(number)]
    case Done => false
    case Refusal(status, code) =>
      if status == 409 && code == Busy then
        t.handle == Open && t.log == s.log + [Failed(Commit, Answered(409, Busy))]
      else if status == 409 && code == ConstraintCode then
        t.handle == Finished && t.log == s.log + [Failed(Commit, Constraint)]
      else if status == 409 then
        t.handle == Finished && t.log == s.log + [Failed(Commit, Conflict)]
      else if status == 404 || status == 410 then
        t.handle == Finished && t.log == s.log + [Failed(Commit, Expired)]
      else
        && t.handle == s.handle && t.log == s.log
        && t.requests == s.requests + [Request(Probe, Pending, false, None)]
        && t.waiting == (s.waiting - {id})[|s.requests| := AwaitProbe(Answered(status, code))]
  }

  /** A commit's answer: the bookmark is returned; `busy` reopens; a conflict, a constraint
    refusal and an unknown transaction end the handle with the error of their own; every
    other error makes the handle ask before it settles. */
  lemma CommitAnswerDecides(es: seq<Event>, id: nat)
    requires HasAnswer(Exec(Init, es), id) && Exec(Init, es).waiting[id].AwaitCommit?
    ensures var s, t := Exec(Init, es), Exec(Init, es + [Deliver(id)]);
      id !in t.waiting && CommitSettled(s, id, s.requests[id].reply.value, t)
  {
    AnswersFit(es, id);
    ExecSnoc(Init, es, Deliver(id));
    CommitDelivered(Exec(Init, es), id);
  }

  lemma CommitDelivered(s: System, id: nat)
    requires HasAnswer(s, id) && s.waiting[id].AwaitCommit? && s.requests[id].reply.value != Done
    requires s.requests[id].reply.value.Refusal? && s.requests[id].reply.value.code == Busy ==>
               s.requests[id].reply.value.status == 409
    ensures var t := Do(s, Deliver(id)); id !in t.waiting && CommitSettled(s, id, s.requests[id].reply.value, t)
  {
  }

  /** Only a commit is answered with a bookmark, a commit is never just done, and only 409
    says busy to one. */
  lemma AnswersFit(es: seq<Event>, id: nat)
    requires HasAnswer(Exec(Init, es), id)
    ensures var s := Exec(Init, es);
      var reply := s.requests[id].reply.value;
      && (s.waiting[id].AwaitCommit? ==>
            reply != Done && (reply.Refusal? && reply.code == Busy ==> reply.status == 409))
      && (!s.waiting[id].AwaitCommit? ==> !reply.Bookmark?)
  {
    var s := Exec(Init, es);
    RunKeepsInv(Init, es);
    assert KindMatches(s.requests[id], s.waiting[id]);
    if s.waiting[id].AwaitCommit? { assert CommitReplyOk(s, s.requests[id]); }
  }

  /** A probe's answer: still held is open, unknown is finished, anything else is unknown;
    the commit's own error is the one reported. */
  lemma ProbeAnswerDecides(es: seq<Event>, id: nat)
    requires HasAnswer(Exec(Init, es), id) && Exec(Init, es).waiting[id].AwaitProbe?
    ensures var s, t := Exec(Init, es), Exec(Init, es + [Deliver(id)]);
      && id !in t.waiting && t.log == s.log + [Failed(Commit, s.waiting[id].err)]
      && ProbeSettled(s.requests[id].reply.value, t)
  {
    AnswersFit(es, id);
    ExecSnoc(Init, es, Deliver(id));
    ProbeDelivered(Exec(Init, es), id);
  }

  ghost predicate ProbeSettled(reply: Reply, t: System)
  {
    match reply
    case Bookmark(_) => false
    case Done => t.handle == Open
    case Refusal(status, _) => t.handle == if status == 404 || status == 410 then Finished else Unknown
  }

  lemma ProbeDelivered(s: System, id: nat)
    requires HasAnswer(s, id) && s.waiting[id].AwaitProbe? && !s.requests[id].reply.value.Bookmark?
    ensures var t := Do(s, Deliver(id));
      && id !in t.waiting && t.log == s.log + [Failed(Commit, s.waiting[id].err)]
      && ProbeSettled(s.requests[id].reply.value, t)
  {
  }

  /** A rollback's answer: done and unknown both finish the handle and are no error; any
    other refusal leaves the handle as it was and is thrown. */
  lemma RollbackAnswerDecides(es: seq<Event>, id: nat)
    requires HasAnswer(Exec(Init, es), id) && Exec(Init, es).waiting[id].AwaitRollback?
    ensures var s, t := Exec(Init, es), Exec(Init, es + [Deliver(id)]);
      id !in t.waiting && RollbackSettled(s, s.requests[id].reply.value, t)
  {
    AnswersFit(es, id);
    ExecSnoc(Init, es, Deliver(id));
    RollbackDelivered(Exec(Init, es), id);
  }

  ghost predicate RollbackSettled(s: System, reply: Reply, t: System)
  {
    if reply == Done || (reply.Refusal? && (reply.status == 404 || reply.status == 410))
    then t.handle == Finished && t.log == s.log + [Finishes(Rollback)]
    else
      && t.handle == s.handle && |t.log| == |s.log| + 1
      && t.log[|s.log|].Failed? && t.log[|s.log|].kind == Rollback
  }

  lemma RollbackDelivered(s: System, id: nat)
    requires HasAnswer(s, id) && s.waiting[id].AwaitRollback? && !s.requests[id].reply.value.Bookmark?
    ensures var t := Do(s, Deliver(id)); id !in t.waiting && RollbackSettled(s, s.requests[id].reply.value, t)
  {
  }

  /** A statement's answer never moves the handle. */
  lemma StatementAnswerDecides(es: seq<Event>, id: nat)
    requires HasAnswer(Exec(Init, es), id) && Exec(Init, es).waiting[id].AwaitRun?
    ensures var s, t := Exec(Init, es), Exec(Init, es + [Deliver(id)]);
      id !in t.waiting && StatementSettled(s, s.requests[id].reply.value, t)
  {
    AnswersFit(es, id);
    ExecSnoc(Init, es, Deliver(id));
    StatementDelivered(Exec(Init, es), id);
  }

  ghost predicate StatementSettled(s: System, reply: Reply, t: System)
  {
    && t.handle == s.handle && |t.log| == |s.log| + 1 && t.log[..|s.log|] == s.log
    && var last := t.log[|s.log|];
       if reply == Done then last == Finishes(Run)
       else last.Failed? && last.kind == Run && (reply.Refusal? && Missing(reply.status) ==> last.err == Expired)
  }

  lemma StatementDelivered(s: System, id: nat)
    requires HasAnswer(s, id) && s.waiting[id].AwaitRun? && !s.requests[id].reply.value.Bookmark?
    ensures var t := Do(s, Deliver(id)); id !in t.waiting && StatementSettled(s, s.requests[id].reply.value, t)
  {
  }

  /** A lost answer: a commit's or a probe's leaves the outcome unknown, any other nothing. */
  lemma LostAnswerDecides(es: seq<Event>, id: nat)
    requires id in Exec(Init, es).waiting
    ensures var s, t := Exec(Init, es), Exec(Init, es + [Lose(id)]);
      && t.handle == (if CommitCall(s.waiting[id]) then Unknown else s.handle)
      && id !in t.waiting && t.requests == s.requests && |t.log| == |s.log| + 1 && t.log[|s.log|].Failed?
  {
    ExecSnoc(Init, es, Lose(id));
  }

  // ---- which events lead to which state ----------------------------------------------------

  /** A commit's or a probe's answer is lost, or a probe is refused for another reason than
    that the transaction is not there. */
  ghost predicate Doubtful(s: System, e: Event)
  {
    || (e.Lose? && e.id in s.waiting && CommitCall(s.waiting[e.id]))
    || (e.Deliver? && HasAnswer(s, e.id) && s.waiting[e.id].AwaitProbe? && s.requests[e.id].reply.value.Refusal?
        && !Missing(s.requests[e.id].reply.value.status))
  }

  /** A commit is answered `busy`, or a probe that the transaction is held. */
  ghost predicate Reopening(s: System, e: Event)
  {
    e.Deliver? && HasAnswer(s, e.id) &&
    var reply := s.requests[e.id].reply.value;
    || (s.waiting[e.id].AwaitCommit? && reply == Refusal(409, Busy))
    || (s.waiting[e.id].AwaitProbe? && reply == Done)
  }

  /** A commit is answered with a bookmark or that it ended the transaction, a rollback that
    it did, or any of commit, probe and rollback that the transaction is not there. */
  ghost predicate Concluding(s: System, e: Event)
  {
    e.Deliver? && HasAnswer(s, e.id) &&
    var reply, await := s.requests[e.id].reply.value, s.waiting[e.id];
    || (reply.Refusal? && Missing(reply.status) && !await.AwaitRun?)
    || (await.AwaitCommit? && (reply.Bookmark? || (reply.Refusal? && reply.status == 409 && reply.code != Busy)))
    || (await.AwaitRollback? && reply == Done)
  }

  lemma DeliverTo(es: seq<Event>, id: nat)
    requires HasAnswer(Exec(Init, es), id)
    ensures var s := Exec(Init, es);
      Do(s, Deliver(id)).handle ==
        if Doubtful(s, Deliver(id)) then Unknown
        else if Reopening(s, Deliver(id)) then Open
        else if Concluding(s, Deliver(id)) then Finished
        else s.handle
  {
    var s := Exec(Init, es);
    AnswersFit(es, id);
    match s.waiting[id]
    case AwaitRun => StatementDelivered(s, id);
    case AwaitCommit => CommitDelivered(s, id);
    case AwaitProbe(_) => ProbeDelivered(s, id);
    case AwaitRollback => RollbackDelivered(s, id);
  }

  lemma OtherEvents(s: System, e: Event)
    requires !e.Deliver? && !e.Lose?
    ensures Do(s, e).handle == if e == CallCommit && s.handle == Open then Committing else s.handle
  {
  }

  /** The handle after any event of any run, from the server's words alone. */
  lemma HandleAfter(es: seq<Event>, e: Event)
    ensures var s, t := Exec(Init, es), Exec(Init, es + [e]);
      t.handle ==
        if Doubtful(s, e) then Unknown
        else if Reopening(s, e) then Open
        else if Concluding(s, e) then Finished
        else if e == CallCommit && s.handle == Open then Committing
        else s.handle
  {
    var s := Exec(Init, es);
    ExecSnoc(Init, es, e);
    if e.Deliver? {
      if HasAnswer(s, e.id) { DeliverTo(es, e.id); }
    } else if !e.Lose? {
      OtherEvents(s, e);
    }
  }

  /** The handle is unknown only if some event of the run left the outcome in doubt. */
  lemma {:induction false} UnknownHasCause(es: seq<Event>)
    requires Exec(Init, es).handle == Unknown
    ensures exists k :: 0 <= k < |es| && Doubtful(Exec(Init, es[..k]), es[k])
  {
    var front, last := es[..|es| - 1], |es| - 1;
    assert es == front + [es[last]];
    HandleAfter(front, es[last]);
    if Doubtful(Exec(Init, front), es[last]) {
      assert Doubtful(Exec(Init, es[..last]), es[last]);
    } else {
      UnknownHasCause(front);
      var k :| 0 <= k < |front| && Doubtful(Exec(Init, front[..k]), front[k]);
      assert front[..k] == es[..k] && front[k] == es[k];
    }
  }

  // ---- sending ----------------------------------------------------------------------------------

  ghost predicate Sent(s: System, kind: Kind, t: System)
  {
    && t.requests == s.requests + [Request(kind, Pending, false, None)]
    && |s.requests| in t.waiting && KindMatches(t.requests[|s.requests|], t.waiting[|s.requests|])
    && forall i <- s.waiting :: i in t.waiting && t.waiting[i] == s.waiting[i]
  }

  /** An open handle sends one request of the kind called and waits for it; any other sends
    nothing. */
  lemma CallsSend(es: seq<Event>, e: Event)
    requires e.CallExecute? || e.CallCommit? || e.CallRollback?
    ensures var s, t := Exec(Init, es), Exec(Init, es + [e]);
      if s.handle == Open then Sent(s, if e.CallExecute? then Run else if e.CallCommit? then Commit else Rollback, t)
      else t == s
  {
    RunKeepsInv(Init, es);
    ExecSnoc(Init, es, e);
  }

  // ---- the server -------------------------------------------------------------------------------

  ghost predicate Received(s: System, id: nat, tombstone: bool, r: Request, slot: Slot)
    requires id < |s.requests|
  {
    if s.slot == Held && s.requests[id].kind == Probe then
      r.phase == Served && r.reply == Some(Done) && slot == Held
    else if s.slot == Held then
      r.phase == Running && r.taken && r.reply.None? && slot == Out(id)
    else
      && r.phase == Served && !r.taken && slot == s.slot
      && r.reply == Some(if s.slot.Out? then Refusal(409, Busy) else Refusal(if tombstone then 410 else 404, NoCode))
  }

  /** A request that reaches the server: a free transaction is checked out to it (a probe is
    just told so), a busy one and a missing one are refused as such. */
  lemma ArrivalDecides(es: seq<Event>, id: nat, tombstone: bool)
    requires id < |Exec(Init, es).requests| && Exec(Init, es).requests[id].phase == Pending
    ensures var s, t := Exec(Init, es), Exec(Init, es + [Arrive(id, tombstone)]);
      Received(s, id, tombstone, t.requests[id], t.slot)
  {
    RunKeepsInv(Init, es);
    ExecSnoc(Init, es, Arrive(id, tombstone));
  }

  ghost predicate VerdictSettled(s: System, v: Verdict, t: System)
  {
    match v
    case Committed(number) => t.applied == 1 && t.handle == Finished && t.log == s.log + [Returned(number)]
    case CommitConflict => t.applied == 0 && t.handle == Finished && t.log == s.log + [Failed(Commit, Conflict)]
    case CommitConstraint => t.applied == 0 && t.handle == Finished && t.log == s.log + [Failed(Commit, Constraint)]
    case CommitError(_, wrote) =>
      && t.applied == (if wrote then 1 else 0) && t.handle == s.handle && t.log == s.log
      && |t.requests| == |s.requests| + 1 && t.requests[|s.requests|] == Request(Probe, Pending, false, None)
  }

  /** The engine's verdict on a commit and what the caller of `commit` gets for it. */
  lemma VerdictDecides(es: seq<Event>, id: nat, v: Verdict)
    requires Runs(Exec(Init, es), id, Commit) && Exec(Init, es).requests[id].reply.None?
    requires id in Exec(Init, es).waiting && (v.CommitError? ==> PlainStatus(v.status))
    ensures var s, t := Exec(Init, es), Exec(Init, es + [EndCommit(id, v)] + [Deliver(id)]);
      t.slot == Gone && VerdictSettled(s, v, t)
  {
    var s, one := Exec(Init, es), es + [EndCommit(id, v)];
    RunKeepsInv(Init, es);
    CommitWaits(s, id);
    ExecSnoc(Init, es, EndCommit(id, v));
    CommitEnds(s, id, v);
    CommitAnswerDecides(one, id);
    ExecSnoc(Init, one, Deliver(id));
    DeliveryKeepsServer(Exec(Init, one), id);
  }

  lemma CommitWaits(s: System, id: nat)
    requires Inv(s) && Runs(s, id, Commit) && id in s.waiting
    ensures s.waiting[id].AwaitCommit? && s.applied == 0
  {
    assert KindMatches(s.requests[id], s.waiting[id]);
  }

  /** What the engine's verdict makes of the request, the slot and the count. */
  lemma CommitEnds(s: System, id: nat, v: Verdict)
    requires Runs(s, id, Commit) && s.requests[id].reply.None? && (v.CommitError? ==> PlainStatus(v.status))
    ensures var t := Do(s, EndCommit(id, v));
      && t.slot == Gone && t.waiting == s.waiting && t.log == s.log && t.handle == s.handle
      && |t.requests| == |s.requests|
      && t.applied == s.applied + (if v.Committed? || (v.CommitError? && v.wrote) then 1 else 0)
      && t.requests[id].reply == Some(
           if v.Committed? then Bookmark(v.number)
           else if v.CommitConflict? then Refusal(409, ConflictCode)
           else if v.CommitConstraint? then Refusal(409, ConstraintCode)
           else Refusal(v.status, NoCode))
  {
  }

  lemma DeliveryKeepsServer(s: System, id: nat)
    ensures Do(s, Deliver(id)).slot == s.slot && Do(s, Deliver(id)).applied == s.applied
  {
  }

  // ---- whole calls ------------------------------------------------------------------------------

  lemma ExecFourMore(es: seq<Event>, a: Event, b: Event, c: Event, d: Event)
    ensures Exec(Init, es + [a, b, c, d]) == Do(Do(Do(Do(Exec(Init, es), a), b), c), d)
  {
    ExecConcat(Init, es, [a, b, c, d]);
    ExecFour(Exec(Init, es), a, b, c, d);
  }

  /** A live transaction: open, and free on the server. */
  ghost predicate Live(s: System) { s.handle == Open && s.slot == Held }

  /** The request of a call on a live transaction has it. */
  ghost predicate Working(s: System, kind: Kind, await: Await, t: System)
  {
    var n := |s.requests|;
    && |t.requests| == n + 1 && t.requests[n] == Request(kind, Running, true, None) && t.slot == Out(n)
    && n in t.waiting && t.waiting[n] == await && t.log == s.log && t.applied == s.applied
    && t.handle == if kind == Commit then Committing else Open
  }

  lemma StatementReaches(s: System, b: bool)
    requires Live(s)
    ensures Working(s, Run, AwaitRun, Do(Do(s, CallExecute), Arrive(|s.requests|, b)))
  {
  }

  lemma CommitReaches(s: System, b: bool)
    requires Live(s)
    ensures Working(s, Commit, AwaitCommit, Do(Do(s, CallCommit), Arrive(|s.requests|, b)))
  {
  }

  lemma RollbackReaches(s: System, b: bool)
    requires Live(s)
    ensures Working(s, Rollback, AwaitRollback, Do(Do(s, CallRollback), Arrive(|s.requests|, b)))
  {
  }

  /** What the end of a statement makes of the request and the slot: a transaction that went
    away meanwhile is reported missing, one whose statement panicked or whose server shuts
    down goes away, and otherwise it is free again with the statement's own answer. */
  lemma StatementEnds(s: System, id: nat, how: Ending, b: bool)
    requires Runs(s, id, Run) && s.requests[id].reply.None? && (how.RunError? ==> !Missing(how.status))
    ensures var t := Do(s, EndRun(id, how, b));
      && t.waiting == s.waiting && t.log == s.log && t.handle == s.handle && |t.requests| == |s.requests|
      && t.slot == (if how.Panicked? || how.Closing? || s.slot == Gone then Gone else Held)
      && t.requests[id].reply == Some(
           if how.Panicked? then Refusal(400, NoCode)
           else if how.Closing? then Refusal(503, NoCode)
           else if s.slot == Gone then Refusal(if b then 410 else 404, NoCode)
           else if how.Ran? then Done
           else Refusal(how.status, how.code))
  {
  }

  /** A statement on a live transaction resolves, and leaves it live. */
  lemma StatementGoesThrough(es: seq<Event>, b: bool)
    requires Live(Exec(Init, es))
    ensures var s, n := Exec(Init, es), |Exec(Init, es).requests|;
      var t := Exec(Init, es + [CallExecute, Arrive(n, b), EndRun(n, Ran, b), Deliver(n)]);
      Live(t) && t.log == s.log + [Finishes(Run)]
  {
    var s := Exec(Init, es);
    var n := |s.requests|;
    ExecFourMore(es, CallExecute, Arrive(n, b), EndRun(n, Ran, b), Deliver(n));
    StatementRuns(s, Do(Do(s, CallExecute), Arrive(n, b)), b);
  }

  lemma StatementRuns(s: System, t: System, b: bool)
    requires Live(s) && t == Do(Do(s, CallExecute), Arrive(|s.requests|, b))
    ensures var u := Do(Do(t, EndRun(|s.requests|, Ran, b)), Deliver(|s.requests|));
      Live(u) && u.log == s.log + [Finishes(Run)]
  {
    var n := |s.requests|;
    StatementReaches(s, b);
    StatementEnds(t, n, Ran, b);
    StatementDelivered(Do(t, EndRun(n, Ran, b)), n);
    DeliveryKeepsServer(Do(t, EndRun(n, Ran, b)), n);
  }

  /** A commit on a live transaction that the engine accepts returns its bookmark, applied. */
  lemma CommitGoesThrough(es: seq<Event>, b: bool, bookmark: nat)
    requires Live(Exec(Init, es))
    ensures var s, n := Exec(Init, es), |Exec(Init, es).requests|;
      var t := Exec(Init, es + [CallCommit, Arrive(n, b), EndCommit(n, Committed(bookmark)), Deliver(n)]);
      t.handle == Finished && t.applied == 1 && t.log == s.log + [Returned(bookmark)]
  {
    var s := Exec(Init, es);
    var n := |s.requests|;
    OpenMeansNothingApplied(es);
    ExecFourMore(es, CallCommit, Arrive(n, b), EndCommit(n, Committed(bookmark)), Deliver(n));
    CommitRuns(s, Do(Do(s, CallCommit), Arrive(n, b)), b, bookmark);
  }

  lemma CommitRuns(s: System, t: System, b: bool, bookmark: nat)
    requires Live(s) && s.applied == 0 && t == Do(Do(s, CallCommit), Arrive(|s.requests|, b))
    ensures var u := Do(Do(t, EndCommit(|s.requests|, Committed(bookmark))), Deliver(|s.requests|));
      u.handle == Finished && u.applied == 1 && u.log == s.log + [Returned(bookmark)]
  {
    var n, v := |s.requests|, Committed(bookmark);
    CommitReaches(s, b);
    CommitEnds(t, n, v);
    CommitDelivered(Do(t, EndCommit(n, v)), n);
    DeliveryKeepsServer(Do(t, EndCommit(n, v)), n);
  }

  /** A rollback on a live transaction ends it with nothing applied. */
  lemma RollbackGoesThrough(es: seq<Event>, b: bool)
    requires Live(Exec(Init, es))
    ensures var s, n := Exec(Init, es), |Exec(Init, es).requests|;
      var t := Exec(Init, es + [CallRollback, Arrive(n, b), EndRollback(n), Deliver(n)]);
      t.handle == Finished && t.slot == Gone && t.applied == 0 && t.log == s.log + [Finishes(Rollback)]
  {
    var s := Exec(Init, es);
    var n := |s.requests|;
    OpenMeansNothingApplied(es);
    ExecFourMore(es, CallRollback, Arrive(n, b), EndRollback(n), Deliver(n));
    RollbackRuns(s, Do(Do(s, CallRollback), Arrive(n, b)), b);
  }

  lemma RollbackEnds(s: System, id: nat)
    requires Runs(s, id, Rollback) && s.requests[id].reply.None?
    ensures var t := Do(s, EndRollback(id));
      && t.slot == Gone && t.waiting == s.waiting && t.log == s.log && t.handle == s.handle && t.applied == s.applied
      && |t.requests| == |s.requests| && t.requests[id].reply == Some(Done)
  {
  }

  lemma RollbackRuns(s: System, t: System, b: bool)
    requires Live(s) && s.applied == 0 && t == Do(Do(s, CallRollback), Arrive(|s.requests|, b))
    ensures var u := Do(Do(t, EndRollback(|s.requests|)), Deliver(|s.requests|));
      u.handle == Finished && u.slot == Gone && u.applied == 0 && u.log == s.log + [Finishes(Rollback)]
  {
    var n := |s.requests|;
    RollbackReaches(s, b);
    RollbackEnds(t, n);
    RollbackDelivered(Do(t, EndRollback(n)), n);
    DeliveryKeepsServer(Do(t, EndRollback(n)), n);
  }

  /** A commit shed before it reaches the transaction can be tried again: the probe finds the
    transaction held, and it is live as before. */
  lemma ShedCommitReopens(es: seq<Event>, status: nat, b: bool)
    requires Live(Exec(Init, es)) && PlainStatus(status)
    ensures var n := |Exec(Init, es).requests|;
      Live(Exec(Init, es + [CallCommit, Refuse(n, status), Deliver(n), Arrive(n + 1, b)] + [Deliver(n + 1)]))
  {
    var s := Exec(Init, es);
    var n := |s.requests|;
    var four := [CallCommit, Refuse(n, status), Deliver(n), Arrive(n + 1, b)];
    ExecFourMore(es, CallCommit, Refuse(n, status), Deliver(n), Arrive(n + 1, b));
    ExecSnoc(Init, es + four, Deliver(n + 1));
    var t := Do(Do(s, CallCommit), Refuse(n, status));
    ShedCommitAsks(s, t, status);
    HeldAnswersProbe(Do(t, Deliver(n)), n + 1, b);
    var u := Do(Do(t, Deliver(n)), Arrive(n + 1, b));
    ProbeDelivered(u, n + 1);
    DeliveryKeepsServer(u, n + 1);
  }

  lemma ShedCommitAsks(s: System, t: System, status: nat)
    requires Live(s) && PlainStatus(status) && t == Do(Do(s, CallCommit), Refuse(|s.requests|, status))
    ensures var u, n := Do(t, Deliver(|s.requests|)), |s.requests|;
      && u.slot == Held && |u.requests| == n + 2 && u.requests[n + 1] == Request(Probe, Pending, false, None)
      && n + 1 in u.waiting && u.waiting[n + 1].AwaitProbe?
  {
    var n := |s.requests|;
    assert t.requests[n].reply == Some(Refusal(status, NoCode)) && t.waiting[n] == AwaitCommit && t.slot == Held;
    CommitDelivered(t, n);
    DeliveryKeepsServer(t, n);
  }

  lemma HeldAnswersProbe(s: System, id: nat, b: bool)
    requires s.slot == Held && id < |s.requests| && s.requests[id] == Request(Probe, Pending, false, None)
    requires id in s.waiting && s.waiting[id].AwaitProbe?
    ensures var t := Do(s, Arrive(id, b));
      t.slot == Held && HasAnswer(t, id) && t.requests[id].reply == Some(Done) && t.waiting[id].AwaitProbe?
  {
  }
}
