/** What a caller may rely on, over every run of `TxProtocol`. */
module TxSafety {
  import opened Options
  import opened TxHandles
  import opened TxProtocol

  /** While the handle is open the server has applied nothing, and no commit request
    the handle ever sent can still make it apply something. */
  lemma OpenMeansNothingApplied(es: seq<Event>)
    ensures var s := Exec(Init, es);
      s.handle == Open ==>
        && s.applied == 0
        && forall i: nat :: IsCommit(s, i) ==> Harmless(s.requests[i])
  {
    RunKeepsInv(Init, es);
  }

  /** At most one commit call waits for an answer, at most one commit request can still
    act, and at most one ever held the transaction. */
  lemma AtMostOneCommit(es: seq<Event>)
    ensures var s := Exec(Init, es);
      && (forall i <- s.waiting, j <- s.waiting :: CommitCall(s.waiting[i]) && CommitCall(s.waiting[j]) ==> i == j)
      && (forall i: nat, j: nat | IsCommit(s, i) && IsCommit(s, j) ::
            (!Harmless(s.requests[i]) && !Harmless(s.requests[j]) ==> i == j))
      && s.applied <= 1
  {
    RunKeepsInv(Init, es);
  }

  lemma RetiredStep(s: System, e: Event)
    requires Inv(s) && Retired(s)
    ensures Retired(Do(s, e)) && |Do(s, e).requests| == |s.requests|
    ensures Do(s, e).lastCommit == s.lastCommit
    ensures s.handle == Finished ==> Do(s, e).handle == Finished
  {
  }

  lemma {:induction false} RetiredIsSilent(s: System, es: seq<Event>)
    requires Inv(s) && Retired(s)
    ensures var t := Exec(s, es);
      && Retired(t)
      && |t.requests| == |s.requests|
      && t.lastCommit == s.lastCommit
      && (s.handle == Finished ==> t.handle == Finished)
    decreases |es|
  {
    if es != [] {
      RetiredIsSilent(s, es[..|es| - 1]);
      RunKeepsInv(s, es[..|es| - 1]);
      RetiredStep(Exec(s, es[..|es| - 1]), es[|es| - 1]);
    }
  }

  /** Once unknown, whatever happens later: no request is ever sent again. */
  lemma UnknownIsSilent(es: seq<Event>, later: seq<Event>)
    ensures var s, t := Exec(Init, es), Exec(Init, es + later);
      s.handle == Unknown ==>
        && |t.requests| == |s.requests|
        && (t.handle == Unknown || t.handle == Finished)
  {
    RunKeepsInv(Init, es);
    ExecConcat(Init, es, later);
    if Exec(Init, es).handle == Unknown { RetiredIsSilent(Exec(Init, es), later); }
  }

  lemma {:induction false} LogGrows(s: System, es: seq<Event>)
    ensures s.log <= Exec(s, es).log
    decreases |es|
  {
    if es != [] {
      LogGrows(s, es[..|es| - 1]);
    }
  }

  /** A returned bookmark: the writes were applied exactly once, the handle is finished
    for good and nothing more is ever sent. */
  lemma BookmarkMeansAppliedOnce(es: seq<Event>, later: seq<Event>, k: nat)
    requires k < |Exec(Init, es).log| && Exec(Init, es).log[k].Returned?
    ensures var s, t := Exec(Init, es), Exec(Init, es + later);
      && s.applied == 1 && t.applied == 1
      && t.handle == Finished
      && |t.requests| == |s.requests|
  {
    var s := Exec(Init, es);
    RunKeepsInv(Init, es);
    RunKeepsInv(Init, es + later);
    ExecConcat(Init, es, later);
    LogGrows(s, later);
    RetiredIsSilent(s, later);
  }

  /** A commit that threw a conflict, a constraint refusal or an expiry: nothing was
    applied and nothing ever will be. */
  lemma EndedCommitNeverApplied(es: seq<Event>, later: seq<Event>, k: nat)
    requires k < |Exec(Init, es).log|
    requires Exec(Init, es).log[k].Failed? && Exec(Init, es).log[k].kind == Commit
    requires EndedByServer(Exec(Init, es).log[k].err)
    ensures Exec(Init, es + later).applied == 0
  {
    RunKeepsInv(Init, es + later);
    ExecConcat(Init, es, later);
    LogGrows(Exec(Init, es), later);
  }

  // ---- finished is not always final -----------------------------------------

  ghost predicate StaysFinished(s: System)
  {
    forall es :: Exec(s, es).handle == Finished
  }

  lemma ExecOne(s: System, e: Event)
    ensures Exec(s, [e]) == Do(s, e)
  {
    assert [e][..0] == [];
  }

  lemma LosingTheAnswerUnfinishes(s: System)
    requires Inv(s) && !NoCommitCall(s)
    ensures !StaysFinished(s)
  {
    var id :| id in s.waiting && CommitCall(s.waiting[id]);
    ExecOne(s, Lose(id));
    assert Exec(s, [Lose(id)]).handle == Unknown;
  }

  /** A finished handle stays finished exactly when no commit call is still waiting. */
  lemma FinishedIsFinalIff(es: seq<Event>)
    requires Exec(Init, es).handle == Finished
    ensures StaysFinished(Exec(Init, es)) <==> NoCommitCall(Exec(Init, es))
  {
    var s := Exec(Init, es);
    RunKeepsInv(Init, es);
    if NoCommitCall(s) {
      forall more ensures Exec(s, more).handle == Finished {
        RetiredIsSilent(s, more);
      }
    } else {
      LosingTheAnswerUnfinishes(s);
    }
  }

  lemma ExecSnoc(s: System, es: seq<Event>, e: Event)
    ensures Exec(s, es + [e]) == Do(Exec(s, es), e)
  {
    ExecConcat(s, es, [e]);
    ExecOne(Exec(s, es), e);
  }

  lemma ExecFour(s: System, a: Event, b: Event, c: Event, d: Event)
    ensures Exec(s, [a, b, c, d]) == Do(Do(Do(Do(s, a), b), c), d)
  {
    assert [a, b, c, d] == [a] + [b] + [c] + [d];
    ExecSnoc(s, [a] + [b] + [c], d);
    ExecSnoc(s, [a] + [b], c);
    ExecSnoc(s, [a], b);
    ExecOne(s, a);
  }

  /** One more event of a run whose state is known. */
  lemma ThenState(es: seq<Event>, s: System, e: Event, t: System)
    requires Exec(Init, es) == s && Do(s, e) == t
    ensures Exec(Init, es + [e]) == t
  {
    ExecSnoc(Init, es, e);
  }

  const RolledBack :=
    [Request(Rollback, Served, true, Some(Done)), Request(Commit, Served, false, Some(Refusal(409, Busy)))]

  lemma BesideRollback()
    ensures Exec(Init, [CallRollback, CallCommit, Arrive(0, false), Arrive(1, false)] + [EndRollback(0)]) ==
      System(Committing, RolledBack, map[0 := AwaitRollback, 1 := AwaitCommit], 1, Gone, 0, [])
  {
    var s := System(Committing, RolledBack[0 := Request(Rollback, Running, true, None)],
                    map[0 := AwaitRollback, 1 := AwaitCommit], 1, Out(0), 0, []);
    ExecFour(Init, CallRollback, CallCommit, Arrive(0, false), Arrive(1, false));
    ThenState([CallRollback, CallCommit, Arrive(0, false), Arrive(1, false)], s, EndRollback(0), Do(s, EndRollback(0)));
  }

  /** A commit sent while a rollback holds the transaction: the rollback's answer finishes
    the handle, then the commit's `busy` reopens it on a transaction that is gone. */
  lemma FinishedHandleReopens()
    ensures var es := [CallRollback, CallCommit, Arrive(0, false), Arrive(1, false)] + [EndRollback(0)] + [Deliver(0)];
            var s, t := Exec(Init, es), Exec(Init, es + [Deliver(1)]);
            s.handle == Finished && t.handle == Open && t.slot == Gone
  {
    var es := [CallRollback, CallCommit, Arrive(0, false), Arrive(1, false)] + [EndRollback(0)];
    BesideRollback();
    ExecSnoc(Init, es, Deliver(0));
    ExecSnoc(Init, es + [Deliver(0)], Deliver(1));
  }

  const Probed := [Request(Commit, Running, true, Some(Refusal(408, NoCode))), Request(Probe, Pending, false, None)]

  lemma TimedOutRun()
    ensures Exec(Init, [CallCommit, Arrive(0, false), TimeOut(0), Deliver(0)]) ==
      System(Committing, Probed, map[1 := AwaitProbe(Answered(408, NoCode))], 0, Out(0), 0, [])
  {
    ExecFour(Init, CallCommit, Arrive(0, false), TimeOut(0), Deliver(0));
  }

  /** The server times the commit out (408) while it runs, the commit lands, the probe
    finds the transaction gone: finished, applied, and no bookmark was returned. */
  lemma FinishedMayHaveAppliedWithoutBookmark()
    ensures var es := [CallCommit, Arrive(0, false), TimeOut(0), Deliver(0)]
                      + [EndCommit(0, Committed(7))] + [Arrive(1, false)] + [Deliver(1)];
            var t := Exec(Init, es);
            t.handle == Finished && t.applied == 1 && t.log == [Failed(Commit, Answered(408, NoCode))]
  {
    var es := [CallCommit, Arrive(0, false), TimeOut(0), Deliver(0)];
    var waiting: map<nat, Await> := map[1 := AwaitProbe(Answered(408, NoCode))];
    var late := Probed[0 := Request(Commit, Served, true, Some(Refusal(408, NoCode)))];
    TimedOutRun();
    var s := System(Committing, late, waiting, 0, Gone, 1, []);
    ThenState(es, Exec(Init, es), EndCommit(0, Committed(7)), s);
    var t := s.(requests := late[1 := Request(Probe, Served, false, Some(Refusal(404, NoCode)))]);
    ThenState(es + [EndCommit(0, Committed(7))], s, Arrive(1, false), t);
    ExecSnoc(Init, es + [EndCommit(0, Committed(7))] + [Arrive(1, false)], Deliver(1));
  }

  // ---- what an expiry says about execute and rollback ------------------------

  /** The transaction is gone, no commit holds it, and nothing was applied. */
  ghost predicate Dead(s: System)
  {
    && s.slot.Gone? && s.applied == 0
    && forall i :: 0 <= i < |s.requests| && s.requests[i].kind == Commit ==> s.requests[i].phase != Running
  }

  lemma DeadStep(s: System, e: Event)
    requires Dead(s)
    ensures Dead(Do(s, e))
  {
  }

  lemma {:induction false} DeadStaysDead(s: System, es: seq<Event>)
    requires Dead(s)
    ensures Dead(Exec(s, es))
    decreases |es|
  {
    if es != [] {
      DeadStaysDead(s, es[..|es| - 1]);
      DeadStep(Exec(s, es[..|es| - 1]), es[|es| - 1]);
    }
  }

  /** Some request was answered that the transaction is not there. */
  ghost predicate ExpirySeen(s: System)
  {
    exists i :: 0 <= i < |s.requests| && SaysExpired(s.requests[i].reply)
  }

  ghost predicate NeverApplies(s: System)
  {
    forall later :: Exec(s, later).applied == 0
  }

  lemma RunningCommitCanApply(s: System, i: nat)
    requires Runs(s, i, Commit)
    ensures !NeverApplies(s)
  {
    ExecOne(s, EndCommit(i, Committed(0)));
    assert Exec(s, [EndCommit(i, Committed(0))]).applied == s.applied + 1;
  }

  lemma ExpiryMeansGone(s: System)
    requires Inv(s) && ExpirySeen(s)
    ensures s.slot.Gone?
  {
  }

  /** After an expiry, nothing is ever applied exactly when nothing was and no commit is
    still at work on the server. */
  lemma ExpiryFinalIff(es: seq<Event>)
    requires ExpirySeen(Exec(Init, es))
    ensures NeverApplies(Exec(Init, es)) <==> Dead(Exec(Init, es))
  {
    var s := Exec(Init, es);
    RunKeepsInv(Init, es);
    ExpiryMeansGone(s);
    if Dead(s) {
      forall later ensures Exec(s, later).applied == 0 { DeadStaysDead(s, later); }
    } else if s.applied == 0 {
      var i :| 0 <= i < |s.requests| && s.requests[i].kind == Commit && s.requests[i].phase == Running;
      RunningCommitCanApply(s, i);
    } else {
      assert Exec(s, []).applied != 0;
    }
  }

  /** An expiry answered to any call while the handle is open: nothing was applied, and
    nothing will be, whatever the caller does next. */
  lemma ExpiryWhileOpenIsFinal(es: seq<Event>, later: seq<Event>)
    requires Exec(Init, es).handle == Open && ExpirySeen(Exec(Init, es))
    ensures Exec(Init, es + later).applied == 0
  {
    RunKeepsInv(Init, es);
    ExecConcat(Init, es, later);
    DeadStaysDead(Exec(Init, es), later);
  }

  const Raced := [CallExecute, CallCommit, Arrive(1, false), EndCommit(1, Committed(7))] + [Arrive(0, false)]

  lemma RacedRun()
    ensures Exec(Init, Raced) ==
      System(Committing,
             [Request(Run, Served, false, Some(Refusal(404, NoCode))),
              Request(Commit, Served, true, Some(Bookmark(7)))],
             map[0 := AwaitRun, 1 := AwaitCommit], 1, Gone, 1, [])
  {
    var four := [CallExecute, CallCommit, Arrive(1, false), EndCommit(1, Committed(7))];
    ExecFour(Init, CallExecute, CallCommit, Arrive(1, false), EndCommit(1, Committed(7)));
    assert Exec(Init, four) == System(Committing,
        [Request(Run, Pending, false, None), Request(Commit, Served, true, Some(Bookmark(7)))],
        map[0 := AwaitRun, 1 := AwaitCommit], 1, Gone, 1, []);
    ExecSnoc(Init, four, Arrive(0, false));
  }

  /** Beside a commit the same error proves nothing: a statement can fail as expired
    because the commit it raced was applied. */
  lemma ExpiredStatementBesideCommit()
    ensures var t := Exec(Init, Raced + [Deliver(0)]); t.log == [Failed(Run, Expired)] && t.applied == 1
  {
    RacedRun();
    ExecSnoc(Init, Raced, Deliver(0));
  }

  /** In every run in which the handle is in state `h` once an expiry has been answered,
    nothing was applied and nothing ever will be. */
  ghost predicate ExpiryProves(h: HandleState)
  {
    forall es, later :: Exec(Init, es).handle == h && ExpirySeen(Exec(Init, es)) ==> Exec(Init, es + later).applied == 0
  }

  lemma NoProofAfter(es: seq<Event>)
    requires ExpirySeen(Exec(Init, es)) && Exec(Init, es).applied == 1
    ensures !ExpiryProves(Exec(Init, es).handle)
  {
    assert es + [] == es;
  }

  /** The documented reading of an expiry error is right in the open state and in no other. */
  lemma ExpiryProvesIff(h: HandleState)
    ensures ExpiryProves(h) <==> h == Open
  {
    RacedRun();
    ExecSnoc(Init, Raced, Lose(1));
    ExecSnoc(Init, Raced, Deliver(1));
    match h
    case Open =>
      forall es, later | Exec(Init, es).handle == Open && ExpirySeen(Exec(Init, es))
        ensures Exec(Init, es + later).applied == 0
      {
        ExpiryWhileOpenIsFinal(es, later);
      }
    case Committing =>
      assert SaysExpired(Exec(Init, Raced).requests[0].reply);
      NoProofAfter(Raced);
    case Unknown =>
      assert SaysExpired(Exec(Init, Raced + [Lose(1)]).requests[0].reply);
      NoProofAfter(Raced + [Lose(1)]);
    case Finished =>
      assert SaysExpired(Exec(Init, Raced + [Deliver(1)]).requests[0].reply);
      NoProofAfter(Raced + [Deliver(1)]);
  }
}
