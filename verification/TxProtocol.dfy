/** One transaction: a handle, the requests it has sent, and the server's slot for it.

  A run is any sequence of events. An event that is not enabled (a call on a handle
  that refuses it, an answer that does not exist) changes nothing, so every claim
  over `Exec` is a claim over every interleaving of calls, answers and lost answers. */
module TxProtocol {
  import opened Options
  import opened TxHandles

  datatype Kind = Run | Commit | Rollback | Probe

  /** Where the server is with a request: not reached, holding the transaction, over. */
  datatype Phase = Pending | Running | Served

  /** `taken` records that the request checked the transaction out. */
  datatype Request = Request(kind: Kind, phase: Phase, taken: bool, reply: Option<Reply>)

  /** The server's slot: idle in the map, checked out by a request, or removed. */
  datatype Slot = Held | Out(holder: nat) | Gone

  /** What a pending client call does when its request settles. */
  datatype Await = AwaitRun | AwaitCommit | AwaitProbe(err: Thrown) | AwaitRollback

  datatype Settled =
    | Returned(bookmark: nat)
    | Failed(kind: Kind, err: Thrown)
    | Finishes(kind: Kind)

  /** `lastCommit` is the newest commit request, -1 before the first. */
  datatype System = System(
    handle: HandleState,
    requests: seq<Request>,
    waiting: map<nat, Await>,
    lastCommit: int,
    slot: Slot,
    applied: nat,
    log: seq<Settled>)

  /** How the engine ended a commit. An error other than a conflict or a constraint
    may come from a panic, after which the writes may or may not be in the log. */
  datatype Verdict =
    | Committed(number: nat)
    | CommitConflict
    | CommitConstraint
    | CommitError(status: nat, wrote: bool)

  /** How a statement's task ended. The engine's errors come with any status but those of a
    missing transaction; a panic frees the slot. */
  datatype Ending = Ran | RunError(status: nat, code: Code) | Panicked | Closing

  datatype Event =
    | CallExecute
    | CallCommit
    | CallRollback
    | Arrive(id: nat, tombstone: bool)
    | Refuse(id: nat, status: nat)
    | TimeOut(id: nat)
    | EndRun(id: nat, how: Ending, tombstone: bool)
    | EndCommit(id: nat, verdict: Verdict)
    | EndRollback(id: nat)
    | Reap
    | Deliver(id: nat)
    | Lose(id: nat)

  const Init := System(Open, [], map[], -1, Held, 0, [])

  // ---- the client -----------------------------------------------------------

  function Send(s: System, kind: Kind, await: Await): System
  {
    s.(requests := s.requests + [Request(kind, Pending, false, None)],
       waiting := s.waiting[|s.requests| := await])
  }

  function Settle(s: System, id: nat, out: Outcome): System
    requires id in s.waiting
  {
    var t := s.(waiting := s.waiting - {id});
    match s.waiting[id]
    case AwaitRun =>
      t.(log := s.log + [if out.Resolved? then Finishes(Run) else Failed(Run, out.err)])
    case AwaitCommit =>
      if NeedsProbe(out) then Send(t, Probe, AwaitProbe(out.err))
      else t.(handle := AfterCommit(out),
              log := s.log + [if out.Threw? then Failed(Commit, out.err)
                              else if out.reply.Bookmark? then Returned(out.reply.number)
                              else Finishes(Commit)])
    case AwaitProbe(err) =>
      t.(handle := AfterProbe(out), log := s.log + [Failed(Commit, err)])
    case AwaitRollback =>
      t.(handle := AfterRollback(s.handle, out),
         log := s.log + [if out.Resolved? || out.err.Expired? then Finishes(Rollback)
                         else Failed(Rollback, out.err)])
  }

  // ---- the server -----------------------------------------------------------

  function Update(s: System, id: nat, r: Request): System
    requires id < |s.requests|
  {
    s.(requests := s.requests[id := r])
  }

  /** A request already answered 408 keeps that answer. */
  function FirstReply(r: Request, reply: Reply): Option<Reply>
  {
    if r.reply.None? then Some(reply) else r.reply
  }

  /** A pending request reaches the transaction map. */
  function Reached(s: System, id: nat, tombstone: bool): System
    requires id < |s.requests|
  {
    var r := s.requests[id];
    match s.slot
    case Gone => Update(s, id, r.(phase := Served, reply := Some(Refusal(if tombstone then 410 else 404, NoCode))))
    case Out(_) => Update(s, id, r.(phase := Served, reply := Some(Refusal(409, Busy))))
    case Held =>
      if r.kind.Probe? then Update(s, id, r.(phase := Served, reply := Some(Done)))
      else Update(s, id, r.(phase := Running, taken := true)).(slot := Out(id))
  }

  function VerdictReply(v: Verdict): Reply
  {
    match v
    case Committed(n) => Bookmark(n)
    case CommitConflict => Refusal(409, ConflictCode)
    case CommitConstraint => Refusal(409, ConstraintCode)
    case CommitError(status, _) => Refusal(status, NoCode)
  }

  predicate Wrote(v: Verdict) { v.Committed? || (v.CommitError? && v.wrote) }

  /** The statuses a request can be turned away with before it reaches the transaction
    map, and those of a commit that failed for another reason. */
  predicate PlainStatus(status: nat) { status != 404 && status != 409 && status != 410 }

  /** The statuses that say the transaction is not there. */
  predicate Missing(status: nat) { status == 404 || status == 410 }

  /** What a statement is answered, given whether its slot was removed meanwhile. */
  function RunReply(gone: bool, how: Ending, tombstone: bool): Reply
  {
    match how
    case Panicked => Refusal(400, NoCode)
    case Closing => Refusal(503, NoCode)
    case Ran => if gone then Refusal(if tombstone then 410 else 404, NoCode) else Done
    case RunError(status, code) =>
      if gone then Refusal(if tombstone then 410 else 404, NoCode) else Refusal(status, code)
  }

  predicate Runs(s: System, id: nat, kind: Kind)
  {
    id < |s.requests| && s.requests[id].kind == kind && s.requests[id].phase == Running
  }

  function Do(s: System, e: Event): System
  {
    match e
    case CallExecute => if s.handle == Open then Send(s, Run, AwaitRun) else s
    case CallCommit =>
      if s.handle == Open
      then Send(s, Commit, AwaitCommit).(handle := Committing, lastCommit := |s.requests|)
      else s
    case CallRollback => if s.handle == Open then Send(s, Rollback, AwaitRollback) else s
    case Arrive(id, tombstone) =>
      if id < |s.requests| && s.requests[id].phase == Pending then Reached(s, id, tombstone) else s
    case Refuse(id, status) =>
      if id < |s.requests| && s.requests[id].phase == Pending && PlainStatus(status)
      then Update(s, id, s.requests[id].(phase := Served, reply := Some(Refusal(status, NoCode))))
      else s
    case TimeOut(id) =>
      if id < |s.requests| && s.requests[id].phase == Running
      then Update(s, id, s.requests[id].(reply := FirstReply(s.requests[id], Refusal(408, NoCode))))
      else s
    case EndRun(id, how, tombstone) =>
      if !Runs(s, id, Run) || (how.RunError? && Missing(how.status)) then s
      else
        var reply := RunReply(s.slot.Gone?, how, tombstone);
        Update(s, id, s.requests[id].(phase := Served, reply := FirstReply(s.requests[id], reply)))
          .(slot := if how.Panicked? || how.Closing? || s.slot.Gone? then Gone else Held)
    case EndCommit(id, v) =>
      if !Runs(s, id, Commit) || (v.CommitError? && !PlainStatus(v.status)) then s
      else Update(s, id, s.requests[id].(phase := Served, reply := FirstReply(s.requests[id], VerdictReply(v))))
             .(slot := Gone, applied := s.applied + if Wrote(v) then 1 else 0)
    case EndRollback(id) =>
      if !Runs(s, id, Rollback) then s
      else Update(s, id, s.requests[id].(phase := Served, reply := FirstReply(s.requests[id], Done)))
             .(slot := Gone)
    case Reap => s.(slot := Gone)
    case Deliver(id) =>
      if id in s.waiting && id < |s.requests| && s.requests[id].reply.Some?
      then Settle(s, id, Receive(s.requests[id].reply.value)) else s
    case Lose(id) => if id in s.waiting then Settle(s, id, Threw(NetworkFailure)) else s
  }

  function Exec(s: System, es: seq<Event>): System
    decreases |es|
  {
    if es == [] then s else Do(Exec(s, es[..|es| - 1]), es[|es| - 1])
  }

  lemma {:induction false} ExecConcat(s: System, a: seq<Event>, b: seq<Event>)
    ensures Exec(s, a + b) == Exec(Exec(s, a), b)
    decreases |b|
  {
    if b == [] {
      assert a + b == a;
    } else {
      ExecConcat(s, a, b[..|b| - 1]);
      assert (a + b)[..|a + b| - 1] == a + b[..|b| - 1];
    }
  }

  // ---- what every step keeps ------------------------------------------------

  predicate CommitCall(a: Await) { a.AwaitCommit? || a.AwaitProbe? }

  ghost predicate NoCommitCall(s: System)
  {
    forall i <- s.waiting :: !CommitCall(s.waiting[i])
  }

  predicate IsCommit(s: System, i: nat) { i < |s.requests| && s.requests[i].kind == Commit }

  /** A commit request that is over and never held the transaction: it did nothing. */
  predicate Harmless(r: Request) { r.phase == Served && !r.taken }

  predicate KindMatches(r: Request, a: Await)
  {
    r.kind ==
    match a
    case AwaitRun => Run
    case AwaitCommit => Commit
    case AwaitProbe(_) => Probe
    case AwaitRollback => Rollback
  }

  /** The answers a commit request can carry, and what each says about the transaction. */
  predicate CommitReplyOk(s: System, r: Request)
  {
    match r.reply
    case None => true
    case Some(Bookmark(_)) => r.taken && r.phase == Served && s.applied == 1
    case Some(Done) => false
    case Some(Refusal(status, code)) =>
      && r.phase != Pending
      && (status == 404 || status == 410 || code == Busy ==> Harmless(r))
      && (status == 409 && code != Busy ==> r.taken && r.phase == Served && s.applied == 0)
      && (code == Busy ==> status == 409)
  }

  predicate SaysExpired(reply: Option<Reply>)
  {
    reply.Some? && Receive(reply.value) == Threw(Expired)
  }

  /** The transaction is in one place: the slot, one running request, or nowhere. */
  ghost predicate TokenInv(s: System)
  {
    && (forall i, j | 0 <= i < |s.requests| && 0 <= j < |s.requests| ::
          (s.requests[i].phase == Running && s.requests[j].phase == Running ==> i == j))
    && (forall i :: 0 <= i < |s.requests| && s.requests[i].phase == Running ==>
          s.requests[i].taken && s.slot != Held && (s.slot.Out? ==> s.slot.holder == i))
    && (s.slot.Out? ==> s.slot.holder < |s.requests| && s.requests[s.slot.holder].phase == Running)
    && (forall i :: 0 <= i < |s.requests| ==>
          && (s.requests[i].phase == Pending ==> !s.requests[i].taken && s.requests[i].reply.None?)
          && (s.requests[i].phase == Served ==> s.requests[i].reply.Some?)
          && (s.requests[i].kind == Probe ==> !s.requests[i].taken)
          && (SaysExpired(s.requests[i].reply) ==> s.slot.Gone?)
          && (s.requests[i].kind != Commit && s.requests[i].reply.Some? ==> !s.requests[i].reply.value.Bookmark?))
  }

  ghost predicate CommitInv(s: System)
  {
    && -1 <= s.lastCommit < |s.requests|
    && (s.lastCommit >= 0 ==> IsCommit(s, s.lastCommit))
    && (forall i :: 0 <= i < |s.requests| && s.requests[i].kind == Commit && i != s.lastCommit ==>
          Harmless(s.requests[i]))
    && (forall i :: 0 <= i < |s.requests| && s.requests[i].kind == Commit ==>
          CommitReplyOk(s, s.requests[i]) && (s.requests[i].taken && s.requests[i].phase == Served ==> s.slot.Gone?))
    && s.applied <= 1
    && (s.applied == 1 ==>
          s.lastCommit >= 0 && s.requests[s.lastCommit].taken && s.requests[s.lastCommit].phase == Served)
  }

  ghost predicate HandleInv(s: System)
    requires CommitInv(s)
  {
    && (forall i <- s.waiting :: i < |s.requests| && KindMatches(s.requests[i], s.waiting[i]))
    && (forall i <- s.waiting :: s.waiting[i].AwaitCommit? ==> i == s.lastCommit)
    && (forall i <- s.waiting, j <- s.waiting :: CommitCall(s.waiting[i]) && CommitCall(s.waiting[j]) ==> i == j)
    && (s.handle == Open || s.handle == Unknown ==> NoCommitCall(s))
    && (s.handle == Committing ==> !NoCommitCall(s))
    && (s.handle == Open && s.lastCommit >= 0 ==> Harmless(s.requests[s.lastCommit]))
    && (forall i <- s.waiting :: s.waiting[i].AwaitProbe? ==>
          && s.waiting[i].err.Answered?
          && s.lastCommit >= 0
          && s.requests[s.lastCommit].phase != Pending
          && (s.requests[i].reply == Some(Done) ==> Harmless(s.requests[s.lastCommit])))
  }

  /** A handle that can never send again. */
  ghost predicate Retired(s: System)
  {
    (s.handle == Unknown || s.handle == Finished) && NoCommitCall(s)
  }

  ghost predicate LogInv(s: System)
    requires CommitInv(s)
  {
    && (forall i :: 0 <= i < |s.log| && s.log[i].Returned? ==> s.applied == 1 && s.handle == Finished && Retired(s))
    && (forall i :: 0 <= i < |s.log| && s.log[i].Failed? && s.log[i].kind == Commit && EndedByServer(s.log[i].err) ==>
          s.applied == 0 && Retired(s) && s.lastCommit >= 0 && s.requests[s.lastCommit].phase == Served)
  }

  ghost predicate Inv(s: System)
  {
    TokenInv(s) && CommitInv(s) && HandleInv(s) && LogInv(s)
  }

  /** A new request that is no commit leaves the server's half as it was. */
  lemma SentKeepsServer(s: System, t: System, kind: Kind)
    requires TokenInv(s) && CommitInv(s) && kind != Commit
    requires t.requests == s.requests + [Request(kind, Pending, false, None)]
    requires t.slot == s.slot && t.applied == s.applied && t.lastCommit == s.lastCommit
    ensures TokenInv(t) && CommitInv(t)
  {
    assert forall i :: 0 <= i < |s.requests| ==> t.requests[i] == s.requests[i];
  }

  lemma SendKeepsInv(s: System, kind: Kind, await: Await)
    requires Inv(s) && s.handle == Open
    requires KindMatches(Request(kind, Pending, false, None), await) && !CommitCall(await)
    ensures Inv(Send(s, kind, await))
  {
    var t := Send(s, kind, await);
    SentKeepsServer(s, t, kind);
    assert NoCommitCall(t);
    assert forall i :: 0 <= i < |s.requests| ==> t.requests[i] == s.requests[i];
  }

  lemma CallKeepsInv(s: System, e: Event)
    requires Inv(s) && (e.CallExecute? || e.CallRollback?)
    ensures Inv(Do(s, e))
  {
    if s.handle == Open {
      if e.CallExecute? { SendKeepsInv(s, Run, AwaitRun); } else { SendKeepsInv(s, Rollback, AwaitRollback); }
    }
  }

  lemma CommitStartServer(s: System)
    requires TokenInv(s) && CommitInv(s) && s.handle == Open
    requires s.lastCommit >= 0 ==> Harmless(s.requests[s.lastCommit])
    ensures TokenInv(Do(s, CallCommit)) && CommitInv(Do(s, CallCommit))
  {
    var t := Do(s, CallCommit);
    assert forall i :: 0 <= i < |s.requests| ==> t.requests[i] == s.requests[i];
    assert s.applied == 0;
  }

  lemma CommitStartKeepsInv(s: System)
    requires Inv(s)
    ensures Inv(Do(s, CallCommit))
  {
    if s.handle == Open {
      var t := Do(s, CallCommit);
      var id := |s.requests|;
      CommitStartServer(s);
      assert forall i :: 0 <= i < |s.requests| ==> t.requests[i] == s.requests[i];
      assert id in t.waiting && CommitCall(t.waiting[id]);
      assert forall i <- t.waiting :: i != id ==> !CommitCall(t.waiting[i]);
    }
  }

  /** `t` is `s` after the server moved request `id` on; the client has not noticed. */
  ghost predicate ServerStep(s: System, t: System, id: nat)
  {
    && id < |s.requests| == |t.requests| && t.requests == s.requests[id := t.requests[id]]
    && t.handle == s.handle && t.waiting == s.waiting && t.log == s.log && t.lastCommit == s.lastCommit
    && s.requests[id].phase != Served && t.requests[id].phase != Pending && t.requests[id].kind == s.requests[id].kind
    && (t.applied == s.applied || (s.requests[id].kind == Commit && s.requests[id].phase == Running))
  }

  /** Such a step keeps the client's half, as long as a probe is not told the transaction
    is there after a commit took it. */
  lemma ClientSideKept(s: System, t: System, id: nat)
    requires CommitInv(s) && HandleInv(s) && LogInv(s) && CommitInv(t) && ServerStep(s, t, id)
    requires t.requests[id].kind == Probe && t.requests[id].reply == Some(Done) ==>
               s.lastCommit < 0 || s.requests[s.lastCommit].phase == Pending || Harmless(s.requests[s.lastCommit])
    ensures HandleInv(t) && LogInv(t)
  {
    assert forall i :: 0 <= i < |s.requests| ==> t.requests[i].kind == s.requests[i].kind;
    assert NoCommitCall(t) == NoCommitCall(s);
  }

  lemma TurnedAwayToken(s: System, id: nat, reply: Reply)
    requires TokenInv(s) && id < |s.requests| && s.requests[id].phase == Pending && !reply.Bookmark?
    requires Receive(reply) == Threw(Expired) ==> s.slot.Gone?
    ensures TokenInv(Update(s, id, s.requests[id].(phase := Served, reply := Some(reply))))
  {
    var t := Update(s, id, s.requests[id].(phase := Served, reply := Some(reply)));
    assert forall i :: 0 <= i < |s.requests| && i != id ==> t.requests[i] == s.requests[i];
  }

  lemma TurnedAwayCommit(s: System, id: nat, reply: Reply)
    requires TokenInv(s) && CommitInv(s) && id < |s.requests| && s.requests[id].phase == Pending
    requires reply.Refusal? && (reply.status == 409 <==> reply.code == Busy)
    ensures CommitInv(Update(s, id, s.requests[id].(phase := Served, reply := Some(reply))))
  {
    var t := Update(s, id, s.requests[id].(phase := Served, reply := Some(reply)));
    assert forall i :: 0 <= i < |s.requests| && i != id ==> t.requests[i] == s.requests[i];
  }

  /** A request answered without holding the transaction: busy, missing, or refused. */
  lemma TurnedAwayKeepsInv(s: System, id: nat, reply: Reply)
    requires Inv(s) && id < |s.requests| && s.requests[id].phase == Pending
    requires reply.Refusal? && (reply.status == 409 <==> reply.code == Busy)
    requires Receive(reply) == Threw(Expired) ==> s.slot.Gone?
    ensures Inv(Update(s, id, s.requests[id].(phase := Served, reply := Some(reply))))
  {
    var t := Update(s, id, s.requests[id].(phase := Served, reply := Some(reply)));
    TurnedAwayToken(s, id, reply);
    TurnedAwayCommit(s, id, reply);
    ClientSideKept(s, t, id);
  }

  lemma CheckoutKeepsToken(s: System, id: nat, tombstone: bool)
    requires TokenInv(s) && s.slot == Held
    requires id < |s.requests| && s.requests[id].phase == Pending
    ensures TokenInv(Reached(s, id, tombstone))
  {
    var t := Reached(s, id, tombstone);
    assert forall i :: 0 <= i < |s.requests| && i != id ==> t.requests[i] == s.requests[i];
  }

  lemma CheckoutKeepsCommit(s: System, id: nat, tombstone: bool)
    requires TokenInv(s) && CommitInv(s) && s.slot == Held
    requires id < |s.requests| && s.requests[id].phase == Pending
    ensures CommitInv(Reached(s, id, tombstone))
  {
    var t := Reached(s, id, tombstone);
    assert forall i :: 0 <= i < |s.requests| && i != id ==> t.requests[i] == s.requests[i];
    assert s.applied == 0;
  }

  lemma CheckoutKeepsInv(s: System, id: nat, tombstone: bool)
    requires Inv(s) && s.slot == Held
    requires id < |s.requests| && s.requests[id].phase == Pending
    ensures Inv(Reached(s, id, tombstone))
  {
    CheckoutKeepsToken(s, id, tombstone);
    CheckoutKeepsCommit(s, id, tombstone);
    ClientSideKept(s, Reached(s, id, tombstone), id);
  }

  lemma ArriveKeepsInv(s: System, id: nat, tombstone: bool)
    requires Inv(s)
    ensures Inv(Do(s, Arrive(id, tombstone)))
  {
    if id < |s.requests| && s.requests[id].phase == Pending {
      match s.slot
      case Held => CheckoutKeepsInv(s, id, tombstone);
      case Out(_) => TurnedAwayKeepsInv(s, id, Refusal(409, Busy));
      case Gone => TurnedAwayKeepsInv(s, id, Refusal(if tombstone then 410 else 404, NoCode));
    }
  }

  lemma RefuseKeepsInv(s: System, id: nat, status: nat)
    requires Inv(s)
    ensures Inv(Do(s, Refuse(id, status)))
  {
    if id < |s.requests| && s.requests[id].phase == Pending && PlainStatus(status) {
      TurnedAwayKeepsInv(s, id, Refusal(status, NoCode));
    }
  }

  /** `s` after request `id` ended with this answer, slot and count. */
  function Ended(s: System, id: nat, reply: Reply, slot: Slot, applied: nat): System
    requires id < |s.requests|
  {
    Update(s, id, s.requests[id].(phase := Served, reply := FirstReply(s.requests[id], reply)))
      .(slot := slot, applied := applied)
  }

  /** The request that holds the transaction ends: what becomes of slot and count. */
  lemma EndedToken(s: System, id: nat, reply: Reply, slot: Slot, applied: nat)
    requires TokenInv(s) && id < |s.requests| && s.requests[id].phase == Running
    requires slot == Gone || (slot == Held && s.slot != Gone)
    requires reply.Bookmark? ==> s.requests[id].kind == Commit
    requires Receive(reply) == Threw(Expired) ==> slot == Gone
    ensures TokenInv(Ended(s, id, reply, slot, applied))
  {
    var t := Ended(s, id, reply, slot, applied);
    assert forall i :: 0 <= i < |s.requests| && i != id ==> t.requests[i] == s.requests[i];
  }

  lemma TimeOutToken(s: System, id: nat)
    requires TokenInv(s)
    ensures TokenInv(Do(s, TimeOut(id)))
  {
    var t := Do(s, TimeOut(id));
    assert forall i :: 0 <= i < |s.requests| && i != id ==> t.requests[i] == s.requests[i];
  }

  lemma TimeOutCommit(s: System, id: nat)
    requires TokenInv(s) && CommitInv(s) && id < |s.requests| && s.requests[id].phase == Running
    ensures CommitInv(Do(s, TimeOut(id)))
  {
    var t := Do(s, TimeOut(id));
    assert forall i :: 0 <= i < |s.requests| && i != id ==> t.requests[i] == s.requests[i];
  }

  lemma TimeOutKeepsInv(s: System, id: nat)
    requires Inv(s)
    ensures Inv(Do(s, TimeOut(id)))
  {
    if id < |s.requests| && s.requests[id].phase == Running {
      TimeOutToken(s, id);
      TimeOutCommit(s, id);
      ClientSideKept(s, Do(s, TimeOut(id)), id);
    }
  }

  /** A running request that is no commit leaves every commit as it was. */
  lemma OtherEndsCommit(s: System, t: System, id: nat)
    requires TokenInv(s) && CommitInv(s) && ServerStep(s, t, id)
    requires s.requests[id].kind != Commit && s.requests[id].phase == Running && t.applied == s.applied
    requires s.slot == Gone ==> t.slot == Gone
    ensures CommitInv(t)
  {
    assert forall i :: 0 <= i < |s.requests| && s.requests[i].kind == Commit ==> t.requests[i] == s.requests[i];
  }

  lemma EndRunKeepsInv(s: System, id: nat, how: Ending, tombstone: bool)
    requires Inv(s)
    ensures Inv(Do(s, EndRun(id, how, tombstone)))
  {
    if Runs(s, id, Run) && (how.RunError? ==> !Missing(how.status)) {
      var t := Do(s, EndRun(id, how, tombstone));
      EndedToken(s, id, RunReply(s.slot.Gone?, how, tombstone), t.slot, s.applied);
      OtherEndsCommit(s, t, id);
      ClientSideKept(s, t, id);
    }
  }

  lemma EndRollbackKeepsInv(s: System, id: nat)
    requires Inv(s)
    ensures Inv(Do(s, EndRollback(id)))
  {
    if Runs(s, id, Rollback) {
      var t := Do(s, EndRollback(id));
      EndedToken(s, id, Done, Gone, s.applied);
      OtherEndsCommit(s, t, id);
      ClientSideKept(s, t, id);
    }
  }

  lemma EndCommitServer(s: System, id: nat, v: Verdict)
    requires TokenInv(s) && CommitInv(s) && Runs(s, id, Commit) && (v.CommitError? ==> PlainStatus(v.status))
    ensures CommitInv(Do(s, EndCommit(id, v)))
  {
    var t := Do(s, EndCommit(id, v));
    assert forall i :: 0 <= i < |s.requests| && i != id ==> t.requests[i] == s.requests[i];
    assert id == s.lastCommit && s.applied == 0;
  }

  lemma EndCommitKeepsInv(s: System, id: nat, v: Verdict)
    requires Inv(s)
    ensures Inv(Do(s, EndCommit(id, v)))
  {
    if Runs(s, id, Commit) && (v.CommitError? ==> PlainStatus(v.status)) {
      EndedToken(s, id, VerdictReply(v), Gone, s.applied + if Wrote(v) then 1 else 0);
      EndCommitServer(s, id, v);
      ClientSideKept(s, Do(s, EndCommit(id, v)), id);
    }
  }

  lemma ReapKeepsInv(s: System)
    requires Inv(s)
    ensures Inv(Do(s, Reap))
  {
  }

  /** The server half of the invariant does not look at the client. */
  lemma ServerSideKept(s: System, t: System)
    requires TokenInv(s) && CommitInv(s)
    requires t.requests == s.requests && t.slot == s.slot && t.applied == s.applied && t.lastCommit == s.lastCommit
    ensures TokenInv(t) && CommitInv(t)
  {
  }

  /** `t` is `s` after a statement's or a rollback's call `id` settled. */
  ghost predicate OtherSettled(s: System, id: nat, t: System)
  {
    && t.requests == s.requests && t.slot == s.slot && t.applied == s.applied && t.lastCommit == s.lastCommit
    && t.waiting == s.waiting - {id}
    && (t.handle == s.handle || t.handle == Finished)
    && |t.log| == |s.log| + 1 && t.log[..|s.log|] == s.log
    && var last := t.log[|s.log|]; !last.Returned? && (last.Failed? ==> last.kind != Commit)
  }

  lemma RunSettles(s: System, id: nat, out: Outcome)
    requires id in s.waiting && s.waiting[id].AwaitRun?
    ensures OtherSettled(s, id, Settle(s, id, out))
  {
  }

  lemma RollbackSettles(s: System, id: nat, out: Outcome)
    requires id in s.waiting && s.waiting[id].AwaitRollback?
    ensures OtherSettled(s, id, Settle(s, id, out))
  {
  }

  lemma OtherSettledKeepsInv(s: System, id: nat, t: System)
    requires Inv(s) && id in s.waiting && !CommitCall(s.waiting[id]) && OtherSettled(s, id, t)
    ensures Inv(t)
  {
    ServerSideKept(s, t);
    SettleOtherKeepsHandle(s, id, t);
    assert t.log == s.log + [t.log[|s.log|]];
    SettleOtherKeepsLog(s, t, t.log[|s.log|]);
  }

  lemma SettleOtherKeepsInv(s: System, id: nat, out: Outcome)
    requires Inv(s) && id in s.waiting && !CommitCall(s.waiting[id])
    ensures Inv(Settle(s, id, out))
  {
    if s.waiting[id].AwaitRun? { RunSettles(s, id, out); } else { RollbackSettles(s, id, out); }
    OtherSettledKeepsInv(s, id, Settle(s, id, out));
  }

  lemma SettleOtherKeepsLog(s: System, t: System, last: Settled)
    requires CommitInv(s) && CommitInv(t) && LogInv(s)
    requires t.log == s.log + [last] && !last.Returned? && (last.Failed? ==> last.kind != Commit)
    requires t.requests == s.requests && t.lastCommit == s.lastCommit && t.applied == s.applied
    requires t.handle == s.handle || t.handle == Finished
    requires forall i <- t.waiting :: i in s.waiting && t.waiting[i] == s.waiting[i]
    ensures LogInv(t)
  {
    assert Retired(s) ==> Retired(t);
    assert forall i :: 0 <= i < |s.log| ==> t.log[i] == s.log[i];
  }

  lemma SettleOtherKeepsHandle(s: System, id: nat, t: System)
    requires CommitInv(s) && CommitInv(t) && HandleInv(s) && id in s.waiting && !CommitCall(s.waiting[id])
    requires t.requests == s.requests && t.lastCommit == s.lastCommit && t.waiting == s.waiting - {id}
    requires t.handle == s.handle || t.handle == Finished
    ensures HandleInv(t)
  {
    if !NoCommitCall(s) {
      var i :| i in s.waiting && CommitCall(s.waiting[i]);
      assert i in t.waiting && CommitCall(t.waiting[i]);
    }
  }

  /** What a call awaiting request `id` can be settled with. */
  predicate CanSettle(s: System, id: nat, out: Outcome)
    requires id < |s.requests|
  {
    out == Threw(NetworkFailure) ||
    (s.requests[id].reply.Some? && out == Receive(s.requests[id].reply.value))
  }

  /** A commit call that settles without a probe leaves no commit call waiting. */
  lemma CommitSettledHandle(s: System, id: nat, out: Outcome)
    requires Inv(s) && id in s.waiting && s.waiting[id].AwaitCommit?
    requires CanSettle(s, id, out) && !NeedsProbe(out)
    ensures var t := Settle(s, id, out); NoCommitCall(t) && CommitInv(t) && HandleInv(t)
  {
    var t := Settle(s, id, out);
    ServerSideKept(s, t);
    assert NoCommitCall(t);
    assert id == s.lastCommit && CommitReplyOk(s, s.requests[id]);
  }

  lemma SettleCommitKeepsInv(s: System, id: nat, out: Outcome)
    requires Inv(s) && id in s.waiting && s.waiting[id].AwaitCommit?
    requires CanSettle(s, id, out)
    ensures Inv(Settle(s, id, out))
  {
    if NeedsProbe(out) {
      ProbeSentKeepsInv(s, id, out);
    } else {
      var t := Settle(s, id, out);
      ServerSideKept(s, t);
      CommitSettledHandle(s, id, out);
      assert !NoCommitCall(s);
      assert id == s.lastCommit && CommitReplyOk(s, s.requests[id]);
    }
  }

  /** `t` is `s` after the commit call `id` was answered `err` and asked the server. */
  ghost predicate ProbeSent(s: System, id: nat, err: Thrown, t: System)
  {
    && t.requests == s.requests + [Request(Probe, Pending, false, None)]
    && t.waiting == (s.waiting - {id})[|s.requests| := AwaitProbe(err)]
    && t.slot == s.slot && t.applied == s.applied && t.lastCommit == s.lastCommit
    && t.handle == s.handle && t.log == s.log
  }

  lemma ProbeSentWaits(s: System, id: nat, err: Thrown, t: System)
    requires CommitInv(s) && HandleInv(s) && ProbeSent(s, id, err, t) && id in s.waiting && s.waiting[id].AwaitCommit?
    ensures |s.requests| in t.waiting && t.waiting[|s.requests|] == AwaitProbe(err)
    ensures !NoCommitCall(s) && !NoCommitCall(t)
    ensures forall i <- t.waiting :: i != |s.requests| ==>
              i in s.waiting && i < |s.requests| && t.waiting[i] == s.waiting[i] && !CommitCall(t.waiting[i])
  {
    assert CommitCall(s.waiting[id]);
    assert |s.requests| in t.waiting && CommitCall(t.waiting[|s.requests|]);
  }

  lemma ProbeSentKeepsHandle(s: System, id: nat, err: Thrown, t: System)
    requires CommitInv(s) && HandleInv(s) && CommitInv(t) && ProbeSent(s, id, err, t)
    requires id in s.waiting && s.waiting[id].AwaitCommit? && err.Answered? && s.requests[id].phase != Pending
    ensures HandleInv(t)
  {
    ProbeSentWaits(s, id, err, t);
    assert forall i :: 0 <= i < |s.requests| ==> t.requests[i] == s.requests[i];
  }

  lemma ProbeSentKeepsInv(s: System, id: nat, out: Outcome)
    requires Inv(s) && id in s.waiting && s.waiting[id].AwaitCommit?
    requires CanSettle(s, id, out) && NeedsProbe(out)
    ensures Inv(Settle(s, id, out))
  {
    var t := Settle(s, id, out);
    assert ProbeSent(s, id, out.err, t);
    SentKeepsServer(s, t, Probe);
    assert id == s.lastCommit && CommitReplyOk(s, s.requests[id]);
    ProbeSentKeepsHandle(s, id, out.err, t);
    ProbeSentWaits(s, id, out.err, t);
  }

  lemma SettleProbeKeepsInv(s: System, id: nat, out: Outcome)
    requires Inv(s) && id in s.waiting && s.waiting[id].AwaitProbe?
    requires CanSettle(s, id, out)
    ensures Inv(Settle(s, id, out))
  {
    var t := Settle(s, id, out);
    ServerSideKept(s, t);
    assert NoCommitCall(t);
  }

  lemma SettleKeepsInv(s: System, id: nat, out: Outcome)
    requires Inv(s) && id in s.waiting && CanSettle(s, id, out)
    ensures Inv(Settle(s, id, out))
  {
    match s.waiting[id]
    case AwaitRun => SettleOtherKeepsInv(s, id, out);
    case AwaitRollback => SettleOtherKeepsInv(s, id, out);
    case AwaitCommit => SettleCommitKeepsInv(s, id, out);
    case AwaitProbe(_) => SettleProbeKeepsInv(s, id, out);
  }

  lemma DeliverKeepsInv(s: System, id: nat)
    requires Inv(s)
    ensures Inv(Do(s, Deliver(id)))
  {
    if id in s.waiting && s.requests[id].reply.Some? { SettleKeepsInv(s, id, Receive(s.requests[id].reply.value)); }
  }

  lemma LoseKeepsInv(s: System, id: nat)
    requires Inv(s)
    ensures Inv(Do(s, Lose(id)))
  {
    if id in s.waiting { SettleKeepsInv(s, id, Threw(NetworkFailure)); }
  }

  lemma StepKeepsInv(s: System, e: Event)
    requires Inv(s)
    ensures Inv(Do(s, e))
  {
    match e
    case CallExecute => CallKeepsInv(s, e);
    case CallCommit => CommitStartKeepsInv(s);
    case CallRollback => CallKeepsInv(s, e);
    case Arrive(id, tombstone) => ArriveKeepsInv(s, id, tombstone);
    case Refuse(id, status) => RefuseKeepsInv(s, id, status);
    case TimeOut(id) => TimeOutKeepsInv(s, id);
    case EndRun(id, how, tombstone) => EndRunKeepsInv(s, id, how, tombstone);
    case EndCommit(id, v) => EndCommitKeepsInv(s, id, v);
    case EndRollback(id) => EndRollbackKeepsInv(s, id);
    case Reap => ReapKeepsInv(s);
    case Deliver(id) => DeliverKeepsInv(s, id);
    case Lose(id) => LoseKeepsInv(s, id);
  }

  lemma {:induction false} RunKeepsInv(s: System, es: seq<Event>)
    requires Inv(s)
    ensures Inv(Exec(s, es))
    decreases |es|
  {
    if es != [] {
      RunKeepsInv(s, es[..|es| - 1]);
      StepKeepsInv(Exec(s, es[..|es| - 1]), es[|es| - 1]);
    }
  }

  // ---- the object, through a run -----------------------------------------------------

  /** A call gets its outcome. */
  method AnswerCall(h: TxHandle, await: Await, out: Outcome) returns (sends: bool)
    modifies h
    ensures sends <==> await.AwaitCommit? && NeedsProbe(out)
    ensures h.state ==
      match await
      case AwaitRun => old(h.state)
      case AwaitCommit => if NeedsProbe(out) then old(h.state) else AfterCommit(out)
      case AwaitProbe(_) => AfterProbe(out)
      case AwaitRollback => AfterRollback(old(h.state), out)
  {
    sends := false;
    match await
    case AwaitRun =>
    case AwaitCommit => sends := h.CommitAnswered(out);
    case AwaitProbe(_) => h.ProbeAnswered(out);
    case AwaitRollback => var throws := h.RollbackAnswered(out);
  }

  /** One event as the handle sees it; `sends` says it sends a request. */
  method HandleEvent(h: TxHandle, s: System, e: Event) returns (sends: bool)
    requires h.state == s.handle
    modifies h
    ensures h.state == Do(s, e).handle && (sends <==> |Do(s, e).requests| > |s.requests|)
  {
    sends := false;
    match e
    case CallExecute => sends := h.AssertOpen();
    case CallCommit => sends := h.CommitStart();
    case CallRollback =>
      var throws;
      sends, throws := h.RollbackStart();
    case Deliver(id) =>
      if id in s.waiting && id < |s.requests| && s.requests[id].reply.Some? {
        sends := AnswerCall(h, s.waiting[id], Receive(s.requests[id].reply.value));
      }
    case Lose(id) =>
      if id in s.waiting { sends := AnswerCall(h, s.waiting[id], Threw(NetworkFailure)); }
    case _ =>
  }

  /** The handle object through a whole run is in the state the run gives it. */
  method DriveHandle(es: seq<Event>) returns (h: TxHandle, s: System)
    ensures fresh(h) && s == Exec(Init, es) && h.state == s.handle
  {
    h := new TxHandle();
    s := Init;
    for k := 0 to |es|
      invariant fresh(h) && s == Exec(Init, es[..k]) && h.state == s.handle
    {
      assert es[..k + 1][..k] == es[..k];
      var sends := HandleEvent(h, s, es[k]);
      s := Do(s, es[k]);
    }
    assert es[..|es|] == es;
  }
}
