/** The gate in front of a resync: one run at a time, at most one queued behind it. */
module Resync {
  /** `running` and `pending` are the gate's fields. The rest is history: `clock` counts
    steps, `busy` says a run has started and not settled, `failed` how it settled. */
  datatype Gate = Gate(
    running: bool,
    pending: bool,
    clock: nat,
    busy: bool,
    failed: bool,
    requests: nat,
    starts: nat,
    lastRequest: int,
    lastStart: int)

  const Idle := Gate(false, false, 0, false, false, 0, 0, -1, -1)

  datatype Event = Request | RunSettles(rejected: bool) | Resume

  function StartRun(g: Gate): Gate
  {
    g.(pending := false, busy := true, failed := false, starts := g.starts + 1, lastStart := g.clock)
  }

  /** `Resume` is the rest of `drain` once the awaited run has settled; requests may come
    in between. */
  function Step(g: Gate, e: Event): Gate
  {
    var h := g.(clock := g.clock + 1);
    match e
    case Request =>
      var r := h.(requests := g.requests + 1, lastRequest := h.clock);
      if g.running then r.(pending := true) else StartRun(r.(running := true))
    case RunSettles(rejected) => if g.busy then h.(busy := false, failed := rejected) else h
    case Resume =>
      if !g.running || g.busy then h
      else if !g.failed && g.pending then StartRun(h)
      else h.(running := false)
  }

  function Run(g: Gate, es: seq<Event>): Gate
  {
    if es == [] then g else Step(Run(g, es[..|es| - 1]), es[|es| - 1])
  }

  /** Every request made has a run that started no earlier. */
  predicate Served(g: Gate) { g.lastRequest <= g.lastStart }

  ghost predicate Inv(g: Gate)
  {
    && (g.busy ==> g.running)
    && g.starts + (if g.pending then 1 else 0) <= g.requests
    && g.lastRequest <= g.clock && g.lastStart <= g.clock
    && (Served(g) <==> !g.pending)
    && (g.pending && !g.running ==> g.failed)
  }

  lemma {:induction false} RunKeeps(es: seq<Event>)
    ensures Inv(Run(Idle, es))
  {
    if es != [] { RunKeeps(es[..|es| - 1]); }
  }

  /** A run starts only when none is going, so at most one is. */
  lemma StartsOnlyWhenFree(es: seq<Event>, e: Event)
    ensures var g := Run(Idle, es); Step(g, e).starts > g.starts ==> !g.busy
  {
    RunKeeps(es);
  }

  /** Never more runs than requests, and the gate keeps what it owes: it is pending exactly
    while a request waits for a run. */
  lemma OwesWhatIsPending(es: seq<Event>)
    ensures var g := Run(Idle, es); g.starts <= g.requests && (Served(g) <==> !g.pending)
  {
    RunKeeps(es);
  }

  predicate NoneRejects(es: seq<Event>) { forall i :: 0 <= i < |es| ==> es[i] != RunSettles(true) }

  lemma {:induction false} NeverFails(es: seq<Event>)
    requires NoneRejects(es)
    ensures !Run(Idle, es).failed
  {
    if es != [] {
      NeverFails(es[..|es| - 1]);
      assert es[|es| - 1] != RunSettles(true);
    }
  }

  /** With a run function that never rejects, an idle gate has served every request. */
  lemma IdleHasServedAll(es: seq<Event>)
    requires NoneRejects(es) && !Run(Idle, es).running
    ensures Served(Run(Idle, es))
  {
    RunKeeps(es);
    NeverFails(es);
  }

  /** In general an idle gate has left a request unserved exactly when the last run was
    rejected with one pending; the next request then serves it. */
  lemma IdleUnservedIff(es: seq<Event>)
    requires !Run(Idle, es).running
    ensures var g := Run(Idle, es);
      && (!Served(g) <==> g.pending && g.failed)
      && Served(Step(g, Request))
  {
    RunKeeps(es);
  }

  /** One request during a run that rejects: idle, and the request is lost. */
  lemma RejectionLosesARequest()
    ensures var g := Run(Idle, [Request, Request, RunSettles(true), Resume]); !g.running && !Served(g)
  {
    var es := [Request, Request, RunSettles(true), Resume];
    assert es[..3] == [Request, Request, RunSettles(true)] && es[..3][..2] == [Request, Request];
    assert [Request, Request][..1] == [Request] && [Request][..0] == [];
    assert Run(Idle, [Request]) == Step(Idle, Request);
    assert Run(Idle, [Request, Request]) == Step(Step(Idle, Request), Request);
  }

  // ---- progress --------------------------------------------------------------------------------

  lemma RunSnoc(es: seq<Event>, e: Event)
    ensures Run(Idle, es + [e]) == Step(Run(Idle, es), e)
  {
    assert (es + [e])[..|es|] == es;
  }

  /** A request starts a run at once when the gate is idle, and is remembered when it is not. */
  lemma RequestDecides(es: seq<Event>)
    ensures var g, h := Run(Idle, es), Run(Idle, es + [Request]);
      h.requests == g.requests + 1 && h.running &&
      if g.running then h.pending && h.starts == g.starts && h.busy == g.busy
      else !h.pending && h.starts == g.starts + 1 && h.busy && Served(h)
  {
    RunSnoc(es, Request);
    RunKeeps(es);
  }

  /** Once the run has settled: again if it succeeded and a request came in meanwhile, and
    that run serves it; otherwise idle, with nothing started. */
  lemma ResumeDecides(es: seq<Event>)
    requires Run(Idle, es).running && !Run(Idle, es).busy
    ensures var g, h := Run(Idle, es), Run(Idle, es + [Resume]);
      h.requests == g.requests &&
      if g.pending && !g.failed then h.running && h.busy && !h.pending && h.starts == g.starts + 1 && Served(h)
      else !h.running && !h.busy && h.pending == g.pending && h.starts == g.starts
  {
    RunSnoc(es, Resume);
    RunKeeps(es);
  }

  /** From any moment, when runs succeed and no more requests come, two runs at most bring the
    gate to rest with every request served. */
  lemma DrainsInTwo(es: seq<Event>)
    requires Run(Idle, es).busy
    ensures var g, h := Run(Idle, es), Run(Idle, es + [RunSettles(false)] + [Resume] + [RunSettles(false)] + [Resume]);
      !h.running && !h.pending && Served(h) && h.starts <= g.starts + 1
  {
    var one := es + [RunSettles(false)];
    var two := one + [Resume];
    var three := two + [RunSettles(false)];
    RunKeeps(es);
    RunSnoc(es, RunSettles(false));
    RunSnoc(one, Resume);
    RunSnoc(two, RunSettles(false));
    RunSnoc(three, Resume);
    RunKeeps(three + [Resume]);
  }

  class ResyncGate {
    var running: bool
    var pending: bool

    constructor ()
      ensures !running && !pending
    {
      running, pending := false, false;
    }

    ghost predicate Shows(g: Gate)
      reads this
    {
      running == g.running && pending == g.pending
    }

    /** `starts` says a run is begun now. */
    method RequestRun(ghost g: Gate) returns (starts: bool)
      requires Shows(g)
      modifies this
      ensures Shows(Step(g, Request)) && (starts <==> Step(g, Request).starts > g.starts)
    {
      if running {
        pending := true;
        return false;
      }
      running := true;
      pending := false;
      return true;
    }

    /** After the awaited run settled: again while pending, and down in any case. */
    method AfterRun(ghost g: Gate, rejected: bool) returns (starts: bool)
      requires Shows(g) && g.running && !g.busy && rejected == g.failed
      modifies this
      ensures Shows(Step(g, Resume)) && (starts <==> Step(g, Resume).starts > g.starts)
    {
      if !rejected && pending {
        pending := false;
        return true;
      }
      running := false;
      return false;
    }
  }

  /** The gate object through a whole run, with the run function's promise in `busy` and
    `failed`. It starts as many runs as the machine does. */
  method Drive(es: seq<Event>) returns (gate: ResyncGate, started: nat)
    ensures fresh(gate) && gate.Shows(Run(Idle, es)) && started == Run(Idle, es).starts
  {
    gate := new ResyncGate();
    started := 0;
    var busy, failed := false, false;
    for k := 0 to |es|
      invariant fresh(gate) && gate.Shows(Run(Idle, es[..k])) && started == Run(Idle, es[..k]).starts
      invariant busy == Run(Idle, es[..k]).busy && failed == Run(Idle, es[..k]).failed
    {
      ghost var g := Run(Idle, es[..k]);
      assert es[..k + 1][..k] == es[..k];
      RunKeeps(es[..k]);
      var starts := false;
      match es[k] {
        case Request => starts := gate.RequestRun(g);
        case RunSettles(rejected) => if busy { busy, failed := false, rejected; }
        case Resume => if gate.running && !busy { starts := gate.AfterRun(g, failed); }
      }
      if starts { busy, failed, started := true, false, started + 1; }
    }
    assert es[..|es|] == es;
  }
}
