/** The bounded concurrent map: workers that share an index counter, a result array and an
  error list.

  A worker runs in one piece from taking an index to its `await`, and again from the
  settled promise to the next one. A run is any sequence of settlements, so the claims
  hold for every interleaving of workers and rejections. */
module MapPool {
  import opened Options

  datatype Outcome<R, E> = Fulfilled(value: R) | Rejected(error: E)

  /** What stands in the results for this outcome. */
  function ValueOf<R, E>(out: Outcome<R, E>): Option<R> { if out.Fulfilled? then Some(out.value) else None }

  datatype PoolError<E> = PoolError(index: nat, error: E)

  /** `workers[w]` is the item worker `w` is waiting on, `None` once it has returned.
    `started` and `outcomes` record what has happened. */
  datatype Pool<R, E> = Pool(
    next: nat,
    workers: seq<Option<nat>>,
    results: seq<Option<R>>,
    errors: seq<PoolError<E>>,
    started: seq<nat>,
    outcomes: map<nat, Outcome<R, E>>)

  function Max(a: int, b: int): int { if a >= b then a else b }
  function Min(a: int, b: int): int { if a <= b then a else b }

  function WorkerCount(items: nat, limit: int): nat { Min(Max(limit, 1), items) }

  /** The top of the loop: take an index, start it or return. */
  function Take<R, E>(p: Pool<R, E>, w: nat): Pool<R, E>
    requires w < |p.workers|
  {
    var i := p.next;
    if i >= |p.results| then p.(next := i + 1, workers := p.workers[w := None])
    else p.(next := i + 1, workers := p.workers[w := Some(i)], started := p.started + [i])
  }

  /** The bottom of the loop: the item's value, or its error. */
  function Record<R, E>(p: Pool<R, E>, i: nat, out: Outcome<R, E>): Pool<R, E>
    requires i < |p.results|
  {
    var q := p.(outcomes := p.outcomes[i := out]);
    if out.Fulfilled? then q.(results := p.results[i := Some(out.value)])
    else q.(errors := p.errors + [PoolError(i, out.error)])
  }

  function Settle<R, E>(p: Pool<R, E>, w: nat, out: Outcome<R, E>): Pool<R, E>
  {
    if w < |p.workers| && p.workers[w].Some? && p.workers[w].value < |p.results|
    then Take(Record(p, p.workers[w].value, out), w)
    else p
  }

  /** The workers are started one after another, each up to its first `await`. */
  function Launch<R, E>(items: nat, n: nat): (p: Pool<R, E>)
    ensures |p.workers| == n && |p.results| == items
  {
    if n == 0 then Pool(0, [], seq(items, _ => None), [], [], map[])
    else
      var q: Pool<R, E> := Launch(items, n - 1);
      Take(q.(workers := q.workers + [None]), n - 1)
  }

  function Start<R, E>(items: nat, limit: int): Pool<R, E> { Launch(items, WorkerCount(items, limit)) }

  datatype Settlement<R, E> = Settlement(worker: nat, out: Outcome<R, E>)

  function Run<R, E>(p: Pool<R, E>, es: seq<Settlement<R, E>>): Pool<R, E>
  {
    if es == [] then p else Settle(Run(p, es[..|es| - 1]), es[|es| - 1].worker, es[|es| - 1].out)
  }

  // ---- what every step keeps ----------------------------------------------------------------

  /** Worker `w` is waiting on item `i`. */
  predicate Waits<R, E>(p: Pool<R, E>, w: int, i: nat) { 0 <= w < |p.workers| && p.workers[w] == Some(i) }

  ghost predicate InFlight<R, E(!new)>(p: Pool<R, E>, i: nat) { exists w :: Waits(p, w, i) }

  ghost predicate Elsewhere<R, E>(p: Pool<R, E>, w: int, i: nat) { exists v :: v != w && Waits(p, v, i) }

  ghost predicate FlightInv<R, E(!new)>(p: Pool<R, E>)
  {
    && p.started == seq(Min(p.next, |p.results|), i => i)
    && (forall w, i: nat :: Waits(p, w, i) ==> i < p.next && i < |p.results| && i !in p.outcomes)
    && (forall v, w, i: nat :: Waits(p, v, i) && Waits(p, w, i) ==> v == w)
    && (forall i <- p.outcomes :: i < p.next && i < |p.results|)
    && (forall i: nat :: i < p.next && i < |p.results| ==> i in p.outcomes || InFlight(p, i))
    && (forall w :: 0 <= w < |p.workers| && p.workers[w].None? ==> p.next > |p.results|)
  }

  ghost predicate ValueInv<R, E(!new)>(p: Pool<R, E>)
  {
    && (forall i :: 0 <= i < |p.results| ==>
          p.results[i] == if i in p.outcomes && p.outcomes[i].Fulfilled? then Some(p.outcomes[i].value) else None)
    && (forall i: nat, e :: PoolError(i, e) in p.errors <==> i in p.outcomes && p.outcomes[i] == Rejected(e))
    && (forall j, k :: 0 <= j < k < |p.errors| ==> p.errors[j].index != p.errors[k].index)
  }

  ghost predicate Inv<R, E(!new)>(p: Pool<R, E>) { FlightInv(p) && ValueInv(p) }

  /** Taking an index keeps the books, for a worker that is waiting on nothing. */
  lemma TakeKeepsFlight<R, E(!new)>(p: Pool<R, E>, w: nat)
    requires w < |p.workers| && p.started == seq(Min(p.next, |p.results|), i => i)
    requires forall v, i: nat :: Waits(p, v, i) && v != w ==> i < p.next && i < |p.results| && i !in p.outcomes
    requires forall u, v, i: nat :: Waits(p, u, i) && Waits(p, v, i) && u != w && v != w ==> u == v
    requires forall i <- p.outcomes :: i < p.next && i < |p.results|
    requires forall i: nat :: i < p.next && i < |p.results| ==> i in p.outcomes || Elsewhere(p, w, i)
    requires forall v :: 0 <= v < |p.workers| && v != w && p.workers[v].None? ==> p.next > |p.results|
    ensures FlightInv(Take(p, w))
  {
    var q := Take(p, w);
    assert forall v, i: nat :: v != w ==> (Waits(q, v, i) <==> Waits(p, v, i));
    forall i: nat | i < q.next && i < |q.results| ensures i in q.outcomes || InFlight(q, i) {
      if i == p.next {
        assert Waits(q, w, i);
      } else if i !in p.outcomes {
        var v :| v != w && Waits(p, v, i);
        assert Waits(q, v, i);
      }
    }
  }

  lemma {:induction false} LaunchKeeps<R, E(!new)>(items: nat, n: nat)
    requires n <= items
    ensures Inv<R, E>(Launch(items, n)) && Launch<R, E>(items, n).next == n && Launch<R, E>(items, n).outcomes == map[]
    ensures forall w :: 0 <= w < n ==> Launch<R, E>(items, n).workers[w].Some?
  {
    if n > 0 {
      LaunchKeeps<R, E>(items, n - 1);
      var q: Pool<R, E> := Launch(items, n - 1);
      var r, last := q.(workers := q.workers + [None]), n - 1;
      assert forall v, i: nat :: v != n - 1 ==> (Waits(r, v, i) <==> Waits(q, v, i));
      forall i: nat | i < r.next && i < |r.results| ensures Elsewhere(r, last, i) {
        assert InFlight(q, i);
        var v :| Waits(q, v, i);
        assert v != n - 1 && Waits(r, v, i);
      }
      TakeKeepsFlight(r, n - 1);
    }
  }

  lemma SettleKeepsFlight<R, E(!new)>(p: Pool<R, E>, w: nat, out: Outcome<R, E>)
    requires FlightInv(p) && w < |p.workers| && p.workers[w].Some?
    ensures FlightInv(Settle(p, w, out))
  {
    var i := p.workers[w].value;
    assert Waits(p, w, i);
    var q := Record(p, i, out);
    assert forall v, k: nat :: Waits(q, v, k) <==> Waits(p, v, k);
    forall k: nat | k < q.next && k < |q.results| ensures k in q.outcomes || Elsewhere(q, w, k) {
      if k != i && k !in p.outcomes {
        assert InFlight(p, k);
        var v :| Waits(p, v, k);
        assert v != w && Waits(q, v, k);
      }
    }
    TakeKeepsFlight(q, w);
  }

  lemma SettleKeepsValues<R, E(!new)>(p: Pool<R, E>, w: nat, out: Outcome<R, E>)
    requires Inv(p) && w < |p.workers| && p.workers[w].Some?
    ensures ValueInv(Settle(p, w, out))
  {
    var i := p.workers[w].value;
    assert Waits(p, w, i);
    RecordKeepsValues(p, i, out);
  }

  lemma RecordKeepsValues<R, E(!new)>(p: Pool<R, E>, i: nat, out: Outcome<R, E>)
    requires ValueInv(p) && i < |p.results| && i !in p.outcomes
    ensures ValueInv(Record(p, i, out))
  {
    var q := Record(p, i, out);
    forall k: nat, e ensures PoolError(k, e) in q.errors <==> k in q.outcomes && q.outcomes[k] == Rejected(e) {
      assert PoolError(k, e) in p.errors <==> k in p.outcomes && p.outcomes[k] == Rejected(e);
    }
    forall j | 0 <= j < |p.errors| ensures p.errors[j].index != i {
      assert PoolError(p.errors[j].index, p.errors[j].error) in p.errors;
    }
  }

  lemma {:induction false} RunKeeps<R, E(!new)>(items: nat, limit: int, es: seq<Settlement<R, E>>)
    ensures var p := Run(Start(items, limit), es);
      Inv(p) && |p.workers| == WorkerCount(items, limit) && |p.results| == items
  {
    if es == [] {
      LaunchKeeps<R, E>(items, WorkerCount(items, limit));
    } else {
      RunKeeps(items, limit, es[..|es| - 1]);
      var p: Pool<R, E> := Run(Start(items, limit), es[..|es| - 1]);
      var e := es[|es| - 1];
      if e.worker < |p.workers| && p.workers[e.worker].Some? {
        SettleKeepsFlight(p, e.worker, e.out);
        SettleKeepsValues(p, e.worker, e.out);
      }
    }
  }

  // ---- the errors, sorted --------------------------------------------------------------------

  function Insert<E>(e: PoolError<E>, s: seq<PoolError<E>>): seq<PoolError<E>>
  {
    if s == [] || e.index < s[0].index then [e] + s else [s[0]] + Insert(e, s[1..])
  }

  /** `errors.sort((a, b) => a.index - b.index)` */
  function SortByIndex<E>(s: seq<PoolError<E>>): seq<PoolError<E>>
  {
    if s == [] then [] else Insert(s[0], SortByIndex(s[1..]))
  }

  predicate Ascending<E>(s: seq<PoolError<E>>) { forall j, k :: 0 <= j < k < |s| ==> s[j].index < s[k].index }

  lemma {:induction false} InsertAscends<E(!new)>(e: PoolError<E>, s: seq<PoolError<E>>)
    requires Ascending(s) && forall x <- s :: x.index != e.index
    ensures Ascending(Insert(e, s))
    ensures forall x :: x in Insert(e, s) <==> x == e || x in s
  {
    if s != [] && e.index >= s[0].index {
      InsertAscends(e, s[1..]);
      assert s == [s[0]] + s[1..];
      var rest := Insert(e, s[1..]);
      forall k | 0 <= k < |rest| ensures s[0].index < rest[k].index {
        assert rest[k] in rest;
        assert s[0] in s;
        if rest[k] != e {
          var j :| 0 <= j < |s[1..]| && s[1..][j] == rest[k];
          assert s[j + 1] == rest[k];
        }
      }
    }
  }

  lemma {:induction false} SortAscends<E(!new)>(s: seq<PoolError<E>>)
    requires forall j, k :: 0 <= j < k < |s| ==> s[j].index != s[k].index
    ensures Ascending(SortByIndex(s))
    ensures forall x :: x in SortByIndex(s) <==> x in s
  {
    if s != [] {
      SortAscends(s[1..]);
      forall x | x in SortByIndex(s[1..]) ensures x.index != s[0].index {
        assert x in s[1..];
        var k :| 0 <= k < |s[1..]| && s[1..][k] == x;
        assert s[k + 1] == x;
      }
      InsertAscends(s[0], SortByIndex(s[1..]));
      assert s == [s[0]] + s[1..];
    }
  }

  // ---- the claims --------------------------------------------------------------------------------

  predicate AllReturned<R, E>(p: Pool<R, E>) { forall w :: 0 <= w < |p.workers| ==> p.workers[w].None? }

  /** The items some worker waits on. */
  function WaitedOn(workers: seq<Option<nat>>): set<nat>
  {
    set w | 0 <= w < |workers| && workers[w].Some? :: workers[w].value
  }

  lemma {:induction false} WaitedOnSize(workers: seq<Option<nat>>)
    ensures |WaitedOn(workers)| <= |workers|
  {
    if workers != [] {
      var front, last := workers[..|workers| - 1], workers[|workers| - 1];
      WaitedOnSize(front);
      assert WaitedOn(workers) == WaitedOn(front) + if last.Some? then {last.value} else {} by {
        assert forall w :: 0 <= w < |front| ==> workers[w] == front[w];
        assert last == workers[|front|];
      }
    }
  }

  /** At every moment of every run: at most `limit` items are in flight, or one when the
    limit is lower, and the items started so far are 0, 1, 2, ... each once. */
  lemma NeverTooMany<R, E(!new)>(items: nat, limit: int, es: seq<Settlement<R, E>>)
    ensures var p := Run(Start(items, limit), es);
      && (forall i: nat :: i in WaitedOn(p.workers) <==> InFlight(p, i))
      && |WaitedOn(p.workers)| <= Max(limit, 1)
      && p.started == seq(Min(p.next, items), i => i)
      && forall v, w, i: nat :: Waits(p, v, i) && Waits(p, w, i) ==> v == w
  {
    RunKeeps(items, limit, es);
    var p: Pool<R, E> := Run(Start(items, limit), es);
    WaitedOnSize(p.workers);
    forall i: nat ensures i in WaitedOn(p.workers) <==> InFlight(p, i) {
      if w :| 0 <= w < |p.workers| && p.workers[w] == Some(i) { assert Waits(p, w, i); }
    }
  }

  /** The pool cannot stall: while an item has not settled, some worker waits on one. */
  lemma NeverStalls<R, E(!new)>(items: nat, limit: int, es: seq<Settlement<R, E>>, i: nat)
    ensures var p := Run(Start(items, limit), es);
      i < items && i !in p.outcomes ==> !AllReturned(p)
  {
    RunKeeps(items, limit, es);
    var p: Pool<R, E> := Run(Start(items, limit), es);
    if i < items && i !in p.outcomes {
      assert p.workers[0].None? ==> InFlight(p, i);
    }
  }

  /** A settlement of the item a worker waits on settles that item so, and the worker goes on
    to the next item if there is one. */
  lemma SettlementSettles<R, E(!new)>(items: nat, limit: int, es: seq<Settlement<R, E>>,
                                      w: nat, i: nat, out: Outcome<R, E>)
    requires Waits<R, E>(Run(Start(items, limit), es), w, i)
    ensures SettledBy(Run(Start(items, limit), es), w, i, out, Run(Start(items, limit), es + [Settlement(w, out)]))
  {
    RunKeeps(items, limit, es);
    assert (es + [Settlement(w, out)])[..|es|] == es;
  }

  /** `q` is `p` once worker `w` had item `i` settled and went on. */
  ghost predicate SettledBy<R, E>(p: Pool<R, E>, w: nat, i: nat, out: Outcome<R, E>, q: Pool<R, E>)
    requires w < |p.workers|
  {
    var more := p.next < |p.results|;
    && i !in p.outcomes && q.outcomes == p.outcomes[i := out]
    && q.workers == p.workers[w := if more then Some(p.next) else None]
    && q.started == p.started + if more then [p.next] else []
  }

  /** The workers have all returned exactly when every item has settled. */
  lemma ReturnedIff<R, E(!new)>(items: nat, limit: int, es: seq<Settlement<R, E>>)
    ensures AllReturned<R, E>(Run(Start(items, limit), es)) <==> AllSettled<R, E>(Run(Start(items, limit), es), items)
  {
    RunKeeps(items, limit, es);
    var p: Pool<R, E> := Run(Start(items, limit), es);
    if AllReturned(p) {
      forall i: nat | i < items ensures i in p.outcomes { NeverStalls(items, limit, es, i); }
    } else {
      var w :| 0 <= w < |p.workers| && p.workers[w].Some?;
      assert Waits(p, w, p.workers[w].value);
    }
  }

  ghost predicate AllSettled<R, E>(p: Pool<R, E>, items: nat) { forall i: nat :: i < items ==> i in p.outcomes }

  /** When every worker has returned, every item has settled: values are at their own
    index, and the sorted errors are exactly the rejected items, strictly by index. */
  lemma ResultsAreExact<R, E(!new)>(items: nat, limit: int, es: seq<Settlement<R, E>>)
    requires AllReturned<R, E>(Run(Start(items, limit), es))
    ensures var p := Run(Start(items, limit), es);
      && (forall i: nat :: i in p.outcomes <==> i < items)
      && p.started == seq(items, i => i)
      && |p.results| == items
      && (forall i :: 0 <= i < items ==>
            p.results[i] == ValueOf(p.outcomes[i]))
      && Ascending(SortByIndex(p.errors))
      && (forall i: nat, e :: PoolError(i, e) in SortByIndex(p.errors) <==> i < items && p.outcomes[i] == Rejected(e))
  {
    var p: Pool<R, E> := Run(Start(items, limit), es);
    RunKeeps(items, limit, es);
    forall i: nat ensures i in p.outcomes <==> i < items {
      NeverStalls(items, limit, es, i);
    }
    if items > 0 { assert p.workers[0].None?; }
    SortAscends(p.errors);
  }

  // ---- the shared variables ------------------------------------------------------------------------

  /** The variables the workers close over, and the two pieces of a worker's loop. */
  class Shared<R, E> {
    var next: nat
    var results: seq<Option<R>>
    var errors: seq<PoolError<E>>

    constructor (items: nat)
      ensures next == 0 && results == seq(items, _ => None) && errors == []
    {
      next, results, errors := 0, seq(items, _ => None), [];
    }

    /** Holds what `p` says of the shared variables. */
    ghost predicate Shows(p: Pool<R, E>)
      reads this
    {
      next == p.next && results == p.results && errors == p.errors
    }

    method TakeNext(ghost p: Pool<R, E>, ghost w: nat) returns (item: Option<nat>)
      requires Shows(p) && w < |p.workers|
      modifies this`next
      ensures Shows(Take(p, w)) && item == Take(p, w).workers[w]
    {
      var i := next;
      next := next + 1;
      if i >= |results| { return None; }
      return Some(i);
    }

    method Store(ghost p: Pool<R, E>, i: nat, out: Outcome<R, E>)
      requires Shows(p) && i < |p.results|
      modifies this`results, this`errors
      ensures Shows(Record(p, i, out))
    {
      match out
      case Fulfilled(v) => results := results[i := Some(v)];
      case Rejected(e) => errors := errors + [PoolError(i, e)];
    }
  }

  /** The workers on the shared variables, through any run of settlements. */
  method Drive<R, E>(items: nat, limit: int, es: seq<Settlement<R, E>>)
    returns (shared: Shared<R, E>, workers: seq<Option<nat>>)
    ensures fresh(shared) && shared.Shows(Run(Start(items, limit), es))
    ensures workers == Run<R, E>(Start(items, limit), es).workers
  {
    shared := new Shared(items);
    workers := [];
    for w := 0 to WorkerCount(items, limit)
      invariant fresh(shared) && shared.Shows(Launch(items, w)) && workers == Launch<R, E>(items, w).workers
    {
      ghost var q: Pool<R, E> := Launch(items, w);
      var item := shared.TakeNext(q.(workers := q.workers + [None]), w);
      workers := workers + [item];
    }
    for k := 0 to |es|
      invariant fresh(shared) && shared.Shows(Run(Start(items, limit), es[..k]))
      invariant workers == Run<R, E>(Start(items, limit), es[..k]).workers
    {
      assert es[..k + 1][..k] == es[..k];
      workers := OneSettlement(shared, workers, es[k], Run(Start(items, limit), es[..k]));
    }
    assert es[..|es|] == es;
  }

  method OneSettlement<R, E>(shared: Shared<R, E>, workers: seq<Option<nat>>, e: Settlement<R, E>, ghost p: Pool<R, E>)
    returns (after: seq<Option<nat>>)
    requires shared.Shows(p) && workers == p.workers
    modifies shared
    ensures shared.Shows(Settle(p, e.worker, e.out)) && after == Settle(p, e.worker, e.out).workers
  {
    after := workers;
    var w := e.worker;
    if w < |workers| && workers[w].Some? && workers[w].value < |shared.results| {
      var i := workers[w].value;
      shared.Store(p, i, e.out);
      var item := shared.TakeNext(Record(p, i, e.out), w);
      after := workers[w := item];
    }
  }

  /** `mapPool` on a run that lets every worker return: what it resolves to. */
  method MapItems<R, E(!new)>(items: nat, limit: int, es: seq<Settlement<R, E>>)
    returns (results: seq<Option<R>>, errors: seq<PoolError<E>>)
    requires AllReturned<R, E>(Run(Start(items, limit), es))
    ensures var outcomes := Run<R, E>(Start(items, limit), es).outcomes;
      && |results| == items && (forall i: nat :: i in outcomes <==> i < items)
      && (forall i :: 0 <= i < items ==>
            results[i] == ValueOf(outcomes[i]))
      && Ascending(errors)
      && (forall i: nat, e :: PoolError(i, e) in errors <==> i < items && outcomes[i] == Rejected(e))
  {
    var shared, workers := Drive(items, limit, es);
    ResultsAreExact(items, limit, es);
    results, errors := shared.results, SortByIndex(shared.errors);
  }
}
