/** Writing the history into the store, one commit per change, and the day-to-commit map. */
module StoreDays {
  import opened Derivation
  import opened History

  /** The write-ahead log: `setup` commits for the base world and the rules, then one per
    change. */
  class Store {
    const setup: nat
    var log: seq<Change>

    constructor (setup: nat)
      ensures this.setup == setup && log == []
    {
      this.setup := setup;
      log := [];
    }

    method Apply(c: Change)
      modifies this
      ensures log == old(log) + [c]
    {
      log := log + [c];
    }

    function TotalCommits(): nat
      reads this
    {
      setup + |log|
    }
  }

  type Days = map<int, seq<Change>>

  function OnDay(byDay: Days, d: int): seq<Change> { if d in byDay then byDay[d] else [] }

  lemma {:induction false} BetweenSnoc(cs: seq<Change>, c: Change, from: int, to: int)
    ensures Between(cs + [c], from, to) == Between(cs, from, to) + if from < c.day <= to then [c] else []
  {
    if cs == [] {
      assert (cs + [c])[1..] == [];
    } else {
      BetweenSnoc(cs[1..], c, from, to);
      assert (cs + [c])[1..] == cs[1..] + [c];
    }
  }

  function DayChanges(cs: seq<Change>, d: int): seq<Change> { Between(cs, d - 1, d) }

  lemma DayChangesSnoc(cs: seq<Change>, c: Change, d: int)
    ensures DayChanges(cs + [c], d) == DayChanges(cs, d) + if c.day == d then [c] else []
  {
    BetweenSnoc(cs, c, d - 1, d);
  }

  /** The changes grouped by day, each day in order. */
  method GroupByDay(changes: seq<Change>) returns (byDay: Days)
    ensures forall d :: OnDay(byDay, d) == DayChanges(changes, d)
  {
    byDay := map[];
    for i := 0 to |changes|
      invariant forall d :: OnDay(byDay, d) == DayChanges(changes[..i], d)
    {
      var c := changes[i];
      assert changes[..i + 1] == changes[..i] + [c];
      forall d { DayChangesSnoc(changes[..i], c, d); }
      byDay := byDay[c.day := OnDay(byDay, c.day) + [c]];
    }
    assert changes[..|changes|] == changes;
  }

  method ApplyAll(store: Store, cs: seq<Change>)
    modifies store
    ensures store.log == old(store.log) + cs
  {
    for i := 0 to |cs|
      invariant store.log == old(store.log) + cs[..i]
    {
      assert cs[..i + 1] == cs[..i] + [cs[i]];
      store.Apply(cs[i]);
    }
    assert cs[..|cs|] == cs;
  }

  /** The commit index of the last mutation of day `d`. */
  ghost function CommitOf(setup: nat, changes: seq<Change>, d: int): int
  {
    setup + Reach(changes, d) - 1
  }

  /** `days` has exactly the first `n` days, each with its commit. */
  ghost predicate MapsDays(days: map<int, int>, setup: nat, changes: seq<Change>, n: int)
  {
    && (forall d :: d in days <==> 0 <= d < n)
    && (forall d <- days :: days[d] == CommitOf(setup, changes, d))
  }

  lemma DayExtends(changes: seq<Change>, day: int)
    requires InDayOrder(changes)
    ensures changes[..Reach(changes, day)] == changes[..Reach(changes, day - 1)] + DayChanges(changes, day)
  {
    BetweenIsSlice(changes, day - 1, day);
  }

  /** One day: its changes, then its entry. A day with no change repeats the last commit. */
  method WriteDay(store: Store, ghost changes: seq<Change>, today: seq<Change>, ghost day: int) returns (commit: int)
    requires store.log == changes[..Reach(changes, day - 1)]
    requires InDayOrder(changes) && today == DayChanges(changes, day)
    modifies store
    ensures store.log == changes[..Reach(changes, day)]
    ensures commit == CommitOf(store.setup, changes, day)
  {
    DayExtends(changes, day);
    ApplyAll(store, today);
    commit := store.TotalCommits() - 1;
  }

  /** The day loop. `days[d]` is the commit after which the log holds exactly the changes up to day `d`. */
  method WriteHistory(store: Store, changes: seq<Change>, nDays: nat) returns (days: map<int, int>)
    requires store.log == [] && nDays > 0
    requires InDayOrder(changes) && forall i :: 0 <= i < |changes| ==> changes[i].day >= 1
    modifies store
    ensures MapsDays(days, store.setup, changes, nDays)
    ensures store.log == changes[..Reach(changes, nDays - 1)]
  {
    var byDay := GroupByDay(changes);
    assert Reach(changes, 0) == 0;
    days := map[0 := store.TotalCommits() - 1];
    for day := 1 to nDays
      invariant store.log == changes[..Reach(changes, day - 1)]
      invariant MapsDays(days, store.setup, changes, day)
    {
      var commit := WriteDay(store, changes, OnDay(byDay, day), day);
      days := days[day := commit];
    }
  }

  /** Replaying the log up to a day's commit gives the state of that day. */
  lemma PrefixIsStateAt(base: World, setup: nat, changes: seq<Change>, d: int, last: int)
    requires InDayOrder(changes) && d <= last
    ensures var log := changes[..Reach(changes, last)];
      var n := CommitOf(setup, changes, d) + 1 - setup;
      0 <= n <= |log| && Replay(base, log[..n]) == StateAt(base, changes, d)
  {
    BetweenIsSlice(changes, d, last);
    assert changes[..Reach(changes, last)][..Reach(changes, d)] == changes[..Reach(changes, d)];
  }

  /** Later days never point to earlier commits, and two days share a commit exactly when
    no change lies between them. */
  lemma CommitsFollowDays(setup: nat, changes: seq<Change>, d1: int, d2: int)
    requires InDayOrder(changes) && d1 <= d2
    ensures CommitOf(setup, changes, d1) <= CommitOf(setup, changes, d2)
    ensures CommitOf(setup, changes, d1) == CommitOf(setup, changes, d2) <==> Between(changes, d1, d2) == []
    ensures CommitOf(setup, changes, d2) - CommitOf(setup, changes, d1) == |Between(changes, d1, d2)|
  {
    BetweenIsSlice(changes, d1, d2);
  }
}
