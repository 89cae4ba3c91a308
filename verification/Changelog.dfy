/** Generating a mutation history against a live copy of the world. */
module Changelog {
  import opened Options
  import opened Rules
  import opened Derivation
  import opened History
  import opened Decimal

  const LAST_DAY := 89
  const MUTABLE_FIELDS := {"status", "industry", "specialties", "location", "size_bucket"}
  const LABELS := {"Talent", "Company", "Job"}

  datatype Op = OpSet | OpInsert | OpDelete

  /** `talent-000042` and the like. */
  function NodeKey(l: string, i: nat): string
    requires l in LABELS
  {
    (if l == "Talent" then "talent-" else if l == "Company" then "company-" else "job-") + Padded(i, 6)
  }

  lemma NodeKeyInjective(l: string, i: nat, m: string, j: nat)
    requires l in LABELS && m in LABELS && NodeKey(l, i) == NodeKey(m, j)
    ensures l == m && i == j
  {
    assert NodeKey(l, i)[0] == if l == "Talent" then 't' else if l == "Company" then 'c' else 'j';
    assert NodeKey(m, j)[0] == if m == "Talent" then 't' else if m == "Company" then 'c' else 'j';
    var p := if l == "Talent" then "talent-" else if l == "Company" then "company-" else "job-";
    assert NodeKey(l, i)[|p|..] == Padded(i, 6);
    assert NodeKey(m, j)[|p|..] == Padded(j, 6);
    PaddedInjective(i, j, 6);
  }

  type Counters = map<string, nat>

  /** A key the generator has handed out, given its next index per label. */
  ghost predicate Issued(next: Counters, key: string)
    requires next.Keys == LABELS
  {
    exists l <- LABELS, i: nat :: i < next[l] && key == NodeKey(l, i)
  }

  lemma NextIsFresh(next: Counters, l: string)
    requires next.Keys == LABELS && l in LABELS
    ensures !Issued(next, NodeKey(l, next[l]))
    ensures forall key :: Issued(next, key) ==> Issued(next[l := next[l] + 1], key)
    ensures Issued(next[l := next[l] + 1], NodeKey(l, next[l]))
  {
    if Issued(next, NodeKey(l, next[l])) {
      var m: string, i: nat :| m in LABELS && i < next[m] && NodeKey(l, next[l]) == NodeKey(m, i);
      NodeKeyInjective(l, next[l], m, i);
    }
    forall key | Issued(next, key) ensures Issued(next[l := next[l] + 1], key) {
      var m: string, i: nat :| m in LABELS && i < next[m] && key == NodeKey(m, i);
      assert i < next[l := next[l] + 1][m];
    }
  }

  // ---- what a history must be -----------------------------------------------------------

  /** Every change names a node that is there, or inserts one whose key was never used. */
  ghost predicate Applicable(base: World, cs: seq<Change>, i: nat)
    requires i < |cs|
  {
    if cs[i].InsertNode?
    then cs[i].node.key == cs[i].key && cs[i].key !in base && forall j :: 0 <= j < i ==> cs[j].key != cs[i].key
    else cs[i].key in Replay(base, cs[..i])
  }

  ghost predicate GoodHistory(base: World, cs: seq<Change>)
  {
    && InDayOrder(cs)
    && (forall i :: 0 <= i < |cs| ==> Applicable(base, cs, i))
    && (forall i, j :: 0 <= i < j < |cs| && cs[i].day == cs[j].day ==> cs[i].key != cs[j].key)
    && (forall i, j :: 0 <= i < j < |cs| && cs[i].DeleteNode? ==> cs[i].key != cs[j].key)
  }

  /** What one generated change is, relative to the world it was generated against. */
  ghost predicate Fits(live: World, touched: set<string>, c: Change)
  {
    if c.InsertNode? then c.node.key == c.key && c.key !in live
    else c.key in live && c.key !in touched
  }

  class Generator {
    var live: World
    var touched: set<string>
    var next: Counters

    ghost predicate Valid(ever: set<string>)
      reads this
    {
      && next.Keys == LABELS
      && live.Keys <= ever && touched <= ever
      && forall k <- ever :: Issued(next, k)
    }

    constructor (nodes: World, counts: Counters)
      requires counts.Keys == LABELS && forall k <- nodes :: Issued(counts, k)
      ensures live == nodes && touched == {} && next == counts
    {
      live, touched, next := nodes, {}, counts;
    }

    /** A new entity, at an index its label has not used; everything else about it is random. */
    method FreshNode(ghost ever: set<string>) returns (node: Node)
      requires Valid(ever)
      modifies this`next
      ensures node.key !in ever
      ensures next.Keys == LABELS && Issued(next, node.key) && forall k <- ever :: Issued(next, k)
    {
      var l: string :| l in LABELS;
      var i := next[l];
      NextIsFresh(next, l);
      next := next[l := i + 1];
      var props: Props := *;
      node := Node(NodeKey(l, i), l, props);
    }

    /** Some live key not yet touched today, if there is one. */
    method Pick() returns (key: Option<string>)
      ensures key.Some? ==> key.value in live && key.value !in touched
      ensures key.None? ==> live.Keys <= touched
    {
      var candidates := set k | k in live && k !in touched;
      if candidates == {} {
        assert forall k <- live :: k in candidates || k in touched;
        return None;
      }
      var k: string :| k in candidates;
      return Some(k);
    }

    method Insert(day: int, ghost ever: set<string>) returns (c: Change)
      requires Valid(ever)
      modifies this`next, this`live
      ensures c.InsertNode? && c.day == day && c.node.key == c.key && c.key !in ever
      ensures live == Apply(old(live), c)
      ensures Valid(ever + {c.key})
    {
      var node := FreshNode(ever);
      live := live[node.key := node];
      c := InsertNode(day, node.key, node);
    }

    method OneChange(op: Op, day: int, ghost ever: set<string>) returns (c: Change)
      requires Valid(ever)
      modifies this`next, this`live
      ensures c.day == day && Fits(old(live), touched, c) && (c.InsertNode? ==> c.key !in ever)
      ensures live == Apply(old(live), c)
      ensures Valid(ever + {c.key})
      ensures op.OpInsert? ==> c.InsertNode?
      ensures op.OpDelete? ==> c.DeleteNode? || (c.InsertNode? && old(live).Keys <= touched)
      ensures op.OpSet? ==> (c.SetProp? && c.field in MUTABLE_FIELDS) || (c.InsertNode? && old(live).Keys <= touched)
    {
      if op.OpInsert? {
        c := Insert(day, ever);
        return;
      }
      var key := Pick();
      if key.None? {
        c := Insert(day, ever);
        return;
      }
      var k := key.value;
      assert ever + {k} == ever;
      if op.OpDelete? {
        live := live - {k};
        c := DeleteNode(day, k);
        return;
      }
      var field: string :| field in MUTABLE_FIELDS;
      var value: Value := *;
      live := live[k := live[k].(props := live[k].props[field := value])];
      c := SetProp(day, k, field, value);
    }
  }

  /** What the loop knows after the changes so far. */
  ghost predicate Progress(base: World, cs: seq<Change>, live: World, touched: set<string>, day: int, ever: set<string>)
  {
    && GoodHistory(base, cs)
    && live == Replay(base, cs)
    && base.Keys <= ever
    && (forall i :: 0 <= i < |cs| ==> cs[i].key in ever && cs[i].day <= day)
    && (forall i :: 0 <= i < |cs| && cs[i].day == day ==> cs[i].key in touched)
    && (forall i :: 0 <= i < |cs| && cs[i].DeleteNode? ==> cs[i].key !in live)
  }

  lemma ReplaySnoc(base: World, cs: seq<Change>, c: Change)
    ensures Replay(base, cs + [c]) == Apply(Replay(base, cs), c)
  {
    assert (cs + [c])[..|cs|] == cs;
  }

  lemma StillApplicable(base: World, cs: seq<Change>, c: Change, i: nat)
    requires i < |cs| && Applicable(base, cs, i)
    ensures Applicable(base, cs + [c], i)
  {
    assert (cs + [c])[..i] == cs[..i];
  }

  lemma NextApplicable(base: World, cs: seq<Change>, live: World, touched: set<string>, day: int,
                       ever: set<string>, c: Change)
    requires Progress(base, cs, live, touched, day, ever) && Fits(live, touched, c)
    requires c.InsertNode? ==> c.key !in ever
    ensures Applicable(base, cs + [c], |cs|)
  {
    assert (cs + [c])[..|cs|] == cs;
  }

  lemma GoodSnoc(base: World, cs: seq<Change>, live: World, touched: set<string>, day: int, ever: set<string>,
                 c: Change)
    requires Progress(base, cs, live, touched, day, ever) && live.Keys <= ever
    requires c.day == day && Fits(live, touched, c) && (c.InsertNode? ==> c.key !in ever)
    ensures GoodHistory(base, cs + [c])
  {
    var all := cs + [c];
    forall i | 0 <= i < |all| ensures Applicable(base, all, i) {
      if i < |cs| { StillApplicable(base, cs, c, i); } else { NextApplicable(base, cs, live, touched, day, ever, c); }
    }
    assert forall i :: 0 <= i < |cs| ==> all[i] == cs[i];
  }

  lemma ProgressStep(base: World, cs: seq<Change>, live: World, touched: set<string>, day: int, ever: set<string>,
                     c: Change)
    requires Progress(base, cs, live, touched, day, ever) && live.Keys <= ever
    requires c.day == day && Fits(live, touched, c) && (c.InsertNode? ==> c.key !in ever)
    ensures Progress(base, cs + [c], Apply(live, c), touched + {c.key}, day, ever + {c.key})
  {
    ReplaySnoc(base, cs, c);
    GoodSnoc(base, cs, live, touched, day, ever, c);
  }

  lemma ProgressNewDay(base: World, cs: seq<Change>, live: World, touched: set<string>, day: int,
                       ever: set<string>, later: int)
    requires Progress(base, cs, live, touched, day, ever) && day < later
    ensures Progress(base, cs, live, {}, later, ever)
  {
  }

  /** One turn of the loop: a new day starts with nothing touched. */
  method NextChange(g: Generator, op: Op, day: int, currentDay: int, ghost base: World, ghost changes: seq<Change>,
                    ghost ever: set<string>)
    returns (c: Change)
    requires g.Valid(ever) && currentDay <= day
    requires Progress(base, changes, g.live, g.touched, currentDay, ever)
    modifies g
    ensures c.day == day && g.Valid(ever + {c.key})
    ensures Progress(base, changes + [c], g.live, g.touched, day, ever + {c.key})
  {
    if day != currentDay {
      ProgressNewDay(base, changes, g.live, g.touched, currentDay, ever, day);
      g.touched := {};
    }
    ghost var before := g.live;
    c := g.OneChange(op, day, ever);
    ProgressStep(base, changes, before, g.touched, day, ever, c);
    g.touched := g.touched + {c.key};
  }

  lemma AllReached(cs: seq<Change>, day: int)
    requires forall i :: 0 <= i < |cs| ==> cs[i].day <= day
    ensures cs[..Reach(cs, day)] == cs
  {
  }

  /** The whole generator, for every outcome of its draws. `days` are the sorted random days. */
  method Generate(base: World, counts: Counters, ops: seq<Op>, days: seq<int>)
    returns (changes: seq<Change>, live: World)
    requires counts.Keys == LABELS && forall k <- base :: Issued(counts, k)
    requires |ops| == |days|
    requires forall i, j :: 0 <= i < j < |days| ==> days[i] <= days[j]
    requires forall i :: 0 <= i < |days| ==> 1 <= days[i] <= LAST_DAY
    ensures GoodHistory(base, changes) && |changes| == |ops|
    ensures forall i :: 0 <= i < |changes| ==> changes[i].day == days[i]
    ensures live == Replay(base, changes)
    ensures live == StateAt(base, changes, LAST_DAY)
  {
    var g := new Generator(base, counts);
    ghost var ever := base.Keys;
    var currentDay := -1;
    changes := [];
    for n := 0 to |ops|
      invariant |changes| == n && forall i :: 0 <= i < n ==> changes[i].day == days[i]
      invariant currentDay == if n == 0 then -1 else days[n - 1]
      invariant fresh(g) && g.Valid(ever)
      invariant Progress(base, changes, g.live, g.touched, currentDay, ever)
    {
      var c := NextChange(g, ops[n], days[n], currentDay, base, changes, ever);
      currentDay := days[n];
      changes := changes + [c];
      ever := ever + {c.key};
    }
    live := g.live;
    AllReached(changes, LAST_DAY);
  }
}
