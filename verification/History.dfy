/** The changelog: replaying it to a day, keeping the edge set through it, and the
  counterfactual question on top. */
module History {
  import opened Rules
  import opened Derivation

  datatype Change =
    | SetProp(day: int, key: string, field: string, value: Value)
    | DeleteNode(day: int, key: string)
    | InsertNode(day: int, key: string, node: Node)

  /** The record an insertion carries is the one its key names. */
  predicate Keyed(c: Change) { c.InsertNode? ==> c.node.key == c.key }

  ghost predicate AllKeyed(cs: seq<Change>)
  {
    forall c <- cs :: Keyed(c)
  }

  function WithProp(n: Node, field: string, value: Value): Node
  {
    n.(props := n.props[field := value])
  }

  /** One change. A change to a missing key does nothing. */
  function Apply(nodes: World, c: Change): World
  {
    match c
    case SetProp(_, key, field, value) =>
      if key in nodes then nodes[key := WithProp(nodes[key], field, value)] else nodes
    case DeleteNode(_, key) => nodes - {key}
    case InsertNode(_, key, node) => nodes[key := node]
  }

  function Replay(nodes: World, cs: seq<Change>): World
    decreases |cs|
  {
    if cs == [] then nodes else Apply(Replay(nodes, cs[..|cs| - 1]), cs[|cs| - 1])
  }

  lemma {:induction false} ReplayConcat(nodes: World, a: seq<Change>, b: seq<Change>)
    ensures Replay(nodes, a + b) == Replay(Replay(nodes, a), b)
    decreases |b|
  {
    if b == [] {
      assert a + b == a;
    } else {
      ReplayConcat(nodes, a, b[..|b| - 1]);
      assert (a + b)[..|a + b| - 1] == a + b[..|b| - 1];
    }
  }

  lemma {:induction false} ReplayKeyed(nodes: World, cs: seq<Change>)
    requires WellKeyed(nodes) && AllKeyed(cs)
    ensures WellKeyed(Replay(nodes, cs))
    decreases |cs|
  {
    if cs != [] {
      ReplayKeyed(nodes, cs[..|cs| - 1]);
      assert Keyed(cs[|cs| - 1]);
    }
  }

  // ---- maintaining the edges through a history -----------------------------------

  /** An edge set kept through a history: `edges[i]` before change `i`, which replaces the
    changed key's `before[i]` by its `after[i]` and touches nothing else. */
  ghost predicate Maintained(geo: Metric, base: World, rules: seq<Rule>, changes: seq<Change>,
                             edges: seq<set<Edge>>, before: seq<set<Edge>>, after: seq<set<Edge>>)
  {
    && |edges| == |changes| + 1 && |before| == |after| == |changes|
    && IsDerived(geo, base, rules, edges[0])
    && forall i :: 0 <= i < |changes| ==>
         && IsDerivedAt(geo, Replay(base, changes[..i]), rules, changes[i].key, before[i])
         && IsDerivedAt(geo, Replay(base, changes[..i + 1]), rules, changes[i].key, after[i])
         && edges[i + 1] == edges[i] - before[i] + after[i]
  }

  /** Re-deriving only the changed key's edges, at every step of any history, keeps the
    set equal to what brute force derives on the state of that moment. */
  lemma {:induction false} MaintainedIsDerived(geo: Metric, base: World, rules: seq<Rule>, changes: seq<Change>,
                                               edges: seq<set<Edge>>, before: seq<set<Edge>>, after: seq<set<Edge>>,
                                               n: nat)
    requires Maintained(geo, base, rules, changes, edges, before, after)
    requires n <= |changes|
    ensures IsDerived(geo, Replay(base, changes[..n]), rules, edges[n])
    decreases n
  {
    if n == 0 {
      assert changes[..0] == [];
    } else {
      var i := n - 1;
      MaintainedIsDerived(geo, base, rules, changes, edges, before, after, i);
      assert changes[..n][..i] == changes[..i];
      ReplaceOneNode(geo, Replay(base, changes[..i]), Replay(base, changes[..n]), rules, changes[i].key,
                     edges[i], before[i], after[i]);
    }
  }

  // ---- the state on a day ----------------------------------------------------------

  ghost predicate InDayOrder(cs: seq<Change>)
  {
    forall i, j :: 0 <= i < j < |cs| ==> cs[i].day <= cs[j].day
  }

  /** How many changes the replay reaches: it stops at the first one after `day`. */
  function Reach(cs: seq<Change>, day: int): (n: nat)
    ensures n <= |cs|
    ensures forall i :: 0 <= i < n ==> cs[i].day <= day
    ensures n < |cs| ==> cs[n].day > day
  {
    if cs == [] || cs[0].day > day then 0 else 1 + Reach(cs[1..], day)
  }

  function StateAt(base: World, cs: seq<Change>, day: int): World
  {
    Replay(base, cs[..Reach(cs, day)])
  }

  /** The nodes of a list by key; a later node with the same key wins. */
  function ByKey(list: seq<Node>): (nodes: World)
    ensures WellKeyed(nodes)
  {
    if list == [] then map[] else ByKey(list[..|list| - 1])[list[|list| - 1].key := list[|list| - 1]]
  }

  method ReplayTo(base: seq<Node>, changes: seq<Change>, day: int) returns (nodes: World)
    ensures nodes == StateAt(ByKey(base), changes, day)
  {
    nodes := ByKey(base);
    var i := 0;
    while i < |changes|
      invariant 0 <= i <= Reach(changes, day)
      invariant nodes == Replay(ByKey(base), changes[..i])
    {
      var change := changes[i];
      if change.day > day { break; }
      match change {
        case SetProp(_, key, field, value) =>
          if key in nodes {
            nodes := nodes[key := nodes[key].(props := nodes[key].props[field := value])];
          }
        case DeleteNode(_, key) => nodes := nodes - {key};
        case InsertNode(_, key, node) => nodes := nodes[key := node];
      }
      assert changes[..i + 1][..i] == changes[..i];
      i := i + 1;
    }
  }

  /** The changes of days `from` + 1 to `to`. */
  function Between(cs: seq<Change>, from: int, to: int): seq<Change>
  {
    if cs == [] then []
    else (if from < cs[0].day <= to then [cs[0]] else []) + Between(cs[1..], from, to)
  }

  lemma SliceTail(cs: seq<Change>, a: nat, b: nat)
    requires a <= b < |cs|
    ensures cs[1..][a..b] == cs[1 + a..1 + b]
  {
  }

  lemma SliceHead(cs: seq<Change>, b: nat)
    requires b < |cs|
    ensures [cs[0]] + cs[1..][0..b] == cs[0..1 + b]
  {
  }

  lemma LateUnreached(cs: seq<Change>, day: int)
    requires InDayOrder(cs) && cs != [] && cs[0].day > day
    ensures Reach(cs, day) == 0 && Reach(cs[1..], day) == 0
  {
    if |cs| > 1 { assert cs[1..][0] == cs[1]; }
  }

  ghost predicate IsSlice(cs: seq<Change>, from: int, to: int)
  {
    Reach(cs, from) <= Reach(cs, to) && Between(cs, from, to) == cs[Reach(cs, from)..Reach(cs, to)]
  }

  lemma SliceGrows(cs: seq<Change>, from: int, to: int)
    requires InDayOrder(cs) && from <= to && cs != [] && IsSlice(cs[1..], from, to)
    ensures IsSlice(cs, from, to)
  {
    var a, b := Reach(cs[1..], from), Reach(cs[1..], to);
    if cs[0].day > to {
      LateUnreached(cs, from);
      LateUnreached(cs, to);
    } else if cs[0].day > from {
      LateUnreached(cs, from);
      SliceHead(cs, b);
    } else {
      SliceTail(cs, a, b);
    }
  }

  lemma {:induction false} BetweenIsSlice(cs: seq<Change>, from: int, to: int)
    requires InDayOrder(cs) && from <= to
    ensures Reach(cs, from) <= Reach(cs, to)
    ensures Between(cs, from, to) == cs[Reach(cs, from)..Reach(cs, to)]
  {
    if cs == [] {
      assert IsSlice(cs, from, to);
    } else {
      assert InDayOrder(cs[1..]);
      BetweenIsSlice(cs[1..], from, to);
      SliceGrows(cs, from, to);
    }
  }

  /** The state on a later day is the state on the earlier one followed by exactly the
    changes dated in between. */
  lemma StateAtAdvances(base: World, cs: seq<Change>, from: int, to: int)
    requires InDayOrder(cs) && from <= to
    ensures StateAt(base, cs, to) == Replay(StateAt(base, cs, from), Between(cs, from, to))
  {
    BetweenIsSlice(cs, from, to);
    var i, j := Reach(cs, from), Reach(cs, to);
    assert cs[..j] == cs[..i] + cs[i..j];
    ReplayConcat(base, cs[..i], cs[i..j]);
  }

  /** Out of day order the replay stops early: a day-1 change after a day-2 one is not
    in the state of day 1. */
  lemma ReplayNeedsDayOrder()
    ensures exists base, cs :: StateAt(base, cs, 1) != Replay(StateAt(base, cs, 0), Between(cs, 0, 1))
  {
    var n := Node("a", "Talent", map[]);
    var cs := [DeleteNode(2, "b"), DeleteNode(1, "a")];
    var base: World := map["a" := n];
    assert Reach(cs, 1) == 0;
    assert StateAt(base, cs, 1) == base == StateAt(base, cs, 0);
    assert cs[1..][1..] == [];
    assert Between(cs, 0, 1) == [DeleteNode(1, "a")];
    var d := [DeleteNode(1, "a")];
    assert d[..0] == [];
    assert Replay(base, d) == base - {"a"};
    assert "a" in base && "a" !in Replay(base, d);
  }

  // ---- the counterfactual ------------------------------------------------------------

  datatype Answer = Lost(edges: set<Edge>) | NoSuchKey

  /** The edges that disappear if `key`'s `field` became `value` on `day`: exactly those
    the whole world loses. */
  method Retraction(geo: Metric, base: seq<Node>, changes: seq<Change>, rules: seq<Rule>,
                    day: int, key: string, field: string, value: Value) returns (answer: Answer)
    requires AllKeyed(changes)
    ensures var nodes := StateAt(ByKey(base), changes, day);
      if key !in nodes then answer.NoSuchKey?
      else
        answer.Lost? &&
        forall e :: e in answer.edges <==>
          Derives(geo, nodes, rules, e) && !Derives(geo, nodes[key := WithProp(nodes[key], field, value)], rules, e)
  {
    var nodes := ReplayTo(base, changes, day);
    ReplayKeyed(ByKey(base), changes[..Reach(changes, day)]);
    if key !in nodes { return NoSuchKey; }
    var before := EdgesOf(geo, nodes, rules, key);
    ghost var was := nodes;
    nodes := nodes[key := nodes[key].(props := nodes[key].props[field := value])];
    var after := EdgesOf(geo, nodes, rules, key);
    answer := Lost(before - after);
    forall e | !Touches(e, key) { UntouchedKept(geo, was, nodes, rules, key, e); }
  }
}
