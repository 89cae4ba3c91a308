/** The state on a day, told by the last change that bears on each node and each field. */
module LastWriter {
  import opened Options
  import opened Rules
  import opened Derivation
  import opened History

  /** The change makes or removes the node. */
  predicate Structural(c: Change, key: string) { c.key == key && !c.SetProp? }

  /** The change bears on this field: it writes it, or makes or removes the node. */
  predicate Affects(c: Change, key: string, f: string) { c.key == key && (c.SetProp? ==> c.field == f) }

  ghost predicate StructuralAfter(cs: seq<Change>, i: int, key: string)
  {
    exists j :: i < j < |cs| && 0 <= j && Structural(cs[j], key)
  }

  ghost predicate AffectedAfter(cs: seq<Change>, i: int, key: string, f: string)
  {
    exists j :: i < j < |cs| && 0 <= j && Affects(cs[j], key, f)
  }

  ghost predicate LastStructural(cs: seq<Change>, i: int, key: string)
  {
    0 <= i < |cs| && Structural(cs[i], key) && !StructuralAfter(cs, i, key)
  }

  ghost predicate LastAffecting(cs: seq<Change>, i: int, key: string, f: string)
  {
    0 <= i < |cs| && Affects(cs[i], key, f) && !AffectedAfter(cs, i, key, f)
  }

  lemma StructuralSnoc(cs: seq<Change>, c: Change, i: int, key: string)
    requires -1 <= i < |cs|
    ensures StructuralAfter(cs + [c], i, key) <==> StructuralAfter(cs, i, key) || Structural(c, key)
  {
    var all := cs + [c];
    if StructuralAfter(cs, i, key) {
      var j :| i < j < |cs| && 0 <= j && Structural(cs[j], key);
      assert Structural(all[j], key);
    }
    if Structural(c, key) { assert Structural(all[|cs|], key); }
  }

  lemma AffectedSnoc(cs: seq<Change>, c: Change, i: int, key: string, f: string)
    requires -1 <= i < |cs|
    ensures AffectedAfter(cs + [c], i, key, f) <==> AffectedAfter(cs, i, key, f) || Affects(c, key, f)
  {
    var all := cs + [c];
    if AffectedAfter(cs, i, key, f) {
      var j :| i < j < |cs| && 0 <= j && Affects(cs[j], key, f);
      assert Affects(all[j], key, f);
    }
    if Affects(c, key, f) { assert Affects(all[|cs|], key, f); }
  }

  // ---- the nodes ----------------------------------------------------------------------------

  /** The node's label, if it is there. */
  function LabelIn(nodes: World, key: string): Option<string>
  {
    if key in nodes then Some(nodes[key].nodeLabel) else None
  }

  ghost predicate NodeByLast(nodes: World, cs: seq<Change>, now: World, key: string)
  {
    && (!StructuralAfter(cs, -1, key) ==> LabelIn(now, key) == LabelIn(nodes, key))
    && (forall i :: LastStructural(cs, i, key) ==>
          LabelIn(now, key) == if cs[i].InsertNode? then Some(cs[i].node.nodeLabel) else None)
  }

  lemma NodeStep(nodes: World, cs: seq<Change>, c: Change, now: World, key: string)
    requires NodeByLast(nodes, cs, now, key)
    ensures NodeByLast(nodes, cs + [c], Apply(now, c), key)
  {
    var all := cs + [c];
    StructuralSnoc(cs, c, -1, key);
    forall i | LastStructural(all, i, key)
      ensures LabelIn(Apply(now, c), key) == if all[i].InsertNode? then Some(all[i].node.nodeLabel) else None
    {
      if i < |cs| {
        StructuralSnoc(cs, c, i, key);
        assert LastStructural(cs, i, key);
      }
    }
  }

  /** After any changes a node is there, with the label it was inserted with, if the last
    change that made or removed it made it; if none did, as before. */
  lemma {:induction false} NodeFollowsLast(nodes: World, cs: seq<Change>, key: string)
    ensures NodeByLast(nodes, cs, Replay(nodes, cs), key)
    decreases |cs|
  {
    if cs != [] {
      var front, c := cs[..|cs| - 1], cs[|cs| - 1];
      var was := Replay(nodes, front);
      assert cs == front + [c] && Replay(nodes, cs) == Apply(was, c);
      NodeFollowsLast(nodes, front, key);
      NodeStep(nodes, front, c, was, key);
    }
  }

  // ---- the fields ----------------------------------------------------------------------------

  function FieldIn(nodes: World, key: string, f: string): Option<Value>
  {
    if key in nodes && f in nodes[key].props then Some(nodes[key].props[f]) else None
  }

  function FieldOf(n: Node, f: string): Option<Value> { if f in n.props then Some(n.props[f]) else None }

  /** What the field holds when this was the last change to bear on it. */
  ghost predicate FieldFrom(c: Change, now: World, key: string, f: string)
  {
    match c
    case SetProp(_, _, _, value) => key in now ==> FieldIn(now, key, f) == Some(value)
    case DeleteNode(_, _) => key !in now
    case InsertNode(_, _, node) => key in now && FieldIn(now, key, f) == FieldOf(node, f)
  }

  ghost predicate FieldByLast(nodes: World, cs: seq<Change>, now: World, key: string, f: string)
  {
    && (!AffectedAfter(cs, -1, key, f) ==>
          (key in now <==> key in nodes) && FieldIn(now, key, f) == FieldIn(nodes, key, f))
    && (forall i :: LastAffecting(cs, i, key, f) ==> FieldFrom(cs[i], now, key, f))
  }

  lemma OtherChange(now: World, c: Change, key: string, f: string)
    requires !Affects(c, key, f)
    ensures var t := Apply(now, c); (key in t <==> key in now) && FieldIn(t, key, f) == FieldIn(now, key, f)
  {
  }

  lemma FieldStep(nodes: World, cs: seq<Change>, c: Change, now: World, key: string, f: string)
    requires FieldByLast(nodes, cs, now, key, f)
    ensures FieldByLast(nodes, cs + [c], Apply(now, c), key, f)
  {
    var all := cs + [c];
    AffectedSnoc(cs, c, -1, key, f);
    if !Affects(c, key, f) { OtherChange(now, c, key, f); }
    forall i | LastAffecting(all, i, key, f) ensures FieldFrom(all[i], Apply(now, c), key, f) {
      if i < |cs| {
        AffectedSnoc(cs, c, i, key, f);
        assert LastAffecting(cs, i, key, f);
      }
    }
  }

  /** After any changes a field of a node that is there holds what the last change to bear on
    it says: the value written, or the inserted node's; if none did, what it held. */
  lemma {:induction false} FieldFollowsLast(nodes: World, cs: seq<Change>, key: string, f: string)
    ensures FieldByLast(nodes, cs, Replay(nodes, cs), key, f)
    decreases |cs|
  {
    if cs != [] {
      var front, c := cs[..|cs| - 1], cs[|cs| - 1];
      var was := Replay(nodes, front);
      assert cs == front + [c] && Replay(nodes, cs) == Apply(was, c);
      FieldFollowsLast(nodes, front, key, f);
      FieldStep(nodes, front, c, was, key, f);
    }
  }

  // ---- on a day -------------------------------------------------------------------------------

  /** The last change dated up to the day to bear on the field. */
  ghost predicate LastBy(cs: seq<Change>, day: int, i: int, key: string, f: string)
  {
    && 0 <= i < |cs| && cs[i].day <= day && Affects(cs[i], key, f)
    && forall j :: i < j < |cs| && cs[j].day <= day ==> !Affects(cs[j], key, f)
  }

  ghost predicate UntouchedBy(cs: seq<Change>, day: int, key: string, f: string)
  {
    forall j :: 0 <= j < |cs| && cs[j].day <= day ==> !Affects(cs[j], key, f)
  }

  /** In day order, what `state_at` gives for a field is decided by the last change dated up
    to that day, and by the base if there is none. */
  lemma StateByLastWriter(base: World, cs: seq<Change>, day: int, key: string, f: string)
    requires InDayOrder(cs)
    ensures var now := StateAt(base, cs, day);
      && (UntouchedBy(cs, day, key, f) ==>
            (key in now <==> key in base) && FieldIn(now, key, f) == FieldIn(base, key, f))
      && forall i :: LastBy(cs, day, i, key, f) ==> FieldFrom(cs[i], now, key, f)
  {
    var n := Reach(cs, day);
    var reached := cs[..n];
    FieldFollowsLast(base, reached, key, f);
    forall i | 0 <= i < |cs| ensures i < n <==> cs[i].day <= day {
      if n < i { assert cs[n].day <= cs[i].day; }
    }
    forall i | LastBy(cs, day, i, key, f) ensures LastAffecting(reached, i, key, f) {
      assert reached[i] == cs[i];
    }
  }
}
