/** The hand-rolled edge set against the rule that says the same thing. */
module Drift {
  import opened Options
  import opened Rules
  import opened Derivation
  import opened Handrolled

  const SPECIALTY := "specialties"
  const SpecialtyRule := Rule("bench_hr_spec", "Talent", "Company", "SPECIALTY_MATCH", Overlap(SPECIALTY, OVERLAP_MIN))

  function AsList(xs: seq<string>): Value { List(seq(|xs|, i requires 0 <= i < |xs| => Str(xs[i]))) }

  /** The node the rule engine sees. A node with no specialties has no such prop. */
  ghost function AsNode(n: NodeObj): Node
    reads n
  {
    Node(n.key, n.nodeLabel, if n.specialties.Some? then map[SPECIALTY := AsList(n.specialties.value)] else map[])
  }

  ghost function AsWorld(nodes: seq<NodeObj>): World
    requires DistinctKeys(nodes)
    reads nodes
  {
    map n | n in nodes :: n.key := AsNode(n)
  }

  function Image(s: set<string>): set<Value> { set x | x in s :: Str(x) }

  lemma {:induction false} ImageSize(s: set<string>)
    ensures |Image(s)| == |s|
  {
    if s != {} {
      var x :| x in s;
      ImageSize(s - {x});
      assert Image(s) == Image(s - {x}) + {Str(x)};
    }
  }

  lemma TokensOfList(xs: seq<string>)
    ensures ListTokens(AsList(xs)) == Some(Image(Tokens(xs)))
  {
    var items := AsList(xs).items;
    forall v ensures v in items && ValueKey(v).Some? <==> v in Image(Tokens(xs)) {
      if v in Image(Tokens(xs)) {
        var x :| x in Tokens(xs) && v == Str(x);
        var i :| 0 <= i < |xs| && xs[i] == x;
        assert items[i] == v;
      }
      if v in items {
        var i :| 0 <= i < |items| && items[i] == v;
        assert xs[i] in Tokens(xs);
      }
    }
    assert ListTokens(AsList(xs)).value == Image(Tokens(xs));
  }

  /** The script's Jaccard test is the rule's. */
  lemma MatchIsOverlap(a: seq<string>, b: seq<string>)
    ensures Matches(a, b) <==> LeafOverlap(AsList(a), AsList(b), OVERLAP_MIN)
  {
    TokensOfList(a);
    TokensOfList(b);
    var sa, sb := Tokens(a), Tokens(b);
    assert Image(sa) * Image(sb) == Image(sa * sb);
    assert Image(sa) + Image(sb) == Image(sa + sb);
    ImageSize(sa * sb);
    ImageSize(sa + sb);
    assert sa * sb == {} <==> Image(sa * sb) == {};
    assert |sa * sb| <= |sa + sb| by {
      assert sa + sb == (sa * sb) + ((sa + sb) - (sa * sb));
    }
  }

  lemma PairMatch(geo: Metric, a: NodeObj, b: NodeObj)
    ensures Matches(a.Specialties(), b.Specialties()) <==>
      Eval(geo, SpecialtyRule.test, AsNode(a).props, AsNode(b).props)
  {
    MatchIsOverlap(a.Specialties(), b.Specialties());
    assert Tokens([]) == {};
  }

  /** No drift: an edge set that is exact under the nodes' current specialties is what the
    rule derives over the same nodes, edge for edge. */
  lemma ZeroDrift(geo: Metric, nodes: seq<NodeObj>, edges: set<Pair>)
    requires DistinctKeys(nodes)
    requires Exact(edges, SpecsOf(nodes, "Talent"), SpecsOf(nodes, "Company"))
    ensures forall t, c :: (t, c) in edges <==>
      Derives(geo, AsWorld(nodes), [SpecialtyRule], Edge("SPECIALTY_MATCH", t, c))
  {
    var world := AsWorld(nodes);
    forall t, c
      ensures (t, c) in edges <==> Derives(geo, world, [SpecialtyRule], Edge("SPECIALTY_MATCH", t, c))
    {
      PairDrift(geo, nodes, edges, t, c);
    }
  }

  /** What the two views say about one node. */
  lemma NodeViews(nodes: seq<NodeObj>, n: NodeObj, l: string)
    requires DistinctKeys(nodes) && n in nodes
    ensures n.key in AsWorld(nodes) && AsWorld(nodes)[n.key] == AsNode(n)
    ensures n.key in SpecsOf(nodes, l) <==> n.nodeLabel == l
    ensures n.nodeLabel == l ==> SpecsOf(nodes, l)[n.key] == n.Specialties()
  {
  }

  lemma PairOfNodes(geo: Metric, nodes: seq<NodeObj>, edges: set<Pair>, a: NodeObj, b: NodeObj)
    requires DistinctKeys(nodes) && a in nodes && b in nodes
    requires Exact(edges, SpecsOf(nodes, "Talent"), SpecsOf(nodes, "Company"))
    ensures (a.key, b.key) in edges <==>
      RuleDerives(geo, AsWorld(nodes), SpecialtyRule, Edge("SPECIALTY_MATCH", a.key, b.key))
  {
    NodeViews(nodes, a, "Talent");
    NodeViews(nodes, b, "Company");
    PairMatch(geo, a, b);
  }

  lemma PairDrift(geo: Metric, nodes: seq<NodeObj>, edges: set<Pair>, t: string, c: string)
    requires DistinctKeys(nodes)
    requires Exact(edges, SpecsOf(nodes, "Talent"), SpecsOf(nodes, "Company"))
    ensures (t, c) in edges <==> RuleDerives(geo, AsWorld(nodes), SpecialtyRule, Edge("SPECIALTY_MATCH", t, c))
  {
    if a, b :| a in nodes && b in nodes && a.key == t && b.key == c {
      PairOfNodes(geo, nodes, edges, a, b);
    }
  }
}
