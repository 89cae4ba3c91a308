/** Deriving edges: the whole cartesian product, one node against the world, and why
  replacing one node's edges is enough after a change to that node. */
module Derivation {
  import opened Rules

  type World = map<string, Node>

  ghost predicate WellKeyed(nodes: World)
  {
    forall k <- nodes :: nodes[k].key == k
  }

  ghost predicate RuleDerives(geo: Metric, nodes: World, r: Rule, e: Edge)
  {
    e.etype == r.edgeType && e.src in nodes && e.dst in nodes && Links(geo, r, nodes[e.src], nodes[e.dst])
  }

  /** Brute force: some rule links the two nodes. */
  ghost predicate Derives(geo: Metric, nodes: World, rules: seq<Rule>, e: Edge)
  {
    exists r <- rules :: RuleDerives(geo, nodes, r, e)
  }

  /** `edges` is exactly what the rules derive. */
  ghost predicate IsDerived(geo: Metric, nodes: World, rules: seq<Rule>, edges: set<Edge>)
  {
    forall e :: e in edges <==> Derives(geo, nodes, rules, e)
  }

  predicate Touches(e: Edge, key: string) { e.src == key || e.dst == key }

  /** `edges` is exactly the derived edges with `key` at either end. */
  ghost predicate IsDerivedAt(geo: Metric, nodes: World, rules: seq<Rule>, key: string, edges: set<Edge>)
  {
    forall e :: e in edges <==> Derives(geo, nodes, rules, e) && Touches(e, key)
  }

  // ---- the loops --------------------------------------------------------------

  ghost predicate GroupedBy(nodes: World, index: map<string, seq<Node>>, done: set<string>)
    requires done <= nodes.Keys
  {
    && (forall l <- index, n <- index[l] :: n.key in nodes && nodes[n.key] == n && n.nodeLabel == l)
    && (forall k <- done :: nodes[k].nodeLabel in index && nodes[k] in index[nodes[k].nodeLabel])
  }

  /** The nodes grouped by label. */
  method ByLabel(nodes: World) returns (index: map<string, seq<Node>>)
    requires WellKeyed(nodes)
    ensures GroupedBy(nodes, index, nodes.Keys)
  {
    index := map[];
    var todo := nodes.Keys;
    while todo != {}
      invariant todo <= nodes.Keys
      invariant GroupedBy(nodes, index, nodes.Keys - todo)
    {
      var k :| k in todo;
      var n := nodes[k];
      index := index[n.nodeLabel := (if n.nodeLabel in index then index[n.nodeLabel] else []) + [n]];
      todo := todo - {k};
    }
  }

  function Group(index: map<string, seq<Node>>, l: string): seq<Node>
  {
    if l in index then index[l] else []
  }

  ghost predicate FromTo(geo: Metric, r: Rule, srcs: seq<Node>, dsts: seq<Node>, e: Edge)
  {
    exists s <- srcs, d <- dsts :: e == Edge(r.edgeType, s.key, d.key) && Eval(geo, r.test, s.props, d.props)
  }

  /** The edges of one rule between one source and a list of destinations. */
  method LinkFrom(geo: Metric, r: Rule, src: Node, dsts: seq<Node>) returns (edges: set<Edge>)
    ensures forall e :: e in edges <==> FromTo(geo, r, [src], dsts, e)
  {
    edges := {};
    for d := 0 to |dsts|
      invariant forall e :: e in edges <==> FromTo(geo, r, [src], dsts[..d], e)
    {
      assert dsts[..d + 1] == dsts[..d] + [dsts[d]];
      if Eval(geo, r.test, src.props, dsts[d].props) {
        edges := edges + {Edge(r.edgeType, src.key, dsts[d].key)};
      }
    }
    assert dsts[..|dsts|] == dsts;
  }

  method LinkTo(geo: Metric, r: Rule, srcs: seq<Node>, dst: Node) returns (edges: set<Edge>)
    ensures forall e :: e in edges <==> FromTo(geo, r, srcs, [dst], e)
  {
    edges := {};
    for s := 0 to |srcs|
      invariant forall e :: e in edges <==> FromTo(geo, r, srcs[..s], [dst], e)
    {
      assert srcs[..s + 1] == srcs[..s] + [srcs[s]];
      if Eval(geo, r.test, srcs[s].props, dst.props) {
        edges := edges + {Edge(r.edgeType, srcs[s].key, dst.key)};
      }
    }
    assert srcs[..|srcs|] == srcs;
  }

  method LinkAll(geo: Metric, r: Rule, srcs: seq<Node>, dsts: seq<Node>) returns (edges: set<Edge>)
    ensures forall e :: e in edges <==> FromTo(geo, r, srcs, dsts, e)
  {
    edges := {};
    for s := 0 to |srcs|
      invariant forall e :: e in edges <==> FromTo(geo, r, srcs[..s], dsts, e)
    {
      assert srcs[..s + 1] == srcs[..s] + [srcs[s]];
      var more := LinkFrom(geo, r, srcs[s], dsts);
      edges := edges + more;
    }
    assert srcs[..|srcs|] == srcs;
  }

  lemma GroupsDerive(geo: Metric, nodes: World, index: map<string, seq<Node>>, r: Rule, e: Edge)
    requires WellKeyed(nodes) && GroupedBy(nodes, index, nodes.Keys)
    ensures FromTo(geo, r, Group(index, r.srcLabel), Group(index, r.dstLabel), e) <==> RuleDerives(geo, nodes, r, e)
  {
    if RuleDerives(geo, nodes, r, e) {
      assert nodes[e.src] in Group(index, r.srcLabel) && nodes[e.dst] in Group(index, r.dstLabel);
    }
  }

  lemma DerivesSnoc(geo: Metric, nodes: World, rules: seq<Rule>, i: nat, e: Edge)
    requires i < |rules|
    ensures Derives(geo, nodes, rules[..i + 1], e) <==>
      Derives(geo, nodes, rules[..i], e) || RuleDerives(geo, nodes, rules[i], e)
  {
    assert rules[..i + 1] == rules[..i] + [rules[i]];
  }

  /** Every edge the rules derive over these nodes. */
  method DerivedEdges(geo: Metric, nodes: World, rules: seq<Rule>) returns (edges: set<Edge>)
    requires WellKeyed(nodes)
    ensures IsDerived(geo, nodes, rules, edges)
  {
    edges := {};
    var index := ByLabel(nodes);
    for i := 0 to |rules|
      invariant IsDerived(geo, nodes, rules[..i], edges)
    {
      var more := LinkAll(geo, rules[i], Group(index, rules[i].srcLabel), Group(index, rules[i].dstLabel));
      forall e { GroupsDerive(geo, nodes, index, rules[i], e); }
      forall e { DerivesSnoc(geo, nodes, rules, i, e); }
      edges := edges + more;
    }
    assert rules[..|rules|] == rules;
  }

  /** Every derived edge with `key` at either end, from that node alone. */
  method EdgesOf(geo: Metric, nodes: World, rules: seq<Rule>, key: string) returns (edges: set<Edge>)
    requires WellKeyed(nodes)
    ensures IsDerivedAt(geo, nodes, rules, key, edges)
  {
    edges := {};
    if key !in nodes { return; }
    var node := nodes[key];
    var grouped := ByLabel(nodes);
    for i := 0 to |rules|
      invariant IsDerivedAt(geo, nodes, rules[..i], key, edges)
    {
      var rule := rules[i];
      var more := EdgesOfRule(geo, nodes, grouped, rule, node);
      forall e { DerivesSnoc(geo, nodes, rules, i, e); }
      edges := edges + more;
    }
    assert rules[..|rules|] == rules;
  }

  method EdgesOfRule(geo: Metric, nodes: World, grouped: map<string, seq<Node>>, rule: Rule, node: Node)
    returns (edges: set<Edge>)
    requires WellKeyed(nodes) && GroupedBy(nodes, grouped, nodes.Keys)
    requires node.key in nodes && nodes[node.key] == node
    ensures forall e :: e in edges <==> RuleDerives(geo, nodes, rule, e) && Touches(e, node.key)
  {
    edges := {};
    if node.nodeLabel == rule.srcLabel {
      var outgoing := LinkFrom(geo, rule, node, Group(grouped, rule.dstLabel));
      edges := edges + outgoing;
    }
    if node.nodeLabel == rule.dstLabel {
      var incoming := LinkTo(geo, rule, Group(grouped, rule.srcLabel), node);
      edges := edges + incoming;
    }
    forall e { GroupsDerive(geo, nodes, grouped, rule, e); }
    forall e | RuleDerives(geo, nodes, rule, e) && Touches(e, node.key) ensures e in edges {
      var s :| s in Group(grouped, rule.srcLabel) && s.key == e.src && s == nodes[e.src];
      var d :| d in Group(grouped, rule.dstLabel) && d.key == e.dst && d == nodes[e.dst];
    }
  }

  // ---- one node changes ---------------------------------------------------------

  /** The two worlds agree on every node but `key`. */
  ghost predicate AgreeExcept(a: World, b: World, key: string)
  {
    forall k :: k != key ==> (k in a <==> k in b) && (k in a ==> a[k] == b[k])
  }

  lemma UntouchedKept(geo: Metric, a: World, b: World, rules: seq<Rule>, key: string, e: Edge)
    requires AgreeExcept(a, b, key) && !Touches(e, key)
    ensures Derives(geo, a, rules, e) <==> Derives(geo, b, rules, e)
  {
    assert forall r <- rules :: RuleDerives(geo, a, r, e) <==> RuleDerives(geo, b, r, e);
  }

  /** Replacing the changed node's own edges turns the old derivation into the new one. */
  lemma ReplaceOneNode(geo: Metric, a: World, b: World, rules: seq<Rule>, key: string,
                       edges: set<Edge>, before: set<Edge>, after: set<Edge>)
    requires AgreeExcept(a, b, key)
    requires IsDerived(geo, a, rules, edges)
    requires IsDerivedAt(geo, a, rules, key, before) && IsDerivedAt(geo, b, rules, key, after)
    ensures IsDerived(geo, b, rules, edges - before + after)
    ensures forall now :: IsDerived(geo, b, rules, now) ==> edges - now == before - after
  {
    forall e | !Touches(e, key) { UntouchedKept(geo, a, b, rules, key, e); }
  }
}
