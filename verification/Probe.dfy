/** The fragmentation probe over a whole world: split some nodes, derive, project back. */
module Probe {
  import opened Rules
  import opened Derivation
  import opened History
  import opened Decimal
  import opened Fragmentation
  import opened Projection

  const MARK := '~'

  /** `key.split("~", 1)[0]` */
  function Canonical(key: string): string
  {
    if key == [] || key[0] == MARK then [] else [key[0]] + Canonical(key[1..])
  }

  predicate IsCanonical(key: string)
  {
    MARK !in key || (|key| >= 2 && key[|key| - 2..] == "~0")
  }

  lemma {:induction false} CanonicalOfPrefix(key: string, rest: string)
    requires MARK !in key && (rest == [] || rest[0] == MARK)
    ensures Canonical(key + rest) == key
  {
    if key == [] {
      assert key + rest == rest;
    } else {
      CanonicalOfPrefix(key[1..], rest);
      assert (key + rest)[1..] == key[1..] + rest;
    }
  }

  lemma CanonicalOfAlias(key: string, a: nat)
    requires MARK !in key
    ensures Canonical(AliasKey(key, a)) == key && Canonical(key) == key
  {
    CanonicalOfPrefix(key, [MARK] + Digits(a));
    assert key + ([MARK] + Digits(a)) == AliasKey(key, a);
    CanonicalOfPrefix(key, []);
    assert key + [] == key;
  }

  lemma AliasKeysDiffer(key: string, a: nat, b: nat)
    requires AliasKey(key, a) == AliasKey(key, b)
    ensures a == b
  {
    assert AliasKey(key, a)[|key| + 1..] == Digits(a);
    assert AliasKey(key, b)[|key| + 1..] == Digits(b);
    ParseDigits(a);
    ParseDigits(b);
  }

  /** Alias 0 is the canonical one, and the only one. */
  lemma CanonicalIsFirst(key: string, a: nat)
    requires MARK !in key
    ensures IsCanonical(AliasKey(key, a)) <==> a == 0
  {
    var s, d := AliasKey(key, a), Digits(a);
    assert s[|key|] == MARK && |s| == |key| + 1 + |d|;
    if |d| >= 2 {
      assert d[|d| - 2] in d && s[|s| - 2] == d[|d| - 2];
      assert s[|s| - 2..][0] != MARK;
    } else {
      assert a < 10 && d == [Digit(a)];
      assert s[|s| - 2..] == [MARK, Digit(a)];
      assert s[|s| - 2..] == "~0" <==> Digit(a) == '0';
    }
  }

  // ---- splitting -----------------------------------------------------------------------

  /** Which nodes are split, into how many aliases, and how. */
  datatype Split = Split(chosen: set<string>, draws: Draws, k: nat)

  predicate MaySplit(n: Node, how: Split) { how.k > 0 && (n.key in how.chosen ==> Splittable(n, how.k)) }

  /** The nodes that stand for `n`. */
  function StandIns(n: Node, how: Split): (out: seq<Node>)
    requires MaySplit(n, how)
    ensures forall m <- out :: m.nodeLabel == n.nodeLabel
  {
    if n.key in how.chosen then Aliases(n, how.draws, how.k) else [n]
  }

  ghost predicate CanSplit(nodes: seq<Node>, how: Split)
  {
    && (forall n <- nodes :: MaySplit(n, how) && MARK !in n.key)
    && (forall i, j :: 0 <= i < j < |nodes| ==> nodes[i].key != nodes[j].key)
  }

  function SplitAll(nodes: seq<Node>, how: Split): seq<Node>
    requires forall n <- nodes :: MaySplit(n, how)
  {
    if nodes == [] then [] else SplitAll(nodes[..|nodes| - 1], how) + StandIns(nodes[|nodes| - 1], how)
  }

  /** The loop of `cell`, for any choice of nodes to split. */
  method SplitNodes(nodes: seq<Node>, how: Split) returns (split: seq<Node>)
    requires forall n <- nodes :: MaySplit(n, how)
    ensures split == SplitAll(nodes, how)
  {
    split := [];
    for i := 0 to |nodes|
      invariant split == SplitAll(nodes[..i], how)
    {
      assert nodes[..i + 1][..i] == nodes[..i];
      assert MaySplit(nodes[i], how);
      if nodes[i].key in how.chosen {
        var aliases := Fragment(nodes[i], how.draws, how.k);
        split := split + aliases;
      } else {
        split := split + [nodes[i]];
      }
    }
    assert nodes[..|nodes|] == nodes;
  }

  lemma {:induction false} SplitMembers(nodes: seq<Node>, how: Split, m: Node)
    requires forall n <- nodes :: MaySplit(n, how)
    ensures m in SplitAll(nodes, how) <==> exists n <- nodes :: m in StandIns(n, how)
  {
    if nodes != [] {
      var front := nodes[..|nodes| - 1];
      SplitMembers(front, how, m);
      assert nodes == front + [nodes[|nodes| - 1]];
    }
  }

  lemma StandInKey(n: Node, how: Split, m: Node)
    requires MaySplit(n, how) && MARK !in n.key && m in StandIns(n, how)
    ensures Canonical(m.key) == n.key
  {
    if n.key in how.chosen {
      var a :| 0 <= a < how.k && Aliases(n, how.draws, how.k)[a] == m;
      CanonicalOfAlias(n.key, a);
    } else {
      CanonicalOfAlias(n.key, 0);
    }
  }

  lemma StandInOfOne(n: Node, how: Split, x: Node, y: Node)
    requires MaySplit(n, how)
    requires x in StandIns(n, how) && y in StandIns(n, how) && x.key == y.key
    ensures x == y
  {
    if n.key in how.chosen {
      var a :| 0 <= a < how.k && Aliases(n, how.draws, how.k)[a] == x;
      var b :| 0 <= b < how.k && Aliases(n, how.draws, how.k)[b] == y;
      AliasKeysDiffer(n.key, a, b);
    }
  }

  lemma OneNodeOfKey(nodes: seq<Node>, how: Split, n: Node, m: Node)
    requires CanSplit(nodes, how) && n in nodes && m in nodes && n.key == m.key
    ensures n == m
  {
    var i :| 0 <= i < |nodes| && nodes[i] == n;
    var j :| 0 <= j < |nodes| && nodes[j] == m;
    assert i == j;
  }

  /** Two stand-ins with one key are the same node. */
  lemma StandInsDistinct(nodes: seq<Node>, how: Split, x: Node, y: Node)
    requires CanSplit(nodes, how)
    requires x in SplitAll(nodes, how) && y in SplitAll(nodes, how) && x.key == y.key
    ensures x == y
  {
    SplitMembers(nodes, how, x);
    SplitMembers(nodes, how, y);
    var n :| n in nodes && x in StandIns(n, how);
    var m :| m in nodes && y in StandIns(m, how);
    StandInKey(n, how, x);
    StandInKey(m, how, y);
    OneNodeOfKey(nodes, how, n, m);
    StandInOfOne(n, how, x, y);
  }

  lemma {:induction false} ByKeyMembers(list: seq<Node>)
    requires forall x, y :: x in list && y in list && x.key == y.key ==> x == y
    ensures forall x <- list :: x.key in ByKey(list) && ByKey(list)[x.key] == x
    ensures forall key <- ByKey(list) :: ByKey(list)[key] in list
  {
    if list != [] { ByKeyMembers(list[..|list| - 1]); }
  }

  // ---- projecting --------------------------------------------------------------------------

  /** The edge (`t`, `a`, `b`) appears when the derived edges are read through `canonical`. */
  ghost predicate Projected(geo: Metric, world: World, rules: seq<Rule>, t: string, a: string, b: string)
  {
    exists e :: Derives(geo, world, rules, e) && e.etype == t && Canonical(e.src) == a && Canonical(e.dst) == b
  }

  function PropsOf(nodes: seq<Node>): seq<Props> { seq(|nodes|, i requires 0 <= i < |nodes| => nodes[i].props) }

  lemma StandInsStandFor(n: Node, how: Split)
    requires MaySplit(n, how)
    ensures StandFor(n, PropsOf(StandIns(n, how)))
  {
    if n.key in how.chosen {
      assert PropsOf(Aliases(n, how.draws, how.k)) == PartsOf(n, how.draws, how.k);
    } else {
      assert PropsOf([n]) == [n.props];
    }
  }

  /** A rule links some stand-ins of the two nodes. */
  ghost predicate LinksStandIns(geo: Metric, r: Rule, a: Node, b: Node, how: Split)
    requires MaySplit(a, how) && MaySplit(b, how)
  {
    exists x <- StandIns(a, how), y <- StandIns(b, how) :: Links(geo, r, x, y)
  }

  lemma LinksStandInsOnProps(geo: Metric, r: Rule, a: Node, b: Node, how: Split)
    requires MaySplit(a, how) && MaySplit(b, how)
    ensures LinksStandIns(geo, r, a, b, how) <==>
      a.nodeLabel == r.srcLabel && b.nodeLabel == r.dstLabel &&
      HoldsOnAliases(geo, r.test, PropsOf(StandIns(a, how)), PropsOf(StandIns(b, how)))
  {
    var xs, ys := StandIns(a, how), StandIns(b, how);
    if LinksStandIns(geo, r, a, b, how) {
      var x, y :| x in xs && y in ys && Links(geo, r, x, y);
      var i :| 0 <= i < |xs| && xs[i] == x;
      var j :| 0 <= j < |ys| && ys[j] == y;
      assert Eval(geo, r.test, PropsOf(xs)[i], PropsOf(ys)[j]);
    }
    if a.nodeLabel == r.srcLabel && b.nodeLabel == r.dstLabel && HoldsOnAliases(geo, r.test, PropsOf(xs), PropsOf(ys)) {
      var i, j :| 0 <= i < |PropsOf(xs)| && 0 <= j < |PropsOf(ys)| && Eval(geo, r.test, PropsOf(xs)[i], PropsOf(ys)[j]);
      assert Links(geo, r, xs[i], ys[j]);
    }
  }

  /** An edge of the split world that reads as (`a`, `b`) is between stand-ins of the two. */
  lemma EdgeStandsFor(geo: Metric, nodes: seq<Node>, r: Rule, how: Split, e: Edge, a: Node, b: Node)
    requires CanSplit(nodes, how) && a in nodes && b in nodes
    requires RuleDerives(geo, ByKey(SplitAll(nodes, how)), r, e)
    requires Canonical(e.src) == a.key && Canonical(e.dst) == b.key
    ensures var world := ByKey(SplitAll(nodes, how));
      && world[e.src] in StandIns(a, how) && world[e.dst] in StandIns(b, how)
      && world[e.src].key == e.src && Links(geo, r, world[e.src], world[e.dst])
  {
    var world := ByKey(SplitAll(nodes, how));
    SplitIsKeyed(nodes, how);
    StandInOf(nodes, how, a, world[e.src]);
    StandInOf(nodes, how, b, world[e.dst]);
  }

  /** And an edge between stand-ins is an edge of the split world that reads so. */
  lemma StandInsDerive(geo: Metric, nodes: seq<Node>, r: Rule, how: Split, a: Node, b: Node, x: Node, y: Node)
    requires CanSplit(nodes, how) && a in nodes && b in nodes
    requires x in StandIns(a, how) && y in StandIns(b, how) && Links(geo, r, x, y)
    ensures RuleDerives(geo, ByKey(SplitAll(nodes, how)), r, Edge(r.edgeType, x.key, y.key))
    ensures Canonical(x.key) == a.key && Canonical(y.key) == b.key
  {
    SplitIsKeyed(nodes, how);
    SplitMembers(nodes, how, x);
    SplitMembers(nodes, how, y);
    StandInKey(a, how, x);
    StandInKey(b, how, y);
  }

  /** The projection, pair by pair. */
  lemma ProjectedIsPairwise(geo: Metric, nodes: seq<Node>, rules: seq<Rule>, how: Split, t: string, a: Node, b: Node)
    requires CanSplit(nodes, how) && a in nodes && b in nodes
    ensures Projected(geo, ByKey(SplitAll(nodes, how)), rules, t, a.key, b.key) <==>
      exists r <- rules :: r.edgeType == t && LinksStandIns(geo, r, a, b, how)
  {
    var world := ByKey(SplitAll(nodes, how));
    if Projected(geo, world, rules, t, a.key, b.key) {
      var e :| Derives(geo, world, rules, e) && e.etype == t && Canonical(e.src) == a.key && Canonical(e.dst) == b.key;
      var r :| r in rules && RuleDerives(geo, world, r, e);
      EdgeStandsFor(geo, nodes, r, how, e, a, b);
      assert LinksStandIns(geo, r, a, b, how);
    }
    if r :| r in rules && r.edgeType == t && LinksStandIns(geo, r, a, b, how) {
      var x, y :| x in StandIns(a, how) && y in StandIns(b, how) && Links(geo, r, x, y);
      StandInsDerive(geo, nodes, r, how, a, b, x, y);
      assert Derives(geo, world, rules, Edge(t, x.key, y.key));
    }
  }

  lemma SplitIsKeyed(nodes: seq<Node>, how: Split)
    requires CanSplit(nodes, how)
    ensures var split := SplitAll(nodes, how);
      && (forall x <- split :: x.key in ByKey(split) && ByKey(split)[x.key] == x)
      && (forall key <- ByKey(split) :: ByKey(split)[key] in split)
  {
    var split := SplitAll(nodes, how);
    forall x, y | x in split && y in split && x.key == y.key ensures x == y {
      StandInsDistinct(nodes, how, x, y);
    }
    ByKeyMembers(split);
  }

  /** A node of the split world whose canonical key is `a`'s stands for `a`. */
  lemma StandInOf(nodes: seq<Node>, how: Split, a: Node, x: Node)
    requires CanSplit(nodes, how) && a in nodes
    requires x in SplitAll(nodes, how) && Canonical(x.key) == a.key
    ensures x in StandIns(a, how)
  {
    SplitMembers(nodes, how, x);
    var n :| n in nodes && x in StandIns(n, how);
    StandInKey(n, how, x);
    var i :| 0 <= i < |nodes| && nodes[i] == n;
    var j :| 0 <= j < |nodes| && nodes[j] == a;
    assert i == j;
  }

  // ---- the canonical reading --------------------------------------------------------------------

  /** The same, counting only edges whose source is a canonical node. */
  ghost predicate ProjectedCanonical(geo: Metric, world: World, rules: seq<Rule>, t: string, a: string, b: string)
  {
    exists e :: Derives(geo, world, rules, e) && IsCanonical(e.src)
                && e.etype == t && Canonical(e.src) == a && Canonical(e.dst) == b
  }

  /** The one canonical node that stands for `n`: itself, or its first alias. */
  function CanonicalOf(n: Node, how: Split): Node
    requires MaySplit(n, how)
  {
    StandIns(n, how)[0]
  }

  lemma OneCanonical(n: Node, how: Split, x: Node)
    requires MaySplit(n, how) && MARK !in n.key && x in StandIns(n, how)
    ensures IsCanonical(x.key) <==> x == CanonicalOf(n, how)
  {
    if n.key in how.chosen {
      var i :| 0 <= i < how.k && StandIns(n, how)[i] == x;
      CanonicalIsFirst(n.key, i);
      if x == CanonicalOf(n, how) { AliasKeysDiffer(n.key, i, 0); }
    }
  }

  ghost predicate LinksCanonical(geo: Metric, r: Rule, a: Node, b: Node, how: Split)
    requires MaySplit(a, how) && MaySplit(b, how)
  {
    exists y <- StandIns(b, how) :: Links(geo, r, CanonicalOf(a, how), y)
  }

  /** The canonical reading of the whole split world, pair by pair. */
  lemma CanonicalIsPairwise(geo: Metric, nodes: seq<Node>, rules: seq<Rule>, how: Split, t: string, a: Node, b: Node)
    requires CanSplit(nodes, how) && a in nodes && b in nodes
    ensures ProjectedCanonical(geo, ByKey(SplitAll(nodes, how)), rules, t, a.key, b.key) <==>
      exists r <- rules :: r.edgeType == t && LinksCanonical(geo, r, a, b, how)
  {
    var world := ByKey(SplitAll(nodes, how));
    if ProjectedCanonical(geo, world, rules, t, a.key, b.key) {
      var e :| Derives(geo, world, rules, e) && IsCanonical(e.src)
               && e.etype == t && Canonical(e.src) == a.key && Canonical(e.dst) == b.key;
      var r :| r in rules && RuleDerives(geo, world, r, e);
      EdgeStandsFor(geo, nodes, r, how, e, a, b);
      OneCanonical(a, how, world[e.src]);
      assert LinksCanonical(geo, r, a, b, how);
    }
    if r :| r in rules && r.edgeType == t && LinksCanonical(geo, r, a, b, how) {
      var x := CanonicalOf(a, how);
      var y :| y in StandIns(b, how) && Links(geo, r, x, y);
      StandInsDerive(geo, nodes, r, how, a, b, x, y);
      OneCanonical(a, how, x);
      assert Derives(geo, world, rules, Edge(t, x.key, y.key));
    }
  }

  lemma LinksCanonicalOnProps(geo: Metric, r: Rule, a: Node, b: Node, how: Split)
    requires MaySplit(a, how) && MaySplit(b, how)
    ensures LinksCanonical(geo, r, a, b, how) <==>
      a.nodeLabel == r.srcLabel && b.nodeLabel == r.dstLabel &&
      HoldsOnAliases(geo, r.test, [CanonicalOf(a, how).props], PropsOf(StandIns(b, how)))
  {
    var x, ys := CanonicalOf(a, how), StandIns(b, how);
    if LinksCanonical(geo, r, a, b, how) {
      var y :| y in ys && Links(geo, r, x, y);
      var j :| 0 <= j < |ys| && ys[j] == y;
      assert Eval(geo, r.test, [x.props][0], PropsOf(ys)[j]);
    }
    if a.nodeLabel == r.srcLabel && b.nodeLabel == r.dstLabel && HoldsOnAliases(geo, r.test, [x.props], PropsOf(ys)) {
      var i, j :| 0 <= i < 1 && 0 <= j < |PropsOf(ys)| && Eval(geo, r.test, [x.props][i], PropsOf(ys)[j]);
      assert Links(geo, r, x, ys[j]);
    }
  }

  /** `f` of `a` was dealt to its canonical node. */
  predicate OnCanonical(a: Node, how: Split, f: string)
    requires how.k > 0
  {
    a.key in how.chosen && f in RULE_FIELDS ==> Drawn(how.draws, a.key, f, 0, how.k) == 0
  }

  lemma LinksCanonicalIff(geo: Metric, r: Rule, a: Node, b: Node, how: Split)
    requires MaySplit(a, how) && MaySplit(b, how) && WholeFieldLeaf(r.test)
    ensures LinksCanonical(geo, r, a, b, how) <==> Links(geo, r, a, b) && OnCanonical(a, how, r.test.field)
  {
    var bs := PropsOf(StandIns(b, how));
    LinksCanonicalOnProps(geo, r, a, b, how);
    StandInsStandFor(b, how);
    if a.key in how.chosen {
      assert CanonicalOf(a, how).props == PartsOf(a, how.draws, how.k)[0];
      CanonicalHoldsIff(geo, r.test, a, b, how.draws, how.k, bs);
    } else {
      assert StandFor(a, [a.props]);
      ExactPair(geo, r.test, a, b, [a.props], bs);
    }
  }

  /** The canonical reading of leaf rules over whole fields: an edge of the unsplit world is
    kept exactly when some rule that gives it reads a field its source's canonical node got. */
  lemma CanonicalKeepsIff(geo: Metric, nodes: seq<Node>, rules: seq<Rule>, how: Split, t: string, a: Node, b: Node)
    requires CanSplit(nodes, how) && a in nodes && b in nodes
    requires forall r <- rules :: WholeFieldLeaf(r.test)
    ensures ProjectedCanonical(geo, ByKey(SplitAll(nodes, how)), rules, t, a.key, b.key) <==>
      exists r <- rules ::
        WholeFieldLeaf(r.test) && r.edgeType == t && Links(geo, r, a, b) && OnCanonical(a, how, r.test.field)
  {
    CanonicalIsPairwise(geo, nodes, rules, how, t, a, b);
    forall r | r in rules
      ensures LinksCanonical(geo, r, a, b, how) <==> Links(geo, r, a, b) && OnCanonical(a, how, r.test.field)
    {
      LinksCanonicalIff(geo, r, a, b, how);
    }
  }

  // ---- the results ------------------------------------------------------------------------------

  ghost predicate Truth(geo: Metric, rules: seq<Rule>, t: string, a: Node, b: Node)
  {
    exists r <- rules :: r.edgeType == t && Links(geo, r, a, b)
  }

  /** With leaf rules that splitting cannot change, or any of them, the projection is
    exactly the unsplit edge set, whichever nodes are split and however. */
  lemma LeafRulesLoseNothing(geo: Metric, nodes: seq<Node>, rules: seq<Rule>, how: Split,
                             t: string, a: Node, b: Node)
    requires CanSplit(nodes, how) && a in nodes && b in nodes
    requires forall r <- rules :: Disjunctive(r.test)
    ensures Projected(geo, ByKey(SplitAll(nodes, how)), rules, t, a.key, b.key) <==> Truth(geo, rules, t, a, b)
  {
    ProjectedIsPairwise(geo, nodes, rules, how, t, a, b);
    StandInsStandFor(a, how);
    StandInsStandFor(b, how);
    forall r | r in rules ensures LinksStandIns(geo, r, a, b, how) <==> Links(geo, r, a, b) {
      LinksStandInsOnProps(geo, r, a, b, how);
      ExactPair(geo, r.test, a, b, PropsOf(StandIns(a, how)), PropsOf(StandIns(b, how)));
    }
  }

  /** With conjunctions of such leaves it can lose edges and never adds one. */
  lemma ConjunctionsAddNothing(geo: Metric, nodes: seq<Node>, rules: seq<Rule>, how: Split,
                               t: string, a: Node, b: Node)
    requires CanSplit(nodes, how) && a in nodes && b in nodes
    requires forall r <- rules :: AllKept(r.test)
    requires Projected(geo, ByKey(SplitAll(nodes, how)), rules, t, a.key, b.key)
    ensures Truth(geo, rules, t, a, b)
  {
    ProjectedIsPairwise(geo, nodes, rules, how, t, a, b);
    var r :| r in rules && r.edgeType == t && LinksStandIns(geo, r, a, b, how);
    LinksStandInsOnProps(geo, r, a, b, how);
    StandInsStandFor(a, how);
    StandInsStandFor(b, how);
    var xs, ys := PropsOf(StandIns(a, how)), PropsOf(StandIns(b, how));
    var i, j :| 0 <= i < |xs| && 0 <= j < |ys| && Eval(geo, r.test, xs[i], ys[j]);
    SoundPair(geo, r.test, a, b, xs, ys, i, j);
  }

  /** Every projected edge is between original keys. */
  lemma ProjectedBetweenNodes(geo: Metric, nodes: seq<Node>, rules: seq<Rule>, how: Split,
                              t: string, a: string, b: string)
    requires CanSplit(nodes, how)
    requires Projected(geo, ByKey(SplitAll(nodes, how)), rules, t, a, b)
    ensures exists m <- nodes, n <- nodes :: m.key == a && n.key == b
  {
    var split := SplitAll(nodes, how);
    SplitIsKeyed(nodes, how);
    var e :| Derives(geo, ByKey(split), rules, e) && e.etype == t && Canonical(e.src) == a && Canonical(e.dst) == b;
    var x, y := ByKey(split)[e.src], ByKey(split)[e.dst];
    SplitMembers(nodes, how, x);
    SplitMembers(nodes, how, y);
    var m :| m in nodes && x in StandIns(m, how);
    var n :| n in nodes && y in StandIns(n, how);
    StandInKey(m, how, x);
    StandInKey(n, how, y);
  }
}
