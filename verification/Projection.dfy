/** Reading the edges of a split world back through `canonical`. */
module Projection {
  import opened Options
  import opened Rules
  import opened Fragmentation

  // ---- what splitting does to one field ----------------------------------------------

  /** `parts` are the props of the nodes that stand for `n`: itself, or its aliases. */
  ghost predicate StandFor(n: Node, parts: seq<Props>)
  {
    || parts == [n.props]
    || exists draws: Draws, k: nat :: k > 0 && Splittable(n, k) && parts == PartsOf(n, draws, k)
  }

  function PartsOf(n: Node, draws: Draws, k: nat): seq<Props>
    requires k > 0 && Splittable(n, k)
  {
    seq(k, a requires 0 <= a < k => AliasProps(n, draws, k, a))
  }

  /** A field that is not dealt out item by item is whole on an alias, or missing there. */
  lemma WholeOrMissing(n: Node, parts: seq<Props>, a: nat, f: string)
    requires StandFor(n, parts) && a < |parts| && f !in LIST_FIELDS
    ensures Get(parts[a], f) == Get(n.props, f) || Get(parts[a], f) == Null
  {
  }

  lemma HeldSomewhere(n: Node, parts: seq<Props>, f: string) returns (a: nat)
    requires StandFor(n, parts) && f !in LIST_FIELDS
    ensures a < |parts| && Get(parts[a], f) == Get(n.props, f)
  {
    if parts == [n.props] {
      a := 0;
    } else {
      var draws: Draws, k: nat :| k > 0 && Splittable(n, k) && parts == PartsOf(n, draws, k);
      a := if f in RULE_FIELDS then Drawn(draws, n.key, f, 0, k) else 0;
    }
  }

  lemma {:induction false} ShareIsPart(items: seq<Value>, draws: Draws, key: string, f: string, k: nat, a: nat, n: nat)
    requires k > 0 && n <= |items|
    ensures forall v :: v in Share(items, draws, key, f, k, a, n) ==> v in items[..n]
    ensures forall i :: 0 <= i < n && Drawn(draws, key, f, i, k) == a ==>
      items[i] in Share(items, draws, key, f, k, a, n)
  {
    if n > 0 {
      ShareIsPart(items, draws, key, f, k, a, n - 1);
      assert items[..n] == items[..n - 1] + [items[n - 1]];
    }
  }

  function TokensAt(p: Props, f: string): set<Value>
  {
    if ListTokens(Get(p, f)).Some? then ListTokens(Get(p, f)).value else {}
  }

  /** A list field keeps only tokens the node has, and every token is on some alias. */
  lemma TokensKept(n: Node, parts: seq<Props>, a: nat, f: string)
    requires StandFor(n, parts) && a < |parts| && f in LIST_FIELDS
    ensures TokensAt(parts[a], f) <= TokensAt(n.props, f)
    ensures Get(parts[a], f).List? || Get(parts[a], f) == Null || Get(parts[a], f) == Get(n.props, f)
  {
    if parts != [n.props] {
      var draws: Draws, k: nat :| k > 0 && Splittable(n, k) && parts == PartsOf(n, draws, k);
      if f in n.props {
        var items := n.props[f].items;
        ShareIsPart(items, draws, n.key, f, k, a, |items|);
        assert items[..|items|] == items;
      }
    }
  }

  lemma TokenHeld(n: Node, parts: seq<Props>, f: string, v: Value) returns (a: nat)
    requires StandFor(n, parts) && f in LIST_FIELDS && v in TokensAt(n.props, f)
    ensures a < |parts| && v in TokensAt(parts[a], f)
  {
    if parts == [n.props] {
      a := 0;
    } else {
      var draws: Draws, k: nat :| k > 0 && Splittable(n, k) && parts == PartsOf(n, draws, k);
      var items := n.props[f].items;
      var i :| 0 <= i < |items| && items[i] == v;
      a := Drawn(draws, n.key, f, i, k);
      ShareIsPart(items, draws, n.key, f, k, a, |items|);
    }
  }

  // ---- one predicate over one pair -----------------------------------------------------

  /** Some alias of one node and some alias of the other satisfy `p`. */
  ghost predicate HoldsOnAliases(geo: Metric, p: Predicate, as_: seq<Props>, bs: seq<Props>)
  {
    exists i, j :: 0 <= i < |as_| && 0 <= j < |bs| && Eval(geo, p, as_[i], bs[j])
  }

  predicate Leaf(p: Predicate) { !p.All? && !p.Any? }

  /** The leaves splitting cannot change: everything except a Jaccard test with a bound in
    (0, 1], or a live radius test, on a field that is dealt out item by item. */
  predicate Kept(p: Predicate)
  {
    Leaf(p) && (p.field in LIST_FIELDS ==>
      match p
      case Overlap(_, min) => min <= 0.0 || min > 1.0
      case GeoRadius(_, km) => !km.Finite? || km.r <= 0.0
      case _ => true)
  }

  lemma JaccardAtMostOne(a: set<Value>, b: set<Value>)
    requires a * b != {}
    ensures 0.0 <= |a * b| as real / |a + b| as real <= 1.0
  {
    var rest := (a + b) - (a * b);
    assert a + b == (a * b) + rest;
    assert |a + b| == |a * b| + |rest|;
    assert |a + b| > 0;
  }

  /** Outside (0, 1] the Jaccard test only asks for a shared token, or nothing passes it. */
  lemma ExtremeOverlap(a: Props, b: Props, f: string, min: real)
    requires min <= 0.0 || min > 1.0
    ensures LeafOverlap(Get(a, f), Get(b, f), min) <==> min <= 0.0 && TokensAt(a, f) * TokensAt(b, f) != {}
  {
    if TokensAt(a, f) * TokensAt(b, f) != {} { JaccardAtMostOne(TokensAt(a, f), TokensAt(b, f)); }
  }

  lemma KeptLeafSound(geo: Metric, p: Predicate, a: Node, b: Node, as_: seq<Props>, bs: seq<Props>, i: nat, j: nat)
    requires Kept(p) && StandFor(a, as_) && StandFor(b, bs)
    requires i < |as_| && j < |bs| && Eval(geo, p, as_[i], bs[j])
    ensures Eval(geo, p, a.props, b.props)
  {
    var f := p.field;
    if f !in LIST_FIELDS {
      WholeOrMissing(a, as_, i, f);
      WholeOrMissing(b, bs, j, f);
    } else {
      TokensKept(a, as_, i, f);
      TokensKept(b, bs, j, f);
      if p.Overlap? {
        ExtremeOverlap(as_[i], bs[j], f, p.min);
        ExtremeOverlap(a.props, b.props, f, p.min);
        var x :| x in TokensAt(as_[i], f) * TokensAt(bs[j], f);
        assert x in TokensAt(a.props, f) * TokensAt(b.props, f);
      }
    }
  }

  lemma KeptLeafComplete(geo: Metric, p: Predicate, a: Node, b: Node, as_: seq<Props>, bs: seq<Props>)
    requires Kept(p) && StandFor(a, as_) && StandFor(b, bs)
    requires Eval(geo, p, a.props, b.props)
    ensures HoldsOnAliases(geo, p, as_, bs)
  {
    var f := p.field;
    if f !in LIST_FIELDS {
      var i := HeldSomewhere(a, as_, f);
      var j := HeldSomewhere(b, bs, f);
      assert Eval(geo, p, as_[i], bs[j]);
    } else if p.Overlap? {
      ExtremeOverlap(a.props, b.props, f, p.min);
      var x :| x in TokensAt(a.props, f) * TokensAt(b.props, f);
      var i := TokenHeld(a, as_, f, x);
      var j := TokenHeld(b, bs, f, x);
      assert x in TokensAt(as_[i], f) * TokensAt(bs[j], f);
      ExtremeOverlap(as_[i], bs[j], f, p.min);
      assert Eval(geo, p, as_[i], bs[j]);
    } else {
      assert as_ == [a.props] && bs == [b.props];
      assert Eval(geo, p, as_[0], bs[0]);
    }
  }

  /** `All` and `Any`, nested at will, over leaves that splitting cannot change. */
  predicate AllKept(p: Predicate)
  {
    if Leaf(p) then Kept(p) else forall i :: 0 <= i < |p.parts| ==> AllKept(p.parts[i])
  }

  /** The same without `All`. */
  predicate Disjunctive(p: Predicate)
  {
    if Leaf(p) then Kept(p) else p.Any? && forall i :: 0 <= i < |p.parts| ==> Disjunctive(p.parts[i])
  }

  lemma {:induction false} SoundPair(geo: Metric, p: Predicate, a: Node, b: Node, as_: seq<Props>, bs: seq<Props>,
                                     i: nat, j: nat)
    requires AllKept(p) && StandFor(a, as_) && StandFor(b, bs)
    requires i < |as_| && j < |bs| && Eval(geo, p, as_[i], bs[j])
    ensures Eval(geo, p, a.props, b.props)
  {
    if Leaf(p) {
      KeptLeafSound(geo, p, a, b, as_, bs, i, j);
    } else {
      forall m | 0 <= m < |p.parts| && Eval(geo, p.parts[m], as_[i], bs[j])
        ensures Eval(geo, p.parts[m], a.props, b.props)
      {
        SoundPair(geo, p.parts[m], a, b, as_, bs, i, j);
      }
    }
  }

  lemma DisjunctiveIsKept(p: Predicate)
    requires Disjunctive(p)
    ensures AllKept(p)
  {
  }

  lemma {:induction false} CompletePair(geo: Metric, p: Predicate, a: Node, b: Node, as_: seq<Props>, bs: seq<Props>)
    requires Disjunctive(p) && StandFor(a, as_) && StandFor(b, bs)
    requires Eval(geo, p, a.props, b.props)
    ensures HoldsOnAliases(geo, p, as_, bs)
  {
    if Leaf(p) {
      KeptLeafComplete(geo, p, a, b, as_, bs);
    } else {
      var m :| 0 <= m < |p.parts| && Eval(geo, p.parts[m], a.props, b.props);
      CompletePair(geo, p.parts[m], a, b, as_, bs);
      var i, j :| 0 <= i < |as_| && 0 <= j < |bs| && Eval(geo, p.parts[m], as_[i], bs[j]);
      assert Eval(geo, p, as_[i], bs[j]);
    }
  }

  lemma ExactPair(geo: Metric, p: Predicate, a: Node, b: Node, as_: seq<Props>, bs: seq<Props>)
    requires Disjunctive(p) && StandFor(a, as_) && StandFor(b, bs)
    ensures HoldsOnAliases(geo, p, as_, bs) <==> Eval(geo, p, a.props, b.props)
  {
    if HoldsOnAliases(geo, p, as_, bs) {
      DisjunctiveIsKept(p);
      var i, j :| 0 <= i < |as_| && 0 <= j < |bs| && Eval(geo, p, as_[i], bs[j]);
      SoundPair(geo, p, a, b, as_, bs, i, j);
    }
    if Eval(geo, p, a.props, b.props) { CompletePair(geo, p, a, b, as_, bs); }
  }

  // ---- what a conjunction costs ----------------------------------------------------------

  predicate WholeFieldLeaf(p: Predicate) { Leaf(p) && p.field !in LIST_FIELDS }

  /** The alias still carries the field as the node has it. */
  predicate Carries(p: Props, n: Node, f: string) { Get(p, f) == Get(n.props, f) }

  lemma LeafOnPair(geo: Metric, p: Predicate, a: Node, b: Node, as_: seq<Props>, bs: seq<Props>, i: nat, j: nat)
    requires WholeFieldLeaf(p) && StandFor(a, as_) && StandFor(b, bs) && i < |as_| && j < |bs|
    ensures Eval(geo, p, as_[i], bs[j]) <==>
      Eval(geo, p, a.props, b.props) && Carries(as_[i], a, p.field) && Carries(bs[j], b, p.field)
  {
    WholeOrMissing(a, as_, i, p.field);
    WholeOrMissing(b, bs, j, p.field);
  }

  predicate CarriesAll(p: Props, n: Node, parts: seq<Predicate>)
  {
    forall m :: 0 <= m < |parts| ==> Leaf(parts[m]) && Carries(p, n, parts[m].field)
  }

  /** A conjunction that held survives the split exactly when one alias on each side
    carries every field it reads. */
  lemma ConjunctionSurvivesIff(geo: Metric, parts: seq<Predicate>, a: Node, b: Node, as_: seq<Props>, bs: seq<Props>)
    requires forall m :: 0 <= m < |parts| ==> WholeFieldLeaf(parts[m])
    requires StandFor(a, as_) && StandFor(b, bs) && Eval(geo, All(parts), a.props, b.props)
    ensures HoldsOnAliases(geo, All(parts), as_, bs) <==>
      exists i, j :: 0 <= i < |as_| && 0 <= j < |bs| && CarriesAll(as_[i], a, parts) && CarriesAll(bs[j], b, parts)
  {
    forall i, j | 0 <= i < |as_| && 0 <= j < |bs|
      ensures Eval(geo, All(parts), as_[i], bs[j]) <==> CarriesAll(as_[i], a, parts) && CarriesAll(bs[j], b, parts)
    {
      forall m | 0 <= m < |parts|
        ensures Eval(geo, parts[m], as_[i], bs[j]) <==>
          Carries(as_[i], a, parts[m].field) && Carries(bs[j], b, parts[m].field)
      {
        LeafOnPair(geo, parts[m], a, b, as_, bs, i, j);
      }
    }
  }

  /** The canonical alias alone sees a leaf edge exactly when the field was dealt to it. */
  lemma CanonicalHoldsIff(geo: Metric, p: Predicate, a: Node, b: Node, draws: Draws, k: nat, bs: seq<Props>)
    requires k > 0 && Splittable(a, k) && WholeFieldLeaf(p) && StandFor(b, bs)
    ensures HoldsOnAliases(geo, p, [PartsOf(a, draws, k)[0]], bs) <==>
      Eval(geo, p, a.props, b.props) && (p.field in RULE_FIELDS ==> Drawn(draws, a.key, p.field, 0, k) == 0)
  {
    var as_ := PartsOf(a, draws, k);
    assert StandFor(a, as_);
    forall j | 0 <= j < |bs|
      ensures Eval(geo, p, as_[0], bs[j]) <==>
        Eval(geo, p, a.props, b.props) && Carries(as_[0], a, p.field) && Carries(bs[j], b, p.field)
    {
      LeafOnPair(geo, p, a, b, as_, bs, 0, j);
    }
    var j := HeldSomewhere(b, bs, p.field);
    if Eval(geo, p, as_[0], bs[j]) { assert Eval(geo, p, [as_[0]][0], bs[j]); }
  }

  // ---- exactly which leaves are safe ---------------------------------------------------------

  /** Splitting the source, in any way into `k`, never changes what `p` says of a pair. */
  ghost predicate PairExact(p: Predicate, k: nat)
    requires k > 0
  {
    forall geo: Metric, a: Node, b: Node, draws: Draws | Splittable(a, k) ::
      HoldsOnAliases(geo, p, PartsOf(a, draws, k), [b.props]) <==> Eval(geo, p, a.props, b.props)
  }

  function Ints(n: nat): seq<Value> { seq(n, i => Int(i)) }

  lemma {:induction false} IntsTokens(n: nat)
    ensures ListTokens(List(Ints(n))).Some?
    ensures |ListTokens(List(Ints(n))).value| == n
    ensures forall v :: v in ListTokens(List(Ints(n))).value <==> v.Int? && 0 <= v.i < n
  {
    forall v ensures v in Ints(n) <==> v.Int? && 0 <= v.i < n {
      if v.Int? && 0 <= v.i < n { assert Ints(n)[v.i] == v; }
    }
    if n == 0 {
      assert ListTokens(List(Ints(0))).value == {};
    } else {
      IntsTokens(n - 1);
      assert ListTokens(List(Ints(n))).value == ListTokens(List(Ints(n - 1))).value + {Int(n - 1)};
    }
  }

  /** Item 0 alone on alias 0, the rest on alias 1. */
  const FirstApart: Draws := (_, _, i) => if i == 0 then 0 else 1

  lemma {:induction false} FirstShare(items: seq<Value>, key: string, f: string, k: nat, n: nat)
    requires k >= 2 && 1 <= n <= |items|
    ensures Share(items, FirstApart, key, f, k, 0, n) == [items[0]]
  {
    if n > 1 { FirstShare(items, key, f, k, n - 1); }
  }

  function Sample(f: string, items: seq<Value>): Node
  {
    Node("s", "Talent", map[NAME := Str("s"), f := List(items)])
  }

  lemma Reciprocal(x: real)
    requires x > 0.0
    ensures x * (1.0 / x) == 1.0
  {
  }

  lemma SignOfFactor(x: real, y: real)
    requires x > 0.0
    ensures x * y > 0.0 <==> y > 0.0
  {
  }

  lemma Distribute(x: real, y: real, z: real)
    ensures x * (y - z) == x * y - x * z
  {
  }

  lemma BelowReciprocal(x: real, m: real)
    requires x > 0.0 && m > 0.0
    ensures x > 1.0 / m <==> 1.0 / x < m
  {
    Reciprocal(m);
    Distribute(m, x, 1.0 / m);
    SignOfFactor(m, x - 1.0 / m);
    Reciprocal(x);
    Distribute(x, m, 1.0 / x);
    SignOfFactor(x, m - 1.0 / x);
  }

  lemma LargeEnough(min: real) returns (n: nat)
    requires 0.0 < min <= 1.0
    ensures n > 0 && 1.0 / n as real < min
  {
    n := (1.0 / min).Floor + 1;
    BelowReciprocal(n as real, min);
  }

  /** `n` tokens against one of them. */
  lemma OneOf(geo: Metric, f: string, min: real, n: nat, p: Props, q: Props)
    requires n > 0 && Get(p, f) == List(Ints(n)) && Get(q, f) == List(Ints(1))
    ensures Eval(geo, Overlap(f, min), p, q) <==> 1.0 / n as real >= min
  {
    IntsTokens(n);
    IntsTokens(1);
    var ta, tb := ListTokens(List(Ints(n))).value, ListTokens(List(Ints(1))).value;
    assert ta * tb == {Int(0)} && ta + tb == ta;
  }

  lemma FirstAlias(f: string, n: nat, k: nat)
    requires f in LIST_FIELDS && n > 0 && k >= 2
    ensures Splittable(Sample(f, Ints(n)), k)
    ensures Get(PartsOf(Sample(f, Ints(n)), FirstApart, k)[0], f) == List(Ints(1))
  {
    FirstShare(Ints(n), "s", f, k, n);
    assert Ints(1) == [Int(0)] == [Ints(n)[0]];
    assert OnAlias(Sample(f, Ints(n)), FirstApart, k, 0, f) == Some(List(Ints(1)));
  }

  lemma NotExact(geo: Metric, p: Predicate, a: Node, b: Node, draws: Draws, k: nat)
    requires k > 0 && Splittable(a, k)
    requires HoldsOnAliases(geo, p, PartsOf(a, draws, k), [b.props]) != Eval(geo, p, a.props, b.props)
    ensures !PairExact(p, k)
  {
  }

  /** A Jaccard test can hold on an alias though it fails on the node. */
  lemma OverlapGains(f: string, min: real, k: nat)
    requires f in LIST_FIELDS && 0.0 < min <= 1.0 && k >= 2
    ensures !PairExact(Overlap(f, min), k)
  {
    var n := LargeEnough(min);
    var geo: Metric := (_, _, _, _) => 0.0;
    var a, b := Sample(f, Ints(n)), Sample(f, Ints(1));
    FirstAlias(f, n, k);
    FirstAlias(f, 1, k);
    GainsOn(geo, f, min, n, a.props, b.props, PartsOf(a, FirstApart, k));
    NotExact(geo, Overlap(f, min), a, b, FirstApart, k);
  }

  lemma GainsOn(geo: Metric, f: string, min: real, n: nat, p: Props, q: Props, parts: seq<Props>)
    requires 0.0 < min <= 1.0 && n > 0 && 1.0 / n as real < min && parts != []
    requires Get(p, f) == List(Ints(n)) && Get(q, f) == List(Ints(1)) && Get(parts[0], f) == List(Ints(1))
    ensures !Eval(geo, Overlap(f, min), p, q) && HoldsOnAliases(geo, Overlap(f, min), parts, [q])
  {
    OneOf(geo, f, min, n, p, q);
    OneOf(geo, f, min, 1, parts[0], q);
    assert Eval(geo, Overlap(f, min), parts[0], [q][0]);
  }

  /** No alias keeps both coordinates when the first is dealt apart from the second. */
  lemma CoordinatesApart(f: string, k: nat, i: nat)
    requires i < k && k >= 2
    ensures |Share([Int(0), Int(0)], FirstApart, "s", f, k, i, 2)| <= 1
  {
    var two := [Int(0), Int(0)];
    assert Drawn(FirstApart, "s", f, 0, k) == 0 && Drawn(FirstApart, "s", f, 1, k) == 1;
    assert |Share(two, FirstApart, "s", f, k, i, 1)| == if i == 0 then 1 else 0;
  }

  lemma RadiusOnAlias(geo: Metric, f: string, km: Float, k: nat, i: nat)
    requires f in LIST_FIELDS && km.Finite? && km.r > 0.0 && i < k && k >= 2
    ensures var a := Sample(f, [Int(0), Int(0)]);
      !Eval(geo, GeoRadius(f, km), PartsOf(a, FirstApart, k)[i], a.props)
  {
    CoordinatesApart(f, k, i);
  }

  /** A pair of coordinates dealt to two aliases is no longer a place. */
  lemma RadiusLoses(f: string, km: Float, k: nat)
    requires f in LIST_FIELDS && km.Finite? && km.r > 0.0 && k >= 2
    ensures !PairExact(GeoRadius(f, km), k)
  {
    var geo: Metric := (_, _, _, _) => 0.0;
    var a := Sample(f, [Int(0), Int(0)]);
    assert Eval(geo, GeoRadius(f, km), a.props, a.props);
    var parts := PartsOf(a, FirstApart, k);
    forall i | 0 <= i < k ensures !Eval(geo, GeoRadius(f, km), parts[i], a.props) {
      RadiusOnAlias(geo, f, km, k, i);
    }
    NotExact(geo, GeoRadius(f, km), a, a, FirstApart, k);
  }

  /** With two aliases or more, a leaf is safe exactly when it is one of `Kept`. */
  lemma LeafExactIff(p: Predicate, k: nat)
    requires Leaf(p) && k >= 2
    ensures PairExact(p, k) <==> Kept(p)
  {
    if Kept(p) {
      forall geo: Metric, a: Node, b: Node, draws: Draws | Splittable(a, k)
        ensures HoldsOnAliases(geo, p, PartsOf(a, draws, k), [b.props]) <==> Eval(geo, p, a.props, b.props)
      {
        assert StandFor(a, PartsOf(a, draws, k)) && StandFor(b, [b.props]);
        ExactPair(geo, p, a, b, PartsOf(a, draws, k), [b.props]);
      }
    } else if p.Overlap? {
      OverlapGains(p.field, p.min, k);
    } else {
      RadiusLoses(p.field, p.km, k);
    }
  }
}
