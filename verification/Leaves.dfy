/** What each predicate decides, said of the stored values. */
module Leaves {
  import opened Options
  import opened Rules
  import opened Derivation

  // ---- values ---------------------------------------------------------------------------

  /** A value with an identity of its own: anything but nothing, a list or a dictionary. */
  predicate Scalar(v: Value) { !v.Null? && !v.List? && !v.Dict? }

  /** The value is the number `r`, written as an integer or as a finite float. */
  predicate IsNumber(v: Value, r: real) { (v.Int? && v.i as real == r) || v == Flt(Finite(r)) }

  /** The value is a list of a latitude and a longitude. */
  predicate IsPlace(v: Value, lat: real, lon: real)
  {
    && v.List? && |v.items| == 2 && IsNumber(v.items[0], lat) && IsNumber(v.items[1], lon)
    && -90.0 <= lat <= 90.0 && -180.0 <= lon <= 180.0
  }

  lemma NumberIff(v: Value, r: real)
    ensures FiniteNumber(v) == Some(r) <==> IsNumber(v, r)
  {
  }

  lemma PlaceIff(v: Value, lat: real, lon: real)
    ensures LatLon(v) == Some((lat, lon)) <==> IsPlace(v, lat, lon)
  {
    if v.List? && |v.items| == 2 {
      NumberIff(v.items[0], lat);
      NumberIff(v.items[1], lon);
    }
  }

  // ---- the leaves -----------------------------------------------------------------------

  /** `FieldEqual`: both nodes store the same scalar there. So an integer equals no float. */
  lemma FieldEqualIff(geo: Metric, f: string, a: Props, b: Props)
    ensures Eval(geo, FieldEqual(f), a, b) <==> f in a && f in b && a[f] == b[f] && Scalar(a[f])
  {
  }

  /** Same-field rules group nodes: the relation is symmetric and transitive. */
  lemma FieldEqualGroups(geo: Metric, f: string, a: Props, b: Props, c: Props)
    requires Eval(geo, FieldEqual(f), a, b)
    ensures Eval(geo, FieldEqual(f), b, a) && Eval(geo, FieldEqual(f), a, a)
    ensures Eval(geo, FieldEqual(f), b, c) <==> Eval(geo, FieldEqual(f), a, c)
  {
    FieldEqualIff(geo, f, a, b);
    FieldEqualIff(geo, f, b, c);
    FieldEqualIff(geo, f, a, c);
  }

  /** The scalars of a list field. */
  function ScalarsAt(p: Props, f: string): set<Value>
  {
    if f in p && p[f].List? then set x | x in p[f].items && Scalar(x) else {}
  }

  lemma TokensAreScalars(p: Props, f: string)
    ensures ListTokens(Get(p, f)).Some? ==> ListTokens(Get(p, f)).value == ScalarsAt(p, f)
    ensures ListTokens(Get(p, f)).None? ==> ScalarsAt(p, f) == {}
  {
  }

  lemma RatioAtLeast(x: real, y: real, min: real)
    requires y > 0.0
    ensures x / y >= min <==> x >= min * y
  {
    var q := x / y;
    assert q * y == x;
    SameFactor(q, min, y);
  }

  lemma SameFactor(p: real, q: real, y: real)
    requires y > 0.0
    ensures p >= q <==> p * y >= q * y
  {
    assert (p - q) * y == p * y - q * y;
    if p >= q {
      assert (p - q) * y >= 0.0;
    } else {
      assert (q - p) * y > 0.0 && (q - p) * y == q * y - p * y;
    }
  }

  predicate EnoughShared(x: set<Value>, y: set<Value>, min: real)
  {
    x * y != {} && |x * y| as real >= min * |x + y| as real
  }

  /** `Overlap`: some scalar is shared, and the shared ones are at least `min` of all. */
  lemma OverlapIff(geo: Metric, f: string, min: real, a: Props, b: Props)
    ensures Eval(geo, Overlap(f, min), a, b) <==> EnoughShared(ScalarsAt(a, f), ScalarsAt(b, f), min)
  {
    var x, y := ScalarsAt(a, f), ScalarsAt(b, f);
    TokensAreScalars(a, f);
    TokensAreScalars(b, f);
    if x * y != {} {
      var v :| v in x * y;
      assert v in x + y && |x + y| > 0;
      RatioAtLeast(|x * y| as real, |x + y| as real, min);
    }
  }

  /** With `min` a fraction, the same in whole numbers. */
  lemma OverlapInIntegers(geo: Metric, f: string, num: int, den: int, a: Props, b: Props)
    requires den > 0
    ensures var x, y := ScalarsAt(a, f), ScalarsAt(b, f);
      Eval(geo, Overlap(f, num as real / den as real), a, b) <==> x * y != {} && den * |x * y| >= num * |x + y|
  {
    var x, y := ScalarsAt(a, f), ScalarsAt(b, f);
    var shared, all, min := |x * y|, |x + y|, num as real / den as real;
    OverlapIff(geo, f, min, a, b);
    CrossMultiplied(shared, all, num, den);
  }

  lemma CrossMultiplied(shared: int, all: int, num: int, den: int)
    requires den > 0
    ensures shared as real >= (num as real / den as real) * all as real <==> den * shared >= num * all
  {
    var min, d := num as real / den as real, den as real;
    SameFactor(shared as real, min * all as real, d);
    assert min * d == num as real;
    assert (min * all as real) * d == (min * d) * all as real;
    assert (num * all) as real == num as real * all as real;
    assert (den * shared) as real == shared as real * d;
  }

  /** `NumericWithin`: two numbers, the second from the first less the tolerance to the first
    plus it; the tolerance finite and not negative. */
  lemma WithinIff(geo: Metric, f: string, tol: Float, a: Props, b: Props)
    ensures Eval(geo, NumericWithin(f, tol), a, b) <==>
      tol.Finite? && tol.r >= 0.0 &&
      exists x, y :: IsNumber(Get(a, f), x) && IsNumber(Get(b, f), y) && x - tol.r <= y <= x + tol.r
  {
    if Eval(geo, NumericWithin(f, tol), a, b) {
      var x, y := FiniteNumber(Get(a, f)).value, FiniteNumber(Get(b, f)).value;
      NumberIff(Get(a, f), x);
      NumberIff(Get(b, f), y);
      assert IsNumber(Get(a, f), x) && IsNumber(Get(b, f), y) && x - tol.r <= y <= x + tol.r;
    }
    if tol.Finite? && tol.r >= 0.0 {
      forall x, y | IsNumber(Get(a, f), x) && IsNumber(Get(b, f), y) && x - tol.r <= y <= x + tol.r
        ensures Eval(geo, NumericWithin(f, tol), a, b)
      {
        NumberIff(Get(a, f), x);
        NumberIff(Get(b, f), y);
      }
    }
  }

  /** `GeoRadius`: two places no further apart than a radius that is finite and positive. */
  lemma RadiusIff(geo: Metric, f: string, km: Float, a: Props, b: Props)
    ensures Eval(geo, GeoRadius(f, km), a, b) <==>
      km.Finite? && km.r > 0.0 &&
      exists u, v, x, y :: IsPlace(Get(a, f), u, v) && IsPlace(Get(b, f), x, y) && geo(u, v, x, y) <= km.r
  {
    if Eval(geo, GeoRadius(f, km), a, b) {
      var (u, v) := LatLon(Get(a, f)).value;
      var (x, y) := LatLon(Get(b, f)).value;
      PlaceIff(Get(a, f), u, v);
      PlaceIff(Get(b, f), x, y);
      assert IsPlace(Get(a, f), u, v) && IsPlace(Get(b, f), x, y) && geo(u, v, x, y) <= km.r;
    }
    if km.Finite? && km.r > 0.0 {
      forall u, v, x, y | IsPlace(Get(a, f), u, v) && IsPlace(Get(b, f), x, y) && geo(u, v, x, y) <= km.r
        ensures Eval(geo, GeoRadius(f, km), a, b)
      {
        PlaceIff(Get(a, f), u, v);
        PlaceIff(Get(b, f), x, y);
      }
    }
  }

  /** Two places are linked from the radius that is their distance on, and below it not. */
  lemma RadiusBoundary(geo: Metric, f: string, r: real, a: Props, b: Props, u: real, v: real, x: real, y: real)
    requires IsPlace(Get(a, f), u, v) && IsPlace(Get(b, f), x, y) && r > 0.0
    ensures Eval(geo, GeoRadius(f, Finite(r)), a, b) <==> geo(u, v, x, y) <= r
  {
    PlaceIff(Get(a, f), u, v);
    PlaceIff(Get(b, f), x, y);
  }

  // ---- combinations ------------------------------------------------------------------------

  /** `Any` and `All` read their parts as a set, so order and repeats do not matter; of no
    parts neither holds. */
  lemma PartsAsASet(geo: Metric, parts: seq<Predicate>, a: Props, b: Props)
    ensures Eval(geo, Any(parts), a, b) <==> exists p <- parts :: Eval(geo, p, a, b)
    ensures Eval(geo, All(parts), a, b) <==> parts != [] && forall p <- parts :: Eval(geo, p, a, b)
  {
    if Eval(geo, Any(parts), a, b) {
      var i :| 0 <= i < |parts| && Eval(geo, parts[i], a, b);
      assert parts[i] in parts;
    }
    forall p | p in parts && Eval(geo, p, a, b) ensures Eval(geo, Any(parts), a, b) {
      var i :| 0 <= i < |parts| && parts[i] == p;
      assert Eval(geo, parts[i], a, b);
    }
    forall i | 0 <= i < |parts| ensures parts[i] in parts {}
  }

  // ---- symmetry ------------------------------------------------------------------------------

  ghost predicate SymmetricMetric(geo: Metric) { forall u, v, x, y :: geo(u, v, x, y) == geo(x, y, u, v) }

  /** Every predicate says the same of a pair either way round. */
  lemma {:induction false} EvalIsSymmetric(geo: Metric, p: Predicate, a: Props, b: Props)
    requires SymmetricMetric(geo)
    ensures Eval(geo, p, a, b) <==> Eval(geo, p, b, a)
  {
    match p
    case Overlap(f, min) => OverlapIsSymmetric(geo, f, min, a, b);
    case All(parts) => forall i | 0 <= i < |parts| { EvalIsSymmetric(geo, parts[i], a, b); }
    case Any(parts) => forall i | 0 <= i < |parts| { EvalIsSymmetric(geo, parts[i], a, b); }
    case _ => LeafIsSymmetric(geo, p, a, b);
  }

  lemma OverlapIsSymmetric(geo: Metric, f: string, min: real, a: Props, b: Props)
    ensures Eval(geo, Overlap(f, min), a, b) <==> Eval(geo, Overlap(f, min), b, a)
  {
    OverlapIff(geo, f, min, a, b);
    OverlapIff(geo, f, min, b, a);
    SharedIsSymmetric(ScalarsAt(a, f), ScalarsAt(b, f), min);
  }

  lemma SharedIsSymmetric(x: set<Value>, y: set<Value>, min: real)
    ensures EnoughShared(x, y, min) <==> EnoughShared(y, x, min)
  {
    var shared, all := x * y, x + y;
    assert shared == y * x;
    assert all == y + x;
  }

  lemma LeafIsSymmetric(geo: Metric, p: Predicate, a: Props, b: Props)
    requires SymmetricMetric(geo) && (p.FieldEqual? || p.GeoRadius? || p.NumericWithin?)
    ensures Eval(geo, p, a, b) <==> Eval(geo, p, b, a)
  {
  }

  /** So a rule within one label derives each edge both ways. */
  lemma OneLabelDerivesBothWays(geo: Metric, nodes: World, r: Rule, src: string, dst: string)
    requires SymmetricMetric(geo) && r.srcLabel == r.dstLabel
    ensures RuleDerives(geo, nodes, r, Edge(r.edgeType, src, dst)) <==>
      RuleDerives(geo, nodes, r, Edge(r.edgeType, dst, src))
  {
    if src in nodes && dst in nodes { EvalIsSymmetric(geo, r.test, nodes[src].props, nodes[dst].props); }
  }

  // ---- a rule's edges -----------------------------------------------------------------------

  /** A same-field rule's edges: nodes of the two labels that store one scalar in the field. */
  lemma FieldRuleDerives(geo: Metric, nodes: World, r: Rule, e: Edge)
    requires r.test.FieldEqual?
    ensures var f := r.test.field;
      RuleDerives(geo, nodes, r, e) <==>
        && e.etype == r.edgeType && e.src in nodes && e.dst in nodes
        && nodes[e.src].nodeLabel == r.srcLabel && nodes[e.dst].nodeLabel == r.dstLabel
        && f in nodes[e.src].props && f in nodes[e.dst].props
        && nodes[e.src].props[f] == nodes[e.dst].props[f] && Scalar(nodes[e.src].props[f])
  {
    if e.src in nodes && e.dst in nodes {
      FieldEqualIff(geo, r.test.field, nodes[e.src].props, nodes[e.dst].props);
    }
  }
}
