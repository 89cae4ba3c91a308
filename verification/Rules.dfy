/** The rule language: values, the four leaf predicates, and their combinations. */
module Rules {
  import opened Options

  /** A Python float that is not NaN. */
  datatype Float = Finite(r: real) | PosInf | NegInf

  datatype Value =
    | Null
    | Bool(b: bool)
    | Int(i: int)
    | Flt(f: Float)
    | Str(s: string)
    | List(items: seq<Value>)
    | Dict(entries: seq<(string, Value)>)

  type Props = map<string, Value>

  /** Great-circle distance in kilometres. Every result below holds for every such function. */
  type Metric = (real, real, real, real) -> real

  datatype Predicate =
    | FieldEqual(field: string)
    | Overlap(field: string, min: real)
    | GeoRadius(field: string, km: Float)
    | NumericWithin(field: string, tolerance: Float)
    | All(parts: seq<Predicate>)
    | Any(parts: seq<Predicate>)

  function Get(props: Props, field: string): Value
  {
    if field in props then props[field] else Null
  }

  /** The scalar identity of a value. The constructor is the type tag, so `Int(3)` and
    `Flt(Finite(3.0))` stay different keys. */
  function ValueKey(v: Value): Option<Value>
  {
    if v.Bool? || v.Int? || v.Flt? || v.Str? then Some(v) else None
  }

  function ListTokens(v: Value): Option<set<Value>>
  {
    if v.List? then Some(set x | x in v.items && ValueKey(x).Some? :: x) else None
  }

  function FiniteNumber(v: Value): Option<real>
  {
    match v
    case Int(i) => Some(i as real)
    case Flt(Finite(r)) => Some(r)
    case _ => None
  }

  function LatLon(v: Value): Option<(real, real)>
  {
    if !v.List? || |v.items| != 2 then None
    else
      var lat, lon := FiniteNumber(v.items[0]), FiniteNumber(v.items[1]);
      if lat.Some? && lon.Some? && -90.0 <= lat.value <= 90.0 && -180.0 <= lon.value <= 180.0
      then Some((lat.value, lon.value)) else None
  }

  /** |A ∩ B| / |A ∪ B| >= min, with a non-empty intersection. */
  predicate JaccardAtLeast<T>(a: set<T>, b: set<T>, min: real)
  {
    a * b != {} && |a * b| as real / |a + b| as real >= min
  }

  function Abs(r: real): real { if r < 0.0 then -r else r }

  predicate LeafOverlap(a: Value, b: Value, min: real)
  {
    var ta, tb := ListTokens(a), ListTokens(b);
    ta.Some? && tb.Some? && JaccardAtLeast(ta.value, tb.value, min)
  }

  predicate LeafGeo(geo: Metric, a: Value, b: Value, km: Float)
  {
    var pa, pb := LatLon(a), LatLon(b);
    km.Finite? && km.r > 0.0 && pa.Some? && pb.Some? &&
    geo(pa.value.0, pa.value.1, pb.value.0, pb.value.1) <= km.r
  }

  predicate LeafNumeric(a: Value, b: Value, tol: Float)
  {
    var va, vb := FiniteNumber(a), FiniteNumber(b);
    tol.Finite? && tol.r >= 0.0 && va.Some? && vb.Some? &&
    var delta := Abs(va.value - vb.value);
    if tol.r == 0.0 then delta == 0.0 else delta <= tol.r
  }

  predicate Eval(geo: Metric, p: Predicate, a: Props, b: Props)
  {
    match p
    case FieldEqual(f) => ValueKey(Get(a, f)).Some? && ValueKey(Get(a, f)) == ValueKey(Get(b, f))
    case Overlap(f, min) => LeafOverlap(Get(a, f), Get(b, f), min)
    case GeoRadius(f, km) => LeafGeo(geo, Get(a, f), Get(b, f), km)
    case NumericWithin(f, tol) => LeafNumeric(Get(a, f), Get(b, f), tol)
    case All(parts) => parts != [] && forall i :: 0 <= i < |parts| ==> Eval(geo, parts[i], a, b)
    case Any(parts) => exists i :: 0 <= i < |parts| && Eval(geo, parts[i], a, b)
  }

  datatype Node = Node(key: string, nodeLabel: string, props: Props)

  datatype Rule = Rule(name: string, srcLabel: string, dstLabel: string, edgeType: string, test: Predicate)

  datatype Edge = Edge(etype: string, src: string, dst: string)

  /** Does `r` link this ordered pair of nodes? */
  predicate Links(geo: Metric, r: Rule, src: Node, dst: Node)
  {
    src.nodeLabel == r.srcLabel && dst.nodeLabel == r.dstLabel && Eval(geo, r.test, src.props, dst.props)
  }
}
