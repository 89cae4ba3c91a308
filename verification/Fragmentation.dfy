/** Splitting one entity over several alias nodes, and what projecting the derived edges
  back loses or adds. */
module Fragmentation {
  import opened Options
  import opened Rules
  import opened Decimal

  const RULE_FIELDS := {"industry", "specialties", "location", "size_bucket", "design_styles"}
  const LIST_FIELDS := {"specialties", "design_styles"}
  const NAME := "name"

  /** Every outcome of the random draws: node key, field and position within a list give a
    number, taken modulo the number of aliases. */
  type Draws = (string, string, nat) -> nat

  /** What splitting into `k` asks of a node: its list fields are lists, and it has a name
    if there is a second alias to give it to. */
  predicate Splittable(n: Node, k: nat)
  {
    (k > 1 ==> NAME in n.props) && forall f <- LIST_FIELDS :: f in n.props ==> n.props[f].List?
  }

  function Drawn(draws: Draws, key: string, f: string, i: nat, k: nat): nat
    requires k > 0
  {
    draws(key, f, i) % k
  }

  /** The items of list field `f` that land on alias `a`, among the first `n`. */
  function Share(items: seq<Value>, draws: Draws, key: string, f: string, k: nat, a: nat, n: nat): seq<Value>
    requires k > 0 && n <= |items|
  {
    if n == 0 then []
    else Share(items, draws, key, f, k, a, n - 1) + if Drawn(draws, key, f, n - 1, k) == a then [items[n - 1]] else []
  }

  /** What field `f` of the node becomes on alias `a`; `None` when the alias lacks it. */
  function OnAlias(n: Node, draws: Draws, k: nat, a: nat, f: string): Option<Value>
    requires k > 0 && Splittable(n, k) && f in n.props
  {
    if f !in RULE_FIELDS then if a == 0 || f == NAME then Some(n.props[f]) else None
    else if f in LIST_FIELDS then
      var items := n.props[f].items;
      var share := Share(items, draws, n.key, f, k, a, |items|);
      if share == [] then None else Some(List(share))
    else if Drawn(draws, n.key, f, 0, k) == a then Some(n.props[f]) else None
  }

  function AliasProps(n: Node, draws: Draws, k: nat, a: nat): Props
    requires k > 0 && Splittable(n, k)
  {
    map f | f in n.props && OnAlias(n, draws, k, a, f).Some? :: OnAlias(n, draws, k, a, f).value
  }

  function AliasKey(key: string, a: nat): string { key + "~" + Digits(a) }

  /** The node as `k` aliases. */
  function Aliases(n: Node, draws: Draws, k: nat): (out: seq<Node>)
    requires k > 0 && Splittable(n, k)
    ensures |out| == k
  {
    seq(k, a requires 0 <= a < k => Node(AliasKey(n.key, a), n.nodeLabel, AliasProps(n, draws, k, a)))
  }

  // ---- the splitter ----------------------------------------------------------------

  /** What `p` has under `f` is `v`. */
  predicate Holds(p: Props, f: string, v: Option<Value>)
  {
    (f in p <==> v.Some?) && (f in p ==> Some(p[f]) == v)
  }

  /** The first `fields` of the props have been dealt out. */
  ghost predicate Dealt(n: Node, draws: Draws, k: nat, fields: set<string>, parts: seq<Props>)
    requires k > 0 && Splittable(n, k)
  {
    && |parts| == k
    && (forall a :: 0 <= a < k ==> parts[a].Keys <= fields)
    && (forall a, f :: 0 <= a < k && f in fields && f in n.props && (f != NAME || a == 0) ==>
          Holds(parts[a], f, OnAlias(n, draws, k, a, f)))
    && (forall a :: 0 < a < k ==> NAME !in parts[a])
  }

  /** `parts[d].setdefault(field, []).append(item)` */
  function Append(p: Props, f: string, item: Value): Props
    requires f in p ==> p[f].List?
  {
    p[f := List((if f in p then p[f].items else []) + [item])]
  }

  /** One list field, item by item. */
  method DealList(n: Node, draws: Draws, k: nat, f: string, parts: seq<Props>) returns (out: seq<Props>)
    requires k > 0 && Splittable(n, k) && f in n.props && f in LIST_FIELDS
    requires |parts| == k && forall a :: 0 <= a < k ==> f !in parts[a]
    ensures |out| == k
    ensures forall a :: 0 <= a < k ==> out[a] - {f} == parts[a]
    ensures forall a :: 0 <= a < k ==>
      Holds(out[a], f, OnAlias(n, draws, k, a, f))
  {
    var items := n.props[f].items;
    out := parts;
    for i := 0 to |items|
      invariant |out| == k
      invariant forall a :: 0 <= a < k ==> out[a] - {f} == parts[a]
      invariant forall a :: 0 <= a < k ==> (f in out[a] <==> Share(items, draws, n.key, f, k, a, i) != [])
      invariant forall a :: 0 <= a < k && f in out[a] ==> out[a][f] == List(Share(items, draws, n.key, f, k, a, i))
    {
      var d := Drawn(draws, n.key, f, i, k);
      ghost var before := out;
      out := out[d := Append(out[d], f, items[i])];
      assert forall a :: 0 <= a < k && a != d ==> out[a] == before[a];
      assert out[d] - {f} == before[d] - {f};
    }
  }

  lemma DealtStep(n: Node, draws: Draws, k: nat, fields: set<string>, parts: seq<Props>, out: seq<Props>, f: string)
    requires k > 0 && Splittable(n, k) && Dealt(n, draws, k, fields, parts) && f in n.props && f !in fields
    requires |out| == k && forall a :: 0 <= a < k ==> out[a] - {f} == parts[a]
    requires forall a :: 0 <= a < k && (f != NAME || a == 0) ==>
      Holds(out[a], f, OnAlias(n, draws, k, a, f))
    requires f == NAME ==> forall a :: 0 < a < k ==> f !in out[a]
    ensures Dealt(n, draws, k, fields + {f}, out)
  {
    forall a, g | 0 <= a < k && g != f
      ensures (g in out[a] <==> g in parts[a]) && (g in out[a] ==> out[a][g] == parts[a][g])
    {
      assert g in out[a] <==> g in out[a] - {f};
    }
  }

  /** One field of the props, onto the aliases. */
  method DealField(n: Node, draws: Draws, k: nat, f: string, ghost fields: set<string>, parts: seq<Props>)
    returns (out: seq<Props>)
    requires k > 0 && Splittable(n, k) && Dealt(n, draws, k, fields, parts) && f in n.props && f !in fields
    ensures Dealt(n, draws, k, fields + {f}, out)
  {
    assert forall a :: 0 <= a < k ==> f !in parts[a];
    if f !in RULE_FIELDS {
      out := parts[0 := parts[0][f := n.props[f]]];
    } else if f in LIST_FIELDS {
      out := DealList(n, draws, k, f, parts);
    } else {
      var d := Drawn(draws, n.key, f, 0, k);
      out := parts[d := parts[d][f := n.props[f]]];
    }
    DealtStep(n, draws, k, fields, parts, out, f);
  }

  /** `fragment`: the node as `k` aliases, the first of them the canonical one. */
  method Fragment(n: Node, draws: Draws, k: nat) returns (out: seq<Node>)
    requires k > 0 && Splittable(n, k)
    ensures out == Aliases(n, draws, k)
  {
    var parts: seq<Props> := seq(k, _ => map[]);
    var todo := n.props.Keys;
    while todo != {}
      invariant todo <= n.props.Keys
      invariant Dealt(n, draws, k, n.props.Keys - todo, parts)
    {
      var f :| f in todo;
      parts := DealField(n, draws, k, f, n.props.Keys - todo, parts);
      assert n.props.Keys - (todo - {f}) == (n.props.Keys - todo) + {f};
      todo := todo - {f};
    }
    ghost var dealt := parts;
    for a := 1 to k
      invariant |parts| == k
      invariant forall b :: 0 <= b < k ==> parts[b] == if 0 < b < a then dealt[b][NAME := n.props[NAME]] else dealt[b]
    {
      parts := parts[a := parts[a][NAME := n.props[NAME]]];
    }
    out := seq(k, a requires 0 <= a < k => Node(AliasKey(n.key, a), n.nodeLabel, parts[a]));
    forall a | 0 <= a < k ensures parts[a] == AliasProps(n, draws, k, a) {
      NamedIsAlias(n, draws, k, dealt, a, parts[a]);
    }
  }

  lemma NamedIsAlias(n: Node, draws: Draws, k: nat, dealt: seq<Props>, a: nat, p: Props)
    requires k > 0 && Splittable(n, k) && Dealt(n, draws, k, n.props.Keys, dealt) && a < k
    requires p == if a > 0 && NAME in n.props then dealt[a][NAME := n.props[NAME]] else dealt[a]
    ensures p == AliasProps(n, draws, k, a)
  {
    forall f ensures f in p <==> f in AliasProps(n, draws, k, a) {
      assert f in n.props || f !in p;
    }
  }
}
