/** Application code that keeps SPECIALTY_MATCH edges by hand: chunked ingest, then a
  retract/add pass per update, over node objects that are shared and updated in place. */
module Handrolled {
  import opened Options

  const OVERLAP_MIN := 0.15
  const EDGE_BATCH_SIZE := 5000
  const INGEST_CHUNK := 2000

  type Pair = (string, string)
  type Specs = map<string, seq<string>>

  function Tokens(xs: seq<string>): set<string> { set x | x in xs }

  function Jaccard(a: seq<string>, b: seq<string>): real
  {
    var sa, sb := Tokens(a), Tokens(b);
    var inter := |sa * sb|;
    if inter == 0 then 0.0
    else
      var union := |sa + sb|;
      if union > 0 then inter as real / union as real else 0.0
  }

  predicate Matches(a: seq<string>, b: seq<string>) { Jaccard(a, b) >= OVERLAP_MIN }

  /** A node of the dataset; `specialties` is the entry of its props, if it has one. */
  class NodeObj {
    const key: string
    const nodeLabel: string
    var specialties: Option<seq<string>>

    constructor (key: string, nodeLabel: string, specialties: Option<seq<string>>)
      ensures this.key == key && this.nodeLabel == nodeLabel && this.specialties == specialties
    {
      this.key := key;
      this.nodeLabel := nodeLabel;
      this.specialties := specialties;
    }

    /** `props.get("specialties") or []` */
    function Specialties(): seq<string>
      reads this
    {
      if specialties.Some? then specialties.value else []
    }
  }

  type Index = map<string, NodeObj>

  /** The specialties behind an index, as its objects hold them now. */
  function View(index: Index): Specs
    reads index.Values
  {
    map k | k in index :: index[k].Specialties()
  }

  /** The specification: exactly the pairs that match under these specialties. */
  ghost predicate Exact(edges: set<Pair>, talents: Specs, companies: Specs)
  {
    forall t, c :: (t, c) in edges <==> t in talents && c in companies && Matches(talents[t], companies[c])
  }

  /** The same, of the rows of the talents; other rows may hold anything. */
  ghost predicate ExactRows(edges: set<Pair>, talents: Specs, companies: Specs)
  {
    forall t, c :: t in talents ==> ((t, c) in edges <==> c in companies && Matches(talents[t], companies[c]))
  }

  ghost predicate Lists(pairs: seq<Pair>, talents: Specs, companies: Specs)
  {
    forall t, c :: (t, c) in pairs <==> t in talents && c in companies && Matches(talents[t], companies[c])
  }

  // ---- ingest --------------------------------------------------------------------

  /** One talent against an index of companies. */
  method Row(t: string, specs: seq<string>, companies: Specs) returns (pairs: seq<Pair>)
    ensures forall a, c :: (a, c) in pairs <==> a == t && c in companies && Matches(specs, companies[c])
  {
    pairs := [];
    var todo := companies.Keys;
    while todo != {}
      invariant todo <= companies.Keys
      invariant forall a, c :: (a, c) in pairs <==>
        a == t && c in companies && c !in todo && Matches(specs, companies[c])
    {
      var c :| c in todo;
      if Jaccard(specs, companies[c]) >= OVERLAP_MIN {
        pairs := pairs + [(t, c)];
      }
      todo := todo - {c};
    }
  }

  method AllPairs(talents: Specs, companies: Specs) returns (pairs: seq<Pair>)
    ensures Lists(pairs, talents, companies)
  {
    pairs := [];
    var todo := talents.Keys;
    while todo != {}
      invariant todo <= talents.Keys
      invariant forall t, c :: (t, c) in pairs <==>
        t in talents && t !in todo && c in companies && Matches(talents[t], companies[c])
    {
      var t :| t in todo;
      var row := Row(t, talents[t], companies);
      pairs := pairs + row;
      todo := todo - {t};
    }
  }

  /** Insert in batches of `EDGE_BATCH_SIZE`. */
  method InsertBatches(edges: set<Pair>, pairs: seq<Pair>) returns (out: set<Pair>)
    ensures forall p :: p in out <==> p in edges || p in pairs
  {
    out := edges;
    var b := 0;
    while b < |pairs|
      invariant 0 <= b
      invariant forall p :: p in out <==> p in edges || p in pairs[..if b < |pairs| then b else |pairs|]
      decreases |pairs| - b
    {
      var end := if b + EDGE_BATCH_SIZE < |pairs| then b + EDGE_BATCH_SIZE else |pairs|;
      var batch := pairs[b..end];
      assert pairs[..end] == pairs[..b] + batch;
      out := out + (set p | p in batch);
      b := b + EDGE_BATCH_SIZE;
    }
    assert pairs[..|pairs|] == pairs;
  }

  ghost predicate DistinctKeys(nodes: seq<NodeObj>)
  {
    forall i, j :: 0 <= i < j < |nodes| ==> nodes[i].key != nodes[j].key
  }

  /** `index` holds exactly the nodes of `nodes` with this label, under their keys. */
  ghost predicate Indexes(index: Index, nodes: seq<NodeObj>, l: string)
  {
    && (forall k <- index :: index[k] in nodes && index[k].key == k && index[k].nodeLabel == l)
    && (forall n <- nodes :: n.nodeLabel == l ==> n.key in index && index[n.key] == n)
  }

  /** The nodes of a chunk with one label, by key. */
  method Select(chunk: seq<NodeObj>, l: string) returns (index: Index)
    requires DistinctKeys(chunk)
    ensures Indexes(index, chunk, l)
  {
    index := map[];
    for i := 0 to |chunk|
      invariant Indexes(index, chunk[..i], l)
    {
      assert chunk[..i + 1] == chunk[..i] + [chunk[i]];
      if chunk[i].nodeLabel == l {
        index := index[chunk[i].key := chunk[i]];
      }
    }
    assert chunk[..|chunk|] == chunk;
  }

  lemma IndexesConcat(a: Index, b: Index, xs: seq<NodeObj>, ys: seq<NodeObj>, l: string)
    requires Indexes(a, xs, l) && Indexes(b, ys, l) && DistinctKeys(xs + ys)
    ensures Indexes(a + b, xs + ys, l) && a.Keys !! b.Keys
  {
    forall x <- xs, y <- ys ensures x.key != y.key {
      var i :| 0 <= i < |xs| && xs[i] == x;
      var j :| 0 <= j < |ys| && ys[j] == y;
      assert (xs + ys)[i] == x && (xs + ys)[|xs| + j] == y;
    }
  }

  /** New talents against every company so far, then new companies against the talents
    that were there before: between them they meet every new pair. */
  lemma NewPairs(edges: set<Pair>, t0: Specs, t1: Specs, c0: Specs, c1: Specs, forward: seq<Pair>,
                 backward: seq<Pair>, out: set<Pair>)
    requires t0.Keys !! t1.Keys && c0.Keys !! c1.Keys
    requires Exact(edges, t0, c0)
    requires Lists(forward, t1, c0 + c1) && Lists(backward, t0, c1)
    requires forall p :: p in out <==> p in edges || p in forward + backward
    ensures Exact(out, t0 + t1, c0 + c1)
  {
  }

  lemma ViewConcat(a: Index, b: Index)
    ensures View(a + b) == View(a) + View(b)
  {
  }

  method AddChunkEdges(talents: Specs, newTalents: Specs, companies: Specs, newCompanies: Specs, edges: set<Pair>)
    returns (out: set<Pair>)
    requires talents.Keys !! newTalents.Keys && companies.Keys !! newCompanies.Keys
    requires Exact(edges, talents, companies)
    ensures Exact(out, talents + newTalents, companies + newCompanies)
  {
    var forward := AllPairs(newTalents, companies + newCompanies);
    var allTalents := talents + newTalents;
    var existing := map k | k in allTalents && k !in newTalents :: allTalents[k];
    assert existing == talents;
    var backward := AllPairs(existing, newCompanies);
    out := InsertBatches(edges, forward + backward);
    NewPairs(edges, talents, newTalents, companies, newCompanies, forward, backward, out);
  }

  method IngestChunk(chunk: seq<NodeObj>, ghost before: seq<NodeObj>, talents: Index, companies: Index,
                     edges: set<Pair>)
    returns (talents': Index, companies': Index, edges': set<Pair>)
    requires DistinctKeys(before + chunk)
    requires Indexes(talents, before, "Talent") && Indexes(companies, before, "Company")
    requires Exact(edges, View(talents), View(companies))
    ensures Indexes(talents', before + chunk, "Talent") && Indexes(companies', before + chunk, "Company")
    ensures Exact(edges', View(talents'), View(companies'))
  {
    assert DistinctKeys(chunk) by {
      assert forall i :: 0 <= i < |chunk| ==> chunk[i] == (before + chunk)[|before| + i];
    }
    var newTalents := Select(chunk, "Talent");
    var newCompanies := Select(chunk, "Company");
    IndexesConcat(talents, newTalents, before, chunk, "Talent");
    IndexesConcat(companies, newCompanies, before, chunk, "Company");
    talents' := talents + newTalents;
    companies' := companies + newCompanies;
    edges' := AddChunkEdges(View(talents), View(newTalents), View(companies), View(newCompanies), edges);
    ViewConcat(talents, newTalents);
    ViewConcat(companies, newCompanies);
  }

  method Ingest(nodes: seq<NodeObj>, chunkSize: nat) returns (talents: Index, companies: Index, edges: set<Pair>)
    requires DistinctKeys(nodes) && chunkSize > 0
    ensures Indexes(talents, nodes, "Talent") && Indexes(companies, nodes, "Company")
    ensures Exact(edges, View(talents), View(companies))
  {
    talents, companies, edges := map[], map[], {};
    var at := 0;
    while at < |nodes|
      invariant 0 <= at <= |nodes|
      invariant Indexes(talents, nodes[..at], "Talent") && Indexes(companies, nodes[..at], "Company")
      invariant Exact(edges, View(talents), View(companies))
    {
      var end := if at + chunkSize < |nodes| then at + chunkSize else |nodes|;
      assert nodes[..at] + nodes[at..end] == nodes[..end];
      talents, companies, edges := IngestChunk(nodes[at..end], nodes[..at], talents, companies, edges);
      at := end;
    }
    assert nodes[..|nodes|] == nodes;
  }

  // ---- updates -------------------------------------------------------------------

  type Update = (string, seq<string>)

  /** The talents' specialties after an update; one for a key that is no talent does nothing. */
  function Updated(specs: Specs, t: string, value: seq<string>): Specs
  {
    if t in specs then specs[t := value] else specs
  }

  function Applied(specs: Specs, updates: seq<Update>): Specs
    decreases |updates|
  {
    if updates == [] then specs
    else Updated(Applied(specs, updates[..|updates| - 1]), updates[|updates| - 1].0, updates[|updates| - 1].1)
  }

  /** The companies a talent has an edge to. */
  function Neighbours(edges: set<Pair>, t: string): set<string>
  {
    set p | p in edges && p.0 == t :: p.1
  }

  /** The set that replaces `t`'s row by what matches now, for the companies in `seen`. */
  ghost predicate RowReplaced(edges: set<Pair>, out: set<Pair>, t: string, specs: seq<string>, companies: Specs,
                              seen: set<string>)
  {
    forall a, c :: (a, c) in out <==>
      if a == t && c in seen && c in companies then Matches(specs, companies[c]) else (a, c) in edges
  }

  lemma ReplacedIsExact(edges: set<Pair>, out: set<Pair>, talents: Specs, companies: Specs, t: string,
                        specs: seq<string>)
    requires ExactRows(edges, talents, companies)
    requires RowReplaced(edges, out, t, specs, companies, companies.Keys)
    ensures ExactRows(out, Updated(talents, t, specs), companies)
  {
  }

  /** One update of the batched run: collect deletes and inserts, commit them together. */
  method ReplaceRowBatched(edges: set<Pair>, t: string, specs: seq<string>, companies: Specs) returns (out: set<Pair>)
    ensures RowReplaced(edges, out, t, specs, companies, companies.Keys)
  {
    var current := Neighbours(edges, t);
    var toDelete, toInsert: seq<Pair> := [], [];
    var todo := companies.Keys;
    while todo != {}
      invariant todo <= companies.Keys
      invariant forall a, c :: (a, c) in toDelete <==>
        a == t && c in companies && c !in todo && (t, c) in edges && !Matches(specs, companies[c])
      invariant forall a, c :: (a, c) in toInsert <==>
        a == t && c in companies && c !in todo && (t, c) !in edges && Matches(specs, companies[c])
    {
      var c :| c in todo;
      var matches := Jaccard(specs, companies[c]) >= OVERLAP_MIN;
      var hadEdge := c in current;
      if hadEdge && !matches {
        toDelete := toDelete + [(t, c)];
      } else if !hadEdge && matches {
        toInsert := toInsert + [(t, c)];
      }
      todo := todo - {c};
    }
    out := edges - (set p | p in toDelete) + (set p | p in toInsert);
  }

  /** One update of the per-operation run: delete or insert as each company is visited. */
  method ReplaceRowNaive(edges: set<Pair>, t: string, specs: seq<string>, companies: Specs) returns (out: set<Pair>)
    ensures RowReplaced(edges, out, t, specs, companies, companies.Keys)
  {
    var current := Neighbours(edges, t);
    out := edges;
    var todo := companies.Keys;
    while todo != {}
      invariant todo <= companies.Keys
      invariant RowReplaced(edges, out, t, specs, companies, companies.Keys - todo)
    {
      var c :| c in todo;
      var matches := Jaccard(specs, companies[c]) >= OVERLAP_MIN;
      var hadEdge := c in current;
      assert hadEdge <==> (t, c) in edges;
      if hadEdge && !matches {
        out := out - {(t, c)};
      } else if !hadEdge && matches {
        out := out + {(t, c)};
      }
      todo := todo - {c};
    }
  }

  /** `talent_index[t]["specialties"] = specs`, on the object the index shares with the
    dataset: one entry of one view changes. */
  method WriteSpecialties(talents: Index, companies: Index, t: string, specs: seq<string>)
    requires t in talents
    requires forall k <- talents :: k != t ==> talents[k] != talents[t]
    requires forall c <- companies :: companies[c] != talents[t]
    modifies talents[t]
    ensures View(talents) == old(View(talents))[t := specs]
    ensures View(companies) == old(View(companies))
  {
    talents[t].specialties := Some(specs);
  }

  method ReplaceRow(edges: set<Pair>, t: string, specs: seq<string>, talents: Specs, companies: Specs, batched: bool)
    returns (out: set<Pair>)
    requires ExactRows(edges, talents, companies)
    ensures ExactRows(out, Updated(talents, t, specs), companies)
  {
    if batched {
      out := ReplaceRowBatched(edges, t, specs, companies);
    } else {
      out := ReplaceRowNaive(edges, t, specs, companies);
    }
    ReplacedIsExact(edges, out, talents, companies, t, specs);
  }

  /** One update of either run: the shared object is written, the row re-evaluated. */
  method UpdateOne(nodes: seq<NodeObj>, talents: Index, companies: Index, edges: set<Pair>, t: string,
                   specs: seq<string>,
                   batched: bool) returns (out: set<Pair>)
    requires Indexes(talents, nodes, "Talent") && Indexes(companies, nodes, "Company")
    requires ExactRows(edges, View(talents), View(companies))
    modifies nodes
    ensures View(talents) == Updated(old(View(talents)), t, specs)
    ensures View(companies) == old(View(companies))
    ensures ExactRows(out, View(talents), View(companies))
  {
    var before := View(talents);
    if t in talents { WriteSpecialties(talents, companies, t, specs); }
    out := ReplaceRow(edges, t, specs, before, View(companies), batched);
  }

  /** The update loop of either run, on the shared node objects. */
  method UpdateAll(nodes: seq<NodeObj>, talents: Index, companies: Index, edges: set<Pair>, updates: seq<Update>,
                   batched: bool)
    returns (out: set<Pair>)
    requires Indexes(talents, nodes, "Talent") && Indexes(companies, nodes, "Company")
    requires ExactRows(edges, View(talents), View(companies))
    modifies nodes
    ensures View(talents) == Applied(old(View(talents)), updates)
    ensures View(companies) == old(View(companies))
    ensures ExactRows(out, View(talents), View(companies))
  {
    out := edges;
    for i := 0 to |updates|
      invariant View(talents) == Applied(old(View(talents)), updates[..i])
      invariant View(companies) == old(View(companies))
      invariant ExactRows(out, View(talents), View(companies))
    {
      assert updates[..i + 1][..i] == updates[..i];
      out := UpdateOne(nodes, talents, companies, out, updates[i].0, updates[i].1, batched);
    }
    assert updates[..|updates|] == updates;
  }

  /** `collect_edge_set`: the rows of the given keys. */
  method CollectEdges(edges: set<Pair>, keys: set<string>) returns (out: set<Pair>)
    ensures forall t, c :: (t, c) in out <==> (t, c) in edges && t in keys
  {
    out := {};
    var todo := keys;
    while todo != {}
      invariant todo <= keys
      invariant forall t, c :: (t, c) in out <==> (t, c) in edges && t in keys && t !in todo
    {
      var t :| t in todo;
      var row := Neighbours(edges, t);
      out := out + set c | c in row :: (t, c);
      todo := todo - {t};
    }
  }

  // ---- whole runs ------------------------------------------------------------------

  /** The specialties of the nodes with one label. */
  ghost function SpecsOf(nodes: seq<NodeObj>, l: string): Specs
    requires DistinctKeys(nodes)
    reads nodes
  {
    map n | n in nodes && n.nodeLabel == l :: n.key := n.Specialties()
  }

  lemma IndexIsSpecs(index: Index, nodes: seq<NodeObj>, l: string)
    requires DistinctKeys(nodes) && Indexes(index, nodes, l)
    ensures View(index) == SpecsOf(nodes, l)
  {
  }

  /** One run, batched or per operation, for any chunk size: the edges are exactly the
    pairs that match under the specialties the nodes hold afterwards, and those are the
    ones the updates leave. */
  method Run(nodes: seq<NodeObj>, chunkSize: nat, updates: seq<Update>, batched: bool) returns (edges: set<Pair>)
    requires DistinctKeys(nodes) && chunkSize > 0
    modifies nodes
    ensures SpecsOf(nodes, "Talent") == Applied(old(SpecsOf(nodes, "Talent")), updates)
    ensures SpecsOf(nodes, "Company") == old(SpecsOf(nodes, "Company"))
    ensures Exact(edges, SpecsOf(nodes, "Talent"), SpecsOf(nodes, "Company"))
  {
    var talents, companies;
    talents, companies, edges := Ingest(nodes, chunkSize);
    IndexIsSpecs(talents, nodes, "Talent");
    IndexIsSpecs(companies, nodes, "Company");
    edges := UpdateAll(nodes, talents, companies, edges, updates, batched);
    edges := CollectEdges(edges, talents.Keys);
    IndexIsSpecs(talents, nodes, "Talent");
    IndexIsSpecs(companies, nodes, "Company");
  }

  /** The last specialties the updates give `k`, if any does. */
  function LastFor(updates: seq<Update>, k: string): Option<seq<string>>
    decreases |updates|
  {
    if updates == [] then None
    else if updates[|updates| - 1].0 == k then Some(updates[|updates| - 1].1)
    else LastFor(updates[..|updates| - 1], k)
  }

  lemma {:induction false} AppliedIsLast(specs: Specs, updates: seq<Update>)
    ensures Applied(specs, updates).Keys == specs.Keys
    ensures forall k <- specs ::
      Applied(specs, updates)[k] == if LastFor(updates, k).Some? then LastFor(updates, k).value else specs[k]
    decreases |updates|
  {
    if updates != [] { AppliedIsLast(specs, updates[..|updates| - 1]); }
  }

  /** Applying the updates to specialties they have already been applied to changes nothing. */
  lemma AppliedTwice(specs: Specs, updates: seq<Update>)
    ensures Applied(Applied(specs, updates), updates) == Applied(specs, updates)
  {
    AppliedIsLast(specs, updates);
    AppliedIsLast(Applied(specs, updates), updates);
  }

  lemma ExactIsUnique(a: set<Pair>, b: set<Pair>, talents: Specs, companies: Specs)
    requires Exact(a, talents, companies) && Exact(b, talents, companies)
    ensures a == b
  {
    forall p ensures p in a <==> p in b {
      var (t, c) := p;
      assert p == (t, c);
    }
  }

  /** The comparison: per-operation run first, then the batched one on the node objects
    the first run has already written to. They end in the same set. */
  method RunBoth(nodes: seq<NodeObj>, updates: seq<Update>) returns (naive: set<Pair>, optimized: set<Pair>)
    requires DistinctKeys(nodes)
    modifies nodes
    ensures naive == optimized
    ensures Exact(optimized, Applied(old(SpecsOf(nodes, "Talent")), updates), old(SpecsOf(nodes, "Company")))
  {
    naive := Run(nodes, INGEST_CHUNK, updates, false);
    ghost var talents, companies := SpecsOf(nodes, "Talent"), SpecsOf(nodes, "Company");
    AppliedTwice(old(SpecsOf(nodes, "Talent")), updates);
    optimized := Run(nodes, INGEST_CHUNK, updates, true);
    ExactIsUnique(naive, optimized, talents, companies);
  }
}
