/** The explorer's graph store: nodes, edges, marks and a selection, changed in place by
  merges and watch events. */
module Canvas {
  import opened Options

  type Props = map<string, string>

  datatype GraphNode = GraphNode(key: string, nodeLabel: string, props: Option<Props>)

  datatype GraphEdge =
    GraphEdge(etype: string, src: string, dst: string, derived: Option<bool>, explanation: Option<string>)

  datatype Selection = NoSelection | OnNode(id: string) | OnEdge(id: string)

  datatype Dir = Inward | Outward

  datatype Cell = Text(s: string) | OtherCell

  datatype Event =
    | NodeInserted(nodeLabel: string, key: string)
    | PropSet(key: string)
    | PropRemoved(key: string)
    | EdgeInserted(etype: string, src: string, dst: string)
    | EdgeDeleted(etype: string, src: string, dst: string)
    | NodeDeleted(key: string)
    | RuleChanged
    | BatchApplied
    | Ingested

  /** A JavaScript record of lists, as its entries in order. */
  type Record = seq<(string, seq<string>)>

  const RELATED := "related"

  function EdgeId(etype: string, src: string, dst: string): string { etype + "|" + src + "|" + dst }

  /** The whole state of a store, as a value. */
  datatype State = State(
    nodes: map<string, GraphNode>,
    edges: map<string, GraphEdge>,
    dirty: set<string>,
    ready: set<string>,
    selection: Selection)

  const EmptyState := State(map[], map[], {}, {}, NoSelection)

  // ---- the private steps ----------------------------------------------------------------

  function UpsertNode(s: State, key: string, l: string): State
  {
    if key !in s.nodes then s.(nodes := s.nodes[key := GraphNode(key, l, None)])
    else if l != "" then s.(nodes := s.nodes[key := s.nodes[key].(nodeLabel := l)])
    else s
  }

  function EnsureNode(s: State, key: string): State { UpsertNode(s, key, "") }

  function UpsertEdge(s: State, etype: string, src: string, dst: string): State
  {
    var id := EdgeId(etype, src, dst);
    if id in s.edges then s else s.(edges := s.edges[id := GraphEdge(etype, src, dst, None, None)])
  }

  function RemoveEdge(s: State, id: string): State
  {
    if id !in s.edges then s
    else s.(edges := s.edges - {id}, selection := if s.selection == OnEdge(id) then NoSelection else s.selection)
  }

  function DropLegacyRelated(s: State, src: string, dst: string): State
  {
    var t := RemoveEdge(s, EdgeId(RELATED, src, dst));
    if src != dst then RemoveEdge(t, EdgeId(RELATED, dst, src)) else t
  }

  /** One neighbour of a merge. */
  function MergeOne(s: State, root: string, etype: string, nbr: string, dir: Dir): State
  {
    var src, dst := if dir == Outward then root else nbr, if dir == Outward then nbr else root;
    var t := UpsertEdge(EnsureNode(s, nbr), etype, src, dst);
    if etype != RELATED then DropLegacyRelated(t, src, dst) else t
  }

  function MergeList(s: State, root: string, etype: string, nbrs: seq<string>, dir: Dir): State
  {
    if nbrs == [] then s
    else MergeOne(MergeList(s, root, etype, nbrs[..|nbrs| - 1], dir), root, etype, nbrs[|nbrs| - 1], dir)
  }

  function MergeEntries(s: State, root: string, per: Record, dir: Dir): State
  {
    if per == [] then s
    else
      var last := per[|per| - 1];
      MergeList(MergeEntries(s, root, per[..|per| - 1], dir), root, last.0, last.1, dir)
  }

  function Merge(s: State, root: string, per: Record, dir: Dir): State
  {
    var t := MergeEntries(EnsureNode(s, root), root, per, dir);
    t.(ready := t.ready + {root})
  }

  predicate IncidentTo(e: GraphEdge, key: string) { e.src == key || e.dst == key }

  function DeleteNode(s: State, key: string): State
  {
    var gone := set id | id in s.edges && IncidentTo(s.edges[id], key);
    State(s.nodes - {key}, s.edges - gone, s.dirty - {key}, s.ready - {key},
          match s.selection
          case OnNode(id) => if id == key then NoSelection else s.selection
          case OnEdge(id) => if id in gone then NoSelection else s.selection
          case NoSelection => NoSelection)
  }

  predicate EdgeReferences(s: State, key: string) { exists id <- s.edges :: IncidentTo(s.edges[id], key) }

  function InsertedNode(s: State, l: string, key: string): State
  {
    if key in s.nodes then if l != "" then s.(nodes := s.nodes[key := s.nodes[key].(nodeLabel := l)]) else s
    else if key in s.dirty || EdgeReferences(s, key) then s.(nodes := s.nodes[key := GraphNode(key, l, None)])
    else s
  }

  function MarkVisible(s: State, key: string): State { if key in s.nodes then s.(dirty := s.dirty + {key}) else s }

  function MarkAll(s: State): State { s.(dirty := s.dirty + s.nodes.Keys) }

  function Apply(s: State, e: Event): State
  {
    match e
    case NodeInserted(l, key) => InsertedNode(s, l, key)
    case PropSet(key) => MarkVisible(s, key)
    case PropRemoved(key) => MarkVisible(s, key)
    case EdgeInserted(t, src, dst) => if src in s.nodes && dst in s.nodes then UpsertEdge(s, t, src, dst) else s
    case EdgeDeleted(t, src, dst) => if src in s.nodes && dst in s.nodes then RemoveEdge(s, EdgeId(t, src, dst)) else s
    case NodeDeleted(key) => DeleteNode(s, key)
    case RuleChanged => MarkAll(s)
    case BatchApplied => s
    case Ingested => s
  }

  predicate NeedsEdges(s: State, key: string) { key in s.nodes && key !in s.ready }

  /** The live path: an inserted edge is applied only between fully expanded nodes, and
    otherwise marks the visible ends dirty. */
  function ApplyLive(s: State, e: Event): State
  {
    if !e.EdgeInserted? then Apply(s, e)
    else if e.src in s.nodes && e.dst in s.nodes && !NeedsEdges(s, e.src) && !NeedsEdges(s, e.dst) then Apply(s, e)
    else
      var t := if e.src in s.nodes then s.(dirty := s.dirty + {e.src}) else s;
      if e.dst in s.nodes then t.(dirty := t.dirty + {e.dst}) else t
  }

  // ---- rows -----------------------------------------------------------------------------

  function IndexOf(columns: seq<string>, name: string): int
  {
    if columns == [] then -1
    else if columns[0] == name then 0
    else var i := IndexOf(columns[1..], name); if i < 0 then -1 else i + 1
  }

  /** A non-empty string in that column, if the row has one. */
  function StringCell(row: seq<Cell>, i: int): Option<string>
  {
    if 0 <= i < |row| && row[i].Text? && row[i].s != "" then Some(row[i].s) else None
  }

  function UpsertRow(s: State, row: seq<Cell>, keyIdx: int, labelIdx: int): State
  {
    var key := StringCell(row, keyIdx);
    if key.None? then s
    else
      var l := StringCell(row, labelIdx);
      UpsertNode(s, key.value, if l.Some? then l.value else "")
  }

  function UpsertRows(s: State, rows: seq<seq<Cell>>, keyIdx: int, labelIdx: int): State
  {
    if rows == [] then s
    else UpsertRow(UpsertRows(s, rows[..|rows| - 1], keyIdx, labelIdx), rows[|rows| - 1], keyIdx, labelIdx)
  }

  function FromNeighborhood(s: State, root: string, columns: seq<string>, rows: seq<seq<Cell>>): State
  {
    var keyIdx, labelIdx := IndexOf(columns, "key"), IndexOf(columns, "label");
    var t := if keyIdx >= 0 then UpsertRows(s, rows, keyIdx, labelIdx) else s;
    var u := EnsureNode(t, root);
    u.(ready := u.ready - {root}, dirty := u.dirty - {root})
  }

  predicate Harvested(column: string) { '.' !in column && column != "label" && column != "depth" }

  function HarvestRow(s: State, columns: seq<string>, row: seq<Cell>, n: nat): State
    requires n <= |columns|
  {
    if n == 0 then s
    else
      var t := HarvestRow(s, columns, row, n - 1);
      var key := StringCell(row, n - 1);
      if Harvested(columns[n - 1]) && key.Some? then EnsureNode(t, key.value) else t
  }

  function HarvestRows(s: State, columns: seq<string>, rows: seq<seq<Cell>>): State
  {
    if rows == [] then s
    else HarvestRow(HarvestRows(s, columns, rows[..|rows| - 1]), columns, rows[|rows| - 1], |columns|)
  }

  function MergeQuery(s: State, columns: seq<string>, rows: seq<seq<Cell>>): State
  {
    var keyIdx, labelIdx := IndexOf(columns, "key"), IndexOf(columns, "label");
    if keyIdx >= 0 then UpsertRows(s, rows, keyIdx, labelIdx) else HarvestRows(s, columns, rows)
  }

  // ---- small setters ------------------------------------------------------------------------

  function SetProvenance(s: State, id: string, why: Option<string>): State
  {
    if id !in s.edges then s
    else s.(edges := s.edges[id := s.edges[id].(derived := Some(why.Some?), explanation := why)])
  }

  function SetDerived(s: State, id: string, derived: bool): State
  {
    if id !in s.edges then s else s.(edges := s.edges[id := s.edges[id].(derived := Some(derived))])
  }

  function ApplyNodeInfo(s: State, key: string, l: string, props: Props): State
  {
    if key !in s.nodes then s
    else
      var n := if l != "" then s.nodes[key].(nodeLabel := l) else s.nodes[key];
      s.(nodes := s.nodes[key := n.(props := Some(props))], dirty := s.dirty - {key})
  }

  function SetNodeProps(s: State, key: string, props: Option<Props>): State
  {
    if key !in s.nodes then s else s.(nodes := s.nodes[key := s.nodes[key].(props := props)])
  }

  // ---- what every operation keeps -----------------------------------------------------------------

  /** Each item sits under its own id, both ends of every edge are nodes, and only nodes
    count as expanded. */
  ghost predicate Sound(s: State)
  {
    && (forall k <- s.nodes :: s.nodes[k].key == k)
    && (forall id <- s.edges :: var e := s.edges[id];
          id == EdgeId(e.etype, e.src, e.dst) && e.src in s.nodes && e.dst in s.nodes)
    && s.ready <= s.nodes.Keys
  }

  /** The selection points at something. */
  predicate SelectionLive(s: State)
  {
    match s.selection
    case NoSelection => true
    case OnNode(id) => id in s.nodes
    case OnEdge(id) => id in s.edges
  }

  datatype Op =
    | DoNeighborhood(root: string, columns: seq<string>, rows: seq<seq<Cell>>)
    | DoMerge(root: string, per: Record, dir: Dir)
    | DoQuery(columns: seq<string>, rows: seq<seq<Cell>>)
    | DoProvenance(id: string, why: Option<string>)
    | DoDerived(id: string, derived: bool)
    | DoNodeInfo(key: string, nodeLabel: string, props: Props)
    | DoNodeProps(key: string, newProps: Option<Props>)
    | DoSelect(selection: Selection)
    | DoMarkDirty(key: string)
    | DoEvent(e: Event)
    | DoLive(e: Event)
    | DoLagged

  function Do(s: State, op: Op): State
  {
    match op
    case DoNeighborhood(root, columns, rows) => FromNeighborhood(s, root, columns, rows)
    case DoMerge(root, per, dir) => Merge(s, root, per, dir)
    case DoQuery(columns, rows) => MergeQuery(s, columns, rows)
    case DoProvenance(id, why) => SetProvenance(s, id, why)
    case DoDerived(id, derived) => SetDerived(s, id, derived)
    case DoNodeInfo(key, l, props) => ApplyNodeInfo(s, key, l, props)
    case DoNodeProps(key, props) => SetNodeProps(s, key, props)
    case DoSelect(selection) => s.(selection := selection)
    case DoMarkDirty(key) => s.(dirty := s.dirty + {key})
    case DoEvent(e) => Apply(s, e)
    case DoLive(e) => ApplyLive(s, e)
    case DoLagged => MarkAll(s)
  }

  function Run(s: State, ops: seq<Op>): State
  {
    if ops == [] then s else Do(Run(s, ops[..|ops| - 1]), ops[|ops| - 1])
  }

  /** What an operation other than a selection keeps. */
  ghost predicate Kept(s: State, t: State)
  {
    Sound(s) ==> Sound(t) && (SelectionLive(s) ==> SelectionLive(t))
  }

  lemma UpsertNodeKeeps(s: State, key: string, l: string)
    ensures Kept(s, UpsertNode(s, key, l))
    ensures UpsertNode(s, key, l).nodes.Keys == s.nodes.Keys + {key}
    ensures UpsertNode(s, key, l).edges == s.edges && UpsertNode(s, key, l).ready == s.ready
  {
  }

  lemma UpsertEdgeKeeps(s: State, etype: string, src: string, dst: string)
    requires src in s.nodes && dst in s.nodes
    ensures var t := UpsertEdge(s, etype, src, dst); Kept(s, t) && t.nodes == s.nodes && t.ready == s.ready
  {
  }

  lemma RemoveEdgeKeeps(s: State, id: string)
    ensures var t := RemoveEdge(s, id); Kept(s, t) && t.nodes == s.nodes && t.ready == s.ready
  {
  }

  lemma MergeOneKeeps(s: State, root: string, etype: string, nbr: string, dir: Dir)
    requires root in s.nodes
    ensures var t := MergeOne(s, root, etype, nbr, dir);
      Kept(s, t) && t.nodes.Keys == s.nodes.Keys + {nbr} && t.ready == s.ready
  {
    var src, dst := if dir == Outward then root else nbr, if dir == Outward then nbr else root;
    var a := EnsureNode(s, nbr);
    var b := UpsertEdge(a, etype, src, dst);
    var c := RemoveEdge(b, EdgeId(RELATED, src, dst));
    UpsertNodeKeeps(s, nbr, "");
    UpsertEdgeKeeps(a, etype, src, dst);
    RemoveEdgeKeeps(b, EdgeId(RELATED, src, dst));
    RemoveEdgeKeeps(c, EdgeId(RELATED, dst, src));
  }

  lemma {:induction false} MergeListKeeps(s: State, root: string, etype: string, nbrs: seq<string>, dir: Dir)
    requires root in s.nodes
    ensures var t := MergeList(s, root, etype, nbrs, dir);
      Kept(s, t) && s.nodes.Keys <= t.nodes.Keys && t.ready == s.ready
  {
    if nbrs != [] {
      MergeListKeeps(s, root, etype, nbrs[..|nbrs| - 1], dir);
      MergeOneKeeps(MergeList(s, root, etype, nbrs[..|nbrs| - 1], dir), root, etype, nbrs[|nbrs| - 1], dir);
    }
  }

  lemma {:induction false} MergeEntriesKeeps(s: State, root: string, per: Record, dir: Dir)
    requires root in s.nodes
    ensures var t := MergeEntries(s, root, per, dir); Kept(s, t) && s.nodes.Keys <= t.nodes.Keys && t.ready == s.ready
  {
    if per != [] {
      var front := per[..|per| - 1];
      MergeEntriesKeeps(s, root, front, dir);
      MergeListKeeps(MergeEntries(s, root, front, dir), root, per[|per| - 1].0, per[|per| - 1].1, dir);
    }
  }

  lemma MergeKeeps(s: State, root: string, per: Record, dir: Dir)
    ensures Kept(s, Merge(s, root, per, dir))
  {
    UpsertNodeKeeps(s, root, "");
    MergeEntriesKeeps(EnsureNode(s, root), root, per, dir);
  }

  lemma {:induction false} UpsertRowsKeeps(s: State, rows: seq<seq<Cell>>, keyIdx: int, labelIdx: int)
    ensures Kept(s, UpsertRows(s, rows, keyIdx, labelIdx))
  {
    if rows != [] { UpsertRowsKeeps(s, rows[..|rows| - 1], keyIdx, labelIdx); }
  }

  lemma {:induction false} HarvestRowKeeps(s: State, columns: seq<string>, row: seq<Cell>, n: nat)
    requires n <= |columns|
    ensures Kept(s, HarvestRow(s, columns, row, n))
  {
    if n > 0 { HarvestRowKeeps(s, columns, row, n - 1); }
  }

  lemma {:induction false} HarvestRowsKeeps(s: State, columns: seq<string>, rows: seq<seq<Cell>>)
    ensures Kept(s, HarvestRows(s, columns, rows))
  {
    if rows != [] {
      HarvestRowsKeeps(s, columns, rows[..|rows| - 1]);
      HarvestRowKeeps(HarvestRows(s, columns, rows[..|rows| - 1]), columns, rows[|rows| - 1], |columns|);
    }
  }

  lemma ApplyKeeps(s: State, e: Event)
    ensures Kept(s, Apply(s, e))
  {
  }

  lemma LiveKeeps(s: State, e: Event)
    ensures Kept(s, ApplyLive(s, e))
  {
    ApplyKeeps(s, e);
  }

  lemma SetterKeeps(s: State, op: Op)
    requires op.DoProvenance? || op.DoDerived? || op.DoNodeInfo? || op.DoNodeProps? || op.DoMarkDirty? || op.DoLagged?
    ensures Kept(s, Do(s, op))
  {
  }

  lemma DoKeeps(s: State, op: Op)
    requires !op.DoSelect?
    ensures Kept(s, Do(s, op))
  {
    match op
    case DoNeighborhood(root, columns, rows) =>
      UpsertRowsKeeps(s, rows, IndexOf(columns, "key"), IndexOf(columns, "label"));
    case DoMerge(root, per, dir) => MergeKeeps(s, root, per, dir);
    case DoQuery(columns, rows) =>
      UpsertRowsKeeps(s, rows, IndexOf(columns, "key"), IndexOf(columns, "label"));
      HarvestRowsKeeps(s, columns, rows);
    case DoEvent(e) => ApplyKeeps(s, e);
    case DoLive(e) => LiveKeeps(s, e);
    case _ => SetterKeeps(s, op);
  }

  /** Every selection in the run is made on an item that exists at that moment. */
  ghost predicate SelectsExisting(s: State, ops: seq<Op>)
  {
    forall i :: 0 <= i < |ops| && ops[i].DoSelect? ==> SelectionLive(Run(s, ops[..i + 1]))
  }

  /** Over every run of operations and events, the store stays sound, and a selection made
    on an existing item is never left dangling. */
  lemma {:induction false} RunStaysSound(ops: seq<Op>)
    ensures Sound(Run(EmptyState, ops))
    ensures SelectsExisting(EmptyState, ops) ==> SelectionLive(Run(EmptyState, ops))
  {
    if ops != [] {
      var front := ops[..|ops| - 1];
      RunStaysSound(front);
      assert ops[..|ops|] == ops;
      if SelectsExisting(EmptyState, ops) {
        forall i | 0 <= i < |front| && front[i].DoSelect? ensures SelectionLive(Run(EmptyState, front[..i + 1])) {
          assert front[..i + 1] == ops[..i + 1];
        }
      }
      if !ops[|ops| - 1].DoSelect? { DoKeeps(Run(EmptyState, front), ops[|ops| - 1]); }
    }
  }

  // ---- live events never grow the canvas -----------------------------------------------------------

  function RunLive(s: State, es: seq<Event>): State
  {
    if es == [] then s else ApplyLive(RunLive(s, es[..|es| - 1]), es[|es| - 1])
  }

  lemma LiveStep(s: State, e: Event)
    requires Sound(s) && s.dirty <= s.nodes.Keys
    ensures var t := ApplyLive(s, e); t.nodes.Keys <= s.nodes.Keys && t.dirty <= t.nodes.Keys
  {
  }

  /** From a sound state whose dirty marks are on nodes, no run of live events ever adds a
    node. */
  lemma {:induction false} LiveNeverAddsNodes(s: State, es: seq<Event>)
    requires Sound(s) && s.dirty <= s.nodes.Keys
    ensures var t := RunLive(s, es); Sound(t) && t.nodes.Keys <= s.nodes.Keys && t.dirty <= t.nodes.Keys
  {
    if es != [] {
      var front := es[..|es| - 1];
      LiveNeverAddsNodes(s, front);
      LiveStep(RunLive(s, front), es[|es| - 1]);
      LiveKeeps(RunLive(s, front), es[|es| - 1]);
    }
  }

  ghost predicate NeverGrows(s: State)
  {
    forall es :: RunLive(s, es).nodes.Keys <= s.nodes.Keys
  }

  /** Live events can add a node exactly when a key that is no node is marked dirty. */
  lemma NeverGrowsIff(s: State)
    requires Sound(s)
    ensures NeverGrows(s) <==> s.dirty <= s.nodes.Keys
  {
    if s.dirty <= s.nodes.Keys {
      forall es ensures RunLive(s, es).nodes.Keys <= s.nodes.Keys { LiveNeverAddsNodes(s, es); }
    } else {
      var k :| k in s.dirty && k !in s.nodes;
      var es := [NodeInserted("", k)];
      assert es[..0] == [] && RunLive(s, []) == s;
      assert k in RunLive(s, es).nodes;
    }
  }
}
