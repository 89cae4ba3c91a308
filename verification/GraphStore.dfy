/** The store object. Each method is proved against the value-level step in `Canvas`. */
module GraphStores {
  import opened Options
  import opened Canvas

  class GraphStore {
    var nodes: map<string, GraphNode>
    var edges: map<string, GraphEdge>
    var dirty: set<string>
    var ready: set<string>
    var selection: Selection

    function View(): State
      reads this
    {
      State(nodes, edges, dirty, ready, selection)
    }

    constructor ()
      ensures View() == EmptyState
    {
      nodes, edges, dirty, ready, selection := map[], map[], {}, {}, NoSelection;
    }

    method UpsertNode(key: string, l: string)
      modifies this
      ensures View() == Canvas.UpsertNode(old(View()), key, l)
    {
      if key !in nodes {
        nodes := nodes[key := GraphNode(key, l, None)];
      } else if l != "" {
        nodes := nodes[key := nodes[key].(nodeLabel := l)];
      }
    }

    method UpsertEdge(etype: string, src: string, dst: string)
      modifies this
      ensures View() == Canvas.UpsertEdge(old(View()), etype, src, dst)
    {
      var id := EdgeId(etype, src, dst);
      if id in edges { return; }
      edges := edges[id := GraphEdge(etype, src, dst, None, None)];
    }

    method RemoveEdge(id: string)
      modifies this
      ensures View() == Canvas.RemoveEdge(old(View()), id)
    {
      if id !in edges { return; }
      edges := edges - {id};
      if selection == OnEdge(id) { selection := NoSelection; }
    }

    method DropLegacyRelated(src: string, dst: string)
      modifies this
      ensures View() == Canvas.DropLegacyRelated(old(View()), src, dst)
    {
      RemoveEdge(EdgeId(RELATED, src, dst));
      if src != dst { RemoveEdge(EdgeId(RELATED, dst, src)); }
    }

    method MergeNeighbour(root: string, etype: string, nbr: string, dir: Dir)
      modifies this
      ensures View() == MergeOne(old(View()), root, etype, nbr, dir)
    {
      UpsertNode(nbr, "");
      var src := if dir == Outward then root else nbr;
      var dst := if dir == Outward then nbr else root;
      UpsertEdge(etype, src, dst);
      if etype != RELATED { DropLegacyRelated(src, dst); }
    }

    method MergeNeighborhoodWithEdges(root: string, per: Record, dir: Dir)
      modifies this
      ensures View() == Merge(old(View()), root, per, dir)
    {
      UpsertNode(root, "");
      ghost var start := View();
      for i := 0 to |per|
        invariant View() == MergeEntries(start, root, per[..i], dir)
      {
        var (etype, nbrs) := per[i];
        ghost var before := View();
        for j := 0 to |nbrs|
          invariant View() == MergeList(before, root, etype, nbrs[..j], dir)
        {
          assert nbrs[..j + 1][..j] == nbrs[..j];
          MergeNeighbour(root, etype, nbrs[j], dir);
        }
        assert nbrs[..|nbrs|] == nbrs && per[..i + 1][..i] == per[..i];
      }
      assert per[..|per|] == per;
      ready := ready + {root};
    }

    method UpsertRows(rows: seq<seq<Cell>>, keyIdx: int, labelIdx: int)
      modifies this
      ensures View() == Canvas.UpsertRows(old(View()), rows, keyIdx, labelIdx)
    {
      for i := 0 to |rows|
        invariant View() == Canvas.UpsertRows(old(View()), rows[..i], keyIdx, labelIdx)
      {
        assert rows[..i + 1][..i] == rows[..i];
        var key := StringCell(rows[i], keyIdx);
        if key.None? { continue; }
        var l := StringCell(rows[i], labelIdx);
        UpsertNode(key.value, if l.Some? then l.value else "");
      }
      assert rows[..|rows|] == rows;
    }

    method FromNeighborhood(root: string, columns: seq<string>, rows: seq<seq<Cell>>)
      modifies this
      ensures View() == Canvas.FromNeighborhood(old(View()), root, columns, rows)
    {
      var keyIdx, labelIdx := IndexOf(columns, "key"), IndexOf(columns, "label");
      if keyIdx >= 0 { UpsertRows(rows, keyIdx, labelIdx); }
      UpsertNode(root, "");
      ready := ready - {root};
      dirty := dirty - {root};
    }

    method MergeQueryGraph(columns: seq<string>, rows: seq<seq<Cell>>)
      modifies this
      ensures View() == MergeQuery(old(View()), columns, rows)
    {
      var keyIdx, labelIdx := IndexOf(columns, "key"), IndexOf(columns, "label");
      if keyIdx >= 0 {
        UpsertRows(rows, keyIdx, labelIdx);
        return;
      }
      for i := 0 to |rows|
        invariant View() == HarvestRows(old(View()), columns, rows[..i])
      {
        ghost var before := View();
        for j := 0 to |columns|
          invariant View() == HarvestRow(before, columns, rows[i], j)
        {
          if '.' in columns[j] || columns[j] == "label" || columns[j] == "depth" { continue; }
          var key := StringCell(rows[i], j);
          if key.Some? { UpsertNode(key.value, ""); }
        }
        assert rows[..i + 1][..i] == rows[..i];
      }
      assert rows[..|rows|] == rows;
    }

    method SetProvenance(id: string, why: Option<string>)
      modifies this
      ensures View() == Canvas.SetProvenance(old(View()), id, why)
    {
      if id !in edges { return; }
      if why.None? {
        edges := edges[id := edges[id].(derived := Some(false), explanation := None)];
        return;
      }
      edges := edges[id := edges[id].(derived := Some(true), explanation := why)];
    }

    method SetDerived(id: string, derived: bool)
      modifies this
      ensures View() == Canvas.SetDerived(old(View()), id, derived)
    {
      if id !in edges { return; }
      edges := edges[id := edges[id].(derived := Some(derived))];
    }

    method ApplyNodeInfo(key: string, l: string, props: Props)
      modifies this
      ensures View() == Canvas.ApplyNodeInfo(old(View()), key, l, props)
    {
      if key !in nodes { return; }
      if l != "" { nodes := nodes[key := nodes[key].(nodeLabel := l)]; }
      nodes := nodes[key := nodes[key].(props := Some(props))];
      dirty := dirty - {key};
    }

    method MarkAllDirty()
      modifies this
      ensures View() == MarkAll(old(View()))
    {
      var todo := nodes.Keys;
      while todo != {}
        invariant todo <= nodes.Keys
        invariant View() == old(View()).(dirty := old(dirty) + (nodes.Keys - todo))
      {
        var key :| key in todo;
        dirty := dirty + {key};
        todo := todo - {key};
      }
    }

    /** Does any edge have this end? */
    method References(key: string) returns (found: bool)
      ensures found == EdgeReferences(View(), key)
    {
      var todo := edges.Keys;
      while todo != {}
        invariant todo <= edges.Keys
        invariant forall id <- edges.Keys - todo :: !IncidentTo(edges[id], key)
      {
        var id :| id in todo;
        if IncidentTo(edges[id], key) { return true; }
        todo := todo - {id};
      }
      return false;
    }

    /** The node goes, with its marks, its edges, and any selection of those. */
    method OnNodeDeleted(key: string)
      modifies this
      ensures View() == DeleteNode(old(View()), key)
    {
      nodes := nodes - {key};
      dirty := dirty - {key};
      ready := ready - {key};
      var todo := edges.Keys;
      ghost var gone: set<string> := {};
      while todo != {}
        invariant todo <= old(edges).Keys
        invariant gone == set id | id in old(edges) && id !in todo && IncidentTo(old(edges)[id], key)
        invariant edges == old(edges) - gone
        invariant selection ==
          if old(selection).OnEdge? && old(selection).id in gone then NoSelection else old(selection)
        invariant nodes == old(nodes) - {key} && dirty == old(dirty) - {key} && ready == old(ready) - {key}
      {
        var id :| id in todo;
        todo := todo - {id};
        if IncidentTo(edges[id], key) {
          RemoveEdge(id);
          gone := gone + {id};
        }
      }
      if selection == OnNode(key) { selection := NoSelection; }
    }

    /** A watch event, applied as is. */
    method ApplyEvent(e: Event)
      modifies this
      ensures View() == Canvas.Apply(old(View()), e)
    {
      match e
      case NodeInserted(l, key) =>
        if key in nodes {
          if l != "" { nodes := nodes[key := nodes[key].(nodeLabel := l)]; }
          return;
        }
        var referenced := References(key);
        if key in dirty || referenced { nodes := nodes[key := GraphNode(key, l, None)]; }
      case PropSet(key) => if key in nodes { dirty := dirty + {key}; }
      case PropRemoved(key) => if key in nodes { dirty := dirty + {key}; }
      case EdgeInserted(t, src, dst) => if src in nodes && dst in nodes { UpsertEdge(t, src, dst); }
      case EdgeDeleted(t, src, dst) => if src in nodes && dst in nodes { RemoveEdge(EdgeId(t, src, dst)); }
      case NodeDeleted(key) => OnNodeDeleted(key);
      case RuleChanged => MarkAllDirty();
      case BatchApplied =>
      case Ingested =>
    }

    /** A watch event on a live canvas. */
    method ApplyLiveEvent(e: Event)
      modifies this
      ensures View() == ApplyLive(old(View()), e)
    {
      if !e.EdgeInserted? {
        ApplyEvent(e);
        return;
      }
      var srcVisible, dstVisible := e.src in nodes, e.dst in nodes;
      var isReady := srcVisible && dstVisible && e.src in ready && e.dst in ready;
      if isReady {
        ApplyEvent(e);
        return;
      }
      if srcVisible { dirty := dirty + {e.src}; }
      if dstVisible { dirty := dirty + {e.dst}; }
    }
  }
}
