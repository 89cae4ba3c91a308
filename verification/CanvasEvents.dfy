/** What each event and each query result does to the canvas, field by field, and which edges
  are on it after any run of events. */
module CanvasEvents {
  import opened Options
  import opened Canvas
  import opened Expand

  // ---- one event ------------------------------------------------------------------------

  /** The selection once these edges are gone. */
  ghost predicate Unselected(s: State, t: State, gone: set<string>)
  {
    if s.selection.OnEdge? && s.selection.id in s.edges && s.selection.id in gone then t.selection == NoSelection
    else t.selection == s.selection
  }

  ghost predicate OnlyDirty(s: State, t: State, marked: set<string>)
  {
    && t.nodes == s.nodes && t.edges == s.edges && t.ready == s.ready && t.selection == s.selection
    && t.dirty == s.dirty + marked
  }

  ghost predicate OnlyEdges(s: State, t: State)
  {
    t.nodes == s.nodes && t.dirty == s.dirty && t.ready == s.ready
  }

  /** An edge event between visible nodes changes the edge it names and no other. */
  lemma EdgeInsertedDecides(s: State, etype: string, src: string, dst: string)
    requires src in s.nodes && dst in s.nodes
    ensures var t, id := Canvas.Apply(s, EdgeInserted(etype, src, dst)), EdgeId(etype, src, dst);
      && OnlyEdges(s, t) && t.selection == s.selection && t.edges.Keys == s.edges.Keys + {id}
      && (forall i <- s.edges :: t.edges[i] == s.edges[i])
      && (id !in s.edges ==>
            t.edges[id].etype == etype && t.edges[id].src == src && t.edges[id].dst == dst
            && t.edges[id].derived.None? && t.edges[id].explanation.None?)
  {
  }

  lemma EdgeDeletedDecides(s: State, etype: string, src: string, dst: string)
    requires src in s.nodes && dst in s.nodes
    ensures var t, id := Canvas.Apply(s, EdgeDeleted(etype, src, dst)), EdgeId(etype, src, dst);
      && OnlyEdges(s, t) && t.edges.Keys == s.edges.Keys - {id} && Unselected(s, t, {id})
      && (forall i <- t.edges :: t.edges[i] == s.edges[i])
  {
  }

  /** With an end out of sight it changes nothing. */
  lemma UnseenEdgeIsIgnored(s: State, etype: string, src: string, dst: string)
    requires src !in s.nodes || dst !in s.nodes
    ensures Canvas.Apply(s, EdgeInserted(etype, src, dst)) == s && Canvas.Apply(s, EdgeDeleted(etype, src, dst)) == s
  {
  }

  /** A deleted node goes with its marks and with exactly the edges that have it as an end. */
  lemma NodeDeletedDecides(s: State, key: string)
    ensures var t := Canvas.Apply(s, NodeDeleted(key));
      && t.nodes.Keys == s.nodes.Keys - {key} && (forall k <- t.nodes :: t.nodes[k] == s.nodes[k])
      && t.dirty == s.dirty - {key} && t.ready == s.ready - {key}
      && (forall id :: id in t.edges <==> id in s.edges && s.edges[id].src != key && s.edges[id].dst != key)
      && (forall id <- t.edges :: t.edges[id] == s.edges[id])
      && if s.selection == OnNode(key) then t.selection == NoSelection
         else Unselected(s, t, s.edges.Keys - t.edges.Keys)
  {
  }

  /** Property events mark the node, if it is there; rule events mark every node. */
  lemma MarksDecide(s: State, key: string)
    ensures OnlyDirty(s, Canvas.Apply(s, PropSet(key)), {key} * s.nodes.Keys)
    ensures OnlyDirty(s, Canvas.Apply(s, PropRemoved(key)), {key} * s.nodes.Keys)
    ensures OnlyDirty(s, Canvas.Apply(s, RuleChanged), s.nodes.Keys)
    ensures Canvas.Apply(s, BatchApplied) == s && Canvas.Apply(s, Ingested) == s
  {
  }

  /** An inserted node: one on the canvas takes the label, if there is one; one that is not is
    added exactly if it was marked dirty. */
  lemma NodeInsertedDecides(s: State, l: string, key: string)
    requires Sound(s)
    ensures var t := Canvas.Apply(s, NodeInserted(l, key));
      && t == s.(nodes := t.nodes)
      && (forall k <- s.nodes :: k != key ==> k in t.nodes && t.nodes[k] == s.nodes[k])
      && (forall k <- t.nodes :: k in s.nodes || k == key)
      && (key in t.nodes <==> key in s.nodes || key in s.dirty)
      && (key in s.nodes ==> t.nodes[key] == s.nodes[key].(nodeLabel := if l == "" then s.nodes[key].nodeLabel else l))
      && (key !in s.nodes && key in s.dirty ==> t.nodes[key] == GraphNode(key, l, None))
  {
  }

  /** On the live path an inserted edge shows only between expanded nodes; otherwise the ends
    in sight are marked, and that is all. Other events are applied as they are. */
  lemma LiveDecides(s: State, e: Event)
    requires Sound(s)
    ensures var t := ApplyLive(s, e);
      if e.EdgeInserted? && !(e.src in s.ready && e.dst in s.ready)
      then OnlyDirty(s, t, {e.src, e.dst} * s.nodes.Keys)
      else t == Canvas.Apply(s, e)
  {
  }

  // ---- any run of events ---------------------------------------------------------------------

  function RunEvents(s: State, es: seq<Event>): State
  {
    if es == [] then s else Canvas.Apply(RunEvents(s, es[..|es| - 1]), es[|es| - 1])
  }

  /** The canvas has this edge. */
  predicate Shows(s: State, etype: string, src: string, dst: string)
  {
    exists id <- s.edges :: s.edges[id].etype == etype && s.edges[id].src == src && s.edges[id].dst == dst
  }

  lemma ShowsIff(s: State, etype: string, src: string, dst: string)
    requires Sound(s) && BarFree(etype) && BarFree(src) && BarFree(dst)
    ensures Shows(s, etype, src, dst) <==> EdgeId(etype, src, dst) in s.edges
    ensures EdgeId(etype, src, dst) in s.edges ==>
      var e := s.edges[EdgeId(etype, src, dst)]; e.etype == etype && e.src == src && e.dst == dst
  {
    var id := EdgeId(etype, src, dst);
    if id in s.edges {
      EdgeIdUnique(etype, src, dst, s.edges[id].etype, s.edges[id].src, s.edges[id].dst);
    }
  }

  predicate Names(e: Event, etype: string, src: string, dst: string)
  {
    e == EdgeInserted(etype, src, dst) || e == EdgeDeleted(etype, src, dst)
  }

  /** Some event after the `i`-th names the edge. */
  ghost predicate NamedAfter(es: seq<Event>, i: int, etype: string, src: string, dst: string)
  {
    exists j :: i < j < |es| && 0 <= j && Names(es[j], etype, src, dst)
  }

  ghost predicate NamedIn(es: seq<Event>, etype: string, src: string, dst: string)
  {
    NamedAfter(es, -1, etype, src, dst)
  }

  /** The last event of the run to name the edge inserted it. */
  ghost predicate LastInserted(es: seq<Event>, etype: string, src: string, dst: string)
  {
    exists i :: 0 <= i < |es| && es[i] == EdgeInserted(etype, src, dst) && !NamedAfter(es, i, etype, src, dst)
  }

  lemma NamedSnoc(es: seq<Event>, e: Event, i: int, etype: string, src: string, dst: string)
    requires -1 <= i < |es|
    ensures NamedAfter(es + [e], i, etype, src, dst) <==>
      NamedAfter(es, i, etype, src, dst) || Names(e, etype, src, dst)
  {
    var all := es + [e];
    if NamedAfter(es, i, etype, src, dst) {
      var j :| i < j < |es| && 0 <= j && Names(es[j], etype, src, dst);
      assert Names(all[j], etype, src, dst);
    }
    if Names(e, etype, src, dst) { assert Names(all[|es|], etype, src, dst); }
  }

  lemma LastInsertedSnoc(es: seq<Event>, e: Event, etype: string, src: string, dst: string)
    ensures LastInserted(es + [e], etype, src, dst) <==>
      if Names(e, etype, src, dst) then e.EdgeInserted? else LastInserted(es, etype, src, dst)
  {
    var all := es + [e];
    forall i | 0 <= i < |es| { NamedSnoc(es, e, i, etype, src, dst); }
    if e == EdgeInserted(etype, src, dst) {
      assert all[|es|] == e && !NamedAfter(all, |es|, etype, src, dst);
    }
    if LastInserted(es, etype, src, dst) && !Names(e, etype, src, dst) {
      var i :| 0 <= i < |es| && es[i] == EdgeInserted(etype, src, dst) && !NamedAfter(es, i, etype, src, dst);
      assert all[i] == es[i];
    }
  }

  /** Both ends are on the canvas after every prefix of the run. */
  ghost predicate StayVisible(s: State, es: seq<Event>, src: string, dst: string)
  {
    forall k :: 0 <= k <= |es| ==> src in RunEvents(s, es[..k]).nodes && dst in RunEvents(s, es[..k]).nodes
  }

  lemma VisibleFront(s: State, es: seq<Event>, src: string, dst: string)
    requires es != [] && StayVisible(s, es, src, dst)
    ensures StayVisible(s, es[..|es| - 1], src, dst)
    ensures src in RunEvents(s, es).nodes && dst in RunEvents(s, es).nodes
  {
    var front := es[..|es| - 1];
    forall k | 0 <= k <= |front|
      ensures src in RunEvents(s, front[..k]).nodes && dst in RunEvents(s, front[..k]).nodes
    {
      assert front[..k] == es[..k];
    }
    assert es[..|es|] == es;
  }

  predicate StaysStored(s: State, e: Event, id: string)
  {
    match e
    case EdgeInserted(u, a, b) => id in s.edges || (a in s.nodes && b in s.nodes && id == EdgeId(u, a, b))
    case EdgeDeleted(u, a, b) => id in s.edges && !(a in s.nodes && b in s.nodes && id == EdgeId(u, a, b))
    case NodeDeleted(k) => id in s.edges && s.edges[id].src != k && s.edges[id].dst != k
    case _ => id in s.edges
  }

  /** The stored edge of an id survives any event that does not name it or remove an end. */
  lemma StoredAfter(s: State, e: Event, id: string)
    requires Sound(s)
    ensures id in Canvas.Apply(s, e).edges <==> StaysStored(s, e, id)
  {
  }

  /** One event: an edge between nodes that are there before and after changes only if the
    event names it. */
  lemma ShowsAfter(s: State, e: Event, etype: string, src: string, dst: string)
    requires Sound(s) && BarFree(etype) && BarFree(src) && BarFree(dst) && src in s.nodes && dst in s.nodes
    requires src in Canvas.Apply(s, e).nodes && dst in Canvas.Apply(s, e).nodes
    ensures Shows(Canvas.Apply(s, e), etype, src, dst) <==>
      if Names(e, etype, src, dst) then e.EdgeInserted? else Shows(s, etype, src, dst)
  {
    ApplyKeeps(s, e);
    ShowsIff(s, etype, src, dst);
    ShowsIff(Canvas.Apply(s, e), etype, src, dst);
    StoredAfter(s, e, EdgeId(etype, src, dst));
    if e.EdgeInserted? || e.EdgeDeleted? { SameIdSameEdge(e, etype, src, dst); }
    if e.NodeDeleted? { NodeDeletedDecides(s, e.key); }
  }

  lemma SameIdSameEdge(e: Event, etype: string, src: string, dst: string)
    requires (e.EdgeInserted? || e.EdgeDeleted?) && BarFree(etype) && BarFree(src) && BarFree(dst)
    ensures EdgeId(e.etype, e.src, e.dst) == EdgeId(etype, src, dst) <==>
      e.etype == etype && e.src == src && e.dst == dst
  {
    if EdgeId(e.etype, e.src, e.dst) == EdgeId(etype, src, dst) {
      EdgeIdUnique(etype, src, dst, e.etype, e.src, e.dst);
    }
  }

  /** After any run of events, an edge between two nodes that stayed visible is on the canvas
    exactly when the last event to name it inserted it, or none named it and it was there. */
  lemma {:induction false} EdgeFollowsItsLastEvent(s: State, es: seq<Event>, etype: string, src: string, dst: string)
    requires Sound(s) && BarFree(etype) && BarFree(src) && BarFree(dst) && StayVisible(s, es, src, dst)
    ensures Sound(RunEvents(s, es))
    ensures Shows(RunEvents(s, es), etype, src, dst) <==>
      if NamedIn(es, etype, src, dst) then LastInserted(es, etype, src, dst) else Shows(s, etype, src, dst)
    decreases |es|
  {
    if es != [] {
      var front, e := es[..|es| - 1], es[|es| - 1];
      VisibleFront(s, es, src, dst);
      EdgeFollowsItsLastEvent(s, front, etype, src, dst);
      assert front[..|front|] == front;
      assert src in RunEvents(s, front[..|front|]).nodes && dst in RunEvents(s, front[..|front|]).nodes;
      ApplyKeeps(RunEvents(s, front), e);
      ShowsAfter(RunEvents(s, front), e, etype, src, dst);
      assert es == front + [e];
      NamedSnoc(front, e, -1, etype, src, dst);
      LastInsertedSnoc(front, e, etype, src, dst);
    }
  }

  // ---- the live path -----------------------------------------------------------------------------

  /** Both ends are expanded after every prefix of the live run. */
  ghost predicate StayExpanded(s: State, es: seq<Event>, src: string, dst: string)
  {
    forall k :: 0 <= k <= |es| ==> Expanded2(RunLive(s, es[..k]), src, dst)
  }

  predicate Expanded2(s: State, src: string, dst: string) { src in s.ready && dst in s.ready }

  lemma ExpandedFront(s: State, es: seq<Event>, src: string, dst: string)
    requires es != [] && StayExpanded(s, es, src, dst)
    ensures StayExpanded(s, es[..|es| - 1], src, dst)
    ensures Expanded2(RunLive(s, es), src, dst) && Expanded2(RunLive(s, es[..|es| - 1]), src, dst)
  {
    var front, last := es[..|es| - 1], |es| - 1;
    forall k | 0 <= k <= |front| ensures Expanded2(RunLive(s, front[..k]), src, dst) {
      assert front[..k] == es[..k] && Expanded2(RunLive(s, es[..k]), src, dst);
    }
    assert es[..|es|] == es && Expanded2(RunLive(s, es[..|es|]), src, dst);
    assert Expanded2(RunLive(s, es[..last]), src, dst);
  }

  lemma LiveShowsAfter(s: State, e: Event, etype: string, src: string, dst: string)
    requires Sound(s) && BarFree(etype) && BarFree(src) && BarFree(dst) && Expanded2(s, src, dst)
    requires Expanded2(ApplyLive(s, e), src, dst)
    ensures Shows(ApplyLive(s, e), etype, src, dst) <==>
      if Names(e, etype, src, dst) then e.EdgeInserted? else Shows(s, etype, src, dst)
  {
    LiveKeeps(s, e);
    LiveDecides(s, e);
    if !(e.EdgeInserted? && !(e.src in s.ready && e.dst in s.ready)) { ShowsAfter(s, e, etype, src, dst); }
  }

  /** The same of live events, for two nodes that stayed expanded. */
  lemma {:induction false} LiveEdgeFollowsItsLastEvent(s: State, es: seq<Event>,
                                                       etype: string, src: string, dst: string)
    requires Sound(s) && BarFree(etype) && BarFree(src) && BarFree(dst) && StayExpanded(s, es, src, dst)
    ensures Sound(RunLive(s, es))
    ensures Shows(RunLive(s, es), etype, src, dst) <==>
      if NamedIn(es, etype, src, dst) then LastInserted(es, etype, src, dst) else Shows(s, etype, src, dst)
    decreases |es|
  {
    if es != [] {
      var front, e := es[..|es| - 1], es[|es| - 1];
      ExpandedFront(s, es, src, dst);
      LiveEdgeFollowsItsLastEvent(s, front, etype, src, dst);
      LiveKeeps(RunLive(s, front), e);
      LiveShowsAfter(RunLive(s, front), e, etype, src, dst);
      assert es == front + [e];
      NamedSnoc(front, e, -1, etype, src, dst);
      LastInsertedSnoc(front, e, etype, src, dst);
    }
  }

  // ---- query results ----------------------------------------------------------------------------

  /** The column named so, the first if there are several; -1 if there is none. */
  lemma {:induction false} IndexOfIsFirst(columns: seq<string>, name: string)
    ensures var i := IndexOf(columns, name);
      if name in columns then 0 <= i < |columns| && columns[i] == name && name !in columns[..i] else i == -1
  {
    if columns != [] && columns[0] != name {
      IndexOfIsFirst(columns[1..], name);
      var i := IndexOf(columns[1..], name);
      assert columns == [columns[0]] + columns[1..];
      if i >= 0 { assert columns[..i + 1] == [columns[0]] + columns[1..][..i]; }
    }
  }

  /** The cell is this text, and not empty. */
  predicate CellIs(row: seq<Cell>, i: int, text: string) { 0 <= i < |row| && row[i] == Text(text) && text != "" }

  ghost predicate SomeRowNames(rows: seq<seq<Cell>>, keyIdx: int, key: string)
  {
    exists row <- rows :: CellIs(row, keyIdx, key)
  }

  /** Row `i` gives the node `key` the label `l`. */
  predicate RowLabels(rows: seq<seq<Cell>>, i: int, keyIdx: int, labelIdx: int, key: string, l: string)
  {
    0 <= i < |rows| && CellIs(rows[i], keyIdx, key) && CellIs(rows[i], labelIdx, l)
  }

  ghost predicate LabelledAfter(rows: seq<seq<Cell>>, i: int, keyIdx: int, labelIdx: int, key: string)
  {
    exists j, l :: i < j && RowLabels(rows, j, keyIdx, labelIdx, key, l)
  }

  ghost predicate LastLabel(rows: seq<seq<Cell>>, i: int, keyIdx: int, labelIdx: int, key: string, l: string)
  {
    RowLabels(rows, i, keyIdx, labelIdx, key, l) && !LabelledAfter(rows, i, keyIdx, labelIdx, key)
  }

  /** The node as it was, or a stub. */
  function Base(s: State, key: string): GraphNode { if key in s.nodes then s.nodes[key] else GraphNode(key, "", None) }

  /** What the rows make of one key: it is there if it was or a row names it, and it has the
    last label a row gives it, or the one it had. */
  ghost predicate KeyShown(s: State, t: State, rows: seq<seq<Cell>>, keyIdx: int, labelIdx: int, key: string)
  {
    && (key in t.nodes <==> key in s.nodes || SomeRowNames(rows, keyIdx, key))
    && (key in t.nodes ==> t.nodes[key] == Base(s, key).(nodeLabel := t.nodes[key].nodeLabel))
    && (key in t.nodes && !LabelledAfter(rows, -1, keyIdx, labelIdx, key) ==> t.nodes[key] == Base(s, key))
    && (forall i, l :: LastLabel(rows, i, keyIdx, labelIdx, key, l) ==>
          key in t.nodes && t.nodes[key] == Base(s, key).(nodeLabel := l))
  }

  lemma UpsertRowDecides(s: State, row: seq<Cell>, keyIdx: int, labelIdx: int, key: string)
    ensures var t := UpsertRow(s, row, keyIdx, labelIdx);
      && t == s.(nodes := t.nodes)
      && (!CellIs(row, keyIdx, key) ==>
            (key in t.nodes <==> key in s.nodes) && (key in s.nodes ==> t.nodes[key] == s.nodes[key]))
      && (CellIs(row, keyIdx, key) ==> key in t.nodes)
      && (forall l :: CellIs(row, keyIdx, key) && CellIs(row, labelIdx, l) ==>
            t.nodes[key] == Base(s, key).(nodeLabel := l))
      && (CellIs(row, keyIdx, key) && (forall l :: !CellIs(row, labelIdx, l)) ==> t.nodes[key] == Base(s, key))
  {
    var l := StringCell(row, labelIdx);
    if l.Some? { assert CellIs(row, labelIdx, l.value); }
  }

  lemma LabelledSnoc(front: seq<seq<Cell>>, row: seq<Cell>, i: int, keyIdx: int, labelIdx: int, key: string)
    requires -1 <= i < |front|
    ensures LabelledAfter(front + [row], i, keyIdx, labelIdx, key) <==>
      || LabelledAfter(front, i, keyIdx, labelIdx, key)
      || (CellIs(row, keyIdx, key) && exists l :: CellIs(row, labelIdx, l))
  {
    var rows := front + [row];
    if LabelledAfter(front, i, keyIdx, labelIdx, key) {
      var j, l :| i < j && RowLabels(front, j, keyIdx, labelIdx, key, l);
      assert RowLabels(rows, j, keyIdx, labelIdx, key, l);
    }
    if CellIs(row, keyIdx, key) {
      forall l | CellIs(row, labelIdx, l) ensures LabelledAfter(rows, i, keyIdx, labelIdx, key) {
        assert RowLabels(rows, |front|, keyIdx, labelIdx, key, l);
      }
    }
    if LabelledAfter(rows, i, keyIdx, labelIdx, key) {
      var j, l :| i < j && RowLabels(rows, j, keyIdx, labelIdx, key, l);
      if j < |front| { assert RowLabels(front, j, keyIdx, labelIdx, key, l); } else { assert CellIs(row, labelIdx, l); }
    }
  }

  lemma KeyShownSnoc(s: State, u: State, front: seq<seq<Cell>>, row: seq<Cell>, keyIdx: int, labelIdx: int, key: string)
    requires KeyShown(s, u, front, keyIdx, labelIdx, key)
    ensures KeyShown(s, UpsertRow(u, row, keyIdx, labelIdx), front + [row], keyIdx, labelIdx, key)
  {
    var rows, t := front + [row], UpsertRow(u, row, keyIdx, labelIdx);
    UpsertRowDecides(u, row, keyIdx, labelIdx, key);
    LabelledSnoc(front, row, -1, keyIdx, labelIdx, key);
    assert SomeRowNames(rows, keyIdx, key) <==> SomeRowNames(front, keyIdx, key) || CellIs(row, keyIdx, key);
    forall i, l | LastLabel(rows, i, keyIdx, labelIdx, key, l)
      ensures key in t.nodes && t.nodes[key] == Base(s, key).(nodeLabel := l)
    {
      if i < |front| {
        LabelledSnoc(front, row, i, keyIdx, labelIdx, key);
        assert RowLabels(front, i, keyIdx, labelIdx, key, l) && LastLabel(front, i, keyIdx, labelIdx, key, l);
      } else {
        assert CellIs(row, keyIdx, key) && CellIs(row, labelIdx, l);
      }
    }
  }

  lemma {:induction false} RowsDecide(s: State, rows: seq<seq<Cell>>, keyIdx: int, labelIdx: int, key: string)
    ensures var t := UpsertRows(s, rows, keyIdx, labelIdx);
      t == s.(nodes := t.nodes) && KeyShown(s, t, rows, keyIdx, labelIdx, key)
    decreases |rows|
  {
    if rows != [] {
      var front, row := rows[..|rows| - 1], rows[|rows| - 1];
      RowsDecide(s, front, keyIdx, labelIdx, key);
      KeyShownSnoc(s, UpsertRows(s, front, keyIdx, labelIdx), front, row, keyIdx, labelIdx, key);
      UpsertRowDecides(UpsertRows(s, front, keyIdx, labelIdx), row, keyIdx, labelIdx, key);
      assert rows == front + [row];
    }
  }

  /** A cell of a column that is harvested names the key. */
  ghost predicate CellNames(columns: seq<string>, rows: seq<seq<Cell>>, key: string)
  {
    exists row <- rows, i :: 0 <= i < |columns| && InHarvest(columns[i]) && CellIs(row, i, key)
  }

  /** Not a property column, and not one of the two that hold no keys. */
  predicate InHarvest(column: string) { '.' !in column && column !in {"label", "depth"} }

  lemma {:induction false} HarvestRowDecides(s: State, columns: seq<string>, row: seq<Cell>, n: nat, key: string)
    requires n <= |columns|
    ensures var t := HarvestRow(s, columns, row, n);
      && t == s.(nodes := t.nodes) && (key in s.nodes ==> key in t.nodes && t.nodes[key] == s.nodes[key])
      && (key in t.nodes <==> key in s.nodes || exists i :: 0 <= i < n && InHarvest(columns[i]) && CellIs(row, i, key))
      && (key in t.nodes ==> t.nodes[key] == Base(s, key))
  {
    if n > 0 {
      HarvestRowDecides(s, columns, row, n - 1, key);
      var last := n - 1;
      assert Harvested(columns[last]) <==> InHarvest(columns[last]);
      if InHarvest(columns[last]) && CellIs(row, last, key) {
        assert StringCell(row, last) == Some(key);
      }
    }
  }

  lemma {:induction false} HarvestDecides(s: State, columns: seq<string>, rows: seq<seq<Cell>>, key: string)
    ensures var t := HarvestRows(s, columns, rows);
      && t == s.(nodes := t.nodes) && (key in t.nodes <==> key in s.nodes || CellNames(columns, rows, key))
      && (key in t.nodes ==> t.nodes[key] == Base(s, key))
    decreases |rows|
  {
    if rows != [] {
      var front, row := rows[..|rows| - 1], rows[|rows| - 1];
      HarvestDecides(s, columns, front, key);
      HarvestRowDecides(HarvestRows(s, columns, front), columns, row, |columns|, key);
      assert rows == front + [row];
    }
  }

  /** A query result: by its `key` column if it has one, else by every cell that holds a key.
    No edge, mark or selection changes. */
  lemma QueryDecides(s: State, columns: seq<string>, rows: seq<seq<Cell>>, key: string)
    ensures var t := MergeQuery(s, columns, rows);
      t == s.(nodes := t.nodes) &&
      if "key" in columns then KeyShown(s, t, rows, IndexOf(columns, "key"), IndexOf(columns, "label"), key)
      else
        && (key in t.nodes <==> key in s.nodes || CellNames(columns, rows, key))
        && (key in t.nodes ==> t.nodes[key] == Base(s, key))
  {
    IndexOfIsFirst(columns, "key");
    if "key" in columns {
      RowsDecide(s, rows, IndexOf(columns, "key"), IndexOf(columns, "label"), key);
    } else {
      HarvestDecides(s, columns, rows, key);
    }
  }

  /** A neighbourhood: its rows, and the root there, unexpanded and unmarked. */
  lemma NeighborhoodDecides(s: State, root: string, columns: seq<string>, rows: seq<seq<Cell>>, key: string)
    ensures var t := FromNeighborhood(s, root, columns, rows);
      && t == s.(nodes := t.nodes, ready := s.ready - {root}, dirty := s.dirty - {root}) && root in t.nodes
      && (key != root ==>
            if "key" in columns then KeyShown(s, t, rows, IndexOf(columns, "key"), IndexOf(columns, "label"), key)
            else (key in t.nodes <==> key in s.nodes) && (key in s.nodes ==> t.nodes[key] == s.nodes[key]))
  {
    IndexOfIsFirst(columns, "key");
    RowsDecide(s, rows, IndexOf(columns, "key"), IndexOf(columns, "label"), key);
  }

  /** Node details: the label if there is one, the properties, and the mark cleared; of a node
    that is not there, nothing. */
  lemma NodeInfoDecides(s: State, key: string, l: string, props: Props)
    ensures var t := ApplyNodeInfo(s, key, l, props);
      if key !in s.nodes then t == s
      else
        && t.edges == s.edges && t.ready == s.ready && t.selection == s.selection && t.dirty == s.dirty - {key}
        && t.nodes.Keys == s.nodes.Keys && (forall k <- s.nodes :: k != key ==> t.nodes[k] == s.nodes[k])
        && t.nodes[key].key == s.nodes[key].key && t.nodes[key].props == Some(props)
        && t.nodes[key].nodeLabel == if l == "" then s.nodes[key].nodeLabel else l
  {
  }

  /** Provenance and flags change that edge's own fields, properties that node's. */
  lemma SettersDecide(s: State, id: string, why: Option<string>, flag: bool, props: Option<Props>)
    ensures var t := SetProvenance(s, id, why);
      t == s.(edges := t.edges) && t.edges.Keys == s.edges.Keys
      && forall i <- s.edges :: t.edges[i] ==
           if i == id then s.edges[i].(derived := Some(why != None), explanation := why) else s.edges[i]
    ensures var t := SetDerived(s, id, flag);
      t == s.(edges := t.edges) && t.edges.Keys == s.edges.Keys
      && forall i <- s.edges :: t.edges[i] == if i == id then s.edges[i].(derived := Some(flag)) else s.edges[i]
    ensures var t := SetNodeProps(s, id, props);
      t == s.(nodes := t.nodes) && t.nodes.Keys == s.nodes.Keys
      && forall k <- s.nodes :: t.nodes[k] == if k == id then s.nodes[k].(props := props) else s.nodes[k]
  {
  }
}
