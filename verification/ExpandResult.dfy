/** What an expansion leaves on the canvas, for every canvas and every payload. */
module ExpandResult {
  import opened Options
  import opened Canvas
  import opened Expand

  /** A directed edge to merge. */
  datatype Wire = Wire(etype: string, src: string, dst: string)

  function WireId(w: Wire): string { EdgeId(w.etype, w.src, w.dst) }

  function AsWire(root: string, etype: string, nbr: string, dir: Dir): Wire
  {
    if dir == Outward then Wire(etype, root, nbr) else Wire(etype, nbr, root)
  }

  function NewEdge(w: Wire): GraphEdge { GraphEdge(w.etype, w.src, w.dst, None, None) }

  /** Merging `w` removes this id: the legacy edge between its ends, either way round. */
  predicate Drops(w: Wire, id: string)
  {
    w.etype != RELATED && (id == EdgeId(RELATED, w.src, w.dst) || id == EdgeId(RELATED, w.dst, w.src))
  }

  // ---- one id, through a list of merges --------------------------------------------------------

  function Upserted(e: Option<GraphEdge>, w: Wire, id: string): Option<GraphEdge>
  {
    if e.None? && WireId(w) == id then Some(NewEdge(w)) else e
  }

  /** What is stored under `id` after merging `ws` in order, when `e` was. */
  function After(e: Option<GraphEdge>, ws: seq<Wire>, id: string): Option<GraphEdge>
  {
    if ws == [] then e
    else
      var w := ws[|ws| - 1];
      if Drops(w, id) then None else Upserted(After(e, ws[..|ws| - 1], id), w, id)
  }

  ghost predicate Dropped(ws: seq<Wire>, id: string)
  {
    exists j :: 0 <= j < |ws| && Drops(ws[j], id)
  }

  ghost predicate SafeFrom(ws: seq<Wire>, id: string, i: int)
  {
    forall j :: 0 <= i <= j < |ws| ==> !Drops(ws[j], id)
  }

  /** Some merge stores `id`, and neither it nor any later one removes it. */
  ghost predicate Stays(ws: seq<Wire>, id: string)
  {
    exists i :: 0 <= i < |ws| && WireId(ws[i]) == id && SafeFrom(ws, id, i)
  }

  /** Something stored under `id` was removed on the way. */
  predicate Lost(e: Option<GraphEdge>, ws: seq<Wire>, id: string)
  {
    ws != [] &&
    var front, w := ws[..|ws| - 1], ws[|ws| - 1];
    (Lost(e, front, id) || (Drops(w, id) && Upserted(After(e, front, id), w, id).Some?))
  }

  lemma DroppedSnoc(ws: seq<Wire>, id: string)
    requires ws != []
    ensures Dropped(ws, id) <==> Dropped(ws[..|ws| - 1], id) || Drops(ws[|ws| - 1], id)
  {
    var front := ws[..|ws| - 1];
    if Dropped(front, id) {
      var j :| 0 <= j < |front| && Drops(front[j], id);
      assert Drops(ws[j], id);
    }
    if Dropped(ws, id) {
      var j :| 0 <= j < |ws| && Drops(ws[j], id);
      if j < |front| { assert Drops(front[j], id); }
    }
  }

  lemma SafeSnoc(ws: seq<Wire>, id: string, i: int)
    requires 0 <= i < |ws|
    ensures SafeFrom(ws, id, i) <==> SafeFrom(ws[..|ws| - 1], id, i) && !Drops(ws[|ws| - 1], id)
  {
    var front, last := ws[..|ws| - 1], |ws| - 1;
    assert forall j :: 0 <= j < last ==> front[j] == ws[j];
  }

  lemma StaysSnoc(ws: seq<Wire>, id: string)
    requires ws != []
    ensures Stays(ws, id) <==> !Drops(ws[|ws| - 1], id) && (Stays(ws[..|ws| - 1], id) || WireId(ws[|ws| - 1]) == id)
  {
    var front, last := ws[..|ws| - 1], |ws| - 1;
    forall i | 0 <= i < |ws| { SafeSnoc(ws, id, i); }
    if Stays(ws, id) {
      var i :| 0 <= i < |ws| && WireId(ws[i]) == id && SafeFrom(ws, id, i);
      if i < last { assert WireId(front[i]) == id && SafeFrom(front, id, i); }
    }
    if Stays(front, id) && !Drops(ws[last], id) {
      var i :| 0 <= i < |front| && WireId(front[i]) == id && SafeFrom(front, id, i);
      assert WireId(ws[i]) == id && SafeFrom(ws, id, i);
    }
    if WireId(ws[last]) == id && !Drops(ws[last], id) { assert SafeFrom(ws, id, last); }
  }

  /** An id is stored at the end exactly when some merge stored it for good, or it was
    there and no merge removed it. */
  lemma {:induction false} AfterStored(e: Option<GraphEdge>, ws: seq<Wire>, id: string)
    ensures After(e, ws, id).Some? <==> Stays(ws, id) || (e.Some? && !Dropped(ws, id))
  {
    if ws != [] {
      AfterStored(e, ws[..|ws| - 1], id);
      DroppedSnoc(ws, id);
      StaysSnoc(ws, id);
    }
  }

  /** And what is stored is the old edge if no merge removed it, else a new one. */
  lemma {:induction false} AfterValue(e: Option<GraphEdge>, ws: seq<Wire>, id: string)
    ensures e.Some? && !Dropped(ws, id) ==> After(e, ws, id) == e
    ensures After(e, ws, id).Some? && (e.None? || Dropped(ws, id)) ==>
              exists w <- ws :: WireId(w) == id && After(e, ws, id) == Some(NewEdge(w))
  {
    if ws != [] {
      var front := ws[..|ws| - 1];
      AfterValue(e, front, id);
      DroppedSnoc(ws, id);
      assert ws == front + [ws[|ws| - 1]];
    }
  }

  /** Once removed, it no longer matters what was there. */
  lemma {:induction false} AfterForgets(e: Option<GraphEdge>, f: Option<GraphEdge>, ws: seq<Wire>, id: string)
    requires Dropped(ws, id)
    ensures After(e, ws, id) == After(f, ws, id)
  {
    DroppedSnoc(ws, id);
    if Dropped(ws[..|ws| - 1], id) { AfterForgets(e, f, ws[..|ws| - 1], id); }
  }

  lemma {:induction false} LostIsDropped(e: Option<GraphEdge>, ws: seq<Wire>, id: string)
    ensures Lost(e, ws, id) ==> Dropped(ws, id)
    ensures e.Some? && Dropped(ws, id) ==> Lost(e, ws, id)
  {
    if ws != [] {
      LostIsDropped(e, ws[..|ws| - 1], id);
      DroppedSnoc(ws, id);
      AfterValue(e, ws[..|ws| - 1], id);
    }
  }

  // ---- the store, through a list of merges -------------------------------------------------------

  function Lookup(s: State, id: string): Option<GraphEdge> { if id in s.edges then Some(s.edges[id]) else None }

  ghost predicate EndOf(ws: seq<Wire>, k: string)
  {
    exists w <- ws :: k == w.src || k == w.dst
  }

  /** The old nodes as they were, and a stub for each missing end. */
  ghost predicate NodesMerged(s: State, t: State, ws: seq<Wire>)
  {
    && (forall k :: k in t.nodes <==> k in s.nodes || EndOf(ws, k))
    && (forall k <- t.nodes :: t.nodes[k] == if k in s.nodes then s.nodes[k] else GraphNode(k, "", None))
  }

  ghost predicate EdgesMerged(s: State, t: State, ws: seq<Wire>)
  {
    forall id :: Lookup(t, id) == After(Lookup(s, id), ws, id)
  }

  function SelectionAfter(s: State, ws: seq<Wire>): Selection
  {
    if s.selection.OnEdge? && Lost(Lookup(s, s.selection.id), ws, s.selection.id) then NoSelection else s.selection
  }

  ghost predicate Merged(s: State, t: State, ws: seq<Wire>)
  {
    t.dirty == s.dirty && NodesMerged(s, t, ws) && EdgesMerged(s, t, ws) && t.selection == SelectionAfter(s, ws)
  }

  function Deselected(t: State, gone: bool): Selection { if gone then NoSelection else t.selection }

  lemma DropShape(t: State, src: string, dst: string)
    ensures var u := DropLegacyRelated(t, src, dst);
      var gone := {EdgeId(RELATED, src, dst), EdgeId(RELATED, dst, src)};
      && u == t.(edges := t.edges - gone, selection := u.selection)
      && u.selection == Deselected(t, t.selection.OnEdge? && t.selection.id in t.edges && t.selection.id in gone)
  {
  }

  /** One neighbour: one step of every id. */
  lemma MergeOneLookup(t: State, root: string, etype: string, nbr: string, dir: Dir, id: string)
    ensures var w, u := AsWire(root, etype, nbr, dir), MergeOne(t, root, etype, nbr, dir);
      Lookup(u, id) == if Drops(w, id) then None else Upserted(Lookup(t, id), w, id)
  {
    var w := AsWire(root, etype, nbr, dir);
    DropShape(UpsertEdge(EnsureNode(t, nbr), etype, w.src, w.dst), w.src, w.dst);
  }

  /** And its node, and the selection. */
  lemma MergeOneShape(t: State, root: string, etype: string, nbr: string, dir: Dir)
    ensures var w, u := AsWire(root, etype, nbr, dir), MergeOne(t, root, etype, nbr, dir);
      && u.dirty == t.dirty && u.ready == t.ready
      && u.nodes == (if nbr in t.nodes then t.nodes else t.nodes[nbr := GraphNode(nbr, "", None)])
      && u.selection ==
         Deselected(t, t.selection.OnEdge? && Drops(w, t.selection.id)
                       && Upserted(Lookup(t, t.selection.id), w, t.selection.id).Some?)
  {
    var w := AsWire(root, etype, nbr, dir);
    DropShape(UpsertEdge(EnsureNode(t, nbr), etype, w.src, w.dst), w.src, w.dst);
  }

  lemma StepNodes(s: State, t: State, ws: seq<Wire>, root: string, w: Wire, nbr: string, u: State)
    requires NodesMerged(s, t, ws) && root in s.nodes
    requires (w.src == root && w.dst == nbr) || (w.src == nbr && w.dst == root)
    requires u.nodes == if nbr in t.nodes then t.nodes else t.nodes[nbr := GraphNode(nbr, "", None)]
    ensures NodesMerged(s, u, ws + [w])
  {
    forall k ensures EndOf(ws + [w], k) <==> EndOf(ws, k) || k == w.src || k == w.dst {
      if EndOf(ws, k) {
        var v :| v in ws && (k == v.src || k == v.dst);
        assert v in ws + [w];
      }
      assert w in ws + [w];
    }
  }

  lemma AfterSnoc(e: Option<GraphEdge>, ws: seq<Wire>, w: Wire, id: string)
    ensures After(e, ws + [w], id) == if Drops(w, id) then None else Upserted(After(e, ws, id), w, id)
    ensures Lost(e, ws + [w], id) <==> Lost(e, ws, id) || (Drops(w, id) && Upserted(After(e, ws, id), w, id).Some?)
  {
    assert (ws + [w])[..|ws|] == ws;
  }

  lemma StepMerged(s: State, t: State, ws: seq<Wire>, root: string, etype: string, nbr: string, dir: Dir)
    requires Merged(s, t, ws) && root in s.nodes
    ensures Merged(s, MergeOne(t, root, etype, nbr, dir), ws + [AsWire(root, etype, nbr, dir)])
  {
    var w, u := AsWire(root, etype, nbr, dir), MergeOne(t, root, etype, nbr, dir);
    MergeOneShape(t, root, etype, nbr, dir);
    StepNodes(s, t, ws, root, w, nbr, u);
    forall id ensures Lookup(u, id) == After(Lookup(s, id), ws + [w], id) {
      MergeOneLookup(t, root, etype, nbr, dir, id);
      AfterSnoc(Lookup(s, id), ws, w, id);
    }
    if s.selection.OnEdge? { AfterSnoc(Lookup(s, s.selection.id), ws, w, s.selection.id); }
  }

  function ListWires(root: string, etype: string, nbrs: seq<string>, dir: Dir): seq<Wire>
  {
    if nbrs == [] then []
    else ListWires(root, etype, nbrs[..|nbrs| - 1], dir) + [AsWire(root, etype, nbrs[|nbrs| - 1], dir)]
  }

  function RecordWires(root: string, per: Record, dir: Dir): seq<Wire>
  {
    if per == [] then []
    else RecordWires(root, per[..|per| - 1], dir) + ListWires(root, per[|per| - 1].0, per[|per| - 1].1, dir)
  }

  lemma WiresAssociate(a: seq<Wire>, b: seq<Wire>, c: seq<Wire>)
    ensures a + b + c == a + (b + c)
  {
  }

  lemma {:induction false} ListMerged(s: State, t: State, ws: seq<Wire>, root: string, etype: string,
                                      nbrs: seq<string>, dir: Dir)
    requires Merged(s, t, ws) && root in s.nodes
    ensures Merged(s, MergeList(t, root, etype, nbrs, dir), ws + ListWires(root, etype, nbrs, dir))
  {
    if nbrs == [] {
      assert ws + ListWires(root, etype, nbrs, dir) == ws;
    } else {
      var front, n := nbrs[..|nbrs| - 1], nbrs[|nbrs| - 1];
      var w, us := AsWire(root, etype, n, dir), ListWires(root, etype, front, dir);
      ListMerged(s, t, ws, root, etype, front, dir);
      StepMerged(s, MergeList(t, root, etype, front, dir), ws + us, root, etype, n, dir);
      WiresAssociate(ws, us, [w]);
    }
  }

  lemma {:induction false} EntriesMerged(s: State, t: State, ws: seq<Wire>, root: string, per: Record, dir: Dir)
    requires Merged(s, t, ws) && root in s.nodes
    ensures Merged(s, MergeEntries(t, root, per, dir), ws + RecordWires(root, per, dir))
  {
    if per == [] {
      assert ws + RecordWires(root, per, dir) == ws;
    } else {
      var front, last := per[..|per| - 1], per[|per| - 1];
      var us, vs := RecordWires(root, front, dir), ListWires(root, last.0, last.1, dir);
      EntriesMerged(s, t, ws, root, front, dir);
      ListMerged(s, MergeEntries(t, root, front, dir), ws + us, root, last.0, last.1, dir);
      WiresAssociate(ws, us, vs);
    }
  }

  // ---- the expansion ---------------------------------------------------------------------------------

  /** The edges at the root in the order they are merged: outgoing type by type, then incoming. */
  function MergeOrder(root: string, es: seq<EdgeInfo>): seq<Wire>
  {
    var c := Classify(root, es);
    RecordWires(root, c.outs, Outward) + RecordWires(root, c.ins, Inward)
  }

  function Flagged(e: GraphEdge, es: seq<EdgeInfo>, root: string, id: string): GraphEdge
  {
    if HasId(es, root, id) then e.(derived := Some(FirstFlag(es, root, id))) else e
  }

  function FlaggedIn(e: Option<GraphEdge>, es: seq<EdgeInfo>, root: string, id: string): Option<GraphEdge>
  {
    if e.Some? then Some(Flagged(e.value, es, root, id)) else None
  }

  /** `t` is `s` after expanding `root` on this payload. */
  ghost predicate ExpandedAs(s: State, t: State, root: string, es: seq<EdgeInfo>)
  {
    var ws := MergeOrder(root, es);
    && t.dirty == s.dirty && t.ready == s.ready + {root}
    && NodesMerged(EnsureNode(s, root), t, ws)
    && (forall id :: Lookup(t, id) == FlaggedIn(After(Lookup(s, id), ws, id), es, root, id))
    && t.selection == SelectionAfter(s, ws)
  }

  lemma MergesAreMerged(s: State, root: string, es: seq<EdgeInfo>)
    ensures var c := Classify(root, es);
      var t := Merge(Merge(s, root, c.outs, Outward), root, c.ins, Inward);
      Merged(EnsureNode(s, root), t, MergeOrder(root, es)) && t.ready == s.ready + {root}
  {
    var c, s0 := Classify(root, es), EnsureNode(s, root);
    var ws := RecordWires(root, c.outs, Outward);
    EntriesMerged(s0, s0, [], root, c.outs, Outward);
    assert [] + ws == ws;
    MergeEntriesKeeps(s0, root, c.outs, Outward);
    var t1 := Merge(s, root, c.outs, Outward);
    assert root in t1.nodes && EnsureNode(t1, root) == t1;
    EntriesMerged(s0, t1, ws, root, c.ins, Inward);
    MergeEntriesKeeps(t1, root, c.ins, Inward);
  }

  lemma {:induction false} FlagsSet(s: State, root: string, es: seq<EdgeInfo>, provenance: seq<(string, bool)>)
    requires forall i :: 0 <= i < |provenance| ==>
      HasId(es, root, provenance[i].0) && provenance[i].1 == FirstFlag(es, root, provenance[i].0)
    ensures var t := SetFlags(s, provenance);
      && t == s.(edges := t.edges) && t.edges.Keys == s.edges.Keys
      && (forall id <- s.edges :: Named(provenance, id) ==> t.edges[id] == Flagged(s.edges[id], es, root, id))
      && (forall id <- s.edges :: !Named(provenance, id) ==> t.edges[id] == s.edges[id])
  {
    if provenance != [] {
      var front, last := provenance[..|provenance| - 1], provenance[|provenance| - 1];
      assert forall i :: 0 <= i < |front| ==> provenance[i] == front[i];
      FlagsSet(s, root, es, front);
      forall id { NamedSnoc(provenance, id); }
    }
  }

  ghost predicate Named(provenance: seq<(string, bool)>, id: string)
  {
    exists i :: 0 <= i < |provenance| && provenance[i].0 == id
  }

  lemma NamedSnoc(provenance: seq<(string, bool)>, id: string)
    requires provenance != []
    ensures Named(provenance, id) <==> Named(provenance[..|provenance| - 1], id) || provenance[|provenance| - 1].0 == id
  {
    var front := provenance[..|provenance| - 1];
    if Named(front, id) {
      var i :| 0 <= i < |front| && front[i].0 == id;
      assert provenance[i].0 == id;
    }
    if Named(provenance, id) {
      var i :| 0 <= i < |provenance| && provenance[i].0 == id;
      if i < |front| { assert front[i].0 == id; }
    }
  }

  lemma NamedIffAtRoot(root: string, es: seq<EdgeInfo>, id: string)
    ensures Named(Classify(root, es).provenance, id) <==> HasId(es, root, id)
  {
    ProvenanceIsFirstSeen(root, es);
    assert id in Classify(root, es).seen <==> HasId(es, root, id);
  }

  lemma FlaggedLookup(m: State, root: string, es: seq<EdgeInfo>, id: string)
    ensures Lookup(SetFlags(m, Classify(root, es).provenance), id) == FlaggedIn(Lookup(m, id), es, root, id)
  {
    ProvenanceIsFirstSeen(root, es);
    FlagsSet(m, root, es, Classify(root, es).provenance);
    NamedIffAtRoot(root, es, id);
  }

  lemma FlagsOnly(m: State, root: string, es: seq<EdgeInfo>)
    ensures var t := SetFlags(m, Classify(root, es).provenance); t == m.(edges := t.edges)
  {
    ProvenanceIsFirstSeen(root, es);
    FlagsSet(m, root, es, Classify(root, es).provenance);
  }

  lemma ExpandShape(s: State, root: string, es: seq<EdgeInfo>)
    ensures ExpandedAs(s, Expanded(s, root, es), root, es)
  {
    var c, t := Classify(root, es), Expanded(s, root, es);
    var m := Merge(Merge(s, root, c.outs, Outward), root, c.ins, Inward);
    MergesAreMerged(s, root, es);
    FlagsOnly(m, root, es);
    forall id ensures Lookup(t, id) == FlaggedIn(After(Lookup(s, id), MergeOrder(root, es), id), es, root, id) {
      FlaggedLookup(m, root, es, id);
      assert Lookup(EnsureNode(s, root), id) == Lookup(s, id);
    }
  }

  /** `es[k]` is at the root and the first to name its edge. */
  ghost predicate FirstMention(es: seq<EdgeInfo>, root: string, k: int)
  {
    0 <= k < |es| && Touches(es[k], root) && !HasId(es[..k], root, IdOf(es[k]))
  }

  /** Every canvas, every payload. An edge is on the canvas afterwards exactly when a merge
    put it there for good, or it was there and is no legacy edge beside a typed one. What
    was there and was not removed is kept, what is put there is new, and each edge at the
    root carries the flag of its first mention; missing ends become nodes, and no other
    node changes. */
  lemma ExpandIsExact(s: State, root: string, es: seq<EdgeInfo>)
    ensures var t, ws := Expanded(s, root, es), MergeOrder(root, es);
      && t.dirty == s.dirty && t.ready == s.ready + {root}
      && NodesMerged(EnsureNode(s, root), t, ws)
      && (forall id :: id in t.edges <==> Stays(ws, id) || (id in s.edges && !Dropped(ws, id)))
      && (forall id <- t.edges :: id in s.edges && !Dropped(ws, id) ==>
            t.edges[id] == Flagged(s.edges[id], es, root, id))
      && (forall id <- t.edges :: id !in s.edges || Dropped(ws, id) ==>
            exists w <- ws :: WireId(w) == id && t.edges[id] == Flagged(NewEdge(w), es, root, id))
      && (forall k :: FirstMention(es, root, k) && IdOf(es[k]) in t.edges ==>
            t.edges[IdOf(es[k])].derived == Some(es[k].derived))
      && (SelectionLive(s) ==>
            t.selection == if s.selection.OnEdge? && Dropped(ws, s.selection.id) then NoSelection else s.selection)
  {
    var t, ws := Expanded(s, root, es), MergeOrder(root, es);
    ExpandShape(s, root, es);
    forall id ensures id in t.edges <==> Stays(ws, id) || (id in s.edges && !Dropped(ws, id)) {
      AfterStored(Lookup(s, id), ws, id);
      assert id in t.edges <==> Lookup(t, id).Some?;
    }
    forall id | id in t.edges
      ensures id in s.edges && !Dropped(ws, id) ==> t.edges[id] == Flagged(s.edges[id], es, root, id)
      ensures id !in s.edges || Dropped(ws, id) ==>
                exists w <- ws :: WireId(w) == id && t.edges[id] == Flagged(NewEdge(w), es, root, id)
    {
      AfterValue(Lookup(s, id), ws, id);
      assert Lookup(t, id) == Some(t.edges[id]);
    }
    forall k | FirstMention(es, root, k) && IdOf(es[k]) in t.edges
      ensures t.edges[IdOf(es[k])].derived == Some(es[k].derived)
    {
      FirstFlagIsFirst(es, root, IdOf(es[k]), k);
      assert Lookup(t, IdOf(es[k])) == Some(t.edges[IdOf(es[k])]);
    }
    if s.selection.OnEdge? { LostIsDropped(Lookup(s, s.selection.id), ws, s.selection.id); }
  }

  // ---- again ------------------------------------------------------------------------------------------

  lemma AgainSameEdge(e: Option<GraphEdge>, es: seq<EdgeInfo>, root: string, ws: seq<Wire>, id: string)
    ensures var once := FlaggedIn(After(e, ws, id), es, root, id);
      FlaggedIn(After(once, ws, id), es, root, id) == once
  {
    var once := FlaggedIn(After(e, ws, id), es, root, id);
    if Dropped(ws, id) {
      AfterForgets(e, once, ws, id);
    } else {
      AfterValue(once, ws, id);
      AfterValue(e, ws, id);
      AfterStored(e, ws, id);
      AfterStored(once, ws, id);
    }
  }

  lemma SameLookups(t: State, u: State)
    requires forall id :: Lookup(t, id) == Lookup(u, id)
    ensures t.edges == u.edges
  {
    forall id ensures id in t.edges <==> id in u.edges { assert Lookup(t, id) == Lookup(u, id); }
    forall id | id in t.edges ensures t.edges[id] == u.edges[id] { assert Lookup(t, id) == Lookup(u, id); }
  }

  /** Expanding again on the same payload changes nothing; only a selection that pointed
    at no edge may be cleared by the second expansion. */
  lemma ExpandTwice(s: State, root: string, es: seq<EdgeInfo>)
    ensures var once := Expanded(s, root, es);
      var twice := Expanded(once, root, es);
      && twice.(selection := once.selection) == once
      && (SelectionLive(s) ==> twice == once)
  {
    var t, ws := Expanded(s, root, es), MergeOrder(root, es);
    var u := Expanded(t, root, es);
    ExpandShape(s, root, es);
    ExpandShape(t, root, es);
    forall id ensures Lookup(t, id) == Lookup(u, id) { AgainSameEdge(Lookup(s, id), es, root, ws, id); }
    SameLookups(t, u);
    assert root in t.nodes && u.nodes == t.nodes;
    if s.selection.OnEdge? {
      LostIsDropped(Lookup(s, s.selection.id), ws, s.selection.id);
      LostIsDropped(Lookup(t, s.selection.id), ws, s.selection.id);
    }
  }
}
