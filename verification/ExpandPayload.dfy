/** Which of a payload's edges are on the canvas after the expansion. */
module ExpandPayload {
  import opened Canvas
  import opened Expand
  import opened ExpandResult

  // ---- what is merged is the payload -------------------------------------------------------------

  lemma {:induction false} ListWiresAre(root: string, etype: string, nbrs: seq<string>, dir: Dir, w: Wire)
    ensures w in ListWires(root, etype, nbrs, dir) <==> exists n <- nbrs :: w == AsWire(root, etype, n, dir)
  {
    if nbrs != [] {
      ListWiresAre(root, etype, nbrs[..|nbrs| - 1], dir, w);
      assert nbrs == nbrs[..|nbrs| - 1] + [nbrs[|nbrs| - 1]];
    }
  }

  lemma InRecordSnoc(per: Record, t: string, n: string)
    requires per != []
    ensures InRecord(per, t, n) <==>
      InRecord(per[..|per| - 1], t, n) || (per[|per| - 1].0 == t && n in per[|per| - 1].1)
  {
    var front := per[..|per| - 1];
    if InRecord(front, t, n) {
      var i :| 0 <= i < |front| && front[i].0 == t && n in front[i].1;
      assert per[i] == front[i];
    }
    if InRecord(per, t, n) {
      var i :| 0 <= i < |per| && per[i].0 == t && n in per[i].1;
      if i < |front| { assert front[i] == per[i]; }
    }
  }

  lemma {:induction false} RecordWiresAre(root: string, per: Record, dir: Dir, w: Wire)
    ensures w in RecordWires(root, per, dir) <==> exists t, n :: InRecord(per, t, n) && w == AsWire(root, t, n, dir)
  {
    if per != [] {
      var front, last := per[..|per| - 1], per[|per| - 1];
      RecordWiresAre(root, front, dir, w);
      ListWiresAre(root, last.0, last.1, dir, w);
      forall t, n ensures InRecord(per, t, n) <==> InRecord(front, t, n) || (last.0 == t && n in last.1) {
        InRecordSnoc(per, t, n);
      }
      if w in ListWires(root, last.0, last.1, dir) {
        var n :| n in last.1 && w == AsWire(root, last.0, n, dir);
        assert InRecord(per, last.0, n);
      }
    }
  }

  /** Without bars, what is merged is exactly the payload's edges at the root. */
  lemma MergesThePayload(root: string, es: seq<EdgeInfo>, w: Wire)
    requires AllPlain(root, es)
    ensures w in MergeOrder(root, es) <==> (w.src == root || w.dst == root) && HasEdge(es, w.etype, w.src, w.dst)
  {
    var c := Classify(root, es);
    RecordWiresAre(root, c.outs, Outward, w);
    RecordWiresAre(root, c.ins, Inward, w);
    RecordsAreIncident(root, es, w.etype, w.dst);
    RecordsAreIncident(root, es, w.etype, w.src);
  }

  lemma {:induction false} RecordsFromPayload(root: string, es: seq<EdgeInfo>, t: string, n: string)
    ensures InRecord(Classify(root, es).outs, t, n) ==> HasEdge(es, t, root, n)
    ensures InRecord(Classify(root, es).ins, t, n) ==> n != root && HasEdge(es, t, n, root)
  {
    if es != [] {
      var front, e := es[..|es| - 1], es[|es| - 1];
      RecordsFromPayload(root, front, t, n);
      HasEdgeSnoc(es, t, root, n);
      HasEdgeSnoc(es, t, n, root);
      AddNeighborAdds(Classify(root, front).outs, e.etype, e.dst, t, n);
      AddNeighborAdds(Classify(root, front).ins, e.etype, e.src, t, n);
    }
  }

  /** Nothing is merged that the payload does not have. */
  lemma MergedIsPayload(root: string, es: seq<EdgeInfo>, w: Wire)
    requires w in MergeOrder(root, es)
    ensures exists e <- es :: Touches(e, root) && e.etype == w.etype && e.src == w.src && e.dst == w.dst
  {
    var c := Classify(root, es);
    RecordWiresAre(root, c.outs, Outward, w);
    RecordWiresAre(root, c.ins, Inward, w);
    RecordsFromPayload(root, es, w.etype, w.dst);
    RecordsFromPayload(root, es, w.etype, w.src);
    var i :| 0 <= i < |es| && es[i].etype == w.etype && es[i].src == w.src && es[i].dst == w.dst;
    assert es[i] in es;
  }

  /** For every canvas and payload: no edge appears that is not a payload edge at the root,
    and no edge disappears but `related` ones between the ends of a typed one. */
  lemma OnlyThePayload(s: State, root: string, es: seq<EdgeInfo>)
    ensures var t := Expanded(s, root, es);
      && (forall id <- t.edges :: id in s.edges || HasId(es, root, id))
      && (forall id <- s.edges :: id !in t.edges ==>
            exists e <- es :: Touches(e, root) && Drops(Wire(e.etype, e.src, e.dst), id))
  {
    var t, ws := Expanded(s, root, es), MergeOrder(root, es);
    ExpandIsExact(s, root, es);
    forall id | id in t.edges ensures id in s.edges || HasId(es, root, id) {
      if id !in s.edges {
        var w :| w in ws && WireId(w) == id;
        MergedIsPayload(root, es, w);
      }
    }
    forall id | id in s.edges && id !in t.edges
      ensures exists e <- es :: Touches(e, root) && Drops(Wire(e.etype, e.src, e.dst), id)
    {
      var j :| 0 <= j < |ws| && Drops(ws[j], id);
      assert ws[j] in ws;
      MergedIsPayload(root, es, ws[j]);
    }
  }

  // ---- the order of the merges -----------------------------------------------------------------

  /** Each type has one entry. */
  ghost predicate Indexed(per: Record) { forall i :: 0 <= i < |per| ==> EntryOf(per, per[i].0) == i }

  lemma {:induction false} EntryOfSnoc(front: Record, last: (string, seq<string>), t: string)
    ensures EntryOf(front + [last], t) ==
      if EntryOf(front, t) < |front| then EntryOf(front, t) else if last.0 == t then |front| else |front| + 1
  {
    if front == [] {
      assert front + [last] == [last] && [last][1..] == [];
    } else {
      EntryOfSnoc(front[1..], last, t);
      assert (front + [last])[1..] == front[1..] + [last];
    }
  }

  lemma {:induction false} EntryFound(per: Record, i: nat)
    requires i < |per|
    ensures EntryOf(per, per[i].0) < |per|
  {
    if i > 0 && per[0].0 != per[i].0 { EntryFound(per[1..], i - 1); }
  }

  lemma IndexedFront(per: Record)
    requires per != [] && Indexed(per)
    ensures Indexed(per[..|per| - 1]) && EntryOf(per[..|per| - 1], per[|per| - 1].0) == |per| - 1
  {
    var front, last := per[..|per| - 1], per[|per| - 1];
    assert per == front + [last];
    EntryOfSnoc(front, last, last.0);
    forall i | 0 <= i < |front| ensures EntryOf(front, front[i].0) == i {
      EntryOfSnoc(front, last, front[i].0);
      EntryFound(front, i);
      assert per[i] == front[i];
    }
  }

  lemma {:induction false} ListWireTypes(root: string, etype: string, nbrs: seq<string>, dir: Dir, w: Wire)
    requires w in ListWires(root, etype, nbrs, dir)
    ensures w.etype == etype
  {
    ListWiresAre(root, etype, nbrs, dir, w);
  }

  lemma RecordWireTypes(root: string, per: Record, dir: Dir, w: Wire)
    requires w in RecordWires(root, per, dir)
    ensures EntryOf(per, w.etype) < |per|
  {
    RecordWiresAre(root, per, dir, w);
    var t, n :| InRecord(per, t, n) && w == AsWire(root, t, n, dir);
    var i :| 0 <= i < |per| && per[i].0 == t && n in per[i].1;
    EntryFound(per, i);
  }

  /** Wires of two types come in the order of the types' entries. */
  lemma {:induction false} WiresByEntry(root: string, per: Record, dir: Dir, i: nat, j: nat)
    requires Indexed(per) && i < |RecordWires(root, per, dir)| && j < |RecordWires(root, per, dir)|
    requires RecordWires(root, per, dir)[i].etype != RecordWires(root, per, dir)[j].etype
    ensures var ws := RecordWires(root, per, dir); i < j <==> EntryOf(per, ws[i].etype) < EntryOf(per, ws[j].etype)
  {
    var ws, front, last := RecordWires(root, per, dir), per[..|per| - 1], per[|per| - 1];
    var us, vs := RecordWires(root, front, dir), ListWires(root, last.0, last.1, dir);
    IndexedFront(per);
    assert per == front + [last] && ws == us + vs;
    WireEntry(root, per, dir, i);
    WireEntry(root, per, dir, j);
    if i < |us| && j < |us| { WiresByEntry(root, front, dir, i, j); }
  }

  lemma WireOfFront(root: string, front: Record, last: (string, seq<string>), dir: Dir, w: Wire)
    requires w in RecordWires(root, front, dir)
    ensures EntryOf(front + [last], w.etype) == EntryOf(front, w.etype) < |front|
  {
    RecordWireTypes(root, front, dir, w);
    EntryOfSnoc(front, last, w.etype);
  }

  lemma WireEntry(root: string, per: Record, dir: Dir, i: nat)
    requires per != [] && Indexed(per) && i < |RecordWires(root, per, dir)|
    ensures var front, w := per[..|per| - 1], RecordWires(root, per, dir)[i];
      if i < |RecordWires(root, front, dir)| then EntryOf(per, w.etype) == EntryOf(front, w.etype) < |front|
      else w.etype == per[|per| - 1].0
  {
    var front, last := per[..|per| - 1], per[|per| - 1];
    var us, vs := RecordWires(root, front, dir), ListWires(root, last.0, last.1, dir);
    assert per == front + [last];
    if i < |us| {
      WireOfFront(root, front, last, dir, us[i]);
    } else {
      ListWireTypes(root, last.0, last.1, dir, vs[i - |us|]);
    }
  }

  /** The edge leaves the root, or comes in from elsewhere. */
  predicate Goes(e: EdgeInfo, root: string, dir: Dir)
  {
    if dir == Outward then e.src == root else e.dst == root && e.src != root
  }

  function RecordOf(c: Classified, dir: Dir): Record { if dir == Outward then c.outs else c.ins }

  predicate Mentioned(es: seq<EdgeInfo>, root: string, dir: Dir, t: string)
  {
    exists i :: 0 <= i < |es| && Goes(es[i], root, dir) && es[i].etype == t
  }

  /** Where the payload first names an edge of this type in this direction. */
  function FirstOf(es: seq<EdgeInfo>, root: string, dir: Dir, t: string): (k: nat)
    requires Mentioned(es, root, dir, t)
    ensures k < |es| && Goes(es[k], root, dir) && es[k].etype == t
    ensures forall i :: 0 <= i < k ==> !(Goes(es[i], root, dir) && es[i].etype == t)
  {
    var front := es[..|es| - 1];
    if Mentioned(front, root, dir, t) then FirstOf(front, root, dir, t) else |es| - 1
  }

  lemma MentionedSnoc(es: seq<EdgeInfo>, root: string, dir: Dir, t: string)
    requires es != []
    ensures var front, e := es[..|es| - 1], es[|es| - 1];
      Mentioned(es, root, dir, t) <==> Mentioned(front, root, dir, t) || (Goes(e, root, dir) && e.etype == t)
  {
    var front := es[..|es| - 1];
    if Mentioned(front, root, dir, t) {
      var i :| 0 <= i < |front| && Goes(front[i], root, dir) && front[i].etype == t;
      assert es[i] == front[i];
    }
    if Mentioned(es, root, dir, t) {
      var i :| 0 <= i < |es| && Goes(es[i], root, dir) && es[i].etype == t;
      if i < |front| { assert front[i] == es[i]; }
    }
  }

  /** What adding a neighbour does to the entries. */
  lemma AddedEntry(per: Record, etype: string, nbr: string, t: string)
    requires Indexed(per)
    ensures var q := AddNeighbor(per, etype, nbr);
      && Indexed(q)
      && (if EntryOf(per, etype) < |per| then |q| == |per| && EntryOf(q, t) == EntryOf(per, t)
          else |q| == |per| + 1 && (EntryOf(q, t) < |q| <==> EntryOf(per, t) < |per| || t == etype)
               && (EntryOf(per, t) < |per| ==> EntryOf(q, t) == EntryOf(per, t)) && EntryOf(q, etype) == |per|)
  {
    var q := AddNeighbor(per, etype, nbr);
    if EntryOf(per, etype) < |per| {
      SameTypes(per, q);
      SameEntries(per, q, t);
    } else {
      var last := (etype, [nbr]);
      EntryOfSnoc(per, last, t);
      EntryOfSnoc(per, last, etype);
      forall i | 0 <= i < |q| ensures EntryOf(q, q[i].0) == i { EntryOfSnoc(per, last, q[i].0); }
    }
  }

  ghost predicate SameTypesAs(per: Record, q: Record)
  {
    |q| == |per| && forall i :: 0 <= i < |per| ==> q[i].0 == per[i].0
  }

  lemma SameTypes(per: Record, q: Record)
    requires SameTypesAs(per, q) && Indexed(per)
    ensures Indexed(q)
  {
    forall i | 0 <= i < |q| ensures EntryOf(q, q[i].0) == i { SameEntries(per, q, q[i].0); }
  }

  lemma {:induction false} SameEntries(per: Record, q: Record, t: string)
    requires SameTypesAs(per, q)
    ensures EntryOf(q, t) == EntryOf(per, t)
  {
    if per != [] { SameEntries(per[1..], q[1..], t); }
  }

  ghost predicate EntriesAsMentioned(root: string, es: seq<EdgeInfo>, dir: Dir)
  {
    var per := RecordOf(Classify(root, es), dir);
    && Indexed(per)
    && (forall t :: EntryOf(per, t) < |per| <==> Mentioned(es, root, dir, t))
    && (forall t, u :: Mentioned(es, root, dir, t) && Mentioned(es, root, dir, u) ==>
          (EntryOf(per, t) < EntryOf(per, u) <==> FirstOf(es, root, dir, t) < FirstOf(es, root, dir, u)))
  }

  /** Without bars, a type's entry is there once it is mentioned, in the order of mention. */
  lemma {:induction false} EntryOrder(root: string, es: seq<EdgeInfo>, dir: Dir)
    requires AllPlain(root, es)
    ensures EntriesAsMentioned(root, es, dir)
  {
    if es != [] {
      EntryOrder(root, es[..|es| - 1], dir);
      EntryOrderStep(root, es, dir);
    }
  }

  /** What one more payload edge does to one direction's record. */
  lemma RecordStep(root: string, es: seq<EdgeInfo>, dir: Dir)
    requires es != [] && AllPlain(root, es)
    ensures var front, e := es[..|es| - 1], es[|es| - 1];
      var per, q := RecordOf(Classify(root, front), dir), RecordOf(Classify(root, es), dir);
      q == if Goes(e, root, dir) && !HasEdge(front, e.etype, e.src, e.dst)
           then AddNeighbor(per, e.etype, if dir == Outward then e.dst else e.src) else per
  {
    var front, e := es[..|es| - 1], es[|es| - 1];
    ProvenanceIsFirstSeen(root, front);
    if Touches(e, root) {
      assert e in es;
      SeenIsHad(root, front, e);
    }
  }

  lemma StepOldType(root: string, es: seq<EdgeInfo>, dir: Dir)
    requires es != [] && EntriesAsMentioned(root, es[..|es| - 1], dir)
    requires var per, q := RecordOf(Classify(root, es[..|es| - 1]), dir), RecordOf(Classify(root, es), dir);
      Indexed(q) && |q| == |per| && forall t :: EntryOf(q, t) == EntryOf(per, t)
    requires forall t :: Mentioned(es, root, dir, t) <==> Mentioned(es[..|es| - 1], root, dir, t)
    ensures EntriesAsMentioned(root, es, dir)
  {
  }

  /** The last edge is the first of its type in this direction. */
  ghost predicate NewType(root: string, es: seq<EdgeInfo>, dir: Dir, n: string)
  {
    es != [] &&
    var front, e := es[..|es| - 1], es[|es| - 1];
    && EntriesAsMentioned(root, front, dir)
    && RecordOf(Classify(root, es), dir) == AddNeighbor(RecordOf(Classify(root, front), dir), e.etype, n)
    && Goes(e, root, dir) && !Mentioned(front, root, dir, e.etype)
  }

  lemma NewTypeOne(root: string, es: seq<EdgeInfo>, dir: Dir, n: string, t: string)
    requires NewType(root, es, dir, n)
    ensures var front, e := es[..|es| - 1], es[|es| - 1];
      var per, q := RecordOf(Classify(root, front), dir), RecordOf(Classify(root, es), dir);
      && Indexed(q) && (EntryOf(q, t) < |q| <==> Mentioned(es, root, dir, t))
      && (Mentioned(es, root, dir, t) ==> Mentioned(front, root, dir, t) || t == e.etype)
      && (Mentioned(front, root, dir, t) ==>
            && EntryOf(q, t) == EntryOf(per, t) < |per|
            && Mentioned(es, root, dir, t) && FirstOf(es, root, dir, t) == FirstOf(front, root, dir, t) < |front|)
      && (t == e.etype ==>
            EntryOf(q, t) == |per| && Mentioned(es, root, dir, t) && FirstOf(es, root, dir, t) == |front|)
  {
    MentionedSnoc(es, root, dir, t);
    AddedEntry(RecordOf(Classify(root, es[..|es| - 1]), dir), es[|es| - 1].etype, n, t);
  }

  lemma StepNewType(root: string, es: seq<EdgeInfo>, dir: Dir, n: string)
    requires NewType(root, es, dir, n)
    ensures EntriesAsMentioned(root, es, dir)
  {
    var q := RecordOf(Classify(root, es), dir);
    NewTypeOne(root, es, dir, n, "");
    forall t ensures EntryOf(q, t) < |q| <==> Mentioned(es, root, dir, t) { NewTypeOne(root, es, dir, n, t); }
    forall t, u | Mentioned(es, root, dir, t) && Mentioned(es, root, dir, u)
      ensures EntryOf(q, t) < EntryOf(q, u) <==> FirstOf(es, root, dir, t) < FirstOf(es, root, dir, u)
    {
      NewTypeOne(root, es, dir, n, t);
      NewTypeOne(root, es, dir, n, u);
    }
  }

  lemma EntryOrderStep(root: string, es: seq<EdgeInfo>, dir: Dir)
    requires es != [] && AllPlain(root, es) && EntriesAsMentioned(root, es[..|es| - 1], dir)
    ensures EntriesAsMentioned(root, es, dir)
  {
    var front, e := es[..|es| - 1], es[|es| - 1];
    var n := if dir == Outward then e.dst else e.src;
    RecordStep(root, es, dir);
    if Goes(e, root, dir) && !Mentioned(front, root, dir, e.etype) {
      EdgeMentions(front, root, dir, e);
      StepNewType(root, es, dir, n);
    } else {
      forall t { MentionedSnoc(es, root, dir, t); }
      forall t { AddedEntry(RecordOf(Classify(root, front), dir), e.etype, n, t); }
      StepOldType(root, es, dir);
    }
  }

  lemma EdgeMentions(es: seq<EdgeInfo>, root: string, dir: Dir, e: EdgeInfo)
    requires Goes(e, root, dir)
    ensures HasEdge(es, e.etype, e.src, e.dst) ==> Mentioned(es, root, dir, e.etype)
  {
    if HasEdge(es, e.etype, e.src, e.dst) {
      var i :| 0 <= i < |es| && es[i].etype == e.etype && es[i].src == e.src && es[i].dst == e.dst;
      assert Goes(es[i], root, dir);
    }
  }

  // ---- which edges stay ------------------------------------------------------------------------

  predicate Shown(t: State, e: EdgeInfo)
  {
    IdOf(e) in t.edges && var g := t.edges[IdOf(e)]; g.etype == e.etype && g.src == e.src && g.dst == e.dst
  }

  /** Each time `w`, a `related` edge, is merged, a typed edge between the same two nodes
    is merged after it. */
  ghost predicate Overtaken(ws: seq<Wire>, w: Wire)
  {
    w.etype == RELATED && forall i :: 0 <= i < |ws| && ws[i] == w ==> OvertakenAt(ws, w, i)
  }

  ghost predicate OvertakenAt(ws: seq<Wire>, w: Wire, i: int)
  {
    exists j :: 0 <= i < j < |ws| && ws[j].etype != RELATED && {ws[j].src, ws[j].dst} == {w.src, w.dst}
  }

  lemma DropsPlainIff(v: Wire, e: EdgeInfo)
    requires Plain(e)
    ensures Drops(v, IdOf(e)) <==> v.etype != RELATED && e.etype == RELATED && {v.src, v.dst} == {e.src, e.dst}
  {
    if IdOf(e) == EdgeId(RELATED, v.src, v.dst) { EdgeIdUnique(e.etype, e.src, e.dst, RELATED, v.src, v.dst); }
    if IdOf(e) == EdgeId(RELATED, v.dst, v.src) { EdgeIdUnique(e.etype, e.src, e.dst, RELATED, v.dst, v.src); }
    if {v.src, v.dst} == {e.src, e.dst} {
      assert v.src in {e.src, e.dst} && v.dst in {e.src, e.dst} && e.src in {v.src, v.dst} && e.dst in {v.src, v.dst};
    }
  }

  lemma StaysIff(ws: seq<Wire>, e: EdgeInfo)
    requires Plain(e)
    ensures var w := Wire(e.etype, e.src, e.dst);
      w in ws ==> (Stays(ws, IdOf(e)) <==> !Overtaken(ws, w))
    ensures var w := Wire(e.etype, e.src, e.dst);
      w in ws && Overtaken(ws, w) ==> Dropped(ws, IdOf(e))
  {
    var w, id := Wire(e.etype, e.src, e.dst), IdOf(e);
    forall v { DropsPlainIff(v, e); }
    if Stays(ws, id) {
      var i :| 0 <= i < |ws| && WireId(ws[i]) == id && SafeFrom(ws, id, i);
      EdgeIdUnique(e.etype, e.src, e.dst, ws[i].etype, ws[i].src, ws[i].dst);
      assert ws[i] == w;
      if w.etype == RELATED { assert !OvertakenAt(ws, w, i); }
    }
    if w in ws && Overtaken(ws, w) {
      var i :| 0 <= i < |ws| && ws[i] == w;
      assert OvertakenAt(ws, w, i);
    }
    if w in ws && !Overtaken(ws, w) {
      var i :| 0 <= i < |ws| && ws[i] == w && (w.etype == RELATED ==> !OvertakenAt(ws, w, i));
      assert SafeFrom(ws, id, i);
    }
  }

  /** With no bars in the payload's keys and types, an edge of the payload at the root is on
    the canvas after the expansion exactly when it is not a `related` edge overtaken by a
    typed one. */
  lemma ShownIffNotOvertaken(s: State, root: string, es: seq<EdgeInfo>, e: EdgeInfo)
    requires Sound(s) && AllPlain(root, es) && e in es && Touches(e, root)
    ensures Shown(Expanded(s, root, es), e) <==> !Overtaken(MergeOrder(root, es), Wire(e.etype, e.src, e.dst))
  {
    var w, id, t, ws := Wire(e.etype, e.src, e.dst), IdOf(e), Expanded(s, root, es), MergeOrder(root, es);
    var i :| 0 <= i < |es| && es[i] == e;
    MergesThePayload(root, es, w);
    ExpandIsExact(s, root, es);
    StaysIff(ws, e);
    if id in t.edges {
      if id in s.edges && !Dropped(ws, id) {
        EdgeIdUnique(e.etype, e.src, e.dst, s.edges[id].etype, s.edges[id].src, s.edges[id].dst);
      } else {
        var v :| v in ws && WireId(v) == id && t.edges[id] == Flagged(NewEdge(v), es, root, id);
        EdgeIdUnique(e.etype, e.src, e.dst, v.etype, v.src, v.dst);
      }
    }
  }

  /** A payload that names a `related` edge before a typed one between the same nodes loses
    it; named after it, it is shown. */
  lemma RelatedIsOvertaken(e: EdgeInfo, f: EdgeInfo)
    requires Plain(e) && Plain(f) && e.src == f.src && e.dst == f.dst && e.etype == RELATED && f.etype != RELATED
    ensures !Shown(Expanded(EmptyState, e.src, [e, f]), e) && Shown(Expanded(EmptyState, e.src, [f, e]), e)
  {
    var root, v, w := e.src, Wire(RELATED, e.src, e.dst), Wire(f.etype, e.src, e.dst);
    if IdOf(e) == IdOf(f) { EdgeIdUnique(e.etype, e.src, e.dst, f.etype, f.src, f.dst); }
    OrderOfTwo(root, e, f);
    OrderOfTwo(root, f, e);
    ShownIffNotOvertaken(EmptyState, root, [e, f], e);
    ShownIffNotOvertaken(EmptyState, root, [f, e], e);
    assert [v, w][1] == w && OvertakenAt([v, w], v, 0);
    assert [w, v][1] == v && !OvertakenAt([w, v], v, 1);
  }

  lemma OneWire(root: string, etype: string, n: string, dir: Dir)
    ensures ListWires(root, etype, [n], dir) == [AsWire(root, etype, n, dir)]
  {
    assert [n][..0] == [];
  }

  lemma TwoWires(root: string, t: string, u: string, n: string)
    ensures RecordWires(root, [(t, [n]), (u, [n])], Outward) == [Wire(t, root, n), Wire(u, root, n)]
  {
    var one, two: Record := [(t, [n])], [(t, [n]), (u, [n])];
    assert two[..1] == one && one[..0] == [];
    OneWire(root, t, n, Outward);
    OneWire(root, u, n, Outward);
    assert RecordWires(root, one, Outward) == [] + [Wire(t, root, n)];
  }

  lemma ClassifyFirst(root: string, e: EdgeInfo)
    requires e.src == root
    ensures Classify(root, [e]) == Classified([(e.etype, [e.dst])], [], [(IdOf(e), e.derived)], {IdOf(e)})
  {
    assert [e][..0] == [] && Classify(root, []) == Classified([], [], [], {});
  }

  lemma NewEntry(t: string, u: string, n: string)
    requires t != u
    ensures AddNeighbor([(t, [n])], u, n) == [(t, [n]), (u, [n])]
  {
    assert [(t, [n])][1..] == [];
  }

  /** Two edges from the root to one node, of two types, are merged as they come. */
  lemma OrderOfTwo(root: string, e: EdgeInfo, f: EdgeInfo)
    requires e.src == f.src == root && e.dst == f.dst && IdOf(e) != IdOf(f)
    ensures MergeOrder(root, [e, f]) == [Wire(e.etype, root, e.dst), Wire(f.etype, root, e.dst)]
  {
    var both := [e, f];
    assert both[..1] == [e] && Classify(root, both) == ClassifyOne(Classify(root, [e]), root, f);
    ClassifyFirst(root, e);
    NewEntry(e.etype, f.etype, e.dst);
    TwoWires(root, e.etype, f.etype, e.dst);
  }

  /** Two payload edges whose ids collide through a bar: no canvas shows both. */
  lemma BarsCollide(t: State)
    ensures var e, f := EdgeInfo("A", "r", "r|x", false), EdgeInfo("A|r", "r", "x", false);
      !(Shown(t, e) && Shown(t, f))
  {
    assert EdgeId("A", "r", "r|x") == EdgeId("A|r", "r", "x");
  }

  // ---- the same, on the payload --------------------------------------------------------------------

  /** In this direction the payload names `related` first, type `t` later. */
  ghost predicate NamedLater(es: seq<EdgeInfo>, root: string, dir: Dir, t: string)
  {
    && Mentioned(es, root, dir, t) && Mentioned(es, root, dir, RELATED)
    && FirstOf(es, root, dir, RELATED) < FirstOf(es, root, dir, t)
  }

  /** `f` takes the `related` edge from the root to `n` off the canvas again: a typed edge
    from `n`, or a typed edge to `n` of a type named later. */
  ghost predicate OvertakesOut(es: seq<EdgeInfo>, root: string, f: EdgeInfo, n: string)
  {
    f.etype != RELATED &&
    ((f.src == n != root && f.dst == root) || (f.src == root && f.dst == n && NamedLater(es, root, Outward, f.etype)))
  }

  /** `f` takes the `related` edge from `n` to the root off again: a typed edge from `n` of a
    type named later. */
  ghost predicate OvertakesIn(es: seq<EdgeInfo>, root: string, f: EdgeInfo, n: string)
  {
    f.etype != RELATED && f.src == n && f.dst == root && NamedLater(es, root, Inward, f.etype)
  }

  ghost predicate LostFrom(es: seq<EdgeInfo>, root: string, e: EdgeInfo)
  {
    e.etype == RELATED &&
    exists f <- es :: if e.src == root then OvertakesOut(es, root, f, e.dst) else OvertakesIn(es, root, f, e.src)
  }

  function DirWires(root: string, es: seq<EdgeInfo>, dir: Dir): seq<Wire>
  {
    RecordWires(root, RecordOf(Classify(root, es), dir), dir)
  }

  lemma LaterIffNamedLater(root: string, es: seq<EdgeInfo>, dir: Dir, i: nat, j: nat)
    requires AllPlain(root, es) && i < |DirWires(root, es, dir)| && j < |DirWires(root, es, dir)|
    requires DirWires(root, es, dir)[i].etype == RELATED && DirWires(root, es, dir)[j].etype != RELATED
    ensures i < j <==> NamedLater(es, root, dir, DirWires(root, es, dir)[j].etype)
  {
    var per, ws := RecordOf(Classify(root, es), dir), DirWires(root, es, dir);
    EntryOrder(root, es, dir);
    RecordWireTypes(root, per, dir, ws[i]);
    RecordWireTypes(root, per, dir, ws[j]);
    WiresByEntry(root, per, dir, i, j);
  }

  lemma DirWiresAre(root: string, es: seq<EdgeInfo>, dir: Dir, w: Wire)
    requires AllPlain(root, es)
    ensures w in DirWires(root, es, dir) <==>
      HasEdge(es, w.etype, w.src, w.dst) && (if dir == Outward then w.src == root else w.dst == root && w.src != root)
  {
    RecordWiresAre(root, RecordOf(Classify(root, es), dir), dir, w);
    RecordsAreIncident(root, es, w.etype, w.dst);
    RecordsAreIncident(root, es, w.etype, w.src);
  }

  lemma EdgeOfWire(es: seq<EdgeInfo>, w: Wire) returns (f: EdgeInfo)
    requires HasEdge(es, w.etype, w.src, w.dst)
    ensures f in es && f.etype == w.etype && f.src == w.src && f.dst == w.dst
  {
    var i :| 0 <= i < |es| && es[i].etype == w.etype && es[i].src == w.src && es[i].dst == w.dst;
    f := es[i];
  }

  lemma WireOfEdge(es: seq<EdgeInfo>, f: EdgeInfo)
    requires f in es
    ensures HasEdge(es, f.etype, f.src, f.dst)
  {
    var i :| 0 <= i < |es| && es[i] == f;
  }

  lemma OutOvertaken(root: string, es: seq<EdgeInfo>, n: string)
    requires AllPlain(root, es) && HasEdge(es, RELATED, root, n)
    requires Overtaken(MergeOrder(root, es), Wire(RELATED, root, n))
    ensures exists f <- es :: OvertakesOut(es, root, f, n)
  {
    var w, outs, ins := Wire(RELATED, root, n), DirWires(root, es, Outward), DirWires(root, es, Inward);
    var ws := MergeOrder(root, es);
    assert ws == outs + ins;
    DirWiresAre(root, es, Outward, w);
    var i :| 0 <= i < |outs| && outs[i] == w;
    assert ws[i] == w && OvertakenAt(ws, w, i);
    var j :| i < j < |ws| && ws[j].etype != RELATED && {ws[j].src, ws[j].dst} == {root, n};
    assert ws[j].src in {root, n} && ws[j].dst in {root, n} && n in {ws[j].src, ws[j].dst};
    if j < |outs| {
      assert outs[j] == ws[j] && outs[j] in outs;
      DirWiresAre(root, es, Outward, outs[j]);
      LaterIffNamedLater(root, es, Outward, i, j);
    } else {
      assert ins[j - |outs|] == ws[j] && ws[j] in ins;
      DirWiresAre(root, es, Inward, ws[j]);
    }
    var f := EdgeOfWire(es, ws[j]);
    assert OvertakesOut(es, root, f, n);
  }

  lemma OutOvertakes(root: string, es: seq<EdgeInfo>, n: string, f: EdgeInfo)
    requires AllPlain(root, es) && f in es && OvertakesOut(es, root, f, n)
    ensures Overtaken(MergeOrder(root, es), Wire(RELATED, root, n))
  {
    var w, v := Wire(RELATED, root, n), Wire(f.etype, f.src, f.dst);
    var outs, ins, ws := DirWires(root, es, Outward), DirWires(root, es, Inward), MergeOrder(root, es);
    assert ws == outs + ins;
    WireOfEdge(es, f);
    DirWiresAre(root, es, Outward, v);
    DirWiresAre(root, es, Inward, v);
    DirWiresAre(root, es, Inward, w);
    forall i | 0 <= i < |ws| && ws[i] == w ensures OvertakenAt(ws, w, i) {
      assert i < |outs| && outs[i] == w;
      if f.src == root {
        var j :| 0 <= j < |outs| && outs[j] == v;
        LaterIffNamedLater(root, es, Outward, i, j);
        assert ws[j] == v;
      } else {
        var j :| 0 <= j < |ins| && ins[j] == v;
        assert ws[|outs| + j] == v;
      }
    }
  }

  lemma InOvertaken(root: string, es: seq<EdgeInfo>, n: string)
    requires AllPlain(root, es) && n != root && HasEdge(es, RELATED, n, root)
    requires Overtaken(MergeOrder(root, es), Wire(RELATED, n, root))
    ensures exists f <- es :: OvertakesIn(es, root, f, n)
  {
    var w, outs, ins := Wire(RELATED, n, root), DirWires(root, es, Outward), DirWires(root, es, Inward);
    var ws := MergeOrder(root, es);
    assert ws == outs + ins;
    DirWiresAre(root, es, Inward, w);
    var i :| 0 <= i < |ins| && ins[i] == w;
    assert ws[|outs| + i] == w && OvertakenAt(ws, w, |outs| + i);
    var j :| |outs| + i < j < |ws| && ws[j].etype != RELATED && {ws[j].src, ws[j].dst} == {n, root};
    var k := j - |outs|;
    assert ins[k] == ws[j] && ins[k] in ins;
    DirWiresAre(root, es, Inward, ins[k]);
    assert ins[k].src in {n, root};
    LaterIffNamedLater(root, es, Inward, i, k);
    var f := EdgeOfWire(es, ws[j]);
    assert OvertakesIn(es, root, f, n);
  }

  lemma InOvertakes(root: string, es: seq<EdgeInfo>, n: string, f: EdgeInfo)
    requires AllPlain(root, es) && n != root && f in es && OvertakesIn(es, root, f, n)
    ensures Overtaken(MergeOrder(root, es), Wire(RELATED, n, root))
  {
    var w, v := Wire(RELATED, n, root), Wire(f.etype, f.src, f.dst);
    var outs, ins, ws := DirWires(root, es, Outward), DirWires(root, es, Inward), MergeOrder(root, es);
    assert ws == outs + ins;
    WireOfEdge(es, f);
    DirWiresAre(root, es, Inward, v);
    DirWiresAre(root, es, Outward, w);
    var j :| 0 <= j < |ins| && ins[j] == v;
    assert ws[|outs| + j] == v;
    forall i | 0 <= i < |ws| && ws[i] == w ensures OvertakenAt(ws, w, i) {
      assert ins[i - |outs|] == w;
      LaterIffNamedLater(root, es, Inward, i - |outs|, j);
    }
  }

  /** With no bars in the payload's keys and types: an edge of the payload at the root is on
    the canvas after the expansion unless it is a `related` edge that a later typed edge
    between the same nodes takes off, told from the payload alone. */
  lemma ShownIff(s: State, root: string, es: seq<EdgeInfo>, e: EdgeInfo)
    requires Sound(s) && AllPlain(root, es) && e in es && Touches(e, root)
    ensures Shown(Expanded(s, root, es), e) <==> !LostFrom(es, root, e)
  {
    var w := Wire(e.etype, e.src, e.dst);
    ShownIffNotOvertaken(s, root, es, e);
    WireOfEdge(es, e);
    if e.etype == RELATED {
      if Overtaken(MergeOrder(root, es), w) {
        if e.src == root { OutOvertaken(root, es, e.dst); } else { InOvertaken(root, es, e.src); }
      }
      if LostFrom(es, root, e) {
        var f :| f in es && if e.src == root then OvertakesOut(es, root, f, e.dst) else OvertakesIn(es, root, f, e.src);
        if e.src == root { OutOvertakes(root, es, e.dst, f); } else { InOvertakes(root, es, e.src, f); }
      }
    }
  }
}
