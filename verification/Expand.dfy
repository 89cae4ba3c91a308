/** Expanding a node: classify the server's edge list, merge it into the store. */
module Expand {
  import opened Canvas
  import opened GraphStores

  datatype EdgeInfo = EdgeInfo(etype: string, src: string, dst: string, derived: bool)

  function IdOf(e: EdgeInfo): string { EdgeId(e.etype, e.src, e.dst) }

  predicate Touches(e: EdgeInfo, root: string) { e.src == root || e.dst == root }

  // ---- ids --------------------------------------------------------------------------------

  predicate BarFree(s: string) { '|' !in s }

  predicate Plain(e: EdgeInfo) { BarFree(e.etype) && BarFree(e.src) && BarFree(e.dst) }

  /** The id of an edge without bars in it is the id of no other edge. */
  lemma EdgeIdUnique(t: string, s: string, d: string, t': string, s': string, d': string)
    requires BarFree(t) && BarFree(s) && BarFree(d) && EdgeId(t, s, d) == EdgeId(t', s', d')
    ensures t == t' && s == s' && d == d'
  {
    var id, m, m' := EdgeId(t, s, d), |t| + 1 + |s|, |t'| + 1 + |s'|;
    assert id[|t|] == '|' && id[m] == '|' && forall i :: 0 <= i < |id| && id[i] == '|' ==> i == |t| || i == m;
    assert id[|t'|] == '|' && id[m'] == '|';
    assert id[..|t|] == t && id[|t| + 1..m] == s && id[m + 1..] == d;
    assert id[..|t'|] == t' && id[|t'| + 1..m'] == s' && id[m' + 1..] == d';
  }

  // ---- classify ----------------------------------------------------------------------------

  /** Where the entry of `etype` is; the length if there is none. */
  function EntryOf(per: Record, etype: string): (i: nat)
    ensures i <= |per|
    ensures i < |per| ==> per[i].0 == etype
  {
    if per == [] || per[0].0 == etype then 0 else 1 + EntryOf(per[1..], etype)
  }

  function AddNeighbor(per: Record, etype: string, nbr: string): Record
  {
    var i := EntryOf(per, etype);
    if i == |per| then per + [(etype, [nbr])]
    else if nbr in per[i].1 then per
    else per[i := (etype, per[i].1 + [nbr])]
  }

  predicate InRecord(per: Record, etype: string, nbr: string)
  {
    exists i :: 0 <= i < |per| && per[i].0 == etype && nbr in per[i].1
  }

  lemma AddNeighborAdds(per: Record, etype: string, nbr: string, t: string, n: string)
    ensures InRecord(AddNeighbor(per, etype, nbr), t, n) <==> InRecord(per, t, n) || (t == etype && n == nbr)
  {
    var i, after := EntryOf(per, etype), AddNeighbor(per, etype, nbr);
    if InRecord(per, t, n) {
      var j :| 0 <= j < |per| && per[j].0 == t && n in per[j].1;
      assert after[j].0 == t && n in after[j].1;
    }
    if t == etype && n == nbr {
      assert i < |after| && after[i].0 == t && n in after[i].1;
    }
    if InRecord(after, t, n) {
      var j :| 0 <= j < |after| && after[j].0 == t && n in after[j].1;
      if j < |per| && n in per[j].1 { assert per[j].0 == t; }
    }
  }

  datatype Classified = Classified(outs: Record, ins: Record, provenance: seq<(string, bool)>, seen: set<string>)

  function ClassifyOne(c: Classified, root: string, e: EdgeInfo): Classified
  {
    if !Touches(e, root) || IdOf(e) in c.seen then c
    else
      Classified(if e.src == root then AddNeighbor(c.outs, e.etype, e.dst) else c.outs,
                 if e.dst == root && e.src != root then AddNeighbor(c.ins, e.etype, e.src) else c.ins,
                 c.provenance + [(IdOf(e), e.derived)],
                 c.seen + {IdOf(e)})
  }

  function Classify(root: string, es: seq<EdgeInfo>): Classified
  {
    if es == [] then Classified([], [], [], {})
    else ClassifyOne(Classify(root, es[..|es| - 1]), root, es[|es| - 1])
  }

  method ClassifyFromEdges(root: string, es: seq<EdgeInfo>) returns (c: Classified)
    ensures c == Classify(root, es)
  {
    var outs, ins: Record := [], [];
    var provenance: seq<(string, bool)> := [];
    var seen: set<string> := {};
    for i := 0 to |es|
      invariant Classified(outs, ins, provenance, seen) == Classify(root, es[..i])
    {
      assert es[..i + 1][..i] == es[..i];
      var e := es[i];
      if e.src != root && e.dst != root { continue; }
      var id := EdgeId(e.etype, e.src, e.dst);
      if id in seen { continue; }
      seen := seen + {id};
      if e.src == root { outs := AddNeighbor(outs, e.etype, e.dst); }
      if e.dst == root && e.src != root { ins := AddNeighbor(ins, e.etype, e.src); }
      provenance := provenance + [(id, e.derived)];
    }
    assert es[..|es|] == es;
    c := Classified(outs, ins, provenance, seen);
  }

  /** Some edge of the payload at the root has this id. */
  predicate HasId(es: seq<EdgeInfo>, root: string, id: string)
  {
    exists i :: 0 <= i < |es| && Touches(es[i], root) && IdOf(es[i]) == id
  }

  /** The flag of the first payload edge at the root with this id. */
  function FirstFlag(es: seq<EdgeInfo>, root: string, id: string): bool
    requires HasId(es, root, id)
  {
    var front := es[..|es| - 1];
    if HasId(front, root, id) then FirstFlag(front, root, id) else es[|es| - 1].derived
  }

  lemma {:induction false} FirstFlagIsFirst(es: seq<EdgeInfo>, root: string, id: string, k: nat)
    requires k < |es| && Touches(es[k], root) && IdOf(es[k]) == id && !HasId(es[..k], root, id)
    ensures HasId(es, root, id) && FirstFlag(es, root, id) == es[k].derived
  {
    var front := es[..|es| - 1];
    if k < |es| - 1 {
      assert front[..k] == es[..k];
      FirstFlagIsFirst(front, root, id, k);
    }
  }

  lemma HasIdSnoc(es: seq<EdgeInfo>, root: string, id: string)
    requires es != []
    ensures HasId(es, root, id) <==>
      HasId(es[..|es| - 1], root, id) || (Touches(es[|es| - 1], root) && IdOf(es[|es| - 1]) == id)
  {
    var front := es[..|es| - 1];
    if HasId(front, root, id) {
      var i :| 0 <= i < |front| && Touches(front[i], root) && IdOf(front[i]) == id;
      assert es[i] == front[i];
    }
    if HasId(es, root, id) {
      var i :| 0 <= i < |es| && Touches(es[i], root) && IdOf(es[i]) == id;
      if i < |front| { assert front[i] == es[i]; }
    }
  }

  ghost predicate FlagsRight(es: seq<EdgeInfo>, root: string, c: Classified)
  {
    && (forall id :: id in c.seen <==> HasId(es, root, id))
    && (forall i :: 0 <= i < |c.provenance| ==>
          HasId(es, root, c.provenance[i].0) && c.provenance[i].1 == FirstFlag(es, root, c.provenance[i].0))
    && (forall id <- c.seen :: exists i :: 0 <= i < |c.provenance| && c.provenance[i].0 == id)
  }

  /** Provenance carries, for each id at the root, its first-seen flag. */
  lemma {:induction false} ProvenanceIsFirstSeen(root: string, es: seq<EdgeInfo>)
    ensures FlagsRight(es, root, Classify(root, es))
  {
    if es != [] {
      var front, e := es[..|es| - 1], es[|es| - 1];
      var c, d := Classify(root, front), Classify(root, es);
      ProvenanceIsFirstSeen(root, front);
      forall id ensures id in d.seen <==> HasId(es, root, id) { HasIdSnoc(es, root, id); }
      forall i | 0 <= i < |d.provenance|
        ensures HasId(es, root, d.provenance[i].0) && d.provenance[i].1 == FirstFlag(es, root, d.provenance[i].0)
      {
        HasIdSnoc(es, root, d.provenance[i].0);
        if i < |c.provenance| { assert d.provenance[i] == c.provenance[i]; }
      }
      forall id | id in d.seen ensures exists i :: 0 <= i < |d.provenance| && d.provenance[i].0 == id {
        if id in c.seen {
          var i :| 0 <= i < |c.provenance| && c.provenance[i].0 == id;
          assert d.provenance[i].0 == id;
        } else {
          assert d.provenance[|d.provenance| - 1].0 == id;
        }
      }
    }
  }

  /** No bars in the payload's edges at the root. */
  ghost predicate AllPlain(root: string, es: seq<EdgeInfo>)
  {
    forall e <- es :: Touches(e, root) ==> Plain(e)
  }

  predicate HasEdge(es: seq<EdgeInfo>, t: string, src: string, dst: string)
  {
    exists i :: 0 <= i < |es| && es[i].etype == t && es[i].src == src && es[i].dst == dst
  }

  lemma HasEdgeSnoc(es: seq<EdgeInfo>, t: string, src: string, dst: string)
    requires es != []
    ensures HasEdge(es, t, src, dst) <==>
      var e := es[|es| - 1];
      HasEdge(es[..|es| - 1], t, src, dst) || (e.etype == t && e.src == src && e.dst == dst)
  {
    var front := es[..|es| - 1];
    if HasEdge(front, t, src, dst) {
      var i :| 0 <= i < |front| && front[i].etype == t && front[i].src == src && front[i].dst == dst;
      assert es[i] == front[i];
    }
    if HasEdge(es, t, src, dst) {
      var i :| 0 <= i < |es| && es[i].etype == t && es[i].src == src && es[i].dst == dst;
      if i < |front| { assert front[i] == es[i]; }
    }
  }

  /** With plain edges an id that was seen is an edge that was seen. */
  lemma SeenIsHad(root: string, es: seq<EdgeInfo>, e: EdgeInfo)
    requires AllPlain(root, es) && Touches(e, root)
    ensures HasId(es, root, IdOf(e)) <==> HasEdge(es, e.etype, e.src, e.dst)
  {
    if HasId(es, root, IdOf(e)) {
      var i :| 0 <= i < |es| && Touches(es[i], root) && IdOf(es[i]) == IdOf(e);
      assert es[i] in es;
      EdgeIdUnique(es[i].etype, es[i].src, es[i].dst, e.etype, e.src, e.dst);
    }
  }

  /** The two records hold exactly the payload's edges out of and into the root, a
    self-loop counting as outgoing. */
  lemma {:induction false} RecordsAreIncident(root: string, es: seq<EdgeInfo>, t: string, n: string)
    requires AllPlain(root, es)
    ensures InRecord(Classify(root, es).outs, t, n) <==> HasEdge(es, t, root, n)
    ensures InRecord(Classify(root, es).ins, t, n) <==> n != root && HasEdge(es, t, n, root)
  {
    if es != [] {
      var front, e := es[..|es| - 1], es[|es| - 1];
      RecordsAreIncident(root, front, t, n);
      HasEdgeSnoc(es, t, root, n);
      HasEdgeSnoc(es, t, n, root);
      ProvenanceIsFirstSeen(root, front);
      if Touches(e, root) {
        SeenIsHad(root, front, e);
        AddNeighborAdds(Classify(root, front).outs, e.etype, e.dst, t, n);
        AddNeighborAdds(Classify(root, front).ins, e.etype, e.src, t, n);
      }
    }
  }

  // ---- apply -----------------------------------------------------------------------------------

  function SetFlags(s: State, provenance: seq<(string, bool)>): State
  {
    if provenance == [] then s
    else
      var last := provenance[|provenance| - 1];
      SetDerived(SetFlags(s, provenance[..|provenance| - 1]), last.0, last.1)
  }

  function ApplyClassified(s: State, root: string, c: Classified): State
  {
    SetFlags(Merge(Merge(s, root, c.outs, Outward), root, c.ins, Inward), c.provenance)
  }

  function Expanded(s: State, root: string, es: seq<EdgeInfo>): State
  {
    ApplyClassified(s, root, Classify(root, es))
  }

  /** Expansion on the store object. */
  method AttachEdges(store: GraphStore, root: string, es: seq<EdgeInfo>)
    modifies store
    ensures store.View() == Expanded(old(store.View()), root, es)
  {
    var c := ClassifyFromEdges(root, es);
    store.MergeNeighborhoodWithEdges(root, c.outs, Outward);
    store.MergeNeighborhoodWithEdges(root, c.ins, Inward);
    ghost var merged := store.View();
    for i := 0 to |c.provenance|
      invariant store.View() == SetFlags(merged, c.provenance[..i])
    {
      assert c.provenance[..i + 1][..i] == c.provenance[..i];
      store.SetDerived(c.provenance[i].0, c.provenance[i].1);
    }
    assert c.provenance[..|c.provenance|] == c.provenance;
  }
}
