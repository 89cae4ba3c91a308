/** Two-hop questions: the nodes enough qualifying neighbours reach by all of some types. */
module Multihop {
  import opened Rules
  import opened Derivation

  type Filter = Node -> bool

  datatype Question =
    Question(nodes: World, edges: set<Edge>, dstLabel: string, want: set<string>, srcOk: Filter, dstOk: Filter)

  predicate Joined(edges: set<Edge>, t: string, a: string, b: string)
  {
    Edge(t, a, b) in edges || Edge(t, b, a) in edges
  }

  predicate IsTarget(q: Question, a: string) { a in q.nodes && q.nodes[a].nodeLabel == q.dstLabel }

  predicate IsSource(q: Question, b: string) { b in q.nodes && q.srcOk(q.nodes[b]) }

  /** The distinct qualifying neighbours joined to `a` by every wanted type, either way round. */
  ghost function Sources(q: Question, a: string): set<string>
  {
    set b | b in q.nodes && IsSource(q, b) && forall t <- q.want :: Joined(q.edges, t, a, b)
  }

  ghost predicate Reached(q: Question, min: int, a: string)
  {
    IsTarget(q, a) && q.dstOk(q.nodes[a]) && |Sources(q, a)| >= min
  }

  /** Some wanted edge joins `a` to a qualifying neighbour. */
  ghost predicate Touched(q: Question, a: string)
  {
    exists t <- q.want, b <- q.nodes :: IsSource(q, b) && Joined(q.edges, t, a, b)
  }

  type Table = map<string, map<string, set<string>>>

  function Types(table: Table, a: string, b: string): set<string>
  {
    if a in table && b in table[a] then table[a][b] else {}
  }

  /** `reached.setdefault(a, {}).setdefault(b, set()).add(t)` */
  function Record(table: Table, a: string, b: string, t: string): Table
  {
    table[a := (if a in table then table[a] else map[])[b := Types(table, a, b) + {t}]]
  }

  ghost predicate NoEmptyCells(table: Table)
  {
    && (forall a <- table :: table[a] != map[])
    && (forall a <- table, b <- table[a] :: table[a][b] != {})
  }

  /** The table after the edges in `done`. */
  ghost predicate TableFor(q: Question, done: set<Edge>, table: Table)
  {
    && NoEmptyCells(table)
    && forall a, b, t :: t in Types(table, a, b) <==> CellHas(q, done, a, b, t)
  }

  ghost predicate CellHas(q: Question, done: set<Edge>, a: string, b: string, t: string)
  {
    t in q.want && IsTarget(q, a) && IsSource(q, b) && Joined(done, t, a, b)
  }

  /** One direction of one edge. */
  function Note(q: Question, table: Table, t: string, a: string, b: string): Table
  {
    if a !in q.nodes || q.nodes[a].nodeLabel != q.dstLabel then table
    else if b !in q.nodes || !q.srcOk(q.nodes[b]) then table
    else Record(table, a, b, t)
  }

  lemma NoteAdds(q: Question, table: Table, t: string, a: string, b: string)
    requires NoEmptyCells(table)
    ensures NoEmptyCells(Note(q, table, t, a, b))
    ensures forall x, y, u :: u in Types(Note(q, table, t, a, b), x, y) <==>
              u in Types(table, x, y) || (IsTarget(q, a) && IsSource(q, b) && x == a && y == b && u == t)
  {
    var after := Note(q, table, t, a, b);
    if IsTarget(q, a) && IsSource(q, b) {
      assert b in after[a];
    }
  }

  lemma EdgeAdds(q: Question, done: set<Edge>, table: Table, e: Edge)
    requires TableFor(q, done, table)
    ensures e.etype in q.want ==>
              TableFor(q, done + {e}, Note(q, Note(q, table, e.etype, e.src, e.dst), e.etype, e.dst, e.src))
    ensures e.etype !in q.want ==> TableFor(q, done + {e}, table)
  {
    var once := Note(q, table, e.etype, e.src, e.dst);
    NoteAdds(q, table, e.etype, e.src, e.dst);
    NoteAdds(q, once, e.etype, e.dst, e.src);
    assert forall a, b, t :: Joined(done + {e}, t, a, b) <==>
      Joined(done, t, a, b) || (t == e.etype && ((a == e.src && b == e.dst) || (a == e.dst && b == e.src)));
  }

  method Collect(q: Question) returns (table: Table)
    ensures TableFor(q, q.edges, table)
  {
    table := map[];
    var todo := q.edges;
    while todo != {}
      invariant todo <= q.edges
      invariant TableFor(q, q.edges - todo, table)
    {
      var e :| e in todo;
      EdgeAdds(q, q.edges - todo, table, e);
      assert q.edges - (todo - {e}) == (q.edges - todo) + {e};
      todo := todo - {e};
      if e.etype in q.want {
        table := Note(q, table, e.etype, e.src, e.dst);
        table := Note(q, table, e.etype, e.dst, e.src);
      }
    }
    assert q.edges - {} == q.edges;
  }

  /** How many sources carry every wanted type. */
  method CountFull(sources: map<string, set<string>>, want: set<string>) returns (full: nat)
    ensures full == |set b | b in sources && want <= sources[b]|
  {
    full := 0;
    var todo := sources.Keys;
    ghost var counted := {};
    while todo != {}
      invariant todo <= sources.Keys
      invariant counted == set b | b in sources && b !in todo && want <= sources[b]
      invariant full == |counted|
    {
      var b :| b in todo;
      todo := todo - {b};
      if want <= sources[b] {
        full := full + 1;
        counted := counted + {b};
      }
    }
    assert counted == set b | b in sources && want <= sources[b];
  }

  /** A node that was touched is counted in full: its row holds exactly its sources. */
  lemma RowIsSources(q: Question, table: Table, a: string)
    requires TableFor(q, q.edges, table) && a in table
    ensures IsTarget(q, a) && Touched(q, a)
    ensures (set b | b in table[a] && q.want <= table[a][b]) == Sources(q, a)
  {
    var b :| b in table[a];
    var t :| t in table[a][b];
    assert t in Types(table, a, b);
    forall b ensures b in table[a] && q.want <= table[a][b] <==> b in Sources(q, a) {
      if b in table[a] && q.want <= table[a][b] {
        var u :| u in table[a][b];
        assert u in Types(table, a, b);
        assert forall t <- q.want :: t in Types(table, a, b);
      }
      if b in Sources(q, a) {
        assert t in q.want;
        assert forall t <- q.want :: CellHas(q, q.edges, a, b, t);
        assert forall t <- q.want :: t in Types(table, a, b);
      }
    }
  }

  lemma TouchedHasRow(q: Question, table: Table, a: string)
    requires TableFor(q, q.edges, table) && IsTarget(q, a) && Touched(q, a)
    ensures a in table
  {
    var t, b :| t in q.want && b in q.nodes && IsSource(q, b) && Joined(q.edges, t, a, b);
    assert CellHas(q, q.edges, a, b, t);
    assert t in Types(table, a, b);
  }

  /** The two-hop answer, on every input. */
  method Answer(q: Question, minSources: int) returns (out: set<string>)
    ensures forall a :: a in out <==> Reached(q, minSources, a) && Touched(q, a)
  {
    var table := Collect(q);
    out := {};
    var todo := table.Keys;
    while todo != {}
      invariant todo <= table.Keys
      invariant forall a :: a in out <==> a in table && a !in todo && Reached(q, minSources, a)
    {
      var a :| a in todo;
      RowIsSources(q, table, a);
      todo := todo - {a};
      if q.dstOk(q.nodes[a]) {
        var full := CountFull(table[a], q.want);
        if full >= minSources { out := out + {a}; }
      }
    }
    forall a ensures a in table <==> IsTarget(q, a) && Touched(q, a) {
      if a in table { RowIsSources(q, table, a); }
      if IsTarget(q, a) && Touched(q, a) { TouchedHasRow(q, table, a); }
    }
  }

  /** With at least one type and a bound of at least one, being touched adds nothing:
    the answer is exactly the nodes enough distinct sources reach. */
  lemma ReachedIsTouched(q: Question, min: int, a: string)
    requires q.want != {} && min >= 1 && Reached(q, min, a)
    ensures Touched(q, a)
  {
    var b :| b in Sources(q, a);
    var t :| t in q.want;
    assert Joined(q.edges, t, a, b);
  }

  ghost predicate ExactFor(want: set<string>, min: int)
  {
    forall q: Question, a | q.want == want && Reached(q, min, a) :: Touched(q, a)
  }

  /** Outside that range the loop misses nodes, for some question of every such kind. */
  lemma ExactIff(want: set<string>, min: int)
    ensures ExactFor(want, min) <==> want != {} && min >= 1
  {
    if want != {} && min >= 1 {
      forall q: Question, a | q.want == want && Reached(q, min, a) ensures Touched(q, a) {
        ReachedIsTouched(q, min, a);
      }
    } else if min < 1 {
      var q := Question(map["a" := Node("a", "L", map[])], {}, "L", want, _ => true, _ => true);
      assert Reached(q, min, "a") && !Touched(q, "a");
    } else {
      NoTypesMissesCrowds(min);
    }
  }

  lemma NoTypesMissesCrowds(min: int)
    requires min >= 1
    ensures !ExactFor({}, min)
  {
    var keys := Names(min);
    var nodes: World := map k | k in keys :: Node(k, "L", map[]);
    var k :| k in keys;
    var q := Question(nodes, {}, "L", {}, _ => true, _ => true);
    assert Sources(q, k) == keys;
    assert Reached(q, min, k) && !Touched(q, k);
  }

  /** `n` different keys: runs of x, one of each length below `n`. */
  ghost function Names(n: nat): (s: set<string>)
    ensures |s| == n
    ensures forall x :: x in s ==> |x| < n
  {
    if n == 0 then {} else Names(n - 1) + {seq(n - 1, _ => 'x')}
  }

  /** The near-misses of a task, asked with `bar` - 1 and less those asked with `bar`, are
    exactly the targets one source short. */
  lemma NearMissesAreOneShort(q: Question, bar: int, answer: set<string>, wider: set<string>)
    requires q.want != {} && bar >= 2
    requires forall a :: a in answer <==> Reached(q, bar, a) && Touched(q, a)
    requires forall a :: a in wider <==> Reached(q, bar - 1, a) && Touched(q, a)
    ensures forall a :: a in wider - answer <==> IsTarget(q, a) && q.dstOk(q.nodes[a]) && |Sources(q, a)| == bar - 1
  {
    forall a | Reached(q, bar - 1, a) ensures Touched(q, a) {
      ReachedIsTouched(q, bar - 1, a);
    }
  }
}
