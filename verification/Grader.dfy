/** Grading an answer by substrings, and the build-time check that makes it exact. */
module Grader {
  import opened Ascii

  const FORBIDDEN := 5
  const SET_PENALTY := 0.25

  /** `v in text` for strings. */
  predicate Contains(text: string, v: string)
  {
    exists i :: 0 <= i <= |text| && At(text, v, i)
  }

  predicate At(text: string, v: string, i: int) { 0 <= i && i + |v| <= |text| && text[i..i + |v|] == v }

  predicate Mentions(answer: string, v: string) { Contains(Lower(answer), Lower(v)) }

  // ---- building a task --------------------------------------------------------------------

  datatype Task = Task(values: seq<string>, forbid: seq<string>)

  datatype Built = Accepted(task: Task) | BothTruthAndNearMiss | WrongCount | OneInsideAnother

  predicate Disjoint(a: seq<string>, b: seq<string>) { forall x <- a :: x !in b }

  /** No entry is inside a different one, ignoring case. */
  predicate NoneInsideAnother(entries: seq<string>)
  {
    forall a <- entries, b <- entries :: a != b ==> !Contains(Lower(b), Lower(a))
  }

  predicate Acceptable(values: seq<string>, forbid: seq<string>)
  {
    Disjoint(values, forbid) && |forbid| == FORBIDDEN && NoneInsideAnother(values + forbid)
  }

  method BuildTask(values: seq<string>, forbid: seq<string>) returns (r: Built)
    ensures r.Accepted? <==> Acceptable(values, forbid)
    ensures r.Accepted? ==> r.task == Task(values, forbid)
    ensures r.BothTruthAndNearMiss? <==> !Disjoint(values, forbid)
    ensures r.WrongCount? <==> Disjoint(values, forbid) && |forbid| != FORBIDDEN
  {
    var overlap := set x | x in values && x in forbid;
    if overlap != {} {
      var x :| x in overlap;
      assert x in values && x in forbid;
      return BothTruthAndNearMiss;
    }
    assert forall x <- values :: x in forbid ==> x in overlap;
    if |forbid| != FORBIDDEN { return WrongCount; }
    var all := values + forbid;
    for i := 0 to |all|
      invariant forall a <- all[..i], b <- all :: a != b ==> !Contains(Lower(b), Lower(a))
    {
      for j := 0 to |all|
        invariant forall b <- all[..j] :: all[i] != b ==> !Contains(Lower(b), Lower(all[i]))
      {
        assert all[..j + 1] == all[..j] + [all[j]];
        if all[i] != all[j] && Contains(Lower(all[j]), Lower(all[i])) {
          assert all[i] in all && all[j] in all;
          return OneInsideAnother;
        }
      }
      assert all[..|all|] == all && all[..i + 1] == all[..i] + [all[i]];
    }
    assert all[..|all|] == all;
    return Accepted(Task(values, forbid));
  }

  // ---- grading ----------------------------------------------------------------------------------

  /** How many of `vs` the answer mentions. */
  function CountMentioned(vs: seq<string>, answer: string): nat
  {
    if vs == [] then 0 else CountMentioned(vs[..|vs| - 1], answer) + if Mentions(answer, vs[|vs| - 1]) then 1 else 0
  }

  function SetScore(hits: nat, total: nat, bad: nat): real
  {
    var got := if total == 0 then 0.0 else hits as real / total as real - SET_PENALTY * bad as real;
    if got < 0.0 then 0.0 else got
  }

  method Grade(task: Task, answer: string) returns (score: real, wrongExtra: nat)
    ensures wrongExtra == CountMentioned(task.forbid, answer)
    ensures score == SetScore(CountMentioned(task.values, answer), |task.values|, wrongExtra)
  {
    var hits := 0;
    for i := 0 to |task.values|
      invariant hits == CountMentioned(task.values[..i], answer)
    {
      assert task.values[..i + 1][..i] == task.values[..i];
      if Contains(Lower(answer), Lower(task.values[i])) { hits := hits + 1; }
    }
    wrongExtra := 0;
    for i := 0 to |task.forbid|
      invariant wrongExtra == CountMentioned(task.forbid[..i], answer)
    {
      assert task.forbid[..i + 1][..i] == task.forbid[..i];
      if Contains(Lower(answer), Lower(task.forbid[i])) { wrongExtra := wrongExtra + 1; }
    }
    assert task.values[..|task.values|] == task.values && task.forbid[..|task.forbid|] == task.forbid;
    score := SetScore(hits, |task.values|, wrongExtra);
  }

  // ---- answers that list entries -----------------------------------------------------------------

  /** One entry per line. */
  function Listing(lines: seq<string>): string
  {
    if lines == [] then [] else if |lines| == 1 then lines[0] else lines[0] + "\n" + Listing(lines[1..])
  }

  predicate OneLine(s: string) { '\n' !in s }

  ghost predicate AllOneLine(entries: seq<string>) { forall e <- entries :: OneLine(e) }

  lemma LowerConcat(a: string, b: string)
    ensures Lower(a + b) == Lower(a) + Lower(b)
  {
  }

  lemma LowerShape(s: string)
    ensures |Lower(s)| == |s| && (OneLine(s) ==> OneLine(Lower(s)))
  {
    if '\n' in Lower(s) {
      var i :| 0 <= i < |s| && Lower(s)[i] == '\n';
      assert s[i] in s;
    }
  }

  function LowerAll(lines: seq<string>): seq<string> { seq(|lines|, i requires 0 <= i < |lines| => Lower(lines[i])) }

  lemma {:induction false} LowerListing(lines: seq<string>)
    ensures Lower(Listing(lines)) == Listing(LowerAll(lines))
  {
    if |lines| > 1 {
      LowerListing(lines[1..]);
      assert LowerAll(lines)[1..] == LowerAll(lines[1..]);
      LowerConcat(lines[0] + "\n", Listing(lines[1..]));
      LowerConcat(lines[0], "\n");
      assert Lower("\n") == "\n";
    }
  }

  lemma InsidePart(a: string, x: string, b: string, v: string)
    requires Contains(x, v)
    ensures Contains(a + x + b, v)
  {
    var i :| 0 <= i <= |x| && At(x, v, i);
    var s, j := a + x + b, |a| + i;
    assert s[j..j + |v|] == x[i..i + |v|];
    assert At(s, v, j);
  }

  lemma CharInside(s: string, v: string, i: int, p: int)
    requires At(s, v, i) && i <= p < i + |v|
    ensures s[p] in v
  {
    assert s[i..i + |v|][p - i] == s[p];
  }

  lemma InsideTail(p: string, y: string, v: string, i: int)
    requires At(p + y, v, i) && i >= |p|
    ensures At(y, v, i - |p|)
  {
    var s, j := p + y, i - |p|;
    assert y[j..j + |v|] == s[i..i + |v|];
  }

  lemma InsideEither(x: string, y: string, v: string)
    requires OneLine(v) && v != [] && Contains(x + "\n" + y, v)
    ensures Contains(x, v) || Contains(y, v)
  {
    var s := x + "\n" + y;
    var i :| 0 <= i <= |s| && At(s, v, i);
    assert s[|x|] == '\n';
    if i + |v| <= |x| {
      assert x[i..i + |v|] == s[i..i + |v|];
      assert At(x, v, i);
    } else if i > |x| {
      InsideTail(x + "\n", y, v, i);
    } else {
      CharInside(s, v, i, |x|);
      assert false;
    }
  }

  /** A one-line string inside "x, newline, y" is inside x or inside y. */
  lemma InsideOneSide(x: string, y: string, v: string)
    requires OneLine(v) && v != []
    ensures Contains(x + "\n" + y, v) <==> Contains(x, v) || Contains(y, v)
  {
    if Contains(x + "\n" + y, v) { InsideEither(x, y, v); }
    if Contains(x, v) {
      InsidePart([], x, "\n" + y, v);
      assert [] + x + ("\n" + y) == x + "\n" + y;
    }
    if Contains(y, v) {
      InsidePart(x + "\n", y, [], v);
      assert x + "\n" + y + [] == x + "\n" + y;
    }
  }

  lemma {:induction false} InsideSomeLine(lines: seq<string>, v: string)
    requires OneLine(v) && v != []
    ensures Contains(Listing(lines), v) <==> exists l <- lines :: Contains(l, v)
  {
    if |lines| == 1 {
      assert lines[0] in lines;
    } else if |lines| > 1 {
      InsideSomeLine(lines[1..], v);
      InsideOneSide(lines[0], Listing(lines[1..]), v);
      assert lines == [lines[0]] + lines[1..];
    }
  }

  lemma MentionedInSomeLine(lines: seq<string>, v: string)
    requires OneLine(v) && v != []
    ensures Mentions(Listing(lines), v) <==> exists l <- lines :: Contains(Lower(l), Lower(v))
  {
    LowerShape(v);
    LowerListing(lines);
    InsideSomeLine(LowerAll(lines), Lower(v));
    forall x ensures x in LowerAll(lines) <==> exists l <- lines :: x == Lower(l) {
      if x in LowerAll(lines) {
        var i :| 0 <= i < |lines| && LowerAll(lines)[i] == x;
        assert lines[i] in lines;
      }
      if l :| l in lines && x == Lower(l) {
        var i :| 0 <= i < |lines| && lines[i] == l;
        assert LowerAll(lines)[i] == x;
      }
    }
  }

  ghost predicate LinesFrom(lines: seq<string>, entries: seq<string>) { forall l <- lines :: l in entries }

  /** Every answer that lists entries is read as listing exactly those. */
  ghost predicate ReadsListings(entries: seq<string>)
  {
    forall lines | LinesFrom(lines, entries) :: ReadsOne(entries, lines)
  }

  ghost predicate ReadsOne(entries: seq<string>, lines: seq<string>)
  {
    forall v <- entries :: Mentions(Listing(lines), v) <==> v in lines
  }

  lemma ContainsSelf(s: string)
    ensures Contains(s, s)
  {
    assert At(s, s, 0);
  }

  lemma CheckedListing(entries: seq<string>, lines: seq<string>)
    requires AllOneLine(entries) && NoneInsideAnother(entries) && [] !in entries && LinesFrom(lines, entries)
    ensures ReadsOne(entries, lines)
  {
    forall v | v in entries ensures Mentions(Listing(lines), v) <==> v in lines {
      MentionedInSomeLine(lines, v);
      ContainsSelf(Lower(v));
      if l :| l in lines && Contains(Lower(l), Lower(v)) {
        assert l == v;
      }
    }
  }

  /** The substring check is exactly what grading needs: given entries without newlines,
    every listing is read right if and only if no entry is empty or inside another. */
  lemma ReadsListingsIff(entries: seq<string>)
    requires AllOneLine(entries)
    ensures ReadsListings(entries) <==> NoneInsideAnother(entries) && [] !in entries
  {
    if NoneInsideAnother(entries) && [] !in entries {
      forall lines | LinesFrom(lines, entries) ensures ReadsOne(entries, lines) {
        CheckedListing(entries, lines);
      }
    }
    if [] in entries {
      ContainsSelf([]);
      assert LinesFrom([], entries) && Mentions(Listing([]), []);
      assert !ReadsOne(entries, []);
    } else if a, b :| a in entries && b in entries && a != b && Contains(Lower(b), Lower(a)) {
      assert LinesFrom([b], entries) && Listing([b]) == b;
      assert !ReadsOne(entries, [b]);
    }
  }

  /** An accepted task with some truth in it has no empty entry. */
  lemma AcceptedHasNoEmptyEntry(values: seq<string>, forbid: seq<string>)
    requires values != [] && Acceptable(values, forbid)
    ensures [] !in values + forbid
  {
    var entries := values + forbid;
    var x, y := values[0], forbid[0];
    assert x in entries && y in entries && x in values && y in forbid;
    assert Lower([]) == [];
    assert At(Lower(x), [], 0) && At(Lower(y), [], 0);
  }

  /** How many of `vs` are among `lines`. */
  function CountListed(vs: seq<string>, lines: seq<string>): nat
  {
    if vs == [] then 0 else CountListed(vs[..|vs| - 1], lines) + if vs[|vs| - 1] in lines then 1 else 0
  }

  lemma {:induction false} CountsAgree(entries: seq<string>, vs: seq<string>, lines: seq<string>)
    requires ReadsOne(entries, lines) && forall v <- vs :: v in entries
    ensures CountMentioned(vs, Listing(lines)) == CountListed(vs, lines)
  {
    if vs != [] {
      CountsAgree(entries, vs[..|vs| - 1], lines);
      assert vs[|vs| - 1] in vs;
    }
  }

  function Listed(vs: seq<string>, lines: seq<string>): set<string> { set v | v in vs && v in lines }

  lemma ListedSnoc(front: seq<string>, last: string, lines: seq<string>)
    ensures Listed(front + [last], lines) == Listed(front, lines) + if last in lines then {last} else {}
  {
  }

  ghost predicate Distinct(vs: seq<string>) { forall i, j :: 0 <= i < j < |vs| ==> vs[i] != vs[j] }

  lemma DistinctFront(vs: seq<string>)
    requires Distinct(vs) && vs != []
    ensures Distinct(vs[..|vs| - 1]) && vs[|vs| - 1] !in vs[..|vs| - 1]
  {
  }

  lemma OneMoreListed(front: seq<string>, last: string, lines: seq<string>)
    requires last !in front
    ensures |Listed(front + [last], lines)| == |Listed(front, lines)| + if last in lines then 1 else 0
  {
    ListedSnoc(front, last, lines);
    assert last !in Listed(front, lines);
  }

  lemma CountedSnoc(front: seq<string>, last: string, lines: seq<string>)
    ensures CountListed(front + [last], lines) == CountListed(front, lines) + if last in lines then 1 else 0
  {
    assert (front + [last])[..|front|] == front;
  }

  /** Over distinct entries the count is the number of entries listed. */
  lemma {:induction false} CountIsSize(vs: seq<string>, lines: seq<string>)
    requires Distinct(vs)
    ensures CountListed(vs, lines) == |Listed(vs, lines)|
    decreases |vs|
  {
    if vs == [] {
      assert Listed(vs, lines) == {};
    } else {
      var front, last := vs[..|vs| - 1], vs[|vs| - 1];
      assert vs == front + [last];
      DistinctFront(vs);
      CountIsSize(front, lines);
      OneMoreListed(front, last, lines);
      CountedSnoc(front, last, lines);
    }
  }

  /** For every accepted task and every answer listing entries of it: what is counted
    is exactly what was listed. */
  lemma GradedOnWhatWasListed(values: seq<string>, forbid: seq<string>, lines: seq<string>)
    requires values != [] && Acceptable(values, forbid)
    requires AllOneLine(values + forbid) && LinesFrom(lines, values + forbid)
    ensures CountMentioned(values, Listing(lines)) == CountListed(values, lines)
    ensures CountMentioned(forbid, Listing(lines)) == CountListed(forbid, lines)
  {
    AcceptedHasNoEmptyEntry(values, forbid);
    CheckedListing(values + forbid, lines);
    CountsAgree(values + forbid, values, lines);
    CountsAgree(values + forbid, forbid, lines);
  }

  /** Grading a listing of an accepted task whose entries are distinct: the score and the
    number of wrong extras, on the sets of entries listed. */
  method GradeListing(values: seq<string>, forbid: seq<string>, lines: seq<string>)
    returns (score: real, wrongExtra: nat)
    requires values != [] && Acceptable(values, forbid) && Distinct(values) && Distinct(forbid)
    requires AllOneLine(values + forbid) && LinesFrom(lines, values + forbid)
    ensures wrongExtra == |Listed(forbid, lines)|
    ensures var raw := |Listed(values, lines)| as real / |values| as real - 0.25 * |Listed(forbid, lines)| as real;
      score == if raw < 0.0 then 0.0 else raw
  {
    score, wrongExtra := Grade(Task(values, forbid), Listing(lines));
    GradedOnWhatWasListed(values, forbid, lines);
    CountIsSize(values, lines);
    CountIsSize(forbid, lines);
  }

  lemma {:induction false} RepeatsShrink(vs: seq<string>)
    ensures |Listed(vs, vs)| <= |vs| && (|Listed(vs, vs)| == |vs| <==> Distinct(vs))
  {
    if vs != [] {
      var front, last := vs[..|vs| - 1], vs[|vs| - 1];
      RepeatsShrink(front);
      assert vs == front + [last];
      assert Listed(vs, vs) == Listed(front, front) + {last};
      if Distinct(vs) {
        DistinctFront(vs);
      } else if last !in front {
        assert !Distinct(front) by { FrontNotDistinct(vs); }
      }
    }
  }

  lemma FrontNotDistinct(vs: seq<string>)
    requires vs != [] && !Distinct(vs) && vs[|vs| - 1] !in vs[..|vs| - 1]
    ensures !Distinct(vs[..|vs| - 1])
  {
    var front := vs[..|vs| - 1];
    var i, j :| 0 <= i < j < |vs| && vs[i] == vs[j];
    assert front[i] == vs[i];
    assert j < |front|;
    assert front[i] == front[j];
  }

  /** Every listing of entries is counted entry by entry, each once. */
  ghost predicate CountsEntries(values: seq<string>, forbid: seq<string>)
  {
    forall lines | LinesFrom(lines, values + forbid) ::
      CountMentioned(values, Listing(lines)) == |Listed(values, lines)| &&
      CountMentioned(forbid, Listing(lines)) == |Listed(forbid, lines)|
  }

  lemma CountsAll(vs: seq<string>)
    ensures CountListed(vs, vs) == |vs|
  {
    CountExtremes(vs, vs);
  }

  /** Acceptance does not rule out repeated entries; distinctness is exactly what is needed
    for each entry to count once. */
  lemma CountsEntriesIff(values: seq<string>, forbid: seq<string>)
    requires values != [] && Acceptable(values, forbid) && AllOneLine(values + forbid)
    ensures CountsEntries(values, forbid) <==> Distinct(values) && Distinct(forbid)
  {
    if CountsEntries(values, forbid) {
      forall vs | vs == values || vs == forbid ensures Distinct(vs) {
        assert LinesFrom(vs, values + forbid);
        GradedOnWhatWasListed(values, forbid, vs);
        CountsAll(vs);
        RepeatsShrink(vs);
      }
    }
    if Distinct(values) && Distinct(forbid) {
      forall lines | LinesFrom(lines, values + forbid)
        ensures CountMentioned(values, Listing(lines)) == |Listed(values, lines)|
        ensures CountMentioned(forbid, Listing(lines)) == |Listed(forbid, lines)|
      {
        GradedOnWhatWasListed(values, forbid, lines);
        CountIsSize(values, lines);
        CountIsSize(forbid, lines);
      }
    }
  }

  /** An accepted task with one near-miss written five times: naming it once counts five. */
  lemma RepeatedNearMiss()
    ensures var values, forbid := ["a"], ["b", "b", "b", "b", "b"];
      Acceptable(values, forbid) && CountMentioned(forbid, Listing(["b"])) == 5 && Listed(forbid, ["b"]) == {"b"}
  {
    var values, forbid := ["a"], ["b", "b", "b", "b", "b"];
    assert Lower("a") == "a" && Lower("b") == "b";
    assert !Contains("a", "b") && !Contains("b", "a") by {
      assert forall i :: At("a", "b", i) || At("b", "a", i) ==> i == 0;
      assert "a"[0..1] == "a" && "b"[0..1] == "b";
    }
    assert forall v <- values + forbid :: v == "a" || v == "b";
    GradedOnWhatWasListed(values, forbid, ["b"]);
    CountExtremes(forbid, ["b"]);
  }

  lemma {:induction false} CountExtremes(vs: seq<string>, lines: seq<string>)
    ensures CountListed(vs, lines) <= |vs|
    ensures CountListed(vs, lines) == |vs| <==> forall v <- vs :: v in lines
    ensures CountListed(vs, lines) == 0 <==> forall v <- vs :: v !in lines
  {
    if vs != [] {
      CountExtremes(vs[..|vs| - 1], lines);
      assert vs == vs[..|vs| - 1] + [vs[|vs| - 1]];
    }
  }

  lemma FullScoreIff(hits: nat, total: nat, bad: nat)
    requires total > 0 && hits <= total
    ensures SetScore(hits, total, bad) == 1.0 <==> hits == total && bad == 0
  {
    assert hits as real / total as real <= 1.0;
    assert hits < total ==> hits as real / total as real < 1.0;
  }

  /** A listing gets full marks exactly when it has every true entry and no near-miss. */
  lemma FullMarksIff(values: seq<string>, forbid: seq<string>, lines: seq<string>)
    requires values != [] && Acceptable(values, forbid)
    requires AllOneLine(values + forbid) && LinesFrom(lines, values + forbid)
    ensures var hits, bad := CountMentioned(values, Listing(lines)), CountMentioned(forbid, Listing(lines));
      SetScore(hits, |values|, bad) == 1.0 <==>
      (forall v <- values :: v in lines) && (forall v <- forbid :: v !in lines)
  {
    GradedOnWhatWasListed(values, forbid, lines);
    CountExtremes(values, lines);
    CountExtremes(forbid, lines);
    FullScoreIff(CountListed(values, lines), |values|, CountListed(forbid, lines));
  }

  /** Four near-misses cancel any recall. */
  lemma FourNearMissesScoreNothing(hits: nat, total: nat, bad: nat)
    requires hits <= total && bad >= 4
    ensures SetScore(hits, total, bad) == 0.0
  {
    if total > 0 {
      assert hits as real / total as real <= 1.0;
    }
  }

  // ---- case ------------------------------------------------------------------------------------

  /** Neither the case of the answer nor that of an entry matters to whether it is found. */
  lemma MentionIgnoresCase(answer: string, other: string, v: string, w: string)
    requires SameButCase(answer, other) && SameButCase(v, w)
    ensures Mentions(answer, v) <==> Mentions(other, w)
  {
    LowerIff(answer, other);
    LowerIff(v, w);
  }

  /** So an answer is graded the same however it is capitalised. */
  lemma {:induction false} GradingIgnoresCase(vs: seq<string>, answer: string, other: string)
    requires SameButCase(answer, other)
    ensures CountMentioned(vs, answer) == CountMentioned(vs, other)
  {
    if vs != [] {
      GradingIgnoresCase(vs[..|vs| - 1], answer, other);
      MentionIgnoresCase(answer, other, vs[|vs| - 1], vs[|vs| - 1]);
    }
  }
}
