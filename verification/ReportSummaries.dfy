/** The leaves of a report: counting them (internal/report/structure.go) and listing their
  * summaries for the report's own summary (internal/report/summary.go).
  */
module ReportSummaries {
  import opened ReportOutline

  function LeafRows(rows: seq<Row>): seq<Row> {
    if rows == [] then []
    else
      var r := rows[|rows| - 1];
      LeafRows(rows[..|rows| - 1]) + (if r.leaf then [r] else [])
  }

  lemma {:induction false} LeafAppend(a: seq<Row>, b: seq<Row>)
    ensures LeafRows(a + b) == LeafRows(a) + LeafRows(b)
  {
    if b == [] {
      assert a + b == a;
    } else {
      assert (a + b)[..|a + b| - 1] == a + b[..|b| - 1];
      LeafAppend(a, b[..|b| - 1]);
    }
  }

  lemma {:induction false} AllLeaves(rows: seq<Row>)
    requires forall r | r in rows :: r.leaf
    ensures LeafRows(rows) == rows
  {
    if rows == [] {
    } else {
      var init, last := rows[..|rows| - 1], rows[|rows| - 1];
      assert rows == init + [last] && last in rows;
      forall r | r in init ensures r.leaf { assert r in rows; }
      AllLeaves(init);
    }
  }

  lemma {:induction false} LeafIn(rows: seq<Row>, r: Row)
    ensures r in LeafRows(rows) <==> r in rows && r.leaf
  {
    if rows == [] {
    } else {
      var init, last := rows[..|rows| - 1], rows[|rows| - 1];
      LeafIn(init, r);
      assert r in rows <==> r in init || r == last;
    }
  }

  lemma BlockLeaves(s: Section, start: nat)
    ensures LeafRows(Block(s, start)) == if s.subsections == [] then [ParentRow(s, start)] else ChildRows(s, start + 1)
  {
    var parent := [ParentRow(s, start)];
    LeafAppend(parent, ChildRows(s, start + 1));
    AllLeaves(ChildRows(s, start + 1));
    assert LeafRows(parent) == if s.subsections == [] then parent else [] by { assert parent[..0] == []; }
  }

  lemma LeavesNext(ss: seq<Section>, i: nat)
    requires i < |ss|
    ensures |LeafRows(Flatten(ss[..i + 1]))| ==
      |LeafRows(Flatten(ss[..i]))| + if ss[i].subsections == [] then 1 else |ss[i].subsections|
  {
    hide LeafRows;
    var before := Flatten(ss[..i]);
    assert ss[..i + 1][..i] == ss[..i];
    LeafAppend(before, Block(ss[i], |before|));
    BlockLeaves(ss[i], |before|);
  }

  /** CountLeafSections: the number of leaf rows that Phase 1 creates. */
  method CountLeafSections(ss: seq<Section>) returns (count: nat)
    ensures count == |LeafRows(Flatten(ss))|
  {
    count := 0;
    for i := 0 to |ss|
      invariant count == |LeafRows(Flatten(ss[..i]))|
    {
      LeavesNext(ss, i);
      if |ss[i].subsections| > 0 {
        count := count + |ss[i].subsections|;
      } else {
        count := count + 1;
      }
    }
    assert ss[..|ss|] == ss;
  }

  // ---------- Listing summaries ----------

  /** Where a leaf stands in the structure; `number` is [1, 2] for "1.2". */
  datatype Heading = Heading(number: seq<nat>, id: string, title: string, parentTitle: string)

  datatype Item = Item(number: seq<nat>, title: string, parentTitle: string, summary: string)

  function SectionHeadings(s: Section, i: nat): seq<Heading> {
    if s.subsections == [] then [Heading([i + 1], s.id, s.title, "")]
    else
      seq(|s.subsections|, j requires 0 <= j < |s.subsections| =>
        Heading([i + 1, j + 1], s.subsections[j].id, s.subsections[j].title, s.title))
  }

  /** One heading a leaf, in the order of the structure. */
  function Headings(ss: seq<Section>): seq<Heading> {
    if ss == [] then [] else Headings(ss[..|ss| - 1]) + SectionHeadings(ss[|ss| - 1], |ss| - 1)
  }

  /** The last non-empty summary stored under an ID, or "". */
  function LastSummary(rows: seq<Row>, id: string): string {
    if rows == [] then ""
    else
      var r := rows[|rows| - 1];
      if r.id == id && r.summary != "" then r.summary else LastSummary(rows[..|rows| - 1], id)
  }

  function Entry(h: Heading, summary: string): seq<Item> {
    if summary == "" then [] else [Item(h.number, h.title, h.parentTitle, summary)]
  }

  /** What the loops build: a leaf is listed with the last summary stored under its ID. */
  function Listed(hs: seq<Heading>, rows: seq<Row>): seq<Item> {
    if hs == [] then []
    else
      var h := hs[|hs| - 1];
      Listed(hs[..|hs| - 1], rows) + Entry(h, LastSummary(rows, h.id))
  }

  /** What is wanted: each leaf listed with its own summary, in index order. */
  function Own(hs: seq<Heading>, leaves: seq<Row>): seq<Item>
    requires |hs| == |leaves|
  {
    if hs == [] then []
    else
      var n := |hs| - 1;
      Own(hs[..n], leaves[..n]) + Entry(hs[n], leaves[n].summary)
  }

  lemma {:induction false} ListedAppend(a: seq<Heading>, b: seq<Heading>, rows: seq<Row>)
    ensures Listed(a + b, rows) == Listed(a, rows) + Listed(b, rows)
  {
    if b == [] {
      assert a + b == a;
    } else {
      assert (a + b)[..|a + b| - 1] == a + b[..|b| - 1];
      ListedAppend(a, b[..|b| - 1], rows);
    }
  }

  predicate Summarizes(summaries: map<string, string>, rows: seq<Row>, id: string) {
    LastSummary(rows, id) == if id in summaries then summaries[id] else ""
  }

  method SummaryMap(rows: seq<Row>) returns (summaries: map<string, string>)
    ensures forall id :: Summarizes(summaries, rows, id)
    ensures forall id | id in summaries :: summaries[id] != ""
  {
    summaries := map[];
    for i := 0 to |rows|
      invariant forall id :: Summarizes(summaries, rows[..i], id)
      invariant forall id | id in summaries :: summaries[id] != ""
    {
      ghost var before, seen := summaries, rows[..i + 1];
      if rows[i].summary != "" {
        summaries := summaries[rows[i].id := rows[i].summary];
      }
      assert seen[..i] == rows[..i];
      forall id ensures Summarizes(summaries, seen, id) {
        assert Summarizes(before, rows[..i], id);
      }
    }
    assert rows[..|rows|] == rows;
  }

  lemma ListedNext(hs: seq<Heading>, j: nat, rows: seq<Row>)
    requires j < |hs|
    ensures Listed(hs[..j + 1], rows) == Listed(hs[..j], rows) + Entry(hs[j], LastSummary(rows, hs[j].id))
  {
    assert hs[..j + 1][..j] == hs[..j];
  }

  /** List one leaf, if a summary is stored under its ID. */
  method AppendItem(summaries: map<string, string>, ghost rows: seq<Row>, h: Heading, before: seq<Item>)
    returns (items: seq<Item>)
    requires forall id :: Summarizes(summaries, rows, id)
    requires forall id | id in summaries :: summaries[id] != ""
    ensures items == before + Entry(h, LastSummary(rows, h.id))
  {
    assert Summarizes(summaries, rows, h.id);
    items := before;
    if h.id in summaries {
      items := items + [Item(h.number, h.title, h.parentTitle, summaries[h.id])];
    }
  }

  /** One turn of the outer loop of collectSectionSummaries. */
  method AppendSection(summaries: map<string, string>, ghost rows: seq<Row>, sec: Section, i: nat, before: seq<Item>)
    returns (items: seq<Item>)
    requires forall id :: Summarizes(summaries, rows, id)
    requires forall id | id in summaries :: summaries[id] != ""
    ensures items == before + Listed(SectionHeadings(sec, i), rows)
  {
    hide Summarizes, Entry, LastSummary;
    items := before;
    ghost var hs := SectionHeadings(sec, i);
    if |sec.subsections| > 0 {
      for j := 0 to |sec.subsections|
        invariant items == before + Listed(hs[..j], rows)
      {
        var sub := sec.subsections[j];
        ListedNext(hs, j, rows);
        items := AppendItem(summaries, rows, Heading([i + 1, j + 1], sub.id, sub.title, sec.title), items);
      }
      assert hs[..|hs|] == hs;
    } else {
      ListedNext(hs, 0, rows);
      assert hs[..1] == hs;
      items := AppendItem(summaries, rows, Heading([i + 1], sec.id, sec.title, ""), items);
    }
  }

  lemma ListedNone(rows: seq<Row>)
    ensures Listed([], rows) == []
  {
  }

  /** collectSectionSummaries. */
  method CollectSectionSummaries(rows: seq<Row>, ss: seq<Section>) returns (items: seq<Item>)
    ensures items == Listed(Headings(ss), rows)
  {
    hide Listed, SectionHeadings, Summarizes;
    var summaries := SummaryMap(rows);
    assert Listed([], rows) == [] by { ListedNone(rows); }
    items := [];
    for i := 0 to |ss|
      invariant items == Listed(Headings(ss[..i]), rows)
    {
      assert ss[..i + 1][..i] == ss[..i];
      ListedAppend(Headings(ss[..i]), SectionHeadings(ss[i], i), rows);
      items := AppendSection(summaries, rows, ss[i], i, items);
    }
    assert ss[..|ss|] == ss;
  }

  /** Rows of `ss` after any amount of Phase 2: only leaves have gained summaries. */
  predicate Filled(ss: seq<Section>, rows: seq<Row>) {
    var flat := Flatten(ss);
    && |rows| == |flat|
    && (forall p | 0 <= p < |rows| ::
          rows[p].id == flat[p].id && rows[p].title == flat[p].title && rows[p].leaf == flat[p].leaf)
    && (forall p | 0 <= p < |rows| && !rows[p].leaf :: rows[p].summary == "")
  }

  lemma {:induction false} SameLeaves(a: seq<Row>, b: seq<Row>)
    requires |a| == |b|
    requires forall p | 0 <= p < |a| :: a[p].id == b[p].id && a[p].title == b[p].title && a[p].leaf == b[p].leaf
    ensures |LeafRows(a)| == |LeafRows(b)|
    ensures forall k | 0 <= k < |LeafRows(a)| ::
      LeafRows(a)[k].id == LeafRows(b)[k].id && LeafRows(a)[k].title == LeafRows(b)[k].title
  {
    if a == [] {
    } else {
      SameLeaves(a[..|a| - 1], b[..|b| - 1]);
    }
  }

  /** Headings and rows name the same sections. */
  predicate SameNames(hs: seq<Heading>, leaves: seq<Row>) {
    |hs| == |leaves| && forall k | 0 <= k < |hs| :: hs[k].id == leaves[k].id && hs[k].title == leaves[k].title
  }

  lemma SameNamesAppend(a: seq<Heading>, b: seq<Heading>, x: seq<Row>, y: seq<Row>)
    requires SameNames(a, x) && SameNames(b, y)
    ensures SameNames(a + b, x + y)
  {
  }

  lemma {:induction false} HeadingsAreLeaves(ss: seq<Section>)
    ensures SameNames(Headings(ss), LeafRows(Flatten(ss)))
  {
    if ss == [] {
    } else {
      var n := |ss| - 1;
      HeadingsAreLeaves(ss[..n]);
      var before := Flatten(ss[..n]);
      var block := Block(ss[n], |before|);
      LeafAppend(before, block);
      BlockNames(ss[n], n, |before|);
      SameNamesAppend(Headings(ss[..n]), SectionHeadings(ss[n], n), LeafRows(before), LeafRows(block));
    }
  }

  lemma BlockNames(s: Section, i: nat, start: nat)
    ensures SameNames(SectionHeadings(s, i), LeafRows(Block(s, start)))
  {
    hide LeafRows, Block;
    BlockLeaves(s, start);
  }

  /** The numbers lead back to the leaf: [i + 1] to a section without subsections, [i + 1, j + 1] to a subsection. */
  predicate Located(ss: seq<Section>, h: Heading) {
    && 1 <= |h.number| <= 2 && 1 <= h.number[0] <= |ss|
    && var s := ss[h.number[0] - 1];
       if |h.number| == 1 then s.subsections == [] && h.id == s.id && h.title == s.title && h.parentTitle == ""
       else
         && 1 <= h.number[1] <= |s.subsections| && h.parentTitle == s.title
         && h.id == s.subsections[h.number[1] - 1].id && h.title == s.subsections[h.number[1] - 1].title
  }

  lemma {:induction false} HeadingsLocated(ss: seq<Section>)
    ensures forall h | h in Headings(ss) :: Located(ss, h)
  {
    if ss == [] {
    } else {
      var n := |ss| - 1;
      hide Located, SectionHeadings;
      HeadingsLocated(ss[..n]);
      forall h | h in Headings(ss) ensures Located(ss, h) {
        if h in Headings(ss[..n]) {
          LocatedMore(ss, h);
        } else {
          LocatedLast(ss, h);
        }
      }
    }
  }

  lemma LocatedMore(ss: seq<Section>, h: Heading)
    requires ss != [] && Located(ss[..|ss| - 1], h)
    ensures Located(ss, h)
  {
  }

  lemma LocatedLast(ss: seq<Section>, h: Heading)
    requires ss != [] && h in SectionHeadings(ss[|ss| - 1], |ss| - 1)
    ensures Located(ss, h)
  {
  }

  lemma {:induction false} LastSummaryFacts(rows: seq<Row>, id: string)
    ensures LastSummary(rows, id) == "" ==> forall r | r in rows && r.id == id :: r.summary == ""
    ensures LastSummary(rows, id) != "" ==> exists r :: r in rows && r.id == id && r.summary == LastSummary(rows, id)
  {
    if rows == [] {
    } else {
      var init, last := rows[..|rows| - 1], rows[|rows| - 1];
      assert forall r :: r in rows <==> r in init || r == last;
      LastSummaryFacts(init, id);
    }
  }

  /** The row holds a summary under the ID and no later row does. */
  predicate LastStored(rows: seq<Row>, id: string, p: nat) {
    && p < |rows| && rows[p].id == id && rows[p].summary != ""
    && forall i | p < i < |rows| :: rows[i].id != id || rows[i].summary == ""
  }

  lemma {:induction false} LastSummaryIs(rows: seq<Row>, id: string)
    ensures LastSummary(rows, id) != "" ==>
      exists p: nat :: LastStored(rows, id, p) && rows[p].summary == LastSummary(rows, id)
  {
    if rows == [] {
    } else {
      var n := |rows| - 1;
      if rows[n].id == id && rows[n].summary != "" {
        assert LastStored(rows, id, n);
      } else {
        LastSummaryIs(rows[..n], id);
        if LastSummary(rows, id) != "" {
          var p: nat :| LastStored(rows[..n], id, p) && rows[..n][p].summary == LastSummary(rows[..n], id);
          forall i | p < i < |rows| ensures rows[i].id != id || rows[i].summary == "" {
            assert i < n ==> rows[..n][i] == rows[i];
          }
          assert LastStored(rows, id, p);
        }
      }
    }
  }

  /** An item names a leaf of the structure, by number, title and parent title, and has the last summary stored under
    * the leaf's ID. */
  ghost predicate ItemOf(ss: seq<Section>, rows: seq<Row>, item: Item) {
    exists h, p: nat ::
      && h in Headings(ss) && Located(ss, h)
      && item.number == h.number && item.title == h.title && item.parentTitle == h.parentTitle
      && LastStored(rows, h.id, p) && item.summary == rows[p].summary
  }

  lemma ItemsLocated(ss: seq<Section>, rows: seq<Row>)
    ensures forall item | item in Listed(Headings(ss), rows) :: ItemOf(ss, rows, item)
  {
    HeadingsLocated(ss);
    hide Located, Headings, LastSummary, Listed;
    forall item | item in Listed(Headings(ss), rows) ensures ItemOf(ss, rows, item) {
      var h := ItemHeading(Headings(ss), rows, item);
      LastSummaryIs(rows, h.id);
      var p: nat :| LastStored(rows, h.id, p) && rows[p].summary == LastSummary(rows, h.id);
    }
  }

  lemma {:induction false} ItemHeading(hs: seq<Heading>, rows: seq<Row>, item: Item) returns (h: Heading)
    requires item in Listed(hs, rows)
    ensures h in hs && item.number == h.number && item.title == h.title && item.parentTitle == h.parentTitle
    ensures item.summary == LastSummary(rows, h.id) && item.summary != ""
  {
    var n := |hs| - 1;
    h := hs[n];
    if item !in Entry(h, LastSummary(rows, h.id)) {
      h := ItemHeading(hs[..n], rows, item);
    }
  }

  /** Every leaf would be listed with its own summary. */
  predicate ListsOwn(leaves: seq<Row>, rows: seq<Row>) {
    forall k | 0 <= k < |leaves| :: LastSummary(rows, leaves[k].id) == leaves[k].summary
  }

  lemma ListsOwnStep(leaves: seq<Row>, last: Row, rows: seq<Row>)
    ensures ListsOwn(leaves + [last], rows) <==>
      ListsOwn(leaves, rows) && LastSummary(rows, last.id) == last.summary
  {
    var all := leaves + [last];
    if ListsOwn(all, rows) {
      forall k | 0 <= k < |leaves| ensures LastSummary(rows, leaves[k].id) == leaves[k].summary {
        assert all[k] == leaves[k];
      }
      assert all[|leaves|] == last;
    }
  }

  lemma {:induction false} ListedIffOwn(hs: seq<Heading>, leaves: seq<Row>, rows: seq<Row>)
    requires |hs| == |leaves| && forall k | 0 <= k < |hs| :: hs[k].id == leaves[k].id
    requires forall k | 0 <= k < |leaves| :: leaves[k].summary != "" ==> LastSummary(rows, leaves[k].id) != ""
    ensures |Listed(hs, rows)| >= |Own(hs, leaves)|
    ensures Listed(hs, rows) == Own(hs, leaves) <==> ListsOwn(leaves, rows)
  {
    if hs == [] {
    } else {
      hide LastSummary, ListsOwn;
      var n := |hs| - 1;
      ListedIffOwn(hs[..n], leaves[..n], rows);
      ListsOwnStep(leaves[..n], leaves[n], rows);
      assert leaves == leaves[..n] + [leaves[n]];
      EntryEqual(Listed(hs[..n], rows), Own(hs[..n], leaves[..n]), hs[n],
                 LastSummary(rows, hs[n].id), leaves[n].summary);
    }
  }

  lemma EntryEqual(a: seq<Item>, b: seq<Item>, h: Heading, x: string, y: string)
    requires |a| >= |b| && (y != "" ==> x != "")
    ensures a + Entry(h, x) == b + Entry(h, y) <==> a == b && x == y
  {
    if a + Entry(h, x) == b + Entry(h, y) {
      assert |a| == |b|;
      assert a == (a + Entry(h, x))[..|a|] == (b + Entry(h, y))[..|b|] == b;
      if x != "" {
        assert (a + Entry(h, x))[|a|] == (b + Entry(h, y))[|a|];
      }
    }
  }

  /** The list shows every leaf's own summary, in index order, exactly when leaves that share an ID share
    * their summary. */
  lemma CollectedIff(ss: seq<Section>, rows: seq<Row>)
    requires Filled(ss, rows)
    ensures SameNames(Headings(ss), LeafRows(rows))
    ensures Listed(Headings(ss), rows) == Own(Headings(ss), LeafRows(rows)) <==>
      forall r, t | r in rows && t in rows && r.leaf && t.leaf && r.id == t.id :: r.summary == t.summary
  {
    hide LeafRows, Headings, Listed, Own, LastSummary, ListsOwn;
    FilledNames(ss, rows);
    forall r ensures r in LeafRows(rows) <==> r in rows && r.leaf { LeafIn(rows, r); }
    FilledSummaries(rows);
    ListedIffOwn(Headings(ss), LeafRows(rows), rows);
    LastIffShared(rows, LeafRows(rows));
  }

  lemma FilledNames(ss: seq<Section>, rows: seq<Row>)
    requires Filled(ss, rows)
    ensures SameNames(Headings(ss), LeafRows(rows))
  {
    hide Flatten, LeafRows, Headings;
    HeadingsAreLeaves(ss);
    SameLeaves(rows, Flatten(ss));
  }

  lemma FilledSummaries(rows: seq<Row>)
    ensures forall k | 0 <= k < |LeafRows(rows)| && LeafRows(rows)[k].summary != "" ::
      LastSummary(rows, LeafRows(rows)[k].id) != ""
  {
    forall k | 0 <= k < |LeafRows(rows)| && LeafRows(rows)[k].summary != ""
      ensures LastSummary(rows, LeafRows(rows)[k].id) != ""
    {
      LeafIn(rows, LeafRows(rows)[k]);
      LastSummaryFacts(rows, LeafRows(rows)[k].id);
    }
  }

  lemma LastIffShared(rows: seq<Row>, leaves: seq<Row>)
    requires forall r :: r in leaves <==> r in rows && r.leaf
    requires forall r | r in rows && !r.leaf :: r.summary == ""
    ensures ListsOwn(leaves, rows) <==>
      forall r, t | r in rows && t in rows && r.leaf && t.leaf && r.id == t.id :: r.summary == t.summary
  {
    if ListsOwn(leaves, rows) {
      forall r, t | r in rows && t in rows && r.leaf && t.leaf && r.id == t.id ensures r.summary == t.summary {
        assert r in leaves && t in leaves;
      }
    }
    if forall r, t | r in rows && t in rows && r.leaf && t.leaf && r.id == t.id :: r.summary == t.summary {
      forall k | 0 <= k < |leaves| ensures LastSummary(rows, leaves[k].id) == leaves[k].summary {
        assert leaves[k] in rows;
        LastSummaryFacts(rows, leaves[k].id);
      }
    }
  }

  predicate DistinctLeafIds(ss: seq<Section>) {
    forall i, j | 0 <= i < j < |LeafRows(Flatten(ss))| :: LeafRows(Flatten(ss))[i].id != LeafRows(Flatten(ss))[j].id
  }

  lemma SameLeaf(ss: seq<Section>, rows: seq<Row>, r: Row, t: Row)
    requires Filled(ss, rows) && DistinctLeafIds(ss)
    requires r in rows && t in rows && r.leaf && t.leaf && r.id == t.id
    ensures r == t
  {
    hide Flatten, LeafRows;
    var leaves := LeafRows(rows);
    SameLeaves(rows, Flatten(ss));
    LeafIn(rows, r);
    LeafIn(rows, t);
    var i :| 0 <= i < |leaves| && leaves[i] == r;
    var j :| 0 <= j < |leaves| && leaves[j] == t;
    assert i == j;
  }

  /** With globally distinct leaf IDs the list is right for every filling of the rows. */
  lemma CollectedDistinct(ss: seq<Section>, rows: seq<Row>)
    requires Filled(ss, rows) && DistinctLeafIds(ss)
    ensures SameNames(Headings(ss), LeafRows(rows)) && Listed(Headings(ss), rows) == Own(Headings(ss), LeafRows(rows))
  {
    hide Filled, DistinctLeafIds, LeafRows, Headings, Listed;
    CollectedIff(ss, rows);
    forall r, t | r in rows && t in rows && r.leaf && t.leaf && r.id == t.id ensures r.summary == t.summary {
      SameLeaf(ss, rows, r, t);
    }
  }
}
