/** The outline of a report: Phase 1 flattens a two-level structure to indexed rows
  * (internal/report/structure.go) and the report page rebuilds the tree from the rows
  * (buildSectionTree in frontend/src/pages/ReportDetail.tsx).
  */
module ReportOutline {
  import opened Options

  datatype Section = Section(id: string, title: string, description: string, subsections: seq<Section>)

  datatype SectionStatus = Pending | Running | Completed | Failed

  datatype Row = Row(index: nat, id: string, parent: Option<string>, leaf: bool, title: string, description: string,
                     status: SectionStatus, content: string, summary: string, error: string)

  // ---------- Structure to rows ----------

  function ParentRow(s: Section, index: nat): Row {
    Row(index, s.id, None, s.subsections == [], s.title, s.description, Pending, "", "", "")
  }

  function ChildRow(s: Section, parent: string, index: nat): Row {
    Row(index, s.id, Some(parent), true, s.title, s.description, Pending, "", "", "")
  }

  function ChildRows(s: Section, start: nat): seq<Row> {
    seq(|s.subsections|, i requires 0 <= i < |s.subsections| => ChildRow(s.subsections[i], s.id, start + i))
  }

  /** A section's own row, then its subsections' rows. */
  function Block(s: Section, start: nat): seq<Row> {
    [ParentRow(s, start)] + ChildRows(s, start + 1)
  }

  function Flatten(ss: seq<Section>): seq<Row> {
    if ss == [] then []
    else
      var before := Flatten(ss[..|ss| - 1]);
      before + Block(ss[|ss| - 1], |before|)
  }

  /** StructureToModel. */
  method StructureToModel(ss: seq<Section>) returns (rows: seq<Row>)
    ensures rows == Flatten(ss)
  {
    rows := [];
    var globalIndex := 0;
    for i := 0 to |ss|
      invariant rows == Flatten(ss[..i]) && globalIndex == |rows|
    {
      var s := ss[i];
      ghost var before := rows;
      rows := rows + [ParentRow(s, globalIndex)];
      globalIndex := globalIndex + 1;
      if |s.subsections| > 0 {
        for j := 0 to |s.subsections|
          invariant globalIndex == |rows|
          invariant rows == before + [ParentRow(s, |before|)] + ChildRows(s, |before| + 1)[..j]
        {
          rows := rows + [ChildRow(s.subsections[j], s.id, globalIndex)];
          globalIndex := globalIndex + 1;
        }
      }
      assert ss[..i + 1][..i] == ss[..i];
      assert rows == before + Block(s, |before|);
    }
    assert ss[..|ss|] == ss;
  }

  /** The index of a row is its position, so indexes are exactly 0 to n - 1. */
  lemma {:induction false} IndexIsPosition(ss: seq<Section>, p: nat)
    requires p < |Flatten(ss)|
    ensures Flatten(ss)[p].index == p
  {
    var before := Flatten(ss[..|ss| - 1]);
    if p < |before| {
      IndexIsPosition(ss[..|ss| - 1], p);
    }
  }

  /** Only what generation fills in may differ. */
  predicate SameSection(x: Row, y: Row) {
    y == x.(status := y.status, content := y.content, summary := y.summary, error := y.error)
  }

  /** The rows of a structure, as created or with any amount of generation done. */
  predicate RowsOf(ss: seq<Section>, rows: seq<Row>) {
    |rows| == |Flatten(ss)| && forall p | 0 <= p < |rows| :: SameSection(Flatten(ss)[p], rows[p])
  }

  // ---------- Rows to tree ----------

  datatype Node = Node(row: Row, children: seq<Node>)

  /** An empty parent ID is falsy: such a row counts as top-level. */
  predicate IsChild(r: Row) {
    r.parent.Some? && r.parent.value != ""
  }

  function Roots(rows: seq<Row>): seq<Row> {
    if rows == [] then []
    else
      var r := rows[|rows| - 1];
      Roots(rows[..|rows| - 1]) + (if IsChild(r) then [] else [r])
  }

  function ChildrenOf(rows: seq<Row>, id: string): seq<Row> {
    if rows == [] then []
    else
      var r := rows[|rows| - 1];
      ChildrenOf(rows[..|rows| - 1], id) + (if IsChild(r) && r.parent.value == id then [r] else [])
  }

  function Leaves(rows: seq<Row>): seq<Node> {
    seq(|rows|, i requires 0 <= i < |rows| => Node(rows[i], []))
  }

  function Insert(rows: seq<Row>, r: Row): seq<Row> {
    if rows == [] || rows[|rows| - 1].index <= r.index then rows + [r]
    else Insert(rows[..|rows| - 1], r) + [rows[|rows| - 1]]
  }

  /** Stable sort by index. */
  function Sort(rows: seq<Row>): seq<Row> {
    if rows == [] then [] else Insert(Sort(rows[..|rows| - 1]), rows[|rows| - 1])
  }

  /** The tree of rows in index order. */
  function TreeOf(sorted: seq<Row>): seq<Node> {
    var roots := Roots(sorted);
    seq(|roots|, i requires 0 <= i < |roots| => Node(roots[i], Leaves(ChildrenOf(sorted, roots[i].id))))
  }

  function Tree(rows: seq<Row>): seq<Node> {
    TreeOf(Sort(rows))
  }

  function ChildrenIn(childMap: map<string, seq<Node>>, id: string): seq<Node> {
    if id in childMap then childMap[id] else []
  }

  /** `childMap` groups the child rows of `rows` by parent ID. */
  ghost predicate Groups(childMap: map<string, seq<Node>>, rows: seq<Row>) {
    forall id :: ChildrenIn(childMap, id) == Leaves(ChildrenOf(rows, id))
  }

  lemma GroupStep(childMap: map<string, seq<Node>>, rows: seq<Row>, r: Row)
    requires Groups(childMap, rows)
    ensures !IsChild(r) ==> Groups(childMap, rows + [r])
    ensures IsChild(r) ==>
      Groups(childMap[r.parent.value := ChildrenIn(childMap, r.parent.value) + [Node(r, [])]], rows + [r])
  {
    assert (rows + [r])[..|rows + [r]| - 1] == rows;
    if IsChild(r) {
      var childMap' := childMap[r.parent.value := ChildrenIn(childMap, r.parent.value) + [Node(r, [])]];
      forall id ensures ChildrenIn(childMap', id) == Leaves(ChildrenOf(rows + [r], id)) {
        assert ChildrenIn(childMap, id) == Leaves(ChildrenOf(rows, id));
        LeavesAppend(ChildrenOf(rows, id), r);
      }
    } else {
      forall id ensures ChildrenIn(childMap, id) == Leaves(ChildrenOf(rows + [r], id)) {
        assert ChildrenIn(childMap, id) == Leaves(ChildrenOf(rows, id));
      }
    }
  }

  lemma LeavesAppend(rows: seq<Row>, r: Row)
    ensures Leaves(rows + [r]) == Leaves(rows) + [Node(r, [])]
  {
  }

  /** The first loop of buildSectionTree: top-level rows apart, child rows by parent ID. */
  method Partition(sorted: seq<Row>) returns (parents: seq<Row>, childMap: map<string, seq<Node>>)
    ensures parents == Roots(sorted) && Groups(childMap, sorted)
  {
    parents, childMap := [], map[];
    for i := 0 to |sorted|
      invariant parents == Roots(sorted[..i]) && Groups(childMap, sorted[..i])
    {
      var s := sorted[i];
      assert sorted[..i + 1] == sorted[..i] + [s] && sorted[..i + 1][..i] == sorted[..i];
      GroupStep(childMap, sorted[..i], s);
      if IsChild(s) {
        childMap := childMap[s.parent.value := ChildrenIn(childMap, s.parent.value) + [Node(s, [])]];
      } else {
        parents := parents + [s];
      }
    }
    assert sorted[..|sorted|] == sorted;
  }

  /** buildSectionTree. */
  method BuildSectionTree(rows: seq<Row>) returns (tree: seq<Node>)
    ensures tree == Tree(rows)
  {
    var sorted := Sort(rows);
    var parents, childMap := Partition(sorted);
    tree := [];
    for i := 0 to |parents|
      invariant |tree| == i && forall j | 0 <= j < i :: tree[j] == Tree(rows)[j]
    {
      assert ChildrenIn(childMap, parents[i].id) == Leaves(ChildrenOf(sorted, parents[i].id));
      tree := tree + [Node(parents[i], ChildrenIn(childMap, parents[i].id))];
    }
  }
}
