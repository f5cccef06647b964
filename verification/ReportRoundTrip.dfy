/** When the page rebuilds exactly the structure that Phase 1 flattened. */
module ReportRoundTrip {
  import opened ReportOutline
  import opened Options

  // ---------- Sorting undoes any permutation of the rows ----------

  predicate Sorted(rows: seq<Row>) {
    forall i, j | 0 <= i < j < |rows| :: rows[i].index <= rows[j].index
  }

  predicate StrictlySorted(rows: seq<Row>) {
    forall i, j | 0 <= i < j < |rows| :: rows[i].index < rows[j].index
  }

  lemma {:induction false} InsertBag(rows: seq<Row>, r: Row)
    ensures multiset(Insert(rows, r)) == multiset(rows) + multiset{r}
  {
    if rows != [] && rows[|rows| - 1].index > r.index {
      var init, last := rows[..|rows| - 1], rows[|rows| - 1];
      InsertBag(init, r);
      assert rows == init + [last];
      assert multiset(rows) == multiset(init) + multiset{last};
    }
  }

  lemma LastBag(rows: seq<Row>)
    requires rows != []
    ensures multiset(rows) == multiset(rows[..|rows| - 1]) + multiset{rows[|rows| - 1]}
  {
    assert rows == rows[..|rows| - 1] + [rows[|rows| - 1]];
  }

  lemma InsertIn(rows: seq<Row>, r: Row, x: Row)
    requires x in Insert(rows, r)
    ensures x in rows || x == r
  {
  }

  lemma {:induction false} InsertFacts(rows: seq<Row>, r: Row)
    requires Sorted(rows)
    ensures Sorted(Insert(rows, r))
  {
    if rows != [] && rows[|rows| - 1].index > r.index {
      var init, last := rows[..|rows| - 1], rows[|rows| - 1];
      InsertFacts(init, r);
      forall x | x in Insert(init, r) ensures x.index <= last.index { InsertIn(init, r, x); }
      SortedAppend(Insert(init, r), last);
    }
  }

  lemma SortedAppend(rows: seq<Row>, r: Row)
    requires Sorted(rows) && forall x | x in rows :: x.index <= r.index
    ensures Sorted(rows + [r])
  {
  }

  lemma {:induction false} SortFacts(rows: seq<Row>)
    ensures Sorted(Sort(rows)) && multiset(Sort(rows)) == multiset(rows)
  {
    if rows == [] {
    } else {
      hide Insert, Sorted;
      var init, last := rows[..|rows| - 1], rows[|rows| - 1];
      SortFacts(init);
      InsertFacts(Sort(init), last);
      InsertBag(Sort(init), last);
      LastBag(rows);
    }
  }

  /** Two orders of the same rows end with the same row. */
  lemma SortedLast(a: seq<Row>, b: seq<Row>)
    requires Sorted(a) && StrictlySorted(b) && multiset(a) == multiset(b) && a != [] && b != []
    ensures a[|a| - 1] == b[|b| - 1]
  {
    var x, y := a[|a| - 1], b[|b| - 1];
    assert x in multiset(b) && y in multiset(a);
    var i :| 0 <= i < |b| && b[i] == x;
    var j :| 0 <= j < |a| && a[j] == y;
    assert y.index <= x.index;
  }

  lemma {:induction false} SortedUnique(a: seq<Row>, b: seq<Row>)
    requires Sorted(a) && StrictlySorted(b) && multiset(a) == multiset(b)
    ensures a == b
  {
    SameSize(a, b);
    if b == [] {
    } else {
      SortedLast(a, b);
      var n := |b| - 1;
      LastBag(a);
      LastBag(b);
      LessLast(multiset(a[..n]), multiset(b[..n]), multiset{a[n]});
      SortedUnique(a[..n], b[..n]);
      assert a == a[..n] + [a[n]] && b == b[..n] + [b[n]];
    }
  }

  lemma SameSize(a: seq<Row>, b: seq<Row>)
    requires multiset(a) == multiset(b)
    ensures |a| == |b|
  {
    assert |a| == |multiset(a)| == |multiset(b)| == |b|;
  }

  lemma LessLast(a: multiset<Row>, b: multiset<Row>, x: multiset<Row>)
    requires a + x == b + x
    ensures a == b
  {
    assert a == a + x - x;
  }

  /** Sorting undoes any permutation of the rows of a structure. */
  lemma SortRows(ss: seq<Section>, filled: seq<Row>, rows: seq<Row>)
    requires RowsOf(ss, filled) && multiset(rows) == multiset(filled)
    ensures Sort(rows) == filled
  {
    forall p | 0 <= p < |filled| ensures filled[p].index == p {
      IndexIsPosition(ss, p);
      assert SameSection(Flatten(ss)[p], filled[p]);
    }
    SortFacts(rows);
    SortedUnique(Sort(rows), filled);
  }

  // ---------- Top-level rows and groups of a flattened structure ----------

  lemma {:induction false} RootsAppend(a: seq<Row>, b: seq<Row>)
    ensures Roots(a + b) == Roots(a) + Roots(b)
  {
    if b == [] {
      assert a + b == a;
    } else {
      assert (a + b)[..|a + b| - 1] == a + b[..|b| - 1];
      RootsAppend(a, b[..|b| - 1]);
    }
  }

  lemma {:induction false} ChildrenAppend(a: seq<Row>, b: seq<Row>, id: string)
    ensures ChildrenOf(a + b, id) == ChildrenOf(a, id) + ChildrenOf(b, id)
  {
    if b == [] {
      assert a + b == a;
    } else {
      assert (a + b)[..|a + b| - 1] == a + b[..|b| - 1];
      ChildrenAppend(a, b[..|b| - 1], id);
    }
  }

  lemma {:induction false} NoRoots(rows: seq<Row>)
    requires forall i | 0 <= i < |rows| :: IsChild(rows[i])
    ensures Roots(rows) == []
  {
    if rows == [] {
    } else {
      NoRoots(rows[..|rows| - 1]);
    }
  }

  lemma {:induction false} AllRoots(rows: seq<Row>)
    requires forall i | 0 <= i < |rows| :: !IsChild(rows[i])
    ensures Roots(rows) == rows
  {
    if rows == [] {
    } else {
      AllRoots(rows[..|rows| - 1]);
    }
  }

  predicate ChildOf(r: Row, id: string) {
    IsChild(r) && r.parent.value == id
  }

  lemma {:induction false} NoChildren(rows: seq<Row>, id: string)
    requires forall i | 0 <= i < |rows| :: !ChildOf(rows[i], id)
    ensures ChildrenOf(rows, id) == []
  {
    if rows == [] {
    } else {
      NoChildren(rows[..|rows| - 1], id);
    }
  }

  lemma {:induction false} AllChildren(rows: seq<Row>, id: string)
    requires forall i | 0 <= i < |rows| :: ChildOf(rows[i], id)
    ensures ChildrenOf(rows, id) == rows
  {
    if rows == [] {
    } else {
      AllChildren(rows[..|rows| - 1], id);
    }
  }

  lemma BlockRoots(s: Section, start: nat)
    ensures Roots(Block(s, start)) == [ParentRow(s, start)] + (if s.id == "" then ChildRows(s, start + 1) else [])
  {
    hide Roots;
    var parent, children := [ParentRow(s, start)], ChildRows(s, start + 1);
    RootsAppend(parent, children);
    AllRoots(parent);
    if s.id == "" { AllRoots(children); } else { NoRoots(children); }
  }

  lemma {:induction false} BlockChildren(s: Section, start: nat, id: string)
    ensures ChildrenOf(Block(s, start), id) == if s.id == id && id != "" then ChildRows(s, start + 1) else []
  {
    ParentChildren(s, start, id);
    ChildRowsChildren(s, start + 1, id);
    ChildrenAfter([ParentRow(s, start)], ChildRows(s, start + 1), id);
  }

  lemma {:induction false} ChildrenAfter(a: seq<Row>, b: seq<Row>, id: string)
    requires ChildrenOf(a, id) == []
    ensures ChildrenOf(a + b, id) == ChildrenOf(b, id)
  {
    ChildrenAppend(a, b, id);
  }

  lemma {:induction false} ParentChildren(s: Section, start: nat, id: string)
    ensures ChildrenOf([ParentRow(s, start)], id) == []
  {
  }

  lemma {:induction false} ChildRowsChildren(s: Section, start: nat, id: string)
    ensures ChildrenOf(ChildRows(s, start), id) == if s.id == id && id != "" then ChildRows(s, start) else []
  {
    if s.id == id && id != "" { AllChildren(ChildRows(s, start), id); } else { NoChildren(ChildRows(s, start), id); }
  }

  /** The top-level rows, one a section. */
  function ParentRows(ss: seq<Section>): seq<Row> {
    if ss == [] then []
    else ParentRows(ss[..|ss| - 1]) + [ParentRow(ss[|ss| - 1], |Flatten(ss[..|ss| - 1])|)]
  }

  predicate Nameless(s: Section) {
    s.id == "" && s.subsections != []
  }

  predicate NoneNameless(ss: seq<Section>) {
    forall i | 0 <= i < |ss| :: !Nameless(ss[i])
  }

  lemma NamelessStep(ss: seq<Section>, s: Section)
    ensures NoneNameless(ss + [s]) <==> NoneNameless(ss) && !Nameless(s)
  {
    var all := ss + [s];
    if NoneNameless(all) {
      forall i | 0 <= i < |ss| ensures !Nameless(ss[i]) { assert !Nameless(all[i]); }
      assert !Nameless(all[|ss|]);
    }
  }

  /** A section without an ID spills its subsections to the top level. */
  lemma {:induction false} RootsFlatten(ss: seq<Section>)
    ensures |Roots(Flatten(ss))| >= |ss|
    ensures |Roots(Flatten(ss))| == |ss| <==> NoneNameless(ss)
    ensures |Roots(Flatten(ss))| == |ss| ==> Roots(Flatten(ss)) == ParentRows(ss)
  {
    if ss == [] {
    } else {
      var init, last := ss[..|ss| - 1], ss[|ss| - 1];
      RootsFlatten(init);
      RootsStep(Flatten(init), last);
      NamelessStep(init, last);
      assert ss == init + [last];
    }
  }

  lemma {:induction false} RootsStep(before: seq<Row>, s: Section)
    ensures var roots := Roots(before + Block(s, |before|));
      if Nameless(s) then |roots| > |Roots(before)| + 1 else roots == Roots(before) + [ParentRow(s, |before|)]
  {
    RootsAppend(before, Block(s, |before|));
    BlockRoots(s, |before|);
    assert s.subsections == [] ==> ChildRows(s, |before| + 1) == [];
  }

  lemma {:induction false} ParentRowsAt(ss: seq<Section>, i: nat)
    requires i < |ss|
    ensures |ParentRows(ss)| == |ss|
    ensures ParentRows(ss)[i] == ParentRow(ss[i], ParentRows(ss)[i].index)
  {
    var n := |ss| - 1;
    if i < n {
      ParentRowsAt(ss[..n], i);
    } else if n > 0 {
      ParentRowsAt(ss[..n], 0);
    }
  }

  /** The subsections of every section with this ID, together. */
  function Family(ss: seq<Section>, id: string): seq<Section> {
    if ss == [] then []
    else Family(ss[..|ss| - 1], id) + (if ss[|ss| - 1].id == id then ss[|ss| - 1].subsections else [])
  }

  // ---------- Outlines ----------

  /** What a row says of its section. */
  function Shallow(r: Row): Section {
    Section(r.id, r.title, r.description, [])
  }

  function Shallows(rows: seq<Row>): seq<Section> {
    seq(|rows|, i requires 0 <= i < |rows| => Shallow(rows[i]))
  }

  function Cut(ss: seq<Section>): seq<Section> {
    seq(|ss|, i requires 0 <= i < |ss| => Section(ss[i].id, ss[i].title, ss[i].description, []))
  }

  /** The structure a tree shows. */
  function Outline(n: Node): Section {
    Section(n.row.id, n.row.title, n.row.description,
            seq(|n.children|, i requires 0 <= i < |n.children| => Outline(n.children[i])))
  }

  function Outlines(ns: seq<Node>): seq<Section> {
    seq(|ns|, i requires 0 <= i < |ns| => Outline(ns[i]))
  }

  lemma OutlineLeaves(r: Row, rows: seq<Row>)
    ensures Outline(Node(r, Leaves(rows))) == Section(r.id, r.title, r.description, Shallows(rows))
  {
    var n := Node(r, Leaves(rows));
    forall i | 0 <= i < |rows| ensures Outline(n.children[i]) == Shallow(rows[i]) {
      assert n.children[i] == Node(rows[i], []);
    }
    assert Outline(n).subsections == Shallows(rows);
  }

  lemma ShallowsAppend(a: seq<Row>, b: seq<Row>, x: seq<Section>, y: seq<Section>)
    requires Shallows(a) == Cut(x) && Shallows(b) == Cut(y)
    ensures Shallows(a + b) == Cut(x + y)
  {
    assert Shallows(a + b) == Shallows(a) + Shallows(b);
    assert Cut(x + y) == Cut(x) + Cut(y);
  }

  lemma ChildRowsShallow(s: Section, start: nat)
    ensures Shallows(ChildRows(s, start)) == Cut(s.subsections)
  {
  }

  lemma {:induction false} ChildrenFlatten(ss: seq<Section>, id: string)
    ensures Shallows(ChildrenOf(Flatten(ss), id)) == if id == "" then [] else Cut(Family(ss, id))
  {
    if ss == [] {
    } else {
      var n := |ss| - 1;
      var before := Flatten(ss[..n]);
      ChildrenFlatten(ss[..n], id);
      ChildrenStep(before, Family(ss[..n], id), ss[n], id);
    }
  }

  lemma {:induction false} ChildrenStep(before: seq<Row>, family: seq<Section>, s: Section, id: string)
    requires Shallows(ChildrenOf(before, id)) == if id == "" then [] else Cut(family)
    ensures Shallows(ChildrenOf(before + Block(s, |before|), id)) ==
      if id == "" then [] else Cut(family + (if s.id == id then s.subsections else []))
  {
    hide ChildrenOf, Block, ChildRows, Shallows, Cut;
    ChildrenAppend(before, Block(s, |before|), id);
    BlockChildren(s, |before|, id);
    ChildRowsShallow(s, |before| + 1);
    if s.id == id && id != "" {
      ShallowsAppend(ChildrenOf(before, id), ChildRows(s, |before| + 1), family, s.subsections);
    } else {
      assert ChildrenOf(before, id) + [] == ChildrenOf(before, id) && family + [] == family;
    }
  }

  lemma {:induction false} FamilySize(ss: seq<Section>, i: nat, j: nat)
    requires i <= j < |ss| && ss[i].id == ss[j].id
    ensures i < j ==> |Family(ss, ss[i].id)| >= |ss[i].subsections| + |ss[j].subsections|
    ensures i == j ==> |Family(ss, ss[i].id)| >= |ss[i].subsections|
  {
    var n := |ss| - 1;
    if j < n {
      FamilySize(ss[..n], i, j);
    } else if i < n {
      FamilySize(ss[..n], i, i);
    }
  }

  lemma {:induction false} FamilyAlone(ss: seq<Section>, i: nat)
    requires i < |ss| && forall j | 0 <= j < |ss| && j != i && ss[j].id == ss[i].id :: ss[j].subsections == []
    ensures Family(ss, ss[i].id) == ss[i].subsections
  {
    var n := |ss| - 1;
    if i < n {
      FamilyAlone(ss[..n], i);
    } else {
      FamilyEmpty(ss[..n], ss[i].id);
    }
  }

  lemma {:induction false} FamilyEmpty(ss: seq<Section>, id: string)
    requires forall j | 0 <= j < |ss| && ss[j].id == id :: ss[j].subsections == []
    ensures Family(ss, id) == []
  {
    if ss == [] {
    } else {
      FamilyEmpty(ss[..|ss| - 1], id);
    }
  }

  // ---------- The round trip ----------

  /** Two levels, and a section with subsections has a non-empty ID that no other section has. */
  predicate Rebuildable(ss: seq<Section>) {
    forall i | 0 <= i < |ss| :: RebuildableAt(ss, i)
  }

  predicate RebuildableAt(ss: seq<Section>, i: nat)
    requires i < |ss|
  {
    && (forall k | 0 <= k < |ss[i].subsections| :: ss[i].subsections[k].subsections == [])
    && (ss[i].subsections != [] ==> ss[i].id != "" && forall j | 0 <= j < |ss| && j != i :: ss[j].id != ss[i].id)
  }

  lemma RebuildableNamed(ss: seq<Section>)
    requires Rebuildable(ss)
    ensures NoneNameless(ss)
  {
    forall k | 0 <= k < |ss| ensures !Nameless(ss[k]) { assert RebuildableAt(ss, k); }
  }

  /** What the page shows for the rows of `ss` as created. */
  lemma {:induction false} Shown(ss: seq<Section>, i: nat)
    requires NoneNameless(ss) && i < |ss|
    ensures var tree := TreeOf(Flatten(ss));
      && |tree| == |ss| == |ParentRows(ss)| && tree[i].row == ParentRows(ss)[i]
      && tree[i].children == Leaves(ChildrenOf(Flatten(ss), ss[i].id))
      && Outline(tree[i]) ==
         Section(ss[i].id, ss[i].title, ss[i].description, if ss[i].id == "" then [] else Cut(Family(ss, ss[i].id)))
  {
    hide Flatten, ChildrenOf, Family;
    RootsFlatten(ss);
    ParentRowsAt(ss, i);
    ChildrenFlatten(ss, ss[i].id);
    OutlineLeaves(ParentRows(ss)[i], ChildrenOf(Flatten(ss), ss[i].id));
  }

  lemma ShownRebuildable(ss: seq<Section>, i: nat)
    requires Rebuildable(ss) && i < |ss|
    ensures |TreeOf(Flatten(ss))| == |ss| && Outline(TreeOf(Flatten(ss))[i]) == ss[i]
  {
    RebuildableNamed(ss);
    Shown(ss, i);
    OwnFamily(ss, i);
  }

  lemma OwnFamily(ss: seq<Section>, i: nat)
    requires Rebuildable(ss) && i < |ss|
    ensures ss[i].subsections == if ss[i].id == "" then [] else Cut(Family(ss, ss[i].id))
  {
    assert RebuildableAt(ss, i);
    forall j | 0 <= j < |ss| && j != i && ss[j].id == ss[i].id ensures ss[j].subsections == [] {
      assert RebuildableAt(ss, j);
    }
    FamilyAlone(ss, i);
    assert Cut(ss[i].subsections) == ss[i].subsections;
  }

  /** A section that holds its whole family and nothing deeper has that family to itself. */
  lemma FamilyOnly(ss: seq<Section>, i: nat)
    requires i < |ss| && ss[i].subsections == if ss[i].id == "" then [] else Cut(Family(ss, ss[i].id))
    requires forall j | 0 <= j < |ss| && ss[j].id == ss[i].id && ss[i].id != "" ::
      ss[j].subsections == Cut(Family(ss, ss[i].id))
    ensures RebuildableAt(ss, i)
  {
    if ss[i].subsections != [] {
      forall j | 0 <= j < |ss| && j != i ensures ss[j].id != ss[i].id {
        if ss[j].id == ss[i].id {
          FamilySize(ss, if i < j then i else j, if i < j then j else i);
        }
      }
    }
  }

  lemma RebuiltNamed(ss: seq<Section>)
    requires Outlines(TreeOf(Flatten(ss))) == ss
    ensures NoneNameless(ss)
  {
    RootsFlatten(ss);
    assert |Roots(Flatten(ss))| == |TreeOf(Flatten(ss))| == |Outlines(TreeOf(Flatten(ss)))|;
  }

  lemma RebuiltFamily(ss: seq<Section>, i: nat)
    requires NoneNameless(ss) && Outlines(TreeOf(Flatten(ss))) == ss && i < |ss|
    ensures ss[i].subsections == if ss[i].id == "" then [] else Cut(Family(ss, ss[i].id))
  {
    hide Flatten, Family, ParentRows, ChildrenOf, TreeOf, NoneNameless;
    Shown(ss, i);
    assert Outlines(TreeOf(Flatten(ss)))[i] == ss[i];
  }

  lemma RebuiltOnly(ss: seq<Section>, i: nat)
    requires Outlines(TreeOf(Flatten(ss))) == ss && i < |ss|
    ensures RebuildableAt(ss, i)
  {
    hide *;
    RebuiltNamed(ss);
    forall j | 0 <= j < |ss|
      ensures ss[j].subsections == if ss[j].id == "" then [] else Cut(Family(ss, ss[j].id))
    {
      RebuiltFamily(ss, j);
    }
    FamilyOnly(ss, i);
  }

  lemma RoundTripFresh(ss: seq<Section>)
    ensures Outlines(TreeOf(Flatten(ss))) == ss <==> Rebuildable(ss)
  {
    hide Flatten, TreeOf;
    if Rebuildable(ss) {
      RebuildableNamed(ss);
      TreeSize(ss);
      forall i | 0 <= i < |ss| ensures Outlines(TreeOf(Flatten(ss)))[i] == ss[i] { ShownRebuildable(ss, i); }
    }
    if Outlines(TreeOf(Flatten(ss))) == ss {
      forall i | 0 <= i < |ss| ensures RebuildableAt(ss, i) { RebuiltOnly(ss, i); }
    }
  }

  lemma TreeSize(ss: seq<Section>)
    requires NoneNameless(ss)
    ensures |TreeOf(Flatten(ss))| == |ss|
  {
    RootsFlatten(ss);
  }

  // ---------- Rows with content ----------

  /** A row as it was created. */
  function Fresh(r: Row): Row {
    r.(status := Pending, content := "", summary := "", error := "")
  }

  function FreshAll(rows: seq<Row>): seq<Row> {
    seq(|rows|, i requires 0 <= i < |rows| => Fresh(rows[i]))
  }

  lemma FreshAppend(rows: seq<Row>, r: Row)
    ensures FreshAll(rows + [r]) == FreshAll(rows) + [Fresh(r)]
  {
  }

  lemma {:induction false} RowsFresh(ss: seq<Section>, filled: seq<Row>)
    requires RowsOf(ss, filled)
    ensures FreshAll(filled) == Flatten(ss)
  {
    forall p | 0 <= p < |filled| ensures Fresh(filled[p]) == Flatten(ss)[p] {
      assert SameSection(Flatten(ss)[p], filled[p]);
      CreatedFresh(ss, p);
    }
  }

  lemma {:induction false} CreatedFresh(ss: seq<Section>, p: nat)
    requires p < |Flatten(ss)|
    ensures Fresh(Flatten(ss)[p]) == Flatten(ss)[p]
  {
    var before := Flatten(ss[..|ss| - 1]);
    if p < |before| {
      CreatedFresh(ss[..|ss| - 1], p);
    }
  }

  lemma {:induction false} RootsFresh(rows: seq<Row>)
    ensures Roots(FreshAll(rows)) == FreshAll(Roots(rows))
  {
    if rows == [] {
    } else {
      var init, last := rows[..|rows| - 1], rows[|rows| - 1];
      RootsFresh(init);
      assert rows == init + [last];
      FreshAppend(init, last);
      assert (FreshAll(init) + [Fresh(last)])[..|init|] == FreshAll(init);
      FreshAppend(Roots(init), last);
    }
  }

  lemma {:induction false} ChildrenFresh(rows: seq<Row>, id: string)
    ensures ChildrenOf(FreshAll(rows), id) == FreshAll(ChildrenOf(rows, id))
  {
    if rows == [] {
    } else {
      var init, last := rows[..|rows| - 1], rows[|rows| - 1];
      ChildrenFresh(init, id);
      assert rows == init + [last];
      FreshAppend(init, last);
      assert (FreshAll(init) + [Fresh(last)])[..|init|] == FreshAll(init);
      FreshAppend(ChildrenOf(init, id), last);
    }
  }

  /** Content changes nothing about the shape of the tree. */
  lemma TreeFresh(rows: seq<Row>, i: nat)
    requires i < |TreeOf(rows)|
    ensures |TreeOf(FreshAll(rows))| == |TreeOf(rows)|
    ensures var n, m := TreeOf(rows)[i], TreeOf(FreshAll(rows))[i];
      && m.row == Fresh(n.row) && |m.children| == |n.children| && Outline(m) == Outline(n)
      && forall k | 0 <= k < |n.children| ::
           m.children[k].row == Fresh(n.children[k].row) && n.children[k].children == []
  {
    var root := Roots(rows)[i];
    RootsFresh(rows);
    ChildrenFresh(rows, root.id);
    var children := ChildrenOf(rows, root.id);
    OutlineLeaves(root, children);
    OutlineLeaves(Fresh(root), FreshAll(children));
    assert Shallows(children) == Shallows(FreshAll(children));
  }

  lemma OutlinesFresh(rows: seq<Row>)
    ensures Outlines(TreeOf(FreshAll(rows))) == Outlines(TreeOf(rows))
  {
    hide TreeOf;
    SizeFresh(rows);
    forall i | 0 <= i < |TreeOf(rows)| ensures Outline(TreeOf(FreshAll(rows))[i]) == Outline(TreeOf(rows)[i]) {
      TreeFresh(rows, i);
    }
  }

  lemma SizeFresh(rows: seq<Row>)
    ensures |TreeOf(FreshAll(rows))| == |TreeOf(rows)|
  {
    RootsFresh(rows);
  }

  /** For any order of the rows, and whatever content they have gained, the page shows the structure that was
    * flattened if and only if it has two levels and every section with subsections has a non-empty ID of its own. */
  lemma RoundTripIff(ss: seq<Section>, filled: seq<Row>, rows: seq<Row>)
    requires RowsOf(ss, filled) && multiset(rows) == multiset(filled)
    ensures Outlines(Tree(rows)) == ss <==> Rebuildable(ss)
  {
    hide TreeOf, Outlines, Rebuildable;
    SortRows(ss, filled, rows);
    RowsFresh(ss, filled);
    OutlinesFresh(filled);
    RoundTripFresh(ss);
  }

  lemma ChildlessFresh(ss: seq<Section>, i: nat)
    requires Rebuildable(ss) && i < |ss|
    ensures |TreeOf(Flatten(ss))| == |ss|
    ensures var n := TreeOf(Flatten(ss))[i]; n.children == [] <==> n.row.leaf
  {
    hide Flatten, ChildrenOf, Family, Rebuildable;
    RebuildableNamed(ss);
    ShownRebuildable(ss, i);
    Shown(ss, i);
    ParentRowsAt(ss, i);
    assert |TreeOf(Flatten(ss))[i].children| == |Outline(TreeOf(Flatten(ss))[i]).subsections| == |ss[i].subsections|;
  }

  /** In the rebuilt tree a node is childless exactly where its row is a leaf. */
  lemma ChildlessIffLeaf(ss: seq<Section>, filled: seq<Row>, rows: seq<Row>, i: nat)
    requires RowsOf(ss, filled) && multiset(rows) == multiset(filled) && Rebuildable(ss) && i < |ss|
    ensures |Tree(rows)| == |ss|
    ensures Tree(rows)[i].children == [] <==> Tree(rows)[i].row.leaf
    ensures forall k | 0 <= k < |Tree(rows)[i].children| :: Tree(rows)[i].children[k].children == []
  {
    hide TreeOf, Rebuildable;
    SortRows(ss, filled, rows);
    RowsFresh(ss, filled);
    SizeFresh(filled);
    ChildlessFresh(ss, i);
    TreeFresh(filled, i);
  }

  /** getFirstLeafSection. */
  function FirstLeaf(tree: seq<Node>): Option<Node> {
    if tree == [] then None
    else if tree[0].row.leaf || tree[0].children == [] then Some(tree[0])
    else Some(tree[0].children[0])
  }

  /** The section selected first is the leaf with the smallest index. */
  lemma FirstLeafIsFirst(ss: seq<Section>, filled: seq<Row>, rows: seq<Row>)
    requires RowsOf(ss, filled) && multiset(rows) == multiset(filled) && Rebuildable(ss) && ss != []
    ensures var first := FirstLeaf(Tree(rows));
      first.Some? && first.value.row.leaf && first.value.row in rows &&
      forall r | r in rows && r.leaf :: first.value.row.index <= r.index
  {
    hide TreeOf, Rebuildable, RowsOf, Flatten;
    SortRows(ss, filled, rows);
    FirstOfFilled(ss, filled);
    var row := FirstLeaf(TreeOf(filled)).value.row;
    assert row in multiset(filled);
    forall r | r in rows && r.leaf ensures row.index <= r.index {
      assert r in multiset(filled);
      LeafAfter(ss, filled, r);
    }
  }

  lemma LeafAfter(ss: seq<Section>, filled: seq<Row>, r: Row)
    requires RowsOf(ss, filled) && ss != [] && r in filled && r.leaf
    ensures r.index >= 0 && (!Flatten(ss)[0].leaf ==> r.index >= 1)
  {
    var p :| 0 <= p < |filled| && filled[p] == r;
    IndexIsPosition(ss, p);
    assert SameSection(Flatten(ss)[p], filled[p]);
  }

  lemma FirstOfFilled(ss: seq<Section>, filled: seq<Row>)
    requires RowsOf(ss, filled) && Rebuildable(ss) && ss != []
    ensures Flatten(ss) != []
    ensures var first := FirstLeaf(TreeOf(filled));
      && first.Some? && first.value.row.leaf && first.value.row in filled
      && (first.value.row.index == 0 || (first.value.row.index == 1 && !Flatten(ss)[0].leaf))
  {
    hide TreeOf, Rebuildable, RowsOf, Flatten;
    RowsFresh(ss, filled);
    SizeFresh(filled);
    FirstRow(ss);
    FirstFresh(ss);
    TreeFresh(filled, 0);
    FirstLeafIn(filled);
  }

  lemma FirstLeafIn(rows: seq<Row>)
    requires TreeOf(rows) != []
    ensures FirstLeaf(TreeOf(rows)).value.row in rows
  {
    var root := Roots(rows)[0];
    RootIn(rows, root);
    forall r | r in ChildrenOf(rows, root.id) ensures r in rows { ChildIn(rows, root.id, r); }
  }

  lemma {:induction false} RootIn(rows: seq<Row>, r: Row)
    requires r in Roots(rows)
    ensures r in rows
  {
    if r in Roots(rows[..|rows| - 1]) { RootIn(rows[..|rows| - 1], r); }
  }

  lemma {:induction false} ChildIn(rows: seq<Row>, id: string, r: Row)
    requires r in ChildrenOf(rows, id)
    ensures r in rows
  {
    if r in ChildrenOf(rows[..|rows| - 1], id) { ChildIn(rows[..|rows| - 1], id, r); }
  }

  /** As created, the first leaf is the first row of all, or the second when the first section has subsections. */
  lemma FirstFresh(ss: seq<Section>)
    requires Rebuildable(ss) && ss != []
    ensures var first, flat := FirstLeaf(TreeOf(Flatten(ss))), Flatten(ss);
      && first.Some? && first.value.row.leaf
      && (ss[0].subsections == [] ==> first.value.row.index == 0)
      && (ss[0].subsections != [] ==> first.value.row.index == 1 && !flat[0].leaf)
  {
    hide Flatten, ChildrenOf, Family;
    assert RebuildableAt(ss, 0);
    RebuildableNamed(ss);
    ChildlessFresh(ss, 0);
    Shown(ss, 0);
    FirstRow(ss);
    if ss[0].subsections != [] {
      FirstChild(ss);
    }
  }

  /** Flattening puts the first section's block first. */
  lemma {:induction false} FirstBlock(ss: seq<Section>)
    requires ss != []
    ensures Block(ss[0], 0) <= Flatten(ss)
    ensures [ParentRow(ss[0], 0)] <= ParentRows(ss)
  {
    var n := |ss| - 1;
    if n > 0 {
      FirstBlock(ss[..n]);
      assert ss[..n][0] == ss[0];
    } else {
      assert ss[..0] == [] && Flatten(ss) == Block(ss[0], 0);
    }
  }

  lemma {:induction false} FirstRow(ss: seq<Section>)
    requires ss != []
    ensures |Flatten(ss)| > |ss[0].subsections| && ParentRows(ss) != []
    ensures Flatten(ss)[0] == ParentRow(ss[0], 0) == ParentRows(ss)[0]
    ensures ss[0].subsections != [] ==> Flatten(ss)[1] == ChildRow(ss[0].subsections[0], ss[0].id, 1)
  {
    FirstBlock(ss);
    var b := Block(ss[0], 0);
    assert Flatten(ss)[..|b|] == b;
    assert b[0] == ParentRow(ss[0], 0);
    if ss[0].subsections != [] {
      assert b[1] == ChildRows(ss[0], 1)[0];
    }
  }

  lemma {:induction false} FirstChild(ss: seq<Section>)
    requires ss != [] && ss[0].subsections != [] && ss[0].id != ""
    ensures |Flatten(ss)| > 1 && ChildrenOf(Flatten(ss), ss[0].id) != []
    ensures ChildrenOf(Flatten(ss), ss[0].id)[0] == Flatten(ss)[1]
  {
    hide Flatten, ChildrenOf;
    FirstRow(ss);
    SecondIsChild(Flatten(ss), ss[0].id);
  }

  lemma SecondIsChild(rows: seq<Row>, id: string)
    requires |rows| > 1 && !ChildOf(rows[0], id) && ChildOf(rows[1], id)
    ensures ChildrenOf(rows, id) != [] && ChildrenOf(rows, id)[0] == rows[1]
  {
    hide ChildrenOf;
    var a, b, c := [rows[0]], [rows[1]], rows[2..];
    assert rows == a + b + c;
    ChildrenAppend(a + b, c, id);
    ChildrenAppend(a, b, id);
    NoChildren(a, id);
    AllChildren(b, id);
    assert ChildrenOf(rows, id) == [] + b + ChildrenOf(c, id);
  }
}
