/** What holds of a report over every sequence of attempts, crashes included. */
module ReportResume {
  import opened ReportOutline
  import opened ReportRun

  // ---------- Applying writes ----------

  lemma {:induction false} ApplyAppend(st: Store, a: seq<Write>, b: seq<Write>)
    ensures ApplyAll(st, a + b) == ApplyAll(ApplyAll(st, a), b)
  {
    if b == [] {
      assert a + b == a;
    } else {
      assert (a + b)[..|a + b| - 1] == a + b[..|b| - 1];
      ApplyAppend(st, a, b[..|b| - 1]);
    }
  }

  lemma {:induction false} ApplyCreates(st: Store, rows: seq<Row>)
    ensures ApplyAll(st, Creates(rows)) == st.(rows := st.rows + rows)
  {
    if rows == [] {
      assert st.rows + rows == st.rows;
    } else {
      var n := |rows| - 1;
      ApplyCreates(st, rows[..n]);
      assert Creates(rows)[..n] == Creates(rows[..n]);
      assert st.rows + rows == st.rows + rows[..n] + [rows[n]];
    }
  }

  /** `y` has the rows of `x` and perhaps more; a completed row is exactly as it was. */
  predicate Extends(x: seq<Row>, y: seq<Row>) {
    && |x| <= |y|
    && (forall p | 0 <= p < |x| :: SameSection(x[p], y[p]))
    && (forall p | 0 <= p < |x| && x[p].status == SectionStatus.Completed :: y[p] == x[p])
  }

  lemma ExtendsTransitive(x: seq<Row>, y: seq<Row>, z: seq<Row>)
    requires Extends(x, y) && Extends(y, z)
    ensures Extends(x, z)
  {
  }

  // ---------- Before Phase 2 ----------

  predicate HeadWrite(w: Write, current: nat) {
    match w
    case SaveReport(r) => r.current == current
    case CreateSection(row) => row.status == SectionStatus.Pending
    case UpdateSection(_, _) => false
  }

  lemma HeadWrites(st: Store, a: Attempt)
    ensures forall w | w in Head(st, a) :: HeadWrite(w, st.report.current)
  {
    if a.inputs.structure.Some? {
      FreshRows(a.inputs.structure.value);
    }
  }

  lemma {:induction false} FreshRows(ss: seq<Section>)
    ensures forall row | row in Flatten(ss) :: row.status == SectionStatus.Pending
  {
    if ss == [] {
    } else {
      FreshRows(ss[..|ss| - 1]);
    }
  }

  lemma {:induction false} HeadPrefix(st: Store, ws: seq<Write>)
    requires forall w | w in ws :: HeadWrite(w, st.report.current)
    ensures st.rows <= ApplyAll(st, ws).rows && ApplyAll(st, ws).report.current == st.report.current
    ensures forall p | |st.rows| <= p < |ApplyAll(st, ws).rows| ::
      ApplyAll(st, ws).rows[p].status == SectionStatus.Pending
  {
    if ws == [] {
    } else {
      assert ws[|ws| - 1] in ws;
      HeadPrefix(st, ws[..|ws| - 1]);
    }
  }

  lemma HeadWhole(st: Store, a: Attempt)
    requires ReachesPhase2(st, a)
    ensures ApplyAll(st, Head(st, a)) == Store(Entering(st, a), Loaded(st, a))
  {
    var entering := Entering(st, a);
    if Restarts(st, a) {
      var analyzing := st.report.(status := Analyzing);
      var first := [SaveReport(analyzing), SaveReport(analyzing.(repoReady := true))];
      var creates := Creates(Flatten(a.inputs.structure.value));
      assert Head(st, a) == first + creates + [SaveReport(entering)];
      ApplyAppend(st, first + creates, [SaveReport(entering)]);
      ApplyAppend(st, first, creates);
      ApplyTwo(st, first[0], first[1]);
      ApplyCreates(ApplyAll(st, first), Flatten(a.inputs.structure.value));
      ApplyOne(ApplyAll(st, first + creates), SaveReport(entering));
    } else if st.report.repoReady {
      ApplyOne(st, SaveReport(entering));
    } else {
      ApplyTwo(st, SaveReport(st.report.(repoReady := true)), SaveReport(entering));
    }
  }

  lemma ApplyOne(st: Store, w: Write)
    ensures ApplyAll(st, [w]) == Apply(st, w)
  {
  }

  lemma ApplyTwo(st: Store, w: Write, x: Write)
    ensures ApplyAll(st, [w, x]) == Apply(Apply(st, w), x)
  {
    assert [w, x] == [w] + [x];
    ApplyAppend(st, [w], [x]);
    ApplyOne(st, w);
    ApplyOne(Apply(st, w), x);
  }

  lemma ApplyThree(st: Store, w: Write, x: Write, y: Write)
    ensures ApplyAll(st, [w, x, y]) == Apply(Apply(Apply(st, w), x), y)
  {
    assert [w, x, y] == [w] + [x, y];
    ApplyAppend(st, [w], [x, y]);
    ApplyOne(st, w);
    ApplyTwo(Apply(st, w), x, y);
  }

  // ---------- From Phase 2 on ----------

  /** A write that updates an uncompleted leaf of `rows`, or reports progress below `n`. */
  predicate BodyWrite(w: Write, rows: seq<Row>, n: nat, report: Report) {
    match w
    case SaveReport(r) => r.structure == report.structure && (r.current == report.current || r.current < n)
    case CreateSection(_) => false
    case UpdateSection(p, row) =>
      p < |rows| && rows[p].leaf && rows[p].status != SectionStatus.Completed && SameSection(rows[p], row)
  }

  lemma {:induction false} Phase2Writes(r: Report, rows: seq<Row>, order: seq<nat>, agent: nat -> Generation, n: nat)
    requires Within(order, rows) && |order| <= n && forall k | 0 <= k < |order| :: rows[order[k]].leaf
    ensures forall w | w in Phase2(r, rows, order, agent) :: BodyWrite(w, rows, n, r)
    ensures forall w | w in Phase2(r, rows, order, agent) && w.UpdateSection? :: w.p in order
    ensures Progress(r.current, rows, order) == r.current || Progress(r.current, rows, order) < n
  {
    if order == [] {
    } else {
      var m := |order| - 1;
      Phase2Writes(r, rows, order[..m], agent, n);
      OneLeafWrites(r, rows, order[m], m, agent(m), n);
      assert order == order[..m] + [order[m]];
    }
  }

  lemma OneLeafWrites(r: Report, rows: seq<Row>, p: nat, k: nat, g: Generation, n: nat)
    requires p < |rows| && rows[p].leaf && k < n
    ensures forall w | w in LeafWrites(r, rows[p], p, k, g) ::
      BodyWrite(w, rows, n, r) && (w.UpdateSection? ==> w.p == p)
  {
  }

  /** No row is written again once it has been completed. */
  predicate Settles(ws: seq<Write>) {
    forall i, j | 0 <= i < j < |ws| && ws[i].UpdateSection? && ws[j].UpdateSection? ::
      ws[i].row.status == SectionStatus.Completed ==> ws[i].p != ws[j].p
  }

  lemma {:induction false} Phase2Settles(r: Report, rows: seq<Row>, order: seq<nat>, agent: nat -> Generation)
    requires Within(order, rows) && forall k | 0 <= k < |order| :: rows[order[k]].leaf
    requires forall i, j | 0 <= i < j < |order| :: order[i] != order[j]
    ensures Settles(Phase2(r, rows, order, agent))
  {
    if order == [] {
    } else {
      var n := |order| - 1;
      var leaf := LeafWrites(r, rows[order[n]], order[n], n, agent(n));
      assert Settles(leaf) && forall w | w in leaf && w.UpdateSection? :: w.p == order[n];
      hide Settles, LeafWrites;
      Phase2Settles(r, rows, order[..n], agent);
      Phase2Writes(r, rows, order[..n], agent, n);
      SettlesAppend(Phase2(r, rows, order[..n], agent), leaf, order[n]);
    }
  }

  lemma SettlesAppend(ws: seq<Write>, more: seq<Write>, p: nat)
    requires Settles(ws) && Settles(more)
    requires forall w | w in ws && w.UpdateSection? :: w.p != p
    requires forall w | w in more && w.UpdateSection? :: w.p == p
    ensures Settles(ws + more)
  {
  }

  lemma BodyWrites(st: Store, a: Attempt)
    requires Legal(st, a)
    ensures ReachesPhase2(st, a) ==>
      forall w | w in Body(st, a) :: BodyWrite(w, Loaded(st, a), |a.inputs.order|, Entering(st, a))
    ensures Settles(Body(st, a))
  {
    if ReachesPhase2(st, a) {
      hide Phase2, Progress, Settles, Entering, Loaded;
      var r, rows, order := Entering(st, a), Loaded(st, a), a.inputs.order;
      Phase2Writes(r, rows, order, a.inputs.agent, |order|);
      Phase2Settles(r, rows, order, a.inputs.agent);
      SettlesTail(Phase2(r, rows, order, a.inputs.agent), r.(current := Progress(r.current, rows, order)),
                  Restarts(st, a), a.inputs.merged);
    }
  }

  lemma SettlesTail(ws: seq<Write>, r: Report, restarts: bool, merged: string)
    requires Settles(ws)
    ensures Settles(ws + Tail(r, restarts, merged))
  {
    forall w | w in Tail(r, restarts, merged) ensures w.SaveReport? { }
    var all := ws + Tail(r, restarts, merged);
    forall i | |ws| <= i < |all| ensures all[i].SaveReport? { assert all[i] in Tail(r, restarts, merged); }
  }

  lemma SettlesPrefix(ws: seq<Write>, d: nat)
    requires Settles(ws) && d <= |ws|
    ensures Settles(ws[..d])
  {
  }

  lemma {:induction false} BodyPrefix(st: Store, ws: seq<Write>, n: nat)
    requires forall w | w in ws :: BodyWrite(w, st.rows, n, st.report)
    ensures |ApplyAll(st, ws).rows| == |st.rows| && Extends(st.rows, ApplyAll(st, ws).rows)
    ensures ApplyAll(st, ws).report.structure == st.report.structure
    ensures ApplyAll(st, ws).report.current == st.report.current || ApplyAll(st, ws).report.current < n
  {
    if ws == [] {
    } else {
      assert BodyWrite(ws[|ws| - 1], st.rows, n, st.report);
      BodyPrefix(st, ws[..|ws| - 1], n);
    }
  }

  /** A completed row was completed from the start or by one of the writes. */
  lemma {:induction false} WhoCompleted(st: Store, ws: seq<Write>, n: nat, p: nat)
    requires forall w | w in ws :: BodyWrite(w, st.rows, n, st.report)
    requires p < |ApplyAll(st, ws).rows| == |st.rows| && ApplyAll(st, ws).rows[p].status == SectionStatus.Completed
    ensures st.rows[p].status == SectionStatus.Completed ||
      exists i :: 0 <= i < |ws| && ws[i].UpdateSection? && ws[i].p == p && ws[i].row.status == SectionStatus.Completed
  {
    if ws == [] {
    } else {
      var m := |ws| - 1;
      assert BodyWrite(ws[m], st.rows, n, st.report);
      BodyPrefix(st, ws[..m], n);
      if !(ws[m].UpdateSection? && ws[m].p == p) {
        WhoCompleted(st, ws[..m], n, p);
      }
    }
  }

  /** Within one Phase 2: later writes leave a completed row alone. */
  lemma {:induction false} BodyFrozen(st: Store, ws: seq<Write>, n: nat, c: nat)
    requires forall w | w in ws :: BodyWrite(w, st.rows, n, st.report)
    requires Settles(ws) && c <= |ws|
    ensures Extends(ApplyAll(st, ws[..c]).rows, ApplyAll(st, ws).rows)
  {
    if c == |ws| {
      assert ws[..c] == ws;
    } else {
      hide Extends, ApplyAll, BodyWrite;
      var m := |ws| - 1;
      assert ws[..m][..c] == ws[..c];
      SettlesPrefix(ws, m);
      BodyFrozen(st, ws[..m], n, c);
      LastWriteExtends(st, ws, n);
      ExtendsTransitive(ApplyAll(st, ws[..c]).rows, ApplyAll(st, ws[..m]).rows, ApplyAll(st, ws).rows);
    }
  }

  lemma LastWriteExtends(st: Store, ws: seq<Write>, n: nat)
    requires forall w | w in ws :: BodyWrite(w, st.rows, n, st.report)
    requires Settles(ws) && ws != []
    ensures Extends(ApplyAll(st, ws[..|ws| - 1]).rows, ApplyAll(st, ws).rows)
  {
    var m := |ws| - 1;
    BodyPrefix(st, ws[..m], n);
    assert BodyWrite(ws[m], st.rows, n, st.report);
    var x := ApplyAll(st, ws[..m]).rows;
    if ws[m].UpdateSection? {
      assert x[ws[m].p].status != SectionStatus.Completed by {
        if x[ws[m].p].status == SectionStatus.Completed { WhoCompleted(st, ws[..m], n, ws[m].p); }
      }
      assert SameSection(st.rows[ws[m].p], x[ws[m].p]);
    }
  }

  // ---------- Safety over every history ----------

  lemma Split(st: Store, ws: seq<Write>, c: nat)
    requires c <= |ws|
    ensures ApplyAll(st, ws) == ApplyAll(ApplyAll(st, ws[..c]), ws[c..])
  {
    assert ws == ws[..c] + ws[c..];
    ApplyAppend(st, ws[..c], ws[c..]);
  }

  /** An attempt cut inside Head. */
  lemma CutInHead(st: Store, a: Attempt, cut: nat)
    requires Legal(st, a) && cut <= |Head(st, a)|
    ensures After(st, a, cut) == ApplyAll(st, Head(st, a)[..cut])
  {
    assert Prefix(Writes(st, a), cut) == Head(st, a)[..cut];
  }

  /** An attempt cut later. */
  lemma CutInBody(st: Store, a: Attempt, cut: nat) returns (c: nat)
    requires Legal(st, a) && cut > |Head(st, a)|
    ensures c == |Prefix(Body(st, a), cut - |Head(st, a)|)| <= |Body(st, a)|
    ensures After(st, a, cut) == ApplyAll(ApplyAll(st, Head(st, a)), Body(st, a)[..c])
  {
    var body := Prefix(Body(st, a), cut - |Head(st, a)|);
    c := |body|;
    assert body == Body(st, a)[..c];
    assert Prefix(Writes(st, a), cut) == Head(st, a) + body;
    ApplyAppend(st, Head(st, a), body);
  }

  /** The table after part of Head, then after all of it. */
  lemma HeadExtends(st: Store, a: Attempt, c: nat)
    requires c <= |Head(st, a)|
    ensures Extends(ApplyAll(st, Head(st, a)[..c]).rows, ApplyAll(st, Head(st, a)).rows)
  {
    var ws := Head(st, a);
    HeadWrites(st, a);
    Split(st, ws, c);
    HeadPrefix(st, ws[..c]);
    HeadPrefix(ApplyAll(st, ws[..c]), ws[c..]);
  }

  /** However far an attempt gets, going further leaves every section that is already completed
    * exactly as it is. */
  lemma CompletedStays(st: Store, a: Attempt, cut: nat, further: nat)
    requires Legal(st, a) && cut <= further
    ensures Extends(After(st, a, cut).rows, After(st, a, further).rows)
  {
    var head := Head(st, a);
    if further <= |head| {
      CutInHead(st, a, cut);
      CutInHead(st, a, further);
      HeadCuts(st, a, cut, further);
    } else {
      var d := CutInBody(st, a, further);
      if cut <= |head| {
        CutInHead(st, a, cut);
        HeadExtends(st, a, cut);
        BodyCut(st, a, d);
        ExtendsTransitive(After(st, a, cut).rows, ApplyAll(st, head).rows, After(st, a, further).rows);
      } else {
        var c := CutInBody(st, a, cut);
        BodyCuts(st, a, c, d);
      }
    }
  }

  lemma HeadCuts(st: Store, a: Attempt, c: nat, d: nat)
    requires c <= d <= |Head(st, a)|
    ensures Extends(ApplyAll(st, Head(st, a)[..c]).rows, ApplyAll(st, Head(st, a)[..d]).rows)
  {
    var ws := Head(st, a);
    HeadWrites(st, a);
    Split(st, ws[..d], c);
    assert ws[..d][..c] == ws[..c];
    HeadPrefix(st, ws[..c]);
    HeadPrefix(ApplyAll(st, ws[..c]), ws[c..d]);
  }

  lemma BodyCut(st: Store, a: Attempt, d: nat)
    requires Legal(st, a) && d <= |Body(st, a)|
    ensures Extends(ApplyAll(st, Head(st, a)).rows, ApplyAll(ApplyAll(st, Head(st, a)), Body(st, a)[..d]).rows)
    ensures ReachesPhase2(st, a) ==> |ApplyAll(ApplyAll(st, Head(st, a)), Body(st, a)[..d]).rows| == |Loaded(st, a)|
    ensures ApplyAll(ApplyAll(st, Head(st, a)), Body(st, a)[..d]).report.structure ==
      ApplyAll(st, Head(st, a)).report.structure
    ensures ReachesPhase2(st, a) ==>
      var current := ApplyAll(ApplyAll(st, Head(st, a)), Body(st, a)[..d]).report.current;
      current == st.report.current || current < |a.inputs.order|
  {
    if ReachesPhase2(st, a) {
      HeadWhole(st, a);
      BodyWrites(st, a);
      BodyPrefix(ApplyAll(st, Head(st, a)), Body(st, a)[..d], |a.inputs.order|);
    }
  }

  lemma BodyCuts(st: Store, a: Attempt, c: nat, d: nat)
    requires Legal(st, a) && c <= d <= |Body(st, a)|
    ensures Extends(ApplyAll(ApplyAll(st, Head(st, a)), Body(st, a)[..c]).rows,
                    ApplyAll(ApplyAll(st, Head(st, a)), Body(st, a)[..d]).rows)
  {
    if ReachesPhase2(st, a) {
      hide Head, Body, Settles, Extends, ApplyAll, BodyWrite;
      HeadWhole(st, a);
      BodyWrites(st, a);
      SettlesPrefix(Body(st, a), d);
      assert Body(st, a)[..d][..c] == Body(st, a)[..c];
      BodyFrozen(ApplyAll(st, Head(st, a)), Body(st, a)[..d], |a.inputs.order|, c);
    }
  }

  predicate CurrentInRange(st: Store) {
    st.report.current == 0 || st.report.current < |LeafKeys(st.rows)|
  }

  lemma MoreLeaves(x: seq<Row>, y: seq<Row>)
    requires Extends(x, y)
    ensures |LeafKeys(x)| <= |LeafKeys(y)|
    ensures |x| == |y| ==> LeafKeys(x) == LeafKeys(y)
  {
    forall p | 0 <= p < |x| ensures x[p].leaf == y[p].leaf { assert SameSection(x[p], y[p]); }
    SubsetSize(LeafKeys(x), LeafKeys(y));
  }

  lemma {:induction false} SubsetSize(s: set<nat>, t: set<nat>)
    requires s <= t
    ensures |s| <= |t|
  {
    if s != {} {
      var x :| x in s;
      SubsetSize(s - {x}, t - {x});
    }
  }

  lemma {:induction false} OrderSize(order: seq<nat>, s: set<nat>)
    requires forall k | 0 <= k < |order| :: order[k] in s
    requires forall i, j | 0 <= i < j < |order| :: order[i] != order[j]
    ensures |order| <= |s|
  {
    if order == [] {
    } else {
      var n := |order| - 1;
      OrderSize(order[..n], s - {order[n]});
    }
  }

  lemma CurrentStays(st: Store, a: Attempt, cut: nat)
    requires Legal(st, a) && CurrentInRange(st)
    ensures CurrentInRange(After(st, a, cut))
  {
    CompletedStays(st, a, 0, cut);
    MoreLeaves(st.rows, After(st, a, cut).rows);
    HeadWrites(st, a);
    if cut <= |Head(st, a)| {
      CutInHead(st, a, cut);
      HeadPrefix(st, Head(st, a)[..cut]);
    } else {
      var c := CutInBody(st, a, cut);
      BodyCut(st, a, c);
      if ReachesPhase2(st, a) {
        HeadWhole(st, a);
        MoreLeaves(Loaded(st, a), After(st, a, cut).rows);
        OrderSize(a.inputs.order, LeafKeys(Loaded(st, a)));
      } else {
        HeadPrefix(st, Head(st, a));
        assert Body(st, a)[..c] == [];
      }
    }
  }

  lemma HappeningKeeps(st: Store, h: Happening)
    requires LegalHappening(st, h) && CurrentInRange(st)
    ensures Extends(st.rows, Next(st, h).rows) && CurrentInRange(Next(st, h))
  {
    if h.Tried? {
      CompletedStays(st, h.attempt, 0, h.cut);
      CurrentStays(st, h.attempt, h.cut);
    }
  }

  /** Over any sequence of Run and Resume calls, one at a time, whatever the agent does and wherever each call
    * crashes: no section is lost or re-labelled, a completed section keeps its content and summary for good, and
    * CurrentSection stays below the number of leaf sections. */
  lemma {:induction false} ResumeSafety(st: Store, history: seq<Happening>)
    requires LegalHistory(st, history) && CurrentInRange(st)
    ensures Extends(st.rows, Replay(st, history).rows) && CurrentInRange(Replay(st, history))
    decreases |history|
  {
    if history == [] {
    } else {
      HappeningKeeps(st, history[0]);
      ResumeSafety(Next(st, history[0]), history[1..]);
      ExtendsTransitive(st.rows, Next(st, history[0]).rows, Replay(st, history).rows);
    }
  }
}
