/** What one uninterrupted attempt achieves, and when it leaves the report consistent. */
module ReportPhases {
  import opened Options
  import opened ReportOutline
  import opened ReportSummaries
  import opened ReportRun
  import opened ReportResume

  /** What Phase 2 makes of a leaf it has loaded. */
  function Settled(row: Row, g: Generation): Row {
    if row.status == SectionStatus.Completed then row else Finished(row, g)
  }

  /** The answer `g` has been stored for a leaf: content and summary where they belong, or the error text; a section
    * that was completed keeps everything, and what identifies a section never changes. */
  predicate Answered(was: Row, g: Generation, now: Row) {
    && now.index == was.index && now.id == was.id && now.parent == was.parent && now.leaf == was.leaf
    && now.title == was.title && now.description == was.description
    && (was.status == SectionStatus.Completed ==>
          now.status == SectionStatus.Completed && now.content == was.content && now.summary == was.summary &&
          now.error == was.error)
    && (was.status != SectionStatus.Completed && g.Generated? ==>
          now.status == SectionStatus.Completed && now.content == g.content && now.summary == g.summary &&
          now.error == was.error)
    && (was.status != SectionStatus.Completed && g.Broken? ==>
          now.status == SectionStatus.Failed && now.content == was.content && now.summary == was.summary &&
          now.error == g.message)
  }

  lemma SettledAnswers(row: Row, g: Generation)
    ensures Answered(row, g, Settled(row, g))
  {
  }

  /** The first `k` leaves of `order` are settled, everything else is as loaded. */
  ghost predicate SettledUpTo(loaded: seq<Row>, order: seq<nat>, agent: nat -> Generation, k: nat, rows: seq<Row>) {
    && k <= |order| && |rows| == |loaded| && Within(order, loaded)
    && (forall i | 0 <= i < k :: Answered(loaded[order[i]], agent(i), rows[order[i]]))
    && (forall p | 0 <= p < |rows| && p !in order[..k] :: rows[p] == loaded[p])
  }

  lemma ApplyLeaf(st: Store, r: Report, row: Row, p: nat, k: nat, g: Generation)
    requires p < |st.rows| && st.rows[p] == row
    ensures ApplyAll(st, LeafWrites(r, row, p, k, g)).rows == st.rows[p := Settled(row, g)]
    ensures ApplyAll(st, LeafWrites(r, row, p, k, g)).report ==
      if row.status == SectionStatus.Completed then st.report else r.(current := k)
  {
    var ws := LeafWrites(r, row, p, k, g);
    if row.status != SectionStatus.Completed {
      ApplyThree(st, ws[0], ws[1], ws[2]);
    }
  }

  lemma {:induction false} Phase2Result(st: Store, r: Report, order: seq<nat>, agent: nat -> Generation)
    requires Within(order, st.rows) && st.report == r
    requires forall i, j | 0 <= i < j < |order| :: order[i] != order[j]
    ensures SettledUpTo(st.rows, order, agent, |order|, ApplyAll(st, Phase2(r, st.rows, order, agent)).rows)
    ensures ApplyAll(st, Phase2(r, st.rows, order, agent)).report == r.(current := Progress(r.current, st.rows, order))
  {
    if order == [] {
    } else {
      var n := |order| - 1;
      var p, ws := order[n], Phase2(r, st.rows, order[..n], agent);
      Phase2Result(st, r, order[..n], agent);
      var mid := ApplyAll(st, ws);
      ApplyAppend(st, ws, LeafWrites(r, st.rows[p], p, n, agent(n)));
      assert p !in order[..n] && order[..n][..n] == order[..n];
      ApplyLeaf(mid, r, st.rows[p], p, n, agent(n));
      SettledAnswers(st.rows[p], agent(n));
      SettledStep(st.rows, order, agent, mid.rows);
    }
  }

  lemma SettledStep(loaded: seq<Row>, order: seq<nat>, agent: nat -> Generation, rows: seq<Row>)
    requires order != [] && Within(order, loaded)
    requires forall i, j | 0 <= i < j < |order| :: order[i] != order[j]
    requires SettledUpTo(loaded, order[..|order| - 1], agent, |order| - 1, rows)
    ensures var n := |order| - 1;
      SettledUpTo(loaded, order, agent, |order|, rows[order[n] := Settled(loaded[order[n]], agent(n))])
  {
    var n := |order| - 1;
    SettledAnswers(loaded[order[n]], agent(n));
    hide Answered, Settled;
    assert order[..n] + [order[n]] == order[..|order|];
  }

  lemma FinishBody(st: Store, a: Attempt)
    requires Legal(st, a)
    ensures Finish(st, a) == ApplyAll(ApplyAll(st, Head(st, a)), Body(st, a))
  {
    ApplyAppend(st, Head(st, a), Body(st, a));
  }

  lemma ApplyTail(st: Store, r: Report, restarts: bool, merged: string)
    ensures ApplyAll(st, Tail(r, restarts, merged)).rows == st.rows
    ensures ApplyAll(st, Tail(r, restarts, merged)).report ==
      r.(content := merged, status := if restarts then ReportStatus.Completed else r.status)
  {
    if restarts {
      var done := r.(content := merged);
      ApplyTwo(st, SaveReport(done), SaveReport(done.(status := ReportStatus.Completed)));
    } else {
      ApplyOne(st, SaveReport(r.(content := merged)));
    }
  }

  /** An attempt that gets to its end settles every leaf: the k-th leaf in database order is what it was if it
    * had been completed, and what the agent made of it otherwise. No other row changes. */
  lemma SettlesEveryLeaf(st: Store, a: Attempt)
    requires Legal(st, a) && ReachesPhase2(st, a)
    ensures SettledUpTo(Loaded(st, a), a.inputs.order, a.inputs.agent, |a.inputs.order|, Finish(st, a).rows)
    ensures Finish(st, a).report ==
      Entering(st, a).(current := Progress(st.report.current, Loaded(st, a), a.inputs.order),
                       content := a.inputs.merged,
                       status := if Restarts(st, a) then ReportStatus.Completed else ReportStatus.Generating)
  {
    FinishBody(st, a);
    HeadWhole(st, a);
    var entered, r, order := ApplyAll(st, Head(st, a)), Entering(st, a), a.inputs.order;
    var phase2 := Phase2(r, entered.rows, order, a.inputs.agent);
    var tail := Tail(r.(current := Progress(r.current, entered.rows, order)), Restarts(st, a), a.inputs.merged);
    Phase2Result(entered, r, order, a.inputs.agent);
    ApplyAppend(entered, phase2, tail);
    ApplyTail(ApplyAll(entered, phase2), r.(current := Progress(r.current, entered.rows, order)),
              Restarts(st, a), a.inputs.merged);
  }

  /** After it, every leaf is completed or failed. */
  lemma EveryLeafEnds(st: Store, a: Attempt, p: nat)
    requires Legal(st, a) && ReachesPhase2(st, a)
    requires p < |Finish(st, a).rows| && Finish(st, a).rows[p].leaf
    ensures Finish(st, a).rows[p].status in {SectionStatus.Completed, SectionStatus.Failed}
  {
    SettlesEveryLeaf(st, a);
    LeafEnds(Loaded(st, a), a.inputs.order, a.inputs.agent, Finish(st, a).rows, p);
  }

  lemma LeafEnds(loaded: seq<Row>, order: seq<nat>, agent: nat -> Generation, rows: seq<Row>, p: nat)
    requires SettledUpTo(loaded, order, agent, |order|, rows) && IsLeafOrder(order, loaded)
    requires p < |rows| && rows[p].leaf
    ensures rows[p].status in {SectionStatus.Completed, SectionStatus.Failed}
  {
    assert order[..|order|] == order;
    assert loaded[p].leaf ==> p in LeafKeys(loaded);
    var k :| 0 <= k < |order| && order[k] == p;
    assert Answered(loaded[order[k]], agent(k), rows[order[k]]);
  }

  /** A report ends up completed only through Run: an attempt that resumes in Phase 2 leaves it generating. */
  lemma CompletedIff(st: Store, a: Attempt)
    requires Legal(st, a)
    ensures Finish(st, a).report.status == ReportStatus.Completed <==>
      Refused(st, a) || (Restarts(st, a) && ReachesPhase2(st, a))
  {
  }

  /** The last leaf in database order that was not completed when Phase 2 began, if there was one. */
  predicate LastBegun(rows: seq<Row>, order: seq<nat>, k: nat)
    requires Within(order, rows)
  {
    && k < |order| && rows[order[k]].status != SectionStatus.Completed
    && forall j | k < j < |order| :: rows[order[j]].status == SectionStatus.Completed
  }

  lemma {:induction false} ProgressIsLast(current: nat, rows: seq<Row>, order: seq<nat>)
    requires Within(order, rows)
    ensures if exists k :: LastBegun(rows, order, k) then LastBegun(rows, order, Progress(current, rows, order))
            else Progress(current, rows, order) == current
    ensures (exists k :: LastBegun(rows, order, k)) <==>
      exists k :: 0 <= k < |order| && rows[order[k]].status != SectionStatus.Completed
  {
    if order == [] {
    } else {
      var n := |order| - 1;
      if rows[order[n]].status != SectionStatus.Completed {
        assert LastBegun(rows, order, n);
      } else {
        ProgressIsLast(current, rows, order[..n]);
        forall k | 0 <= k < n ensures LastBegun(rows, order, k) <==> LastBegun(rows, order[..n], k) {
          BegunMore(rows, order, k);
        }
      }
    }
  }

  lemma BegunMore(rows: seq<Row>, order: seq<nat>, k: nat)
    requires order != [] && Within(order, rows) && k < |order| - 1
    requires rows[order[|order| - 1]].status == SectionStatus.Completed
    ensures LastBegun(rows, order, k) <==> LastBegun(rows, order[..|order| - 1], k)
  {
    var init := order[..|order| - 1];
    if LastBegun(rows, init, k) {
      forall j | k < j < |order| ensures rows[order[j]].status == SectionStatus.Completed {
        assert j < |order| - 1 ==> init[j] == order[j];
      }
    }
    if LastBegun(rows, order, k) {
      forall j | k < j < |init| ensures rows[init[j]].status == SectionStatus.Completed {
        assert init[j] == order[j];
      }
    }
  }

  /** The report when an attempt has come to its end. */
  lemma EndReport(st: Store, a: Attempt)
    requires Legal(st, a) && ReachesPhase2(st, a)
    ensures var r, order := Finish(st, a).report, a.inputs.order;
      && r.content == a.inputs.merged && r.repoReady && r.error == st.report.error
      && r.status == (if Restarts(st, a) then ReportStatus.Completed else Generating)
      && r.structure == (if Restarts(st, a) then a.inputs.structure.value else st.report.structure)
      && r.total == (if Restarts(st, a) then |LeafRows(Flatten(a.inputs.structure.value))| else st.report.total)
      && Within(order, Loaded(st, a))
      && if exists k :: LastBegun(Loaded(st, a), order, k) then LastBegun(Loaded(st, a), order, r.current)
         else r.current == st.report.current
  {
    SettlesEveryLeaf(st, a);
    ProgressIsLast(st.report.current, Loaded(st, a), a.inputs.order);
  }

  /** An attempt that does not get as far as Phase 2 records why and touches nothing else; a refused one writes
    * nothing. */
  lemma FailureRecorded(st: Store, a: Attempt)
    requires Legal(st, a) && !ReachesPhase2(st, a)
    ensures Finish(st, a).rows == st.rows
    ensures var r, r' := st.report, Finish(st, a).report;
      && r'.structure == r.structure && r'.content == r.content && r'.current == r.current && r'.total == r.total
      && (Refused(st, a) ==> r' == r)
      && (!Refused(st, a) ==>
            && r'.status == ReportStatus.Failed
            && r'.repoReady == (r.repoReady || a.inputs.prepared)
            && r'.error == (if a.inputs.prepared then "structure generation failed: "
                            else "repository preparation failed: ") + a.inputs.failure)
  {
    var ws, x, r := Head(st, a), a.inputs, st.report;
    assert Writes(st, a) == ws;
    if Refused(st, a) {
    } else if Restarts(st, a) {
      var analyzing := r.(status := Analyzing);
      if !x.prepared {
        ApplyTwo(st, ws[0], ws[1]);
      } else {
        ApplyThree(st, ws[0], ws[1], ws[2]);
      }
    } else {
      ApplyOne(st, ws[0]);
    }
  }

  // ---------- Crash points ----------

  /** Phase 2 has got as far as leaf `k`: the leaves before it are settled, it may be marked running, and everything
    * else is as loaded. */
  ghost predicate Midway(loaded: seq<Row>, order: seq<nat>, agent: nat -> Generation, k: nat, rows: seq<Row>) {
    && k <= |order| && |rows| == |loaded| && Within(order, loaded)
    && (forall i | 0 <= i < k :: Answered(loaded[order[i]], agent(i), rows[order[i]]))
    && (forall p | 0 <= p < |rows| && p !in order[..k] ::
          || rows[p] == loaded[p]
          || (k < |order| && p == order[k] && loaded[p].status != SectionStatus.Completed &&
              rows[p] == loaded[p].(status := Running)))
  }

  /** The rows are those of Phase 2 somewhere on its way. */
  ghost predicate OnItsWay(loaded: seq<Row>, order: seq<nat>, agent: nat -> Generation, rows: seq<Row>) {
    exists k: nat :: Midway(loaded, order, agent, k, rows)
  }

  lemma SettledIsMidway(loaded: seq<Row>, order: seq<nat>, agent: nat -> Generation, rows: seq<Row>)
    requires SettledUpTo(loaded, order, agent, |order|, rows)
    ensures OnItsWay(loaded, order, agent, rows)
  {
    assert Midway(loaded, order, agent, |order|, rows);
  }

  lemma {:induction false} Phase2Cut(st: Store, r: Report, order: seq<nat>, agent: nat -> Generation, c: nat)
    requires Within(order, st.rows) && st.report == r
    requires forall i, j | 0 <= i < j < |order| :: order[i] != order[j]
    requires c <= |Phase2(r, st.rows, order, agent)|
    ensures OnItsWay(st.rows, order, agent, ApplyAll(st, Phase2(r, st.rows, order, agent)[..c]).rows)
  {
    var all := Phase2(r, st.rows, order, agent);
    if c == |all| {
      assert all[..c] == all;
      Phase2Result(st, r, order, agent);
      SettledIsMidway(st.rows, order, agent, ApplyAll(st, all).rows);
    } else {
      var n := |order| - 1;
      var p, ws := order[n], Phase2(r, st.rows, order[..n], agent);
      if c <= |ws| {
        assert all[..c] == ws[..c];
        Phase2Cut(st, r, order[..n], agent, c);
        WayLonger(st.rows, order, agent, ApplyAll(st, ws[..c]).rows);
      } else {
        Phase2Result(st, r, order[..n], agent);
        CutInLeaf(st, r, order, agent, c);
      }
    }
  }

  lemma WayLonger(loaded: seq<Row>, order: seq<nat>, agent: nat -> Generation, rows: seq<Row>)
    requires order != [] && Within(order, loaded) && OnItsWay(loaded, order[..|order| - 1], agent, rows)
    ensures OnItsWay(loaded, order, agent, rows)
  {
    hide Answered;
    var k: nat :| Midway(loaded, order[..|order| - 1], agent, k, rows);
    assert order[..|order| - 1][..k] == order[..k];
    assert Midway(loaded, order, agent, k, rows);
  }

  lemma LeafCut(st: Store, r: Report, row: Row, p: nat, k: nat, g: Generation, d: nat)
    requires row.status != SectionStatus.Completed && 0 < d < |LeafWrites(r, row, p, k, g)| && p < |st.rows|
    ensures var rows := ApplyAll(st, LeafWrites(r, row, p, k, g)[..d]).rows;
      rows == st.rows || rows == st.rows[p := row.(status := Running)]
  {
    var leaf := LeafWrites(r, row, p, k, g);
    if d == 1 {
      assert leaf[..1] == [leaf[0]];
      ApplyOne(st, leaf[0]);
    } else {
      assert leaf[..2] == [leaf[0], leaf[1]];
      ApplyTwo(st, leaf[0], leaf[1]);
    }
  }

  /** A cut among the writes of the last leaf. */
  lemma CutInLeaf(st: Store, r: Report, order: seq<nat>, agent: nat -> Generation, c: nat)
    requires order != [] && Within(order, st.rows)
    requires forall i, j | 0 <= i < j < |order| :: order[i] != order[j]
    requires |Phase2(r, st.rows, order[..|order| - 1], agent)| < c < |Phase2(r, st.rows, order, agent)|
    requires SettledUpTo(st.rows, order[..|order| - 1], agent, |order| - 1,
                         ApplyAll(st, Phase2(r, st.rows, order[..|order| - 1], agent)).rows)
    ensures OnItsWay(st.rows, order, agent, ApplyAll(st, Phase2(r, st.rows, order, agent)[..c]).rows)
  {
    var n := |order| - 1;
    var p, ws := order[n], Phase2(r, st.rows, order[..n], agent);
    var leaf := LeafWrites(r, st.rows[p], p, n, agent(n));
    var d := c - |ws|;
    var mid := ApplyAll(st, ws);
    hide Phase2, ApplyAll, SettledUpTo, OnItsWay, LeafWrites;
    assert (ws + leaf)[..c] == ws + leaf[..d];
    ApplyAppend(st, ws, leaf[..d]);
    LeafCut(mid, r, st.rows[p], p, n, agent(n), d);
    MidwayLast(st.rows, order, agent, mid.rows, ApplyAll(mid, leaf[..d]).rows);
  }

  lemma MidwayLast(loaded: seq<Row>, order: seq<nat>, agent: nat -> Generation, mid: seq<Row>, rows: seq<Row>)
    requires order != [] && Within(order, loaded) && loaded[order[|order| - 1]].status != SectionStatus.Completed
    requires forall i, j | 0 <= i < j < |order| :: order[i] != order[j]
    requires SettledUpTo(loaded, order[..|order| - 1], agent, |order| - 1, mid)
    requires rows == mid || rows == mid[order[|order| - 1] := loaded[order[|order| - 1]].(status := Running)]
    ensures OnItsWay(loaded, order, agent, rows)
  {
    hide Answered;
    var n := |order| - 1;
    assert order[..n][..n] == order[..n];
    assert Midway(loaded, order, agent, n, rows);
  }

  /** Wherever an attempt stops after the start of Phase 2, some number of leaves are settled as the agent answered,
    * at most the next one is marked running, and every other row is as loaded. */
  lemma CrashPoint(st: Store, a: Attempt, cut: nat)
    requires Legal(st, a) && ReachesPhase2(st, a) && cut >= |Head(st, a)|
    ensures OnItsWay(Loaded(st, a), a.inputs.order, a.inputs.agent, After(st, a, cut).rows)
  {
    hide OnItsWay, ApplyAll, Head, Loaded, Entering, Tail, Progress;
    HeadWhole(st, a);
    var entered, r, order := ApplyAll(st, Head(st, a)), Entering(st, a), a.inputs.order;
    var phase2 := Phase2(r, entered.rows, order, a.inputs.agent);
    if cut <= |Head(st, a)| {
      CutInHead(st, a, cut);
      assert Head(st, a)[..cut] == Head(st, a) && phase2[..0] == [];
      ApplyNone(entered);
      Phase2Cut(entered, r, order, a.inputs.agent, 0);
    } else {
      var c := CutInBody(st, a, cut);
      if c <= |phase2| {
        assert Body(st, a)[..c] == phase2[..c];
        Phase2Cut(entered, r, order, a.inputs.agent, c);
      } else {
        var tail := Tail(r.(current := Progress(r.current, entered.rows, order)), Restarts(st, a), a.inputs.merged);
        assert Body(st, a)[..c] == phase2 + tail[..c - |phase2|];
        ApplyAppend(entered, phase2, tail[..c - |phase2|]);
        TailKeepsRows(ApplyAll(entered, phase2), r.(current := Progress(r.current, entered.rows, order)),
                      Restarts(st, a), a.inputs.merged, c - |phase2|);
        assert phase2[..|phase2|] == phase2;
        Phase2Cut(entered, r, order, a.inputs.agent, |phase2|);
      }
    }
  }

  lemma ApplyNone(st: Store)
    ensures ApplyAll(st, []) == st
  {
  }

  lemma TailKeepsRows(st: Store, r: Report, restarts: bool, merged: string, d: nat)
    requires 0 < d <= |Tail(r, restarts, merged)|
    ensures ApplyAll(st, Tail(r, restarts, merged)[..d]).rows == st.rows
  {
    var ws := Tail(r, restarts, merged);
    if d == 1 {
      assert ws[..1] == [ws[0]];
      ApplyOne(st, ws[0]);
    } else {
      assert ws[..2] == [ws[0], ws[1]];
      ApplyTwo(st, ws[0], ws[1]);
    }
  }

  lemma {:induction false} Phase2Grows(r: Report, rows: seq<Row>, order: seq<nat>, agent: nat -> Generation, k: nat)
    requires Within(order, rows) && k <= |order|
    ensures Phase2(r, rows, order[..k], agent) <= Phase2(r, rows, order, agent)
  {
    if k == |order| {
      assert order[..k] == order;
    } else {
      var init := order[..|order| - 1];
      assert init[..k] == order[..k];
      Phase2Grows(r, rows, init, agent, k);
    }
  }

  lemma LeafBegun(st: Store, r: Report, row: Row, p: nat, k: nat, g: Generation)
    requires row.status != SectionStatus.Completed && p < |st.rows|
    ensures |LeafWrites(r, row, p, k, g)| == 3
    ensures ApplyAll(st, LeafWrites(r, row, p, k, g)[..2]) ==
      Store(r.(current := k), st.rows[p := row.(status := Running)])
  {
    var leaf := LeafWrites(r, row, p, k, g);
    assert leaf[..2] == [leaf[0], leaf[1]];
    ApplyTwo(st, leaf[0], leaf[1]);
  }

  /** The writes of Phase 2 up to the call of the agent for leaf `k`. */
  lemma Phase2Before(r: Report, rows: seq<Row>, order: seq<nat>, agent: nat -> Generation, k: nat)
    requires Within(order, rows) && k < |order| && rows[order[k]].status != SectionStatus.Completed
    ensures var before, all := Phase2(r, rows, order[..k], agent), Phase2(r, rows, order, agent);
      && |before| + 2 <= |all|
      && all[..|before| + 2] == before + LeafWrites(r, rows[order[k]], order[k], k, agent(k))[..2]
  {
    var before, all := Phase2(r, rows, order[..k], agent), Phase2(r, rows, order, agent);
    var leaf := LeafWrites(r, rows[order[k]], order[k], k, agent(k));
    assert |leaf| == 3;
    Phase2Next(r, rows, order, agent, k);
    Phase2Grows(r, rows, order, agent, k + 1);
    FrontOf(before, leaf, all, 2);
  }

  lemma FrontOf(a: seq<Write>, b: seq<Write>, all: seq<Write>, n: nat)
    requires a + b <= all && n <= |b|
    ensures all[..|a| + n] == a + b[..n]
  {
    assert all[..|a| + n] == (a + b)[..|a| + n];
  }

  lemma Phase2Next(r: Report, rows: seq<Row>, order: seq<nat>, agent: nat -> Generation, k: nat)
    requires Within(order, rows) && k < |order|
    ensures Phase2(r, rows, order[..k + 1], agent) ==
      Phase2(r, rows, order[..k], agent) + LeafWrites(r, rows[order[k]], order[k], k, agent(k))
  {
    hide LeafWrites;
    assert order[..k + 1][..k] == order[..k];
  }

  /** Phase 2 up to the call of the agent for leaf `k`. */
  lemma Phase2Begun(st: Store, r: Report, order: seq<nat>, agent: nat -> Generation, k: nat) returns (c: nat)
    requires Within(order, st.rows) && st.report == r && k < |order|
    requires forall i, j | 0 <= i < j < |order| :: order[i] != order[j]
    requires st.rows[order[k]].status != SectionStatus.Completed
    ensures 0 < c <= |Phase2(r, st.rows, order, agent)|
    ensures var now := ApplyAll(st, Phase2(r, st.rows, order, agent)[..c]);
      && now.report == r.(current := k) && |now.rows| == |st.rows|
      && now.rows[order[k]] == st.rows[order[k]].(status := Running)
      && SettledUpTo(st.rows, order[..k], agent, k, now.rows[order[k] := st.rows[order[k]]])
  {
    hide Phase2, ApplyAll, LeafWrites, Answered;
    var p, before := order[k], Phase2(r, st.rows, order[..k], agent);
    var leaf := LeafWrites(r, st.rows[p], p, k, agent(k));
    var mid := ApplyAll(st, before);
    Phase2Result(st, r, order[..k], agent);
    Phase2Before(r, st.rows, order, agent, k);
    LeafBegun(mid, r, st.rows[p], p, k, agent(k));
    ApplyAppend(st, before, leaf[..2]);
    c := |before| + 2;
    assert p !in order[..k] && order[..k][..k] == order[..k];
    var running := st.rows[p].(status := Running);
    assert mid.rows[p] == st.rows[p];
    assert mid.rows[p := running][p := st.rows[p]] == mid.rows;
  }

  /** While the agent works on a leaf, the leaf is marked running, CurrentSection is its number, the leaves before it
    * are settled, and the rest is as loaded. */
  lemma WhileGenerating(st: Store, a: Attempt, k: nat) returns (cut: nat)
    requires Legal(st, a) && ReachesPhase2(st, a) && k < |a.inputs.order|
    requires Loaded(st, a)[a.inputs.order[k]].status != SectionStatus.Completed
    ensures var now, loaded, order := After(st, a, cut), Loaded(st, a), a.inputs.order;
      && now.report == Entering(st, a).(current := k) && |now.rows| == |loaded|
      && now.rows[order[k]] == loaded[order[k]].(status := Running)
      && SettledUpTo(loaded, order[..k], a.inputs.agent, k, now.rows[order[k] := loaded[order[k]]])
  {
    hide ApplyAll, Head, Loaded, Entering, Tail, Progress, SettledUpTo, Phase2;
    HeadWhole(st, a);
    var entered, r, order := ApplyAll(st, Head(st, a)), Entering(st, a), a.inputs.order;
    var c := Phase2Begun(entered, r, order, a.inputs.agent, k);
    var phase2 := Phase2(r, entered.rows, order, a.inputs.agent);
    cut := |Head(st, a)| + c;
    var c' := CutInBody(st, a, cut);
    assert Body(st, a)[..c] == phase2[..c];
  }

  predicate AnalyzingReady(r: Report) {
    r.status == Analyzing && r.repoReady
  }

  predicate GeneratingReady(r: Report) {
    r.status == Generating && r.repoReady
  }

  predicate Open(r: Report) {
    r.status != ReportStatus.Completed
  }

  /** A report that the write saves satisfies `ok`. */
  predicate Saves(w: Write, ok: Report -> bool) {
    w.SaveReport? ==> ok(w.report)
  }

  predicate AllSave(ws: seq<Write>, ok: Report -> bool) {
    forall i | 0 <= i < |ws| :: Saves(ws[i], ok)
  }

  lemma {:induction false} StaysOk(st: Store, ws: seq<Write>, ok: Report -> bool)
    requires ok(st.report) && AllSave(ws, ok)
    ensures ok(ApplyAll(st, ws).report)
  {
    if ws == [] {
    } else {
      StaysOk(st, ws[..|ws| - 1], ok);
    }
  }

  lemma AllSaveAppend(a: seq<Write>, b: seq<Write>, ok: Report -> bool)
    requires AllSave(a, ok) && AllSave(b, ok)
    ensures AllSave(a + b, ok)
  {
  }

  lemma {:induction false} Phase2Save(r: Report, rows: seq<Row>, order: seq<nat>, agent: nat -> Generation,
                                      ok: Report -> bool)
    requires Within(order, rows) && forall k: nat :: ok(r.(current := k))
    ensures AllSave(Phase2(r, rows, order, agent), ok)
  {
    if order == [] {
    } else {
      var n := |order| - 1;
      Phase2Save(r, rows, order[..n], agent, ok);
      AllSaveAppend(Phase2(r, rows, order[..n], agent), LeafWrites(r, rows[order[n]], order[n], n, agent(n)), ok);
    }
  }

  /** All writes of Body but the last save the report as it enters Phase 2, progress and content aside. */
  lemma BodySave(st: Store, a: Attempt, c: nat, ok: Report -> bool)
    requires Legal(st, a) && ReachesPhase2(st, a) && c < |Body(st, a)|
    requires forall k: nat, content :: ok(Entering(st, a).(current := k, content := content))
    ensures AllSave(Body(st, a)[..c], ok)
  {
    hide Phase2, Progress, Loaded, Entering;
    var r, rows, order := Entering(st, a), Loaded(st, a), a.inputs.order;
    forall k: nat ensures ok(r.(current := k)) {
      assert r.(current := k) == r.(current := k, content := r.content);
    }
    Phase2Save(r, rows, order, a.inputs.agent, ok);
    var phase2 := Phase2(r, rows, order, a.inputs.agent);
    var tail := Tail(r.(current := Progress(r.current, rows, order)), Restarts(st, a), a.inputs.merged);
    assert |tail| <= 2 && Saves(tail[0], ok) && Body(st, a) == phase2 + tail;
  }

  /** Stopping in Phase 2 or later, but before its last write, an attempt leaves the report as it entered Phase 2,
    * progress and content aside. */
  lemma BodyKeeps(st: Store, a: Attempt, cut: nat, ok: Report -> bool)
    requires Legal(st, a) && ReachesPhase2(st, a) && |Head(st, a)| <= cut < |Writes(st, a)|
    requires forall k: nat, content :: ok(Entering(st, a).(current := k, content := content))
    ensures ok(After(st, a, cut).report)
  {
    HeadWhole(st, a);
    hide Head, Body, Entering, ApplyAll;
    var r := Entering(st, a);
    assert r == r.(current := r.current, content := r.content);
    if cut == |Head(st, a)| {
      CutInHead(st, a, cut);
      assert Head(st, a)[..cut] == Head(st, a);
    } else {
      var c := CutInBody(st, a, cut);
      BodySave(st, a, c, ok);
      StaysOk(ApplyAll(st, Head(st, a)), Body(st, a)[..c], ok);
    }
  }

  lemma HeadAnalyzing(st: Store, a: Attempt, cut: nat)
    requires Restarts(st, a) && ReachesPhase2(st, a) && 0 < cut < |Head(st, a)|
    ensures Head(st, a)[0] == SaveReport(st.report.(status := Analyzing))
    ensures cut >= 2 ==> Head(st, a)[1] == SaveReport(st.report.(status := Analyzing, repoReady := true))
    ensures forall i | 2 <= i < cut :: !Head(st, a)[i].SaveReport?
  {
  }

  /** From its first write until its structure is saved, a restarted report is analyzing, and from its second write on
    * its repository is known to be prepared. */
  lemma AnalyzingInPhase1(st: Store, a: Attempt, cut: nat)
    requires Legal(st, a) && Restarts(st, a) && ReachesPhase2(st, a) && 0 < cut < |Head(st, a)|
    ensures After(st, a, cut).report.status == Analyzing && (cut >= 2 ==> After(st, a, cut).report.repoReady)
  {
    HeadAnalyzing(st, a, cut);
    CutInHead(st, a, cut);
    hide Head, ApplyAll, Restarts, ReachesPhase2, Legal;
    var ws := Head(st, a)[..cut];
    var begun := ws[0].report;
    assert ws[0] == SaveReport(begun) && begun.status == Analyzing;
    forall i | 2 <= i < |ws| ensures !ws[i].SaveReport? { assert ws[i] == Head(st, a)[i]; }
    OnlySaves(st, ws, begun);
  }

  lemma OnlySaves(st: Store, ws: seq<Write>, begun: Report)
    requires ws != [] && ws[0] == SaveReport(begun) && begun.status == Analyzing
    requires |ws| >= 2 ==> ws[1] == SaveReport(begun.(repoReady := true))
    requires forall i | 2 <= i < |ws| :: !ws[i].SaveReport?
    ensures var r := ApplyAll(st, ws).report; r.status == Analyzing && (|ws| >= 2 ==> r.repoReady)
  {
    hide ApplyAll;
    if |ws| == 1 {
      assert ws == [ws[0]];
      ApplyOne(st, ws[0]);
    } else {
      var first, more := [ws[0], ws[1]], ws[2..];
      ApplyTwo(st, ws[0], ws[1]);
      assert ws == first + more;
      ApplyAppend(st, first, more);
      StaysOk(ApplyAll(st, first), more, AnalyzingReady);
    }
  }

  /** From there to its last write but one an attempt leaves it generating, with the repository prepared. */
  lemma GeneratingInPhase2(st: Store, a: Attempt, cut: nat)
    requires Legal(st, a) && ReachesPhase2(st, a) && |Head(st, a)| <= cut < |Writes(st, a)|
    ensures After(st, a, cut).report.status == Generating && After(st, a, cut).report.repoReady
  {
    BodyKeeps(st, a, cut, GeneratingReady);
  }

  /** A Resume that has to prepare the repository again records that before it goes on. */
  lemma PreparedFirst(st: Store, a: Attempt)
    requires Legal(st, a) && ReachesPhase2(st, a) && !Restarts(st, a) && !st.report.repoReady
    ensures After(st, a, 1) == st.(report := st.report.(repoReady := true))
  {
    assert Head(st, a)[..1] == [SaveReport(st.report.(repoReady := true))];
    CutInHead(st, a, 1);
    ApplyOne(st, SaveReport(st.report.(repoReady := true)));
  }

  lemma HeadOpen(st: Store, a: Attempt, cut: nat)
    requires st.report.status != ReportStatus.Completed && cut <= |Head(st, a)|
    requires !ReachesPhase2(st, a) || cut < |Head(st, a)|
    ensures AllSave(Head(st, a)[..cut], Open)
  {
  }

  /** An attempt that stops before its last write leaves the report open. */
  lemma OpenBefore(st: Store, a: Attempt, cut: nat)
    requires Legal(st, a) && st.report.status != ReportStatus.Completed && cut < |Writes(st, a)|
    ensures After(st, a, cut).report.status != ReportStatus.Completed
  {
    if cut < |Head(st, a)| {
      HeadOpen(st, a, cut);
      CutInHead(st, a, cut);
      StaysOk(st, Head(st, a)[..cut], Open);
    } else {
      GeneratingInPhase2(st, a, cut);
    }
  }

  /** A crash never leaves a report completed early: a report that an attempt has marked completed has every leaf
    * settled and the merged content stored. */
  lemma CompletedIsWhole(st: Store, a: Attempt, cut: nat)
    requires Legal(st, a) && st.report.status != ReportStatus.Completed
    requires After(st, a, cut).report.status == ReportStatus.Completed
    ensures After(st, a, cut) == Finish(st, a) && After(st, a, cut).report.content == a.inputs.merged
    ensures forall p | 0 <= p < |After(st, a, cut).rows| && After(st, a, cut).rows[p].leaf ::
      After(st, a, cut).rows[p].status in {SectionStatus.Completed, SectionStatus.Failed}
  {
    if cut < |Writes(st, a)| {
      OpenBefore(st, a, cut);
      assert false;
    } else {
      CompletedIff(st, a);
      EndReport(st, a);
      forall p | 0 <= p < |Finish(st, a).rows| && Finish(st, a).rows[p].leaf
        ensures Finish(st, a).rows[p].status in {SectionStatus.Completed, SectionStatus.Failed}
      {
        EveryLeafEnds(st, a, p);
      }
    }
  }

  // ---------- Sections and structure ----------

  /** The section table holds exactly the sections of the saved structure. */
  predicate Consistent(st: Store) {
    RowsOf(st.report.structure, st.rows)
  }

  lemma RowsStay(ss: seq<Section>, x: seq<Row>, y: seq<Row>)
    requires RowsOf(ss, x) && Extends(x, y) && |y| == |x|
    ensures RowsOf(ss, y)
  {
    forall p | 0 <= p < |y| ensures SameSection(Flatten(ss)[p], y[p]) {
      assert SameSection(Flatten(ss)[p], x[p]) && SameSection(x[p], y[p]);
    }
  }

  /** The attempt gets as far as creating a section row. */
  predicate CreatesRows(st: Store, a: Attempt, cut: nat) {
    Restarts(st, a) && ReachesPhase2(st, a) && cut >= 3
  }

  /** A restart that is cut while it creates rows. */
  lemma CutInCreates(st: Store, a: Attempt, cut: nat)
    requires Legal(st, a) && CreatesRows(st, a, cut) && cut < |Head(st, a)|
    ensures |After(st, a, cut).rows| == |st.rows| + cut - 2 && After(st, a, cut).report.structure == st.report.structure
  {
    var rows := Flatten(a.inputs.structure.value);
    var analyzing := st.report.(status := Analyzing);
    var first := [SaveReport(analyzing), SaveReport(analyzing.(repoReady := true))];
    assert Head(st, a)[..cut] == first + Creates(rows)[..cut - 2];
    assert Creates(rows)[..cut - 2] == Creates(rows[..cut - 2]);
    CutInHead(st, a, cut);
    ApplyAppend(st, first, Creates(rows[..cut - 2]));
    ApplyTwo(st, first[0], first[1]);
    ApplyCreates(ApplyAll(st, first), rows[..cut - 2]);
  }

  /** A restart that is cut later, or not at all. */
  lemma CutAfterCreates(st: Store, a: Attempt, cut: nat)
    requires Legal(st, a) && CreatesRows(st, a, cut) && cut >= |Head(st, a)|
    ensures |After(st, a, cut).rows| == |st.rows| + |Flatten(a.inputs.structure.value)|
    ensures Extends(st.rows + Flatten(a.inputs.structure.value), After(st, a, cut).rows)
    ensures After(st, a, cut).report.structure == a.inputs.structure.value
  {
    RestartEnters(st, a);
    if cut == |Head(st, a)| {
      CutInHead(st, a, cut);
      assert Head(st, a)[..cut] == Head(st, a);
    } else {
      var c := CutInBody(st, a, cut);
      BodyCut(st, a, c);
    }
  }

  lemma RestartEnters(st: Store, a: Attempt)
    requires Restarts(st, a) && ReachesPhase2(st, a)
    ensures var entered, ss := ApplyAll(st, Head(st, a)), a.inputs.structure.value;
      entered.rows == st.rows + Flatten(ss) && entered.report.structure == ss && Loaded(st, a) == st.rows + Flatten(ss)
  {
    HeadWhole(st, a);
  }

  predicate KeepsStructure(w: Write, structure: seq<Section>) {
    w.SaveReport? && w.report.structure == structure
  }

  lemma {:induction false} KeepsPrefix(st: Store, ws: seq<Write>)
    requires forall w | w in ws :: KeepsStructure(w, st.report.structure)
    ensures ApplyAll(st, ws).rows == st.rows && ApplyAll(st, ws).report.structure == st.report.structure
  {
    if ws == [] {
    } else {
      assert ws[|ws| - 1] in ws;
      KeepsPrefix(st, ws[..|ws| - 1]);
    }
  }

  lemma HeadKeeps(st: Store, a: Attempt, cut: nat)
    requires !CreatesRows(st, a, cut)
    ensures forall w | w in Head(st, a)[..if cut < |Head(st, a)| then cut else |Head(st, a)|] ::
      KeepsStructure(w, st.report.structure)
  {
  }

  /** Without a new row, the table keeps its sections and the report its structure. */
  lemma NoNewRows(st: Store, a: Attempt, cut: nat)
    requires Legal(st, a) && !CreatesRows(st, a, cut)
    ensures |After(st, a, cut).rows| == |st.rows| && Extends(st.rows, After(st, a, cut).rows)
    ensures After(st, a, cut).report.structure == st.report.structure
  {
    var head := Head(st, a);
    HeadKeeps(st, a, cut);
    hide Head, KeepsStructure, CreatesRows;
    if cut <= |head| {
      CutInHead(st, a, cut);
      KeepsPrefix(st, head[..cut]);
    } else {
      KeepsPrefix(st, head);
      var c := CutInBody(st, a, cut);
      BodyCut(st, a, c);
      if ReachesPhase2(st, a) {
        HeadWhole(st, a);
      } else {
        assert Body(st, a)[..c] == [];
      }
    }
  }

  /** An attempt keeps table and structure in step exactly when it creates no row, or starts from an empty table
    * and lives until the structure is saved. */
  lemma ConsistentIff(st: Store, a: Attempt, cut: nat)
    requires Legal(st, a) && Consistent(st)
    ensures Consistent(After(st, a, cut)) <==>
      !CreatesRows(st, a, cut) || (st.rows == [] && cut >= 3 + |Flatten(a.inputs.structure.value)|)
  {
    if !CreatesRows(st, a, cut) {
      NoNewRows(st, a, cut);
      RowsStay(st.report.structure, st.rows, After(st, a, cut).rows);
    } else {
      var ss := a.inputs.structure.value;
      assert |Head(st, a)| == 3 + |Flatten(ss)|;
      if cut < |Head(st, a)| {
        CutInCreates(st, a, cut);
      } else {
        CutAfterCreates(st, a, cut);
        if st.rows == [] {
          assert st.rows + Flatten(ss) == Flatten(ss);
        }
      }
    }
  }
}
