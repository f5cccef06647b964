/** The report engine over its store (internal/report/engine.go). */
module ReportEngines {
  import opened Options
  import opened ReportOutline
  import opened ReportSummaries
  import opened ReportRun
  import opened ReportResume

  class Engine {
    /** The stored report and the stored section table. */
    var report: Report
    var rows: seq<Row>

    /** Every write so far, in order: the crash points. */
    ghost var writes: seq<Write>

    function Stored(): Store
      reads this
    {
      Store(report, rows)
    }

    constructor (r: Report)
      ensures Stored() == Store(r, []) && writes == []
    {
      report, rows, writes := r, [], [];
    }

    method Save(r: Report)
      modifies this
      ensures Stored() == Apply(old(Stored()), SaveReport(r)) && writes == old(writes) + [SaveReport(r)]
    {
      report := r;
      writes := writes + [SaveReport(r)];
    }

    method Create(row: Row)
      modifies this
      ensures Stored() == Apply(old(Stored()), CreateSection(row)) && writes == old(writes) + [CreateSection(row)]
    {
      rows := rows + [row];
      writes := writes + [CreateSection(row)];
    }

    method Update(p: nat, row: Row)
      requires p < |rows|
      modifies this
      ensures Stored() == Apply(old(Stored()), UpdateSection(p, row)) && writes == old(writes) + [UpdateSection(p, row)]
    {
      rows := rows[p := row];
      writes := writes + [UpdateSection(p, row)];
    }

    /** The end of Phase 1: one row a section, then the report with its structure. */
    method SaveStructure(r: Report, ss: seq<Section>) returns (r': Report)
      modifies this
      ensures r' == r.(structure := ss, total := |LeafRows(Flatten(ss))|, status := Generating)
      ensures writes == old(writes) + (Creates(Flatten(ss)) + [SaveReport(r')])
      ensures Stored() == ApplyAll(old(Stored()), Creates(Flatten(ss)) + [SaveReport(r')])
    {
      r' := r.(structure := ss);
      var total := CountLeafSections(ss);
      r' := r'.(total := total);
      var sections := StructureToModel(ss);
      CreateAll(sections);
      r' := r'.(status := Generating);
      ghost var ws := Creates(sections);
      assert (ws + [SaveReport(r')])[..|ws|] == ws;
      Save(r');
    }

    method CreateAll(sections: seq<Row>)
      modifies this
      ensures writes == old(writes) + Creates(sections) && Stored() == ApplyAll(old(Stored()), Creates(sections))
    {
      ghost var ws := Creates(sections);
      for i := 0 to |sections|
        invariant writes == old(writes) + ws[..i] && Stored() == ApplyAll(old(Stored()), ws[..i])
      {
        assert ws[..i + 1] == ws[..i] + [ws[i]] && ws[..i + 1][..i] == ws[..i];
        Create(sections[i]);
      }
      assert ws[..|sections|] == ws;
    }

    /** One leaf: skipped when it was completed, otherwise started, generated and settled. */
    method GenerateLeaf(r: Report, section: Row, p: nat, leafIndex: nat, g: Generation) returns (r': Report)
      requires p < |rows|
      modifies this
      ensures r' == if section.status == SectionStatus.Completed then r else r.(current := leafIndex)
      ensures writes == old(writes) + LeafWrites(r, section, p, leafIndex, g)
      ensures Stored() == ApplyAll(old(Stored()), LeafWrites(r, section, p, leafIndex, g))
      ensures |rows| == |old(rows)|
    {
      r' := r;
      if section.status == SectionStatus.Completed {
        return;
      }
      r' := r.(current := leafIndex);
      ghost var start := Stored();
      Save(r');
      var s := section.(status := Running);
      Update(p, s);
      match g {
        case Broken(message) =>
          s := s.(status := SectionStatus.Failed, error := message);
        case Generated(content, summary) =>
          s := s.(content := content, summary := summary, status := SectionStatus.Completed);
      }
      Update(p, s);
      ApplyThree(start, SaveReport(r'), UpdateSection(p, Started(section)), UpdateSection(p, s));
    }

    /** runPhase2; `order` is the database's answer to the query for leaf sections. */
    method RunPhase2(r: Report, order: seq<nat>, agent: nat -> Generation) returns (r': Report)
      requires Within(order, rows)
      modifies this
      ensures r' == r.(current := Progress(r.current, old(rows), order))
      ensures writes == old(writes) + Phase2(r, old(rows), order, agent)
      ensures Stored() == ApplyAll(old(Stored()), Phase2(r, old(rows), order, agent))
    {
      var sections := rows;
      ghost var start, before := Stored(), writes;
      r' := r;
      for i := 0 to |order|
        invariant |rows| == |sections| && Within(order[..i], sections)
        invariant r' == r.(current := Progress(r.current, sections, order[..i]))
        invariant writes == before + Phase2(r, sections, order[..i], agent)
        invariant Stored() == ApplyAll(start, Phase2(r, sections, order[..i], agent))
      {
        Phase2Step(start, before, r, sections, order, i, agent);
        r' := GenerateLeaf(r', sections[order[i]], order[i], i, agent(i));
      }
      assert order[..|order|] == order;
    }

    /** runPhase3; the merged text is given. */
    method RunPhase3(r: Report, merged: string) returns (r': Report)
      modifies this
      ensures r' == r.(content := merged)
      ensures Stored() == Apply(old(Stored()), SaveReport(r')) && writes == old(writes) + [SaveReport(r')]
    {
      r' := r.(content := merged);
      Save(r');
    }

    /** Phases 2 and 3 as both Run and Resume go through them. */
    method Generate(r: Report, x: Inputs) returns (r': Report)
      requires Within(x.order, rows)
      modifies this
      ensures r' == r.(current := Progress(r.current, old(rows), x.order), content := x.merged)
      ensures var ws := Phase2(r, old(rows), x.order, x.agent) + [SaveReport(r')];
        writes == old(writes) + ws && Stored() == ApplyAll(old(Stored()), ws)
    {
      ghost var start, before, phase2 := Stored(), writes, Phase2(r, rows, x.order, x.agent);
      r' := RunPhase2(r, x.order, x.agent);
      r' := RunPhase3(r', x.merged);
      Chain(start, before, phase2, [SaveReport(r')]);
      ApplyOne(ApplyAll(start, phase2), SaveReport(r'));
    }

    method HandleError(r: Report, context: string, failure: string)
      modifies this
      ensures Stored() == Apply(old(Stored()), SaveReport(Fail(r, context, failure)))
      ensures writes == old(writes) + [SaveReport(Fail(r, context, failure))]
    {
      Save(r.(status := ReportStatus.Failed, error := context + ": " + failure));
    }

    /** Phases 0 and 1 of Run. */
    method Begin(x: Inputs) returns (r: Option<Report>)
      modifies this
      ensures var st, a := old(Stored()), Attempt(false, x);
        && writes == old(writes) + Head(st, a) && Stored() == ApplyAll(st, Head(st, a))
        && r == if ReachesPhase2(st, a) then Some(Entering(st, a)) else None
    {
      ghost var st, before := Stored(), writes;
      var r0 := report.(status := Analyzing);
      Save(r0);
      if !x.prepared {
        HandleError(r0, "repository preparation failed", x.failure);
        BeginsUnprepared(st, x);
        return None;
      }
      var r1 := r0.(repoReady := true);
      Save(r1);
      match x.structure {
        case None =>
          HandleError(r1, "structure generation failed", x.failure);
          BeginsUnstructured(st, x);
          return None;
        case Some(ss) =>
          var r2 := SaveStructure(r1, ss);
          BeginsWhole(st, before, x);
          return Some(r2);
      }
    }

    method Run(x: Inputs) returns (ok: bool)
      requires Legal(Stored(), Attempt(false, x))
      modifies this
      ensures var st, a := old(Stored()), Attempt(false, x);
        && writes == old(writes) + Writes(st, a) && Stored() == Finish(st, a) && ok == ReachesPhase2(st, a)
    {
      ghost var st, before, a := Stored(), writes, Attempt(false, x);
      var r := Begin(x);
      if r.None? {
        assert Writes(st, a) == Head(st, a);
        return false;
      }
      HeadWhole(st, a);
      ghost var phase2 := Phase2(r.value, rows, x.order, x.agent);
      var r' := Generate(r.value, x);
      var done := r'.(status := ReportStatus.Completed);
      Save(done);
      WholeRun(st, before, Head(st, a), phase2, SaveReport(r'), SaveReport(done));
      ok := true;
    }

    /** Refuses a completed report, restarts one without structure, and otherwise goes on in Phase 2. */
    method Resume(x: Inputs) returns (ok: bool)
      requires Legal(Stored(), Attempt(true, x))
      modifies this
      ensures var st, a := old(Stored()), Attempt(true, x);
        && writes == old(writes) + Writes(st, a) && Stored() == Finish(st, a) && ok == ReachesPhase2(st, a)
    {
      if report.status == ReportStatus.Completed {
        return false;
      }
      if |report.structure| == 0 {
        RestartIsRun(Stored(), x);
        ok := Run(x);
        return;
      }
      ok := Continue(x);
    }

    /** Resume from Phase 2. */
    method Continue(x: Inputs) returns (ok: bool)
      requires Legal(Stored(), Attempt(true, x)) && report.status != ReportStatus.Completed && report.structure != []
      modifies this
      ensures var st, a := old(Stored()), Attempt(true, x);
        && writes == old(writes) + Writes(st, a) && Stored() == Finish(st, a) && ok == ReachesPhase2(st, a)
    {
      ghost var st, before, a := Stored(), writes, Attempt(true, x);
      hide Head, Phase2;
      var r := Reenter(x);
      if r.None? {
        assert Writes(st, a) == Head(st, a);
        return false;
      }
      HeadWhole(st, a);
      ghost var phase2 := Phase2(r.value, rows, x.order, x.agent);
      var r' := Generate(r.value, x);
      Chain(st, before, Head(st, a), phase2 + [SaveReport(r')]);
      assert Writes(st, a) == Head(st, a) + (phase2 + [SaveReport(r')]);
      ok := true;
    }

    /** What Resume does before Phase 2. */
    method Reenter(x: Inputs) returns (r: Option<Report>)
      requires report.status != ReportStatus.Completed && report.structure != []
      modifies this
      ensures var st, a := old(Stored()), Attempt(true, x);
        && writes == old(writes) + Head(st, a) && Stored() == ApplyAll(st, Head(st, a))
        && r == if ReachesPhase2(st, a) then Some(Entering(st, a)) else None
    {
      ghost var st, a := Stored(), Attempt(true, x);
      var r0 := report;
      if !r0.repoReady {
        if !x.prepared {
          HandleError(r0, "repository preparation failed", x.failure);
          ApplyOne(st, Head(st, a)[0]);
          return None;
        }
        r0 := r0.(repoReady := true);
        Save(r0);
        ApplyTwo(st, SaveReport(r0), SaveReport(Entering(st, a)));
      } else {
        ApplyOne(st, SaveReport(Entering(st, a)));
      }
      r0 := r0.(status := Generating);
      Save(r0);
      r := Some(r0);
    }
  }

  lemma WholeRun(st: Store, before: seq<Write>, head: seq<Write>, phase2: seq<Write>, w: Write, x: Write)
    ensures before + (head + (phase2 + ([w] + [x]))) == before + head + (phase2 + [w]) + [x]
    ensures ApplyAll(st, head + (phase2 + ([w] + [x]))) == Apply(ApplyAll(ApplyAll(st, head), phase2 + [w]), x)
  {
    assert phase2 + ([w] + [x]) == phase2 + [w] + [x];
    Chain(st, before, head, phase2 + [w] + [x]);
    Chain(ApplyAll(st, head), before + head, phase2 + [w], [x]);
    ApplyOne(ApplyAll(ApplyAll(st, head), phase2 + [w]), x);
  }

  lemma BeginsUnprepared(st: Store, x: Inputs)
    requires !x.prepared
    ensures var a, r := Attempt(false, x), st.report.(status := Analyzing);
      var ws := [SaveReport(r), SaveReport(Fail(r, "repository preparation failed", x.failure))];
      Head(st, a) == ws && ApplyAll(st, ws) == Apply(Apply(st, ws[0]), ws[1])
  {
    var r := st.report.(status := Analyzing);
    ApplyTwo(st, SaveReport(r), SaveReport(Fail(r, "repository preparation failed", x.failure)));
  }

  lemma BeginsUnstructured(st: Store, x: Inputs)
    requires x.prepared && x.structure.None?
    ensures var a, r := Attempt(false, x), st.report.(status := Analyzing);
      var ready := r.(repoReady := true);
      var ws := [SaveReport(r), SaveReport(ready), SaveReport(Fail(ready, "structure generation failed", x.failure))];
      Head(st, a) == ws && ApplyAll(st, ws) == Apply(Apply(Apply(st, ws[0]), ws[1]), ws[2])
  {
    var r := st.report.(status := Analyzing);
    var ready := r.(repoReady := true);
    ApplyThree(st, SaveReport(r), SaveReport(ready), SaveReport(Fail(ready, "structure generation failed", x.failure)));
  }

  lemma BeginsWhole(st: Store, before: seq<Write>, x: Inputs)
    requires x.prepared && x.structure.Some?
    ensures var a, r := Attempt(false, x), st.report.(status := Analyzing);
      var ready := r.(repoReady := true);
      var rest := Creates(Flatten(x.structure.value)) + [SaveReport(Entering(st, a))];
      && before + Head(st, a) == before + [SaveReport(r)] + [SaveReport(ready)] + rest
      && ApplyAll(st, Head(st, a)) == ApplyAll(Apply(Apply(st, SaveReport(r)), SaveReport(ready)), rest)
  {
    var a, r := Attempt(false, x), st.report.(status := Analyzing);
    var ready := r.(repoReady := true);
    TwoThen(st, before, SaveReport(r), SaveReport(ready),
            Creates(Flatten(x.structure.value)) + [SaveReport(Entering(st, a))]);
    HeadWithStructure(st, x);
  }

  lemma HeadWithStructure(st: Store, x: Inputs)
    requires x.prepared && x.structure.Some?
    ensures var a, r := Attempt(false, x), st.report.(status := Analyzing);
      Head(st, a) == [SaveReport(r), SaveReport(r.(repoReady := true))] +
                     (Creates(Flatten(x.structure.value)) + [SaveReport(Entering(st, a))])
  {
  }

  lemma TwoThen(st: Store, before: seq<Write>, w: Write, x: Write, rest: seq<Write>)
    ensures before + ([w, x] + rest) == before + [w] + [x] + rest
    ensures ApplyAll(st, [w, x] + rest) == ApplyAll(Apply(Apply(st, w), x), rest)
  {
    ApplyTwo(st, w, x);
    Chain(st, before, [w, x], rest);
  }

  /** One more leaf: the writes so far, then those of the leaf. */
  lemma Phase2Step(st: Store, before: seq<Write>, r: Report, rows: seq<Row>, order: seq<nat>, i: nat,
                   agent: nat -> Generation)
    requires i < |order| && Within(order, rows)
    ensures var done, next := Phase2(r, rows, order[..i], agent), Phase2(r, rows, order[..i + 1], agent);
      var r' := r.(current := Progress(r.current, rows, order[..i]));
      var more := LeafWrites(r', rows[order[i]], order[i], i, agent(i));
      && before + next == before + done + more && ApplyAll(st, next) == ApplyAll(ApplyAll(st, done), more)
    ensures Progress(r.current, rows, order[..i + 1]) ==
      if rows[order[i]].status == SectionStatus.Completed then Progress(r.current, rows, order[..i]) else i
  {
    assert order[..i + 1][..i] == order[..i];
    var done, more := Phase2(r, rows, order[..i], agent), LeafWrites(r, rows[order[i]], order[i], i, agent(i));
    Chain(st, before, done, more);
  }

  lemma Chain(st: Store, before: seq<Write>, a: seq<Write>, b: seq<Write>)
    ensures ApplyAll(st, a + b) == ApplyAll(ApplyAll(st, a), b)
    ensures before + (a + b) == (before + a) + b
  {
    ApplyAppend(st, a, b);
  }

  lemma RestartIsRun(st: Store, x: Inputs)
    requires st.report.status != ReportStatus.Completed && st.report.structure == []
    ensures Legal(st, Attempt(true, x)) <==> Legal(st, Attempt(false, x))
    ensures Legal(st, Attempt(true, x)) ==> Writes(st, Attempt(true, x)) == Writes(st, Attempt(false, x))
    ensures ReachesPhase2(st, Attempt(true, x)) == ReachesPhase2(st, Attempt(false, x))
  {
  }
}
