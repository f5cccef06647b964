/** Generating a report: Run and Resume of internal/report/engine.go as the store writes they make.
  *
  * Every write is one transaction, so a crash leaves some prefix of an attempt's writes behind.
  * The section table is append-only; a row's primary key is its position.
  */
module ReportRun {
  import opened Options
  import opened ReportOutline
  import opened ReportSummaries

  datatype ReportStatus = Pending | Analyzing | Generating | Completed | Failed | Cancelled

  /** `structure` is [] until Phase 1 has been saved. */
  datatype Report = Report(status: ReportStatus, structure: seq<Section>, repoReady: bool, current: nat, total: nat,
                           content: string, error: string)

  datatype Store = Store(report: Report, rows: seq<Row>)

  datatype Write = SaveReport(report: Report) | CreateSection(row: Row) | UpdateSection(p: nat, row: Row)

  function Apply(st: Store, w: Write): Store {
    match w
    case SaveReport(r) => st.(report := r)
    case CreateSection(row) => st.(rows := st.rows + [row])
    case UpdateSection(p, row) => if p < |st.rows| then st.(rows := st.rows[p := row]) else st
  }

  function ApplyAll(st: Store, ws: seq<Write>): Store {
    if ws == [] then st else Apply(ApplyAll(st, ws[..|ws| - 1]), ws[|ws| - 1])
  }

  /** What the agent makes of one section. */
  datatype Generation = Generated(content: string, summary: string) | Broken(message: string)

  /** What an attempt meets: whether the repository can be prepared, the structure Phase 1 gets, the order in
    * which the database returns the leaf rows, the agent, the merged text, and the text of an error. */
  datatype Inputs = Inputs(prepared: bool, structure: Option<seq<Section>>, order: seq<nat>, agent: nat -> Generation,
                           merged: string, failure: string)

  /** A call of Run or Resume. */
  datatype Attempt = Attempt(resume: bool, inputs: Inputs)

  // ---------- Phase 2 ----------

  function Started(row: Row): Row {
    row.(status := Running)
  }

  function Finished(row: Row, g: Generation): Row {
    match g
    case Generated(content, summary) =>
      Started(row).(content := content, summary := summary, status := SectionStatus.Completed)
    case Broken(message) => Started(row).(status := SectionStatus.Failed, error := message)
  }

  function LeafWrites(r: Report, row: Row, p: nat, k: nat, g: Generation): seq<Write> {
    if row.status == SectionStatus.Completed then []
    else [SaveReport(r.(current := k)), UpdateSection(p, Started(row)), UpdateSection(p, Finished(row, g))]
  }

  predicate Within(order: seq<nat>, rows: seq<Row>) {
    forall k | 0 <= k < |order| :: order[k] < |rows|
  }

  function Phase2(r: Report, rows: seq<Row>, order: seq<nat>, agent: nat -> Generation): seq<Write>
    requires Within(order, rows)
  {
    if order == [] then []
    else
      var n := |order| - 1;
      Phase2(r, rows, order[..n], agent) + LeafWrites(r, rows[order[n]], order[n], n, agent(n))
  }

  /** CurrentSection once the leaves in `order` are done. */
  function Progress(current: nat, rows: seq<Row>, order: seq<nat>): nat
    requires Within(order, rows)
  {
    if order == [] then current
    else
      var n := |order| - 1;
      if rows[order[n]].status == SectionStatus.Completed then Progress(current, rows, order[..n]) else n
  }

  // ---------- Attempts ----------

  function Fail(r: Report, context: string, failure: string): Report {
    r.(status := ReportStatus.Failed, error := context + ": " + failure)
  }

  predicate Refused(st: Store, a: Attempt) {
    a.resume && st.report.status == ReportStatus.Completed
  }

  /** Run, or a Resume that finds no structure. */
  predicate Restarts(st: Store, a: Attempt) {
    !Refused(st, a) && (!a.resume || st.report.structure == [])
  }

  predicate ReachesPhase2(st: Store, a: Attempt) {
    if Restarts(st, a) then a.inputs.prepared && a.inputs.structure.Some?
    else !Refused(st, a) && (st.report.repoReady || a.inputs.prepared)
  }

  function Creates(rows: seq<Row>): (ws: seq<Write>)
    ensures |ws| == |rows|
  {
    seq(|rows|, i requires 0 <= i < |rows| => CreateSection(rows[i]))
  }

  /** The report as Phase 2 finds it. */
  function Entering(st: Store, a: Attempt): Report
    requires ReachesPhase2(st, a)
  {
    var r := st.report.(status := Generating, repoReady := true);
    if Restarts(st, a) then
      var ss := a.inputs.structure.value;
      r.(structure := ss, total := |LeafRows(Flatten(ss))|)
    else r
  }

  /** The writes before Phase 2. */
  function Head(st: Store, a: Attempt): seq<Write> {
    var r, x := st.report, a.inputs;
    if Refused(st, a) then []
    else if Restarts(st, a) then
      var analyzing := r.(status := Analyzing);
      var ready := analyzing.(repoReady := true);
      if !x.prepared then
        [SaveReport(analyzing), SaveReport(Fail(analyzing, "repository preparation failed", x.failure))]
      else if x.structure.None? then
        [SaveReport(analyzing), SaveReport(ready), SaveReport(Fail(ready, "structure generation failed", x.failure))]
      else
        [SaveReport(analyzing), SaveReport(ready)] +
        (Creates(Flatten(x.structure.value)) + [SaveReport(Entering(st, a))])
    else if r.repoReady then [SaveReport(Entering(st, a))]
    else if !x.prepared then [SaveReport(Fail(r, "repository preparation failed", x.failure))]
    else [SaveReport(r.(repoReady := true)), SaveReport(Entering(st, a))]
  }

  /** The section table as Phase 2 loads it. */
  function Loaded(st: Store, a: Attempt): seq<Row> {
    if Restarts(st, a) && ReachesPhase2(st, a) then st.rows + Flatten(a.inputs.structure.value) else st.rows
  }

  /** The writes of Phase 3; only Run marks the report completed. */
  function Tail(r: Report, restarts: bool, merged: string): seq<Write> {
    var done := r.(content := merged);
    [SaveReport(done)] + if restarts then [SaveReport(done.(status := ReportStatus.Completed))] else []
  }

  function LeafKeys(rows: seq<Row>): set<nat> {
    set p | 0 <= p < |rows| && rows[p].leaf
  }

  /** The leaf rows by section_index; the database breaks ties as it likes. */
  predicate IsLeafOrder(order: seq<nat>, rows: seq<Row>) {
    && (forall k | 0 <= k < |order| :: order[k] in LeafKeys(rows))
    && (forall p | p in LeafKeys(rows) :: p in order)
    && (forall i, j | 0 <= i < j < |order| :: order[i] != order[j])
    && (forall i, j | 0 <= i < j < |order| ::
          order[i] < |rows| && order[j] < |rows| && rows[order[i]].index <= rows[order[j]].index)
  }

  /** Phase 1 never yields an empty structure. */
  predicate Legal(st: Store, a: Attempt) {
    && IsLeafOrder(a.inputs.order, Loaded(st, a))
    && (a.inputs.structure.Some? ==> a.inputs.structure.value != [])
  }

  /** The writes from Phase 2 on. */
  function Body(st: Store, a: Attempt): seq<Write>
    requires Legal(st, a)
  {
    if !ReachesPhase2(st, a) then []
    else
      var r, rows, order := Entering(st, a), Loaded(st, a), a.inputs.order;
      Phase2(r, rows, order, a.inputs.agent) +
      Tail(r.(current := Progress(r.current, rows, order)), Restarts(st, a), a.inputs.merged)
  }

  function Writes(st: Store, a: Attempt): seq<Write>
    requires Legal(st, a)
  {
    Head(st, a) + Body(st, a)
  }

  function Prefix(ws: seq<Write>, cut: nat): seq<Write> {
    if cut < |ws| then ws[..cut] else ws
  }

  /** The store an attempt leaves behind that stops after `cut` writes. */
  function After(st: Store, a: Attempt, cut: nat): Store
    requires Legal(st, a)
  {
    ApplyAll(st, Prefix(Writes(st, a), cut))
  }

  /** The store an attempt leaves behind that runs to its end. */
  function Finish(st: Store, a: Attempt): Store
    requires Legal(st, a)
  {
    ApplyAll(st, Writes(st, a))
  }

  /** Attempts, and what others do to the report in between: a retry, a cancellation or the recovery service
    * (internal/api/handler/report.go, internal/report/recovery/service.go) only set its status and error text. */
  datatype Happening = Tried(attempt: Attempt, cut: nat) | Marked(status: ReportStatus, error: string)

  predicate LegalHappening(st: Store, h: Happening) {
    h.Tried? ==> Legal(st, h.attempt)
  }

  function Next(st: Store, h: Happening): Store
    requires LegalHappening(st, h)
  {
    match h
    case Tried(a, cut) => After(st, a, cut)
    case Marked(status, error) => st.(report := st.report.(status := status, error := error))
  }

  predicate LegalHistory(st: Store, history: seq<Happening>)
    decreases |history|
  {
    history == [] || (LegalHappening(st, history[0]) && LegalHistory(Next(st, history[0]), history[1..]))
  }

  /** The store after a history, one happening at a time. */
  function Replay(st: Store, history: seq<Happening>): Store
    requires LegalHistory(st, history)
    decreases |history|
  {
    if history == [] then st else Replay(Next(st, history[0]), history[1..])
  }
}
