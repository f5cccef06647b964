/** The buffered task log (pkg/logger/task_log_hook.go).
  *
  * A batch counts as emitted when it is handed to the goroutine that writes it.
  */
module TaskLogs {
  import opened Options

  datatype Field = Field(key: string, text: string)

  datatype Level = Debug | Info | Warn | Error | DPanic | Panic | Fatal | Unknown

  datatype LogLevel = LogDebug | LogInfo | LogWarn | LogError | LogFatal

  datatype Entry = Entry(time: nat, level: Level, message: string, caller: string, fields: seq<Field>)

  datatype TaskType = Review | Report

  datatype Task = Task(kind: TaskType, id: string)

  datatype TaskLog = TaskLog(time: nat, task: Task, level: LogLevel, message: string, caller: string,
                             fields: map<string, string>)

  const BUFFER_SIZE: nat := 100

  function ConvertLevel(level: Level): LogLevel {
    match level
    case Debug => LogDebug
    case Info => LogInfo
    case Warn => LogWarn
    case Error => LogError
    case DPanic | Panic | Fatal => LogFatal
    case Unknown => LogInfo
  }

  function FieldTask(f: Field): Option<Task> {
    if f.text == "" then None
    else if f.key == "review_id" then Some(Task(Review, f.text))
    else if f.key == "report_id" then Some(Task(Report, f.text))
    else None
  }

  /** extractTaskInfo: the first field that names a task decides. */
  method ExtractTaskInfo(fields: seq<Field>) returns (task: Option<Task>)
    ensures task == TaskOf(fields)
  {
    for i := 0 to |fields|
      invariant TaskOf(fields) == TaskOf(fields[i..])
    {
      task := FieldTask(fields[i]);
      if task.Some? {
        return;
      }
      assert fields[i..][1..] == fields[i + 1..];
    }
    task := None;
  }

  function TaskOf(fields: seq<Field>): Option<Task> {
    if fields == [] then None
    else if FieldTask(fields[0]).Some? then FieldTask(fields[0])
    else TaskOf(fields[1..])
  }

  /** The first field that is a review ID or a report ID and not empty. */
  predicate FirstNaming(fields: seq<Field>, i: nat) {
    && i < |fields| && NamesTask(fields[i]) && fields[i].text != ""
    && forall j | 0 <= j < i :: !NamesTask(fields[j]) || fields[j].text == ""
  }

  /** The first non-empty review ID or report ID names the task, a review or a report; without one there is none. */
  lemma {:induction false} TaskOfFirst(fields: seq<Field>)
    ensures forall i: nat | FirstNaming(fields, i) ::
      TaskOf(fields) == Some(Task(if fields[i].key == "review_id" then Review else Report, fields[i].text))
    ensures TaskOf(fields).None? ==> forall f | f in fields && NamesTask(f) :: f.text == ""
  {
    if fields == [] {
    } else {
      var rest := fields[1..];
      TaskOfFirst(rest);
      assert fields == [fields[0]] + rest;
      forall i: nat | FirstNaming(fields, i) && i > 0 ensures FirstNaming(rest, i - 1) && rest[i - 1] == fields[i] {
        forall j | 0 <= j < i - 1 ensures !NamesTask(rest[j]) || rest[j].text == "" { assert rest[j] == fields[j + 1]; }
      }
    }
  }

  predicate NamesTask(f: Field) {
    f.key == "review_id" || f.key == "report_id"
  }

  /** The other fields by key, the last one of a key counting. */
  function Data(fields: seq<Field>): map<string, string> {
    if fields == [] then map[]
    else
      var f := fields[|fields| - 1];
      var before := Data(fields[..|fields| - 1]);
      if NamesTask(f) then before else before[f.key := f.text]
  }

  /** serializeFields, with every value as text. */
  method SerializeFields(fields: seq<Field>) returns (data: map<string, string>)
    ensures data == Data(fields)
  {
    data := map[];
    for i := 0 to |fields|
      invariant data == Data(fields[..i])
    {
      assert fields[..i + 1][..i] == fields[..i];
      if NamesTask(fields[i]) {
        continue;
      }
      data := data[fields[i].key := fields[i].text];
    }
    assert fields[..|fields|] == fields;
  }

  /** The last field of a key decides what is stored under it; task IDs are not stored among the fields. */
  lemma {:induction false} LastFieldWins(fields: seq<Field>, i: nat)
    requires i < |fields| && forall j | i < j < |fields| :: fields[j].key != fields[i].key
    ensures if NamesTask(fields[i]) then fields[i].key !in Data(fields)
            else fields[i].key in Data(fields) && Data(fields)[fields[i].key] == fields[i].text
  {
    var n := |fields| - 1;
    if i < n {
      LastFieldWins(fields[..n], i);
    } else if NamesTask(fields[i]) {
      NoTaskStored(fields, fields[i].key);
    }
  }

  lemma {:induction false} NoTaskStored(fields: seq<Field>, key: string)
    requires key == "review_id" || key == "report_id"
    ensures key !in Data(fields)
  {
    if fields == [] {
    } else {
      NoTaskStored(fields[..|fields| - 1], key);
    }
  }

  /** What an entry contributes, logged through a core that carries context fields. */
  function LogsOf(context: seq<Field>, entry: Entry): seq<TaskLog> {
    match TaskOf(context + entry.fields)
    case None => []
    case Some(task) =>
      [TaskLog(entry.time, task, ConvertLevel(entry.level), entry.message, entry.caller, Data(context + entry.fields))]
  }

  predicate Names(f: Field) {
    NamesTask(f) && f.text != ""
  }

  /** The last field with the key. */
  predicate LastWithKey(fields: seq<Field>, key: string, i: nat) {
    i < |fields| && fields[i].key == key && forall j | i < j < |fields| :: fields[j].key != key
  }

  lemma FirstOfBoth(a: seq<Field>, b: seq<Field>, i: nat)
    ensures FirstNaming(a, i) ==> FirstNaming(a + b, i) && (a + b)[i] == a[i]
    ensures (forall f | f in a :: !Names(f)) && FirstNaming(b, i) ==>
      FirstNaming(a + b, |a| + i) && (a + b)[|a| + i] == b[i]
  {
    if (forall f | f in a :: !Names(f)) && FirstNaming(b, i) {
      forall j | 0 <= j < |a| + i ensures !NamesTask((a + b)[j]) || (a + b)[j].text == "" {
        if j < |a| { assert a[j] in a; } else { assert (a + b)[j] == b[j - |a|]; }
      }
    }
  }

  lemma LastOfBoth(a: seq<Field>, b: seq<Field>, key: string, i: nat)
    ensures LastWithKey(b, key, i) ==> LastWithKey(a + b, key, |a| + i) && (a + b)[|a| + i] == b[i]
    ensures (forall f | f in b :: f.key != key) && LastWithKey(a, key, i) ==>
      LastWithKey(a + b, key, i) && (a + b)[i] == a[i]
  {
    if (forall f | f in b :: f.key != key) && LastWithKey(a, key, i) {
      forall j | i < j < |a + b| ensures (a + b)[j].key != key {
        if j >= |a| { assert (a + b)[j] == b[j - |a|] && b[j - |a|] in b; }
      }
    }
  }

  /** One log, of the task that the field names. */
  predicate IsOf(logs: seq<TaskLog>, f: Field) {
    |logs| == 1 && logs[0].task == Task(if f.key == "review_id" then Review else Report, f.text)
  }

  /** An entry is captured, once, exactly if it or its context names a task; a task named by the context wins. */
  lemma CapturedTask(context: seq<Field>, entry: Entry)
    ensures |LogsOf(context, entry)| <= 1
    ensures LogsOf(context, entry) != [] <==> exists f :: (f in context || f in entry.fields) && Names(f)
    ensures forall i: nat | FirstNaming(context, i) :: IsOf(LogsOf(context, entry), context[i])
    ensures forall i: nat | (forall f | f in context :: !Names(f)) && FirstNaming(entry.fields, i) ::
      IsOf(LogsOf(context, entry), entry.fields[i])
  {
    var all := context + entry.fields;
    TaskOfFirst(all);
    SomeTask(all);
    forall i: nat ensures FirstNaming(context, i) ==> FirstNaming(all, i) && all[i] == context[i] {
      FirstOfBoth(context, entry.fields, i);
    }
    forall i: nat | (forall f | f in context :: !Names(f)) && FirstNaming(entry.fields, i)
      ensures FirstNaming(all, |context| + i) && all[|context| + i] == entry.fields[i]
    {
      FirstOfBoth(context, entry.fields, i);
    }
    assert forall f :: f in all <==> f in context || f in entry.fields;
  }

  lemma {:induction false} SomeTask(fields: seq<Field>)
    ensures TaskOf(fields).Some? <==> exists f :: f in fields && Names(f)
  {
    if fields == [] {
    } else {
      var first, rest := fields[0], fields[1..];
      SomeTask(rest);
      assert forall f :: f in fields <==> f == first || f in rest;
      assert Names(first) <==> FieldTask(first).Some?;
      if f: Field :| f in rest && Names(f) {
        assert f in fields;
      } else if Names(first) {
        assert first in fields;
      }
    }
  }

  /** The log keeps time, message and caller of its entry, and its other fields by key: the last field of a key, an
    * entry's own before one of the context. */
  lemma CapturedFields(context: seq<Field>, entry: Entry, key: string, i: nat)
    requires LogsOf(context, entry) != [] && key != "review_id" && key != "report_id"
    ensures var log := LogsOf(context, entry)[0];
      && log.time == entry.time && log.message == entry.message && log.caller == entry.caller
      && (LastWithKey(entry.fields, key, i) ==> key in log.fields && log.fields[key] == entry.fields[i].text)
      && ((forall f | f in entry.fields :: f.key != key) && LastWithKey(context, key, i) ==>
            key in log.fields && log.fields[key] == context[i].text)
  {
    var all := context + entry.fields;
    LastOfBoth(context, entry.fields, key, i);
    if LastWithKey(entry.fields, key, i) {
      LastFieldWins(all, |context| + i);
    }
    if (forall f | f in entry.fields :: f.key != key) && LastWithKey(context, key, i) {
      LastFieldWins(all, i);
    }
  }

  /** How severe a level is, from debug at 0. */
  function Rank(level: Level): nat {
    match level
    case Debug => 0
    case Info => 1
    case Warn => 2
    case Error => 3
    case DPanic => 4
    case Panic => 5
    case Fatal => 6
    case Unknown => 1
  }

  /** The stored level tells severities apart up to errors and calls everything above fatal. */
  lemma SeverityKept(x: Level, y: Level)
    ensures ConvertLevel(x) == ConvertLevel(y) <==> Rank(x) == Rank(y) || (Rank(x) > 3 && Rank(y) > 3)
    ensures ConvertLevel(Debug).LogDebug? && ConvertLevel(Info).LogInfo? && ConvertLevel(Warn).LogWarn?
    ensures ConvertLevel(Error).LogError? && ConvertLevel(Fatal).LogFatal?
  {
  }

  // ---------- The hook as a state machine ----------

  datatype State = State(buffer: seq<TaskLog>, batches: seq<seq<TaskLog>>)

  /** Flush stands for Sync, the ticker and Close alike. */
  datatype Op = Write(context: seq<Field>, entry: Entry) | Flush

  function Flushed(st: State): State {
    if st.buffer == [] then st else State([], st.batches + [st.buffer])
  }

  function Added(st: State, log: TaskLog): State {
    var full := st.(buffer := st.buffer + [log]);
    if |full.buffer| >= BUFFER_SIZE then Flushed(full) else full
  }

  function Step(st: State, op: Op): State {
    match op
    case Flush => Flushed(st)
    case Write(context, entry) =>
      var logs := LogsOf(context, entry);
      if logs == [] then st else Added(st, logs[0])
  }

  function Run(ops: seq<Op>): State {
    if ops == [] then State([], []) else Step(Run(ops[..|ops| - 1]), ops[|ops| - 1])
  }

  /** Everything that was to be captured, in order. */
  function Captured(ops: seq<Op>): seq<TaskLog> {
    if ops == [] then []
    else
      var op := ops[|ops| - 1];
      Captured(ops[..|ops| - 1]) + if op.Write? then LogsOf(op.context, op.entry) else []
  }

  function Concat(batches: seq<seq<TaskLog>>): seq<TaskLog> {
    if batches == [] then [] else Concat(batches[..|batches| - 1]) + batches[|batches| - 1]
  }

  lemma FlushKeeps(st: State)
    ensures Concat(Flushed(st).batches) + Flushed(st).buffer == Concat(st.batches) + st.buffer
  {
  }

  lemma AddKeeps(st: State, log: TaskLog)
    ensures Concat(Added(st, log).batches) + Added(st, log).buffer == Concat(st.batches) + st.buffer + [log]
  {
    FlushKeeps(st.(buffer := st.buffer + [log]));
  }

  /** After any sequence of writes and flushes nothing is lost, repeated or reordered. */
  lemma {:induction false} LogsConserved(ops: seq<Op>)
    ensures Concat(Run(ops).batches) + Run(ops).buffer == Captured(ops)
  {
    if ops == [] {
    } else {
      var init, op := ops[..|ops| - 1], ops[|ops| - 1];
      LogsConserved(init);
      StepKeeps(Run(init), op);
    }
  }

  lemma StepKeeps(st: State, op: Op)
    ensures Concat(Step(st, op).batches) + Step(st, op).buffer ==
      Concat(st.batches) + st.buffer + if op.Write? then LogsOf(op.context, op.entry) else []
  {
    match op {
      case Flush => FlushKeeps(st);
      case Write(context, entry) =>
        if LogsOf(context, entry) != [] {
          AddKeeps(st, LogsOf(context, entry)[0]);
        }
    }
  }

  predicate Sized(st: State) {
    |st.buffer| < 100 && forall b | b in st.batches :: 1 <= |b| <= 100
  }

  predicate Full(st: State) {
    forall b | b in st.batches :: |b| == 100
  }

  lemma StepSized(st: State, op: Op)
    requires Sized(st)
    ensures Sized(Step(st, op)) && (op.Flush? ==> Step(st, op).buffer == [])
  {
  }

  lemma StepFull(st: State, op: Op)
    requires Sized(st) && Full(st) && op.Write?
    ensures Full(Step(st, op))
  {
  }

  lemma {:induction false} RunSized(ops: seq<Op>)
    ensures Sized(Run(ops))
  {
    if ops == [] {
    } else {
      hide Sized, Step;
      RunSized(ops[..|ops| - 1]);
      StepSized(Run(ops[..|ops| - 1]), ops[|ops| - 1]);
    }
  }

  lemma OnlyWrites(ops: seq<Op>)
    requires ops != [] && Flush !in ops
    ensures ops[|ops| - 1].Write? && Flush !in ops[..|ops| - 1]
  {
    assert ops[|ops| - 1] in ops;
  }

  lemma {:induction false} RunFull(ops: seq<Op>)
    requires Flush !in ops
    ensures Full(Run(ops))
  {
    if ops == [] {
    } else {
      hide Sized, Full, Step;
      var init, op := ops[..|ops| - 1], ops[|ops| - 1];
      OnlyWrites(ops);
      RunSized(init);
      RunFull(init);
      StepFull(Run(init), op);
    }
  }

  lemma RunFlushed(ops: seq<Op>)
    requires ops != [] && ops[|ops| - 1] == Flush
    ensures Run(ops).buffer == []
  {
    RunSized(ops[..|ops| - 1]);
    StepSized(Run(ops[..|ops| - 1]), Flush);
  }

  /** Batches hold 1 to 100 logs, and exactly 100 if nothing was flushed early; fewer than 100 logs wait, and
    * none right after a flush. */
  lemma BatchSizes(ops: seq<Op>)
    ensures Sized(Run(ops)) && (ops != [] && ops[|ops| - 1] == Flush ==> Run(ops).buffer == [])
    ensures Flush !in ops ==> Full(Run(ops))
  {
    hide Sized, Full, Run;
    RunSized(ops);
    if ops != [] && ops[|ops| - 1] == Flush {
      RunFlushed(ops);
    }
    if Flush !in ops {
      RunFull(ops);
    }
  }

  // ---------- The hook itself ----------

  class TaskLogHook {
    var buffer: seq<TaskLog>

    /** Batches handed to the writer so far. */
    ghost var batches: seq<seq<TaskLog>>

    ghost function Now(): State
      reads this
    {
      State(buffer, batches)
    }

    constructor ()
      ensures Now() == Run([])
    {
      buffer, batches := [], [];
    }

    method AddToBuffer(log: TaskLog)
      modifies this
      ensures Now() == Added(old(Now()), log)
    {
      buffer := buffer + [log];
      if |buffer| >= BUFFER_SIZE {
        FlushLocked();
      }
    }

    method FlushLocked()
      modifies this
      ensures Now() == Flushed(old(Now()))
    {
      if |buffer| == 0 {
        return;
      }
      var logs := buffer;
      buffer := [];
      batches := batches + [logs];
    }

    /** taskLogCore.Write. */
    method WriteEntry(context: seq<Field>, entry: Entry)
      modifies this
      ensures Now() == Step(old(Now()), Write(context, entry))
    {
      var task := ExtractTaskInfo(context + entry.fields);
      if task.None? {
        return;
      }
      var data := SerializeFields(context + entry.fields);
      AddToBuffer(TaskLog(entry.time, task.value, ConvertLevel(entry.level), entry.message, entry.caller, data));
    }
  }
}
