/** Progress of the pipeline: a recovered task goes first in its repository, and with at least one
  * worker every maximal run of the pipeline's own steps finishes every accepted task.
  */
module PipelineCompletion {
  import opened TaskQueue
  import opened Pipeline
  import opened PipelineRuns
  import opened Options

  // ---------- Recovered tasks ----------

  lemma WaitingRemove(q: Queue, t: Task, u: Task)
    requires Coherent(q) && Waiting(q, t) && Indexed(q, u) && u != t
    ensures Waiting(Remove(q, u), t)
  {
    RemoveFacts(q, u);
    assert RepoCoherent(q, u.repo) && RepoCoherent(q, t.repo);
  }

  lemma WaitingAccept(q: Queue, t: Task, u: Task)
    requires Waiting(q, t) && !HasTask(q, u.id)
    ensures Waiting(Enqueue(q, u), t)
    ensures !RepoOrNew(q, u.repo).running ==> Waiting(EnqueueAsRunning(q, u), t)
  {
  }

  lemma WaitingDequeue(q: Queue, t: Task, repo: string)
    requires Coherent(q) && Waiting(q, t) && MayDequeue(q, repo) && DequeueFrom(q, repo).0 != t
    ensures Waiting(DequeueFrom(q, repo).1, t) && DequeueFrom(q, repo).0.repo == repo != t.repo
  {
    assert RepoCoherent(q, t.repo);
    DequeuedTask(q, repo);
  }

  lemma WaitingComplete(q: Queue, t: Task, u: Task)
    requires Coherent(q) && Waiting(q, t) && InFlight(q, u)
    ensures Waiting(MarkComplete(q, u.repo, u.id), t)
  {
    assert RepoCoherent(q, t.repo);
  }

  lemma WaitingStep(c: Config, s: System, e: Event, t: Task)
    requires Inv(c, s) && Enabled(c, s, e) && Waiting(s.q, t)
    requires e != DequeueRecovered(t) && e != RemovedWaiting(t)
    ensures Waiting(Step(c, s, e).q, t)
    ensures (e.DequeueRecovered? || e.DequeuePending?) ==> e.t.repo != t.repo
  {
    hide Coherent, HasTask, Enqueue, EnqueueAsRunning, Remove, MarkComplete;
    match e
    case Enqueued(u) => WaitingAccept(s.q, t, u);
    case Recovered(u) => WaitingAccept(s.q, t, u);
    case Duplicate(u) => KnownRefused(s.q, u);
    case RemovedPending(u) => NotBoth(s.q, t, u); WaitingRemove(s.q, t, u);
    case RemovedWaiting(u) => WaitingRemove(s.q, t, u);
    case RemoveMissed(id) => MissedUnknown(s.q, id);
    case DequeueRecovered(u) => WaitingDequeue(s.q, t, u.repo);
    case DequeuePending(u) =>
    case Complete(u, w) => CompleteStep(c, s, u, w); WaitingComplete(s.q, t, u);
    case _ =>
  }

  /** A waiting task is not pending. */
  lemma NotBoth(q: Queue, t: Task, u: Task)
    requires Coherent(q) && Waiting(q, t) && Pending(q, u)
    ensures u != t
  {
    assert RepoCoherent(q, t.repo);
  }

  /** Until a recovered task is handed out or taken back, no task of its repository is handed out. */
  lemma {:induction false} RecoveredGoesFirst(c: Config, s: System, es: seq<Event>, t: Task)
    requires Inv(c, s) && Waiting(s.q, t) && Exec(c, s, es).Some?
    requires DequeueRecovered(t) !in es && RemovedWaiting(t) !in es
    ensures Waiting(Exec(c, s, es).value.q, t)
    ensures LogOf(es, Dispatch, t.repo) == []
  {
    if es == [] {
    } else {
      var es0, e := es[..|es| - 1], es[|es| - 1];
      RecoveredGoesFirst(c, s, es0, t);
      RunInv(c, s, es0);
      WaitingStep(c, Exec(c, s, es0).value, e, t);
      LogOfStep(es, Dispatch, t.repo);
    }
  }

  // ---------- Every internal step brings the end nearer ----------

  function LoopWeight(l: Loop): nat {
    match l case Idle => 0 case Draining => 1 case Holding(_) => 6
  }

  function Remaining(s: System): nat {
    6 * |s.q.byId| + LoopWeight(s.loop) + 4 * |s.chan| + 3 * |Busy(s.workers)| + 2 * s.q.signals
  }

  lemma DropSize(m: map<string, Task>, id: string)
    requires id in m
    ensures |m - {id}| == |m| - 1
  {
  }

  lemma BusySize(ws: seq<Option<Task>>, w: nat, o: Option<Task>)
    requires w < |ws|
    ensures |Busy(ws[w := o])| + |Bag(ws[w])| == |Busy(ws)| + |Bag(o)|
  {
    BusySet(ws, w, o);
    assert |Busy(ws[w := o]) + Bag(ws[w])| == |Busy(ws) + Bag(o)|;
  }

  lemma DequeueDecreases(c: Config, s: System, t: Task)
    requires Inv(c, s) && s.loop.Draining? && MayDequeue(s.q, t.repo) && DequeueFrom(s.q, t.repo).0 == t
    ensures Remaining(s.(q := DequeueFrom(s.q, t.repo).1, loop := Holding(t))) < Remaining(s)
  {
    DequeueStep(c, s, t);
    DropSize(s.q.byId, t.id);
  }

  lemma CompleteDecreases(c: Config, s: System, t: Task, w: nat)
    requires Inv(c, s) && Enabled(c, s, Complete(t, w))
    ensures Remaining(Step(c, s, Complete(t, w))) < Remaining(s)
  {
    CompleteStep(c, s, t, w);
    MarkCompleteCoherent(s.q, t);
    BusySize(s.workers, w, None);
  }

  lemma StepDecreases(c: Config, s: System, e: Event)
    requires Inv(c, s) && Enabled(c, s, e) && Internal(e)
    ensures Remaining(Step(c, s, e)) < Remaining(s)
  {
    match e
    case DequeueRecovered(t) => DequeueDecreases(c, s, t);
    case DequeuePending(t) => DequeueDecreases(c, s, t);
    case Handoff(t, w) => BusySize(s.workers, w, Some(t));
    case Take(t, w) => BusySize(s.workers, w, Some(t));
    case Complete(t, w) => CompleteDecreases(c, s, t, w);
    case _ =>
  }

  lemma {:induction false} RunsAreBounded(c: Config, s: System, es: seq<Event>)
    requires Inv(c, s) && Exec(c, s, es).Some? && forall e | e in es :: Internal(e)
    ensures |es| + Remaining(Exec(c, s, es).value) <= Remaining(s)
  {
    if es == [] {
    } else {
      var es0, e := es[..|es| - 1], es[|es| - 1];
      assert e in es;
      RunsAreBounded(c, s, es0);
      RunInv(c, s, es0);
      StepDecreases(c, Exec(c, s, es0).value, e);
    }
  }

  // ---------- Some internal step is enabled while work is left ----------

  lemma {:induction false} BusyWorker(ws: seq<Option<Task>>) returns (w: nat)
    requires Busy(ws) != multiset{}
    ensures w < |ws| && ws[w].Some?
  {
    if ws[0].Some? {
      w := 0;
    } else {
      w := BusyWorker(ws[1..]);
      w := w + 1;
    }
  }

  /** With nothing in flight, whatever is left in the queue can be dispatched. */
  lemma BacklogDispatchable(c: Config, s: System)
    requires Inv(c, s) && Flight(s) == multiset{} && s.q.byId.Keys != {}
    ensures AnyDispatchable(s.q)
  {
    var id :| id in s.q.byId.Keys;
    assert IdCoherent(s.q, id);
    var t := s.q.byId[id];
    assert RepoCoherent(s.q, t.repo);
    var cur := Task(s.q.repos[t.repo].current, t.repo);
    assert Flight(s)[cur] == 0;
    assert !InFlight(s.q, cur);
    assert Dispatchable(s.q, t.repo);
  }

  lemma DequeueEvent(c: Config, s: System) returns (e: Event)
    requires Inv(c, s) && s.loop.Draining?
    ensures Internal(e) && Enabled(c, s, e)
  {
    if AnyRecoverable(s.q) {
      var repo :| repo in s.q.repos && Recoverable(s.q, repo);
      DequeuedTask(s.q, repo);
      e := DequeueRecovered(Recover(s.q, repo).0);
    } else if AnyDispatchable(s.q) {
      var repo :| repo in s.q.repos && Dispatchable(s.q, repo);
      DequeuedTask(s.q, repo);
      e := DequeuePending(Start(s.q, repo).0);
    } else {
      e := DequeueNil;
    }
  }

  lemma SomeStepEnabled(c: Config, s: System) returns (e: Event)
    requires Inv(c, s) && c.workers > 0 && InSystem(s) != multiset{}
    ensures Internal(e) && Enabled(c, s, e)
  {
    if s.loop.Draining? {
      e := DequeueEvent(c, s);
    } else if s.workers[0].Some? {
      e := Complete(s.workers[0].value, 0);
    } else if s.chan != [] {
      e := Take(s.chan[0], 0);
    } else if s.loop.Holding? {
      e := Handoff(s.loop.task, 0);
    } else if Busy(s.workers) != multiset{} {
      var w := BusyWorker(s.workers);
      e := Complete(s.workers[w].value, w);
    } else {
      assert Flight(s) == multiset{};
      var t :| t in s.q.byId.Values;
      BacklogDispatchable(c, s);
      e := Wake;
    }
  }

  /** Nothing the pipeline could do by itself is left. */
  ghost predicate Maximal(c: Config, s: System) {
    forall e: Event :: Internal(e) ==> !Enabled(c, s, e)
  }

  /** Where no internal step is enabled, no accepted task is unfinished. */
  lemma MaximalIsDone(c: Config, s: System)
    requires Inv(c, s) && c.workers > 0 && Maximal(c, s)
    ensures InSystem(s) == multiset{} && Backlog(s.q) == multiset{} && Flight(s) == multiset{}
  {
    if InSystem(s) != multiset{} {
      var e := SomeStepEnabled(c, s);
      assert false;
    }
    assert Backlog(s.q) <= InSystem(s) && Flight(s) <= InSystem(s);
  }

  lemma {:induction false} ExecAppend(c: Config, s: System, es1: seq<Event>, es2: seq<Event>)
    requires Exec(c, s, es1).Some?
    ensures Exec(c, s, es1 + es2) == Exec(c, Exec(c, s, es1).value, es2)
  {
    if es2 == [] {
      assert es1 + es2 == es1;
    } else {
      assert (es1 + es2)[..|es1 + es2| - 1] == es1 + es2[..|es2| - 1];
      ExecAppend(c, s, es1, es2[..|es2| - 1]);
    }
  }

  /** After any run, once clients fall silent, the pipeline takes at most Remaining(s) more steps,
    * and when it can take none every accepted task is completed or was removed. */
  lemma EverythingCompletes(c: Config, es: seq<Event>, s: System, es': seq<Event>, s': System)
    requires c.workers > 0 && Run(c, es, s)
    requires Exec(c, s, es') == Some(s') && forall e | e in es' :: Internal(e)
    ensures |es'| <= Remaining(s)
    ensures Maximal(c, s') ==>
      multiset(Log(es + es', Acceptance)) == multiset(Log(es + es', Completion)) + multiset(Log(es + es', Removal))
  {
    hide Inv, Enabled, Internal, Maximal;
    InitInv(c);
    RunInv(c, Init(c), es);
    RunsAreBounded(c, s, es');
    RunInv(c, s, es');
    ExecAppend(c, Init(c), es, es');
    Conservation(c, es + es', s');
    if Maximal(c, s') { MaximalIsDone(c, s'); }
  }

  /** From every reachable state the pipeline comes to such an end by itself. */
  lemma {:induction false} Drain(c: Config, s: System) returns (es: seq<Event>, s': System)
    requires Inv(c, s) && c.workers > 0
    ensures Exec(c, s, es) == Some(s') && (forall e | e in es :: Internal(e))
    ensures Maximal(c, s') && InSystem(s') == multiset{}
    decreases Remaining(s)
  {
    hide Inv, Enabled, Internal, Step;
    if Maximal(c, s) {
      MaximalIsDone(c, s);
      es, s' := [], s;
    } else {
      var e: Event :| Internal(e) && Enabled(c, s, e);
      StepDecreases(c, s, e);
      StepInv(c, s, e);
      var rest: seq<Event>;
      rest, s' := Drain(c, Step(c, s, e));
      es := [e] + rest;
      ExecFirst(c, s, e, rest);
    }
  }

  lemma ExecFirst(c: Config, s: System, e: Event, rest: seq<Event>)
    requires Enabled(c, s, e)
    ensures Exec(c, s, [e] + rest) == Exec(c, Step(c, s, e), rest)
  {
    assert [e][..0] == [];
    assert Exec(c, s, [e]) == Some(Step(c, s, e));
    ExecAppend(c, s, [e], rest);
  }
}
