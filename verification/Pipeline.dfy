/** The queue, its dispatch loop, the task channel and the workers as one step system
  * (internal/engine/dispatcher.go beside internal/engine/queue.go).
  *
  * A run is a sequence of events from the empty system. Every lock-protected queue method
  * and every channel operation is one atomic event; an event names the choices Go leaves
  * open (which repository the map iteration reaches, which worker receives).
  */
module Pipeline {
  import opened TaskQueue
  import opened Options

  /** Where the dispatch goroutine is: waiting for a signal, inside tryDispatch before Dequeue,
    * or blocked on the send of a task. */
  datatype Loop = Idle | Draining | Holding(task: Task)

  datatype Config = Config(workers: nat, capacity: nat)

  datatype System = System(q: Queue, loop: Loop, chan: seq<Task>, workers: seq<Option<Task>>)

  datatype Event =
    // clients of the queue
    | Enqueued(t: Task)
    | Recovered(t: Task)
    | Duplicate(t: Task)
    | RemovedPending(t: Task)
    | RemovedWaiting(t: Task)
    | RemoveMissed(id: string)
    // the dispatch loop
    | Wake
    | DequeueRecovered(t: Task)
    | DequeuePending(t: Task)
    | DequeueNil
    | Send(t: Task)
    | Handoff(t: Task, worker: nat)
    // the workers
    | Take(t: Task, worker: nat)
    | Complete(t: Task, worker: nat)

  /** Events of the pipeline itself, not of its clients. */
  predicate Internal(e: Event) {
    || e.Wake? || e.DequeueRecovered? || e.DequeuePending? || e.DequeueNil? || e.Send? || e.Handoff?
    || e.Take? || e.Complete?
  }

  function IdleWorkers(n: nat): seq<Option<Task>> {
    seq(n, _ => None)
  }

  function Init(c: Config): System {
    System(EMPTY_QUEUE, Idle, [], IdleWorkers(c.workers))
  }

  predicate WorkerIs(s: System, w: nat, o: Option<Task>) {
    w < |s.workers| && s.workers[w] == o
  }

  /** When an event may happen. The first six lines are the discipline asked of clients. */
  predicate Enabled(c: Config, s: System, e: Event) {
    match e
    case Enqueued(t) => t.id != "" && !HasTask(s.q, t.id)
    case Recovered(t) => t.id != "" && !HasTask(s.q, t.id) && !RepoOrNew(s.q, t.repo).running
    case Duplicate(t) => t.id in s.q.byId
    case RemovedPending(t) => Indexed(s.q, t) && Pending(s.q, t)
    case RemovedWaiting(t) => Indexed(s.q, t) && Waiting(s.q, t)
    case RemoveMissed(id) => !HasTask(s.q, id)
    case Wake => s.loop.Idle? && s.q.signals > 0
    case DequeueRecovered(t) =>
      s.loop.Draining? && Recoverable(s.q, t.repo) && Recover(s.q, t.repo).0 == t
    case DequeuePending(t) =>
      s.loop.Draining? && !AnyRecoverable(s.q) && Startable(s.q, t.repo) && Start(s.q, t.repo).0 == t
    case DequeueNil => s.loop.Draining? && !AnyDispatchable(s.q)
    case Send(t) => s.loop == Holding(t) && |s.chan| < c.capacity
    case Handoff(t, w) => s.loop == Holding(t) && s.chan == [] && WorkerIs(s, w, None)
    case Take(t, w) => s.chan != [] && s.chan[0] == t && WorkerIs(s, w, None)
    case Complete(t, w) => WorkerIs(s, w, Some(t))
  }

  function Step(c: Config, s: System, e: Event): System
    requires Enabled(c, s, e)
  {
    match e
    case Enqueued(t) => s.(q := Enqueue(s.q, t))
    case Recovered(t) => s.(q := EnqueueAsRunning(s.q, t))
    case Duplicate(t) => s.(q := Enqueue(s.q, t))
    case RemovedPending(t) => s.(q := Remove(s.q, t))
    case RemovedWaiting(t) => s.(q := Remove(s.q, t))
    case RemoveMissed(id) => s.(q := RemovePending(s.q, id))
    case Wake => s.(q := s.q.(signals := s.q.signals - 1), loop := Draining)
    case DequeueRecovered(t) => s.(q := Recover(s.q, t.repo).1, loop := Holding(t))
    case DequeuePending(t) => s.(q := Start(s.q, t.repo).1, loop := Holding(t))
    case DequeueNil => s.(loop := Idle)
    case Send(t) => s.(loop := Draining, chan := s.chan + [t])
    case Handoff(t, w) => s.(loop := Draining, workers := s.workers[w := Some(t)])
    case Take(t, w) => s.(chan := s.chan[1..], workers := s.workers[w := Some(t)])
    case Complete(t, w) => s.(q := MarkComplete(s.q, t.repo, t.id), workers := s.workers[w := None])
  }

  /** The state after the events `es` from `s`, or None when one of them was not enabled. */
  function Exec(c: Config, s: System, es: seq<Event>): Option<System> {
    if es == [] then Some(s)
    else
      var before := Exec(c, s, es[..|es| - 1]);
      var e := es[|es| - 1];
      if before.Some? && Enabled(c, before.value, e) then Some(Step(c, before.value, e)) else None
  }

  /** `es` is a run of the pipeline that ends in `s`. */
  predicate Run(c: Config, es: seq<Event>, s: System) {
    Exec(c, Init(c), es) == Some(s)
  }

  // ---------- The tasks between Dequeue and MarkComplete ----------

  function Bag(o: Option<Task>): multiset<Task> {
    if o.None? then multiset{} else multiset{o.value}
  }

  function Busy(ws: seq<Option<Task>>): multiset<Task> {
    if ws == [] then multiset{} else Bag(ws[0]) + Busy(ws[1..])
  }

  function Held(l: Loop): multiset<Task> {
    if l.Holding? then multiset{l.task} else multiset{}
  }

  /** Every task in the dispatcher's hand, in the channel or with a worker. */
  function Flight(s: System): multiset<Task> {
    Held(s.loop) + multiset(s.chan) + Busy(s.workers)
  }

  lemma {:induction false} BusySet(ws: seq<Option<Task>>, w: nat, o: Option<Task>)
    requires w < |ws|
    ensures Busy(ws[w := o]) + Bag(ws[w]) == Busy(ws) + Bag(o)
  {
    var ws' := ws[w := o];
    if w == 0 {
      assert ws'[1..] == ws[1..];
    } else {
      assert ws'[1..] == ws[1..][w - 1 := o];
      BusySet(ws[1..], w - 1, o);
      var rest, rest', x, y := Busy(ws[1..]), Busy(ws'[1..]), Bag(ws[w]), Bag(o);
      calc {
        Busy(ws') + x;
      ==
        (Bag(ws[0]) + rest') + x;
      ==
        Bag(ws[0]) + (rest' + x);
      ==
        Bag(ws[0]) + (rest + y);
      ==
        Busy(ws) + y;
      }
    }
  }

  lemma {:induction false} BusyNone(n: nat)
    ensures Busy(IdleWorkers(n)) == multiset{}
  {
    if n > 0 {
      assert IdleWorkers(n)[1..] == IdleWorkers(n - 1);
      BusyNone(n - 1);
    }
  }

  // ---------- What every reachable state satisfies ----------

  /** The queue's own records name exactly the tasks in flight, each once. */
  ghost predicate FlightMatches(s: System) {
    forall t :: Flight(s)[t] == if InFlight(s.q, t) then 1 else 0
  }

  /** A sleeping dispatch loop has a signal to wake it whenever there is something to dispatch. */
  predicate NoLostWakeUp(s: System) {
    s.loop.Idle? && AnyDispatchable(s.q) ==> s.q.signals > 0
  }

  ghost predicate Inv(c: Config, s: System) {
    && Coherent(s.q)
    && FlightMatches(s)
    && NoLostWakeUp(s)
    && |s.workers| == c.workers && |s.chan| <= c.capacity
  }

  lemma InitInv(c: Config)
    ensures Inv(c, Init(c))
  {
    BusyNone(c.workers);
  }

  /** Client calls change no task in flight. */
  lemma ClientStep(c: Config, s: System, e: Event)
    requires Inv(c, s) && Enabled(c, s, e) && !Internal(e)
    ensures Inv(c, Step(c, s, e))
  {
    var s' := Step(c, s, e);
    match e
    case Enqueued(t) =>
      EnqueueCoherent(s.q, t);
      forall u ensures Flight(s')[u] == if InFlight(s'.q, u) then 1 else 0 { EnqueueInFlight(s.q, t, u); }
    case Recovered(t) =>
      EnqueueAsRunningCoherent(s.q, t);
      forall u ensures Flight(s')[u] == if InFlight(s'.q, u) then 1 else 0 { EnqueueAsRunningInFlight(s.q, t, u); }
    case RemovedPending(t) =>
      RemoveStep(c, s, t);
    case RemovedWaiting(t) =>
      RemoveStep(c, s, t);
    case Duplicate(t) =>
    case RemoveMissed(id) =>
  }

  /** Removing a task that was not handed out makes no repository dispatchable without a signal. */
  lemma RemoveWakes(q: Queue, t: Task)
    requires Coherent(q) && Indexed(q, t) && AnyDispatchable(Remove(q, t))
    ensures Remove(q, t).signals > 0 || (AnyDispatchable(q) && Remove(q, t).signals == q.signals)
  {
  }

  lemma RemoveStep(c: Config, s: System, t: Task)
    requires Inv(c, s) && Indexed(s.q, t)
    ensures Inv(c, s.(q := Remove(s.q, t)))
  {
    var s' := s.(q := Remove(s.q, t));
    RemoveCoherent(s.q, t);
    assert Flight(s') == Flight(s);
    forall u ensures Flight(s')[u] == if InFlight(s'.q, u) then 1 else 0 { RemoveInFlight(s.q, t, u); }
    if AnyDispatchable(s'.q) { RemoveWakes(s.q, t); }
  }

  lemma DequeueStep(c: Config, s: System, t: Task)
    requires Inv(c, s) && s.loop.Draining? && MayDequeue(s.q, t.repo) && DequeueFrom(s.q, t.repo).0 == t
    ensures Inv(c, s.(q := DequeueFrom(s.q, t.repo).1, loop := Holding(t)))
    ensures Indexed(s.q, t) && DequeueFrom(s.q, t.repo).1.byId == s.q.byId - {t.id}
    ensures Flight(s.(q := DequeueFrom(s.q, t.repo).1, loop := Holding(t))) == Flight(s) + multiset{t}
  {
    var s' := s.(q := DequeueFrom(s.q, t.repo).1, loop := Holding(t));
    DequeueCoherent(s.q, t.repo);
    DequeuedTask(s.q, t.repo);
    assert Flight(s') == Flight(s) + multiset{t};
    forall u ensures Flight(s')[u] == if InFlight(s'.q, u) then 1 else 0 { DequeueInFlight(s.q, t.repo, u); }
  }

  lemma CompleteFlight(c: Config, s: System, t: Task, w: nat)
    requires Enabled(c, s, Complete(t, w))
    ensures Flight(s) == Flight(Step(c, s, Complete(t, w))) + multiset{t}
  {
    var ws' := s.workers[w := None];
    BusySet(s.workers, w, None);
    assert Busy(s.workers) + multiset{} == Busy(s.workers);
    var a := Held(s.loop) + multiset(s.chan);
    assert a + Busy(s.workers) == (a + Busy(ws')) + multiset{t};
  }

  lemma CompleteStep(c: Config, s: System, t: Task, w: nat)
    requires Inv(c, s) && Enabled(c, s, Complete(t, w))
    ensures InFlight(s.q, t)
    ensures Inv(c, Step(c, s, Complete(t, w)))
  {
    var s' := Step(c, s, Complete(t, w));
    CompleteFlight(c, s, t, w);
    assert Flight(s)[t] > 0;
    assert InFlight(s.q, t);
    MarkCompleteCoherent(s.q, t);
    forall u ensures Flight(s')[u] == if InFlight(s'.q, u) then 1 else 0 { MarkCompleteInFlight(s.q, t, u); }
  }

  lemma HandoffFlight(c: Config, s: System, t: Task, w: nat)
    requires Enabled(c, s, Handoff(t, w))
    ensures Flight(Step(c, s, Handoff(t, w))) == Flight(s)
  {
    BusySet(s.workers, w, Some(t));
    HandoffBags(Busy(s.workers), Busy(s.workers[w := Some(t)]), t);
  }

  lemma TakeFlight(c: Config, s: System, t: Task, w: nat)
    requires Enabled(c, s, Take(t, w))
    ensures Flight(Step(c, s, Take(t, w))) == Flight(s)
  {
    BusySet(s.workers, w, Some(t));
    TakeBags(Held(s.loop), s.chan, Busy(s.workers), Busy(s.workers[w := Some(t)]));
  }

  /** Passing a task along moves it inside the flight. */
  lemma MoveFlight(c: Config, s: System, e: Event)
    requires Enabled(c, s, e) && (e.Wake? || e.DequeueNil? || e.Send? || e.Handoff? || e.Take?)
    ensures Flight(Step(c, s, e)) == Flight(s)
  {
    match e
    case Wake =>
    case DequeueNil =>
    case Send(t) =>
    case Handoff(t, w) => HandoffFlight(c, s, t, w);
    case Take(t, w) => TakeFlight(c, s, t, w);
  }

  lemma HandoffBags(before: multiset<Task>, after: multiset<Task>, t: Task)
    requires after + multiset{} == before + multiset{t}
    ensures multiset{t} + multiset([]) + before == multiset{} + multiset([]) + after
  {
    assert after + multiset{} == after;
  }

  lemma TakeBags(held: multiset<Task>, chan: seq<Task>, before: multiset<Task>, after: multiset<Task>)
    requires chan != [] && after + multiset{} == before + multiset{chan[0]}
    ensures held + multiset(chan) + before == held + multiset(chan[1..]) + after
  {
    assert chan == [chan[0]] + chan[1..];
    assert multiset(chan) == multiset{chan[0]} + multiset(chan[1..]);
    assert after + multiset{} == after;
  }

  lemma WakeCoherent(q: Queue, n: nat)
    requires Coherent(q) && n <= SIGNAL_SLOTS
    ensures Coherent(q.(signals := n))
    ensures forall u :: InFlight(q.(signals := n), u) <==> InFlight(q, u)
  {
  }

  lemma WakeStep(c: Config, s: System)
    requires Inv(c, s) && Enabled(c, s, Wake)
    ensures Inv(c, Step(c, s, Wake))
  {
    hide RepoCoherent, IdCoherent, CurrentsDiffer, InFlight, AnyDispatchable;
    var s' := Step(c, s, Wake);
    WakeCoherent(s.q, s.q.signals - 1);
    assert Flight(s') == Flight(s);
    forall u ensures Flight(s')[u] == if InFlight(s'.q, u) then 1 else 0 {
      assert InFlight(s'.q, u) <==> InFlight(s.q, u);
    }
  }

  lemma MoveStep(c: Config, s: System, e: Event)
    requires Inv(c, s) && Enabled(c, s, e) && (e.DequeueNil? || e.Send? || e.Handoff? || e.Take?)
    ensures Inv(c, Step(c, s, e))
  {
    MoveFlight(c, s, e);
    MoveSizes(c, s, e);
    SameQueue(c, s, Step(c, s, e));
  }

  lemma MoveSizes(c: Config, s: System, e: Event)
    requires Enabled(c, s, e) && (e.DequeueNil? || e.Send? || e.Handoff? || e.Take?)
    ensures var s' := Step(c, s, e);
      && s'.q == s.q && |s'.workers| == |s.workers| && (|s.chan| <= c.capacity ==> |s'.chan| <= c.capacity)
      && (s'.loop.Idle? ==> s.loop.Idle? || !AnyDispatchable(s.q))
  {
  }

  lemma SameQueue(c: Config, s: System, s': System)
    requires Inv(c, s) && s'.q == s.q && Flight(s') == Flight(s)
    requires |s'.workers| == |s.workers| && |s'.chan| <= c.capacity
    requires s'.loop.Idle? ==> s.loop.Idle? || !AnyDispatchable(s.q)
    ensures Inv(c, s')
  {
  }

  lemma StepInv(c: Config, s: System, e: Event)
    requires Inv(c, s) && Enabled(c, s, e)
    ensures Inv(c, Step(c, s, e))
  {
    hide Inv, Enqueue, EnqueueAsRunning, Remove, RemovePending, MarkComplete;
    match e
    case DequeueRecovered(t) => DequeueStep(c, s, t);
    case DequeuePending(t) => DequeueStep(c, s, t);
    case Complete(t, w) => CompleteStep(c, s, t, w);
    case Wake => WakeStep(c, s);
    case DequeueNil => MoveStep(c, s, e);
    case Send(_) => MoveStep(c, s, e);
    case Handoff(_, _) => MoveStep(c, s, e);
    case Take(_, _) => MoveStep(c, s, e);
    case Enqueued(_) => ClientStep(c, s, e);
    case Recovered(_) => ClientStep(c, s, e);
    case Duplicate(_) => ClientStep(c, s, e);
    case RemovedPending(_) => ClientStep(c, s, e);
    case RemovedWaiting(_) => ClientStep(c, s, e);
    case RemoveMissed(_) => ClientStep(c, s, e);
  }

  /** Inv holds after every run, whatever the clients and the scheduler do. */
  lemma {:induction false} RunInv(c: Config, s: System, es: seq<Event>)
    requires Inv(c, s) && Exec(c, s, es).Some?
    ensures Inv(c, Exec(c, s, es).value)
  {
    if es == [] {
    } else {
      RunInv(c, s, es[..|es| - 1]);
      StepInv(c, Exec(c, s, es[..|es| - 1]).value, es[|es| - 1]);
    }
  }
}
