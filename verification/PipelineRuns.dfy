/** What holds over whole runs of the pipeline: serialization per repository, conservation of
  * tasks, first-in-first-out per repository, and completion of everything accepted.
  */
module PipelineRuns {
  import opened TaskQueue
  import opened Pipeline

  // ---------- Reading a run ----------

  datatype Part = Acceptance | Dispatch | PendingDispatch | Receipt | Completion | Removal

  function Mention(e: Event, part: Part): seq<Task> {
    match part
    case Acceptance => if e.Enqueued? || e.Recovered? then [e.t] else []
    case Dispatch => if e.DequeueRecovered? || e.DequeuePending? then [e.t] else []
    case PendingDispatch => if e.DequeuePending? then [e.t] else []
    case Receipt => if e.Take? || e.Handoff? then [e.t] else []
    case Completion => if e.Complete? then [e.t] else []
    case Removal => if e.RemovedPending? || e.RemovedWaiting? then [e.t] else []
  }

  /** The tasks a run mentions in one role, in order. */
  function Log(es: seq<Event>, part: Part): seq<Task> {
    if es == [] then [] else Log(es[..|es| - 1], part) + Mention(es[|es| - 1], part)
  }

  function OfRepo(ts: seq<Task>, repo: string): seq<Task> {
    if ts == [] then []
    else OfRepo(ts[..|ts| - 1], repo) + (if ts[|ts| - 1].repo == repo then [ts[|ts| - 1]] else [])
  }

  lemma {:induction false} OfRepoAppend(ts: seq<Task>, us: seq<Task>, repo: string)
    ensures OfRepo(ts + us, repo) == OfRepo(ts, repo) + OfRepo(us, repo)
  {
    if us == [] {
      assert ts + us == ts;
    } else {
      var us', u := us[..|us| - 1], us[|us| - 1];
      assert (ts + us)[..|ts + us| - 1] == ts + us';
      OfRepoAppend(ts, us', repo);
    }
  }

  /** A run is what it was before its last event, then that event. */
  lemma LastStep(c: Config, es: seq<Event>, s: System) returns (s0: System)
    requires Run(c, es, s) && es != []
    ensures Run(c, es[..|es| - 1], s0) && Inv(c, s0) && Enabled(c, s0, es[|es| - 1])
    ensures s == Step(c, s0, es[|es| - 1])
  {
    s0 := Exec(c, Init(c), es[..|es| - 1]).value;
    InitInv(c);
    RunInv(c, Init(c), es[..|es| - 1]);
  }

  // ---------- Serialization per repository ----------

  /** No two tasks of one repository are ever past Dequeue and before MarkComplete together, and
    * a repository is marked running exactly when one such task, or a recovered one, exists. */
  lemma Serialized(c: Config, es: seq<Event>, s: System)
    requires Run(c, es, s)
    ensures forall t :: Flight(s)[t] <= 1
    ensures forall t, u :: t in Flight(s) && u in Flight(s) && t.repo == u.repo ==> t == u
    ensures forall repo | repo in s.q.repos :: s.q.repos[repo].running <==>
      (var t := Task(s.q.repos[repo].current, repo); (t in Flight(s)) != Waiting(s.q, t))
    ensures forall t | t in Flight(s) || Waiting(s.q, t) ::
      t.repo in s.q.repos && s.q.repos[t.repo].running && s.q.repos[t.repo].current == t.id
  {
    InitInv(c);
    RunInv(c, Init(c), es);
    forall t | t in Flight(s) || Waiting(s.q, t)
      ensures t.repo in s.q.repos && s.q.repos[t.repo].running && s.q.repos[t.repo].current == t.id
    {
      if t in Flight(s) { assert InFlight(s.q, t); }
      assert RepoCoherent(s.q, t.repo);
    }
    forall repo | repo in s.q.repos
      ensures s.q.repos[repo].running <==>
        (var t := Task(s.q.repos[repo].current, repo); (t in Flight(s)) != Waiting(s.q, t))
    {
      assert RepoCoherent(s.q, repo);
      var t := Task(s.q.repos[repo].current, repo);
      assert t in Flight(s) <==> InFlight(s.q, t);
    }
  }

  /** A signal is buffered whenever the dispatch loop sleeps on dispatchable work. */
  lemma NeverAsleepOnWork(c: Config, es: seq<Event>, s: System)
    requires Run(c, es, s)
    ensures s.loop.Idle? && AnyDispatchable(s.q) ==> 0 < s.q.signals <= 100
  {
    InitInv(c);
    RunInv(c, Init(c), es);
  }

  // ---------- Conservation ----------

  /** The tasks accepted and not handed out. */
  function Backlog(q: Queue): multiset<Task> {
    multiset(q.byId.Values)
  }

  ghost predicate KeyedById(m: map<string, Task>) {
    forall id | id in m :: m[id].id == id
  }

  lemma ValuesAdd(m: map<string, Task>, t: Task)
    requires KeyedById(m) && t.id !in m
    ensures multiset(m[t.id := t].Values) == multiset(m.Values) + multiset{t}
  {
    var m' := m[t.id := t];
    forall u | u in m.Values ensures u in m'.Values && u != t {
      var id :| id in m && m[id] == u;
      assert id in m' && m'[id] == u;
    }
    assert t.id in m' && m'[t.id] == t;
    assert m'.Values == m.Values + {t};
  }

  lemma CoherentKeyed(q: Queue)
    requires Coherent(q)
    ensures KeyedById(q.byId)
  {
  }

  lemma BacklogAdd(q: Queue, q': Queue, t: Task)
    requires Coherent(q) && t.id !in q.byId && q'.byId == q.byId[t.id := t]
    ensures Backlog(q') == Backlog(q) + multiset{t}
  {
    CoherentKeyed(q);
    ValuesAdd(q.byId, t);
  }

  lemma BacklogDrop(q: Queue, q': Queue, t: Task)
    requires Coherent(q) && Indexed(q, t) && q'.byId == q.byId - {t.id}
    ensures Backlog(q) == Backlog(q') + multiset{t}
  {
    CoherentKeyed(q);
    ValuesAdd(q'.byId, t);
    assert q.byId == q'.byId[t.id := t];
  }

  function InSystem(s: System): multiset<Task> {
    Backlog(s.q) + Flight(s)
  }

  lemma AcceptConserves(q: Queue, t: Task)
    requires Coherent(q) && !HasTask(q, t.id)
    ensures Backlog(Enqueue(q, t)) == Backlog(q) + multiset{t}
    ensures Backlog(EnqueueAsRunning(q, t)) == Backlog(q) + multiset{t}
  {
    BacklogAdd(q, Enqueue(q, t), t);
    BacklogAdd(q, EnqueueAsRunning(q, t), t);
  }

  lemma RemoveConserves(q: Queue, t: Task)
    requires Coherent(q) && Indexed(q, t)
    ensures Backlog(q) == Backlog(Remove(q, t)) + multiset{t}
  {
    RemoveFacts(q, t);
    BacklogDrop(q, Remove(q, t), t);
  }

  lemma ClientFlight(c: Config, s: System, e: Event)
    requires Enabled(c, s, e) && !Internal(e)
    ensures Flight(Step(c, s, e)) == Flight(s)
  {
  }

  lemma ClientConserves(c: Config, s: System, e: Event)
    requires Inv(c, s) && Enabled(c, s, e) && !Internal(e)
    ensures Backlog(s.q) + multiset(Mention(e, Acceptance))
         == Backlog(Step(c, s, e).q) + multiset(Mention(e, Removal))
  {
    hide Coherent, Backlog, HasTask, Remove;
    if e.Enqueued? || e.Recovered? {
      AcceptConserves(s.q, e.t);
    } else if e.RemovedPending? || e.RemovedWaiting? {
      RemoveConserves(s.q, e.t);
    } else if e.Duplicate? {
      KnownRefused(s.q, e.t);
    } else {
      MissedUnknown(s.q, e.id);
    }
  }

  lemma DequeueConserves(c: Config, s: System, e: Event)
    requires Inv(c, s) && Enabled(c, s, e) && (e.DequeueRecovered? || e.DequeuePending?)
    ensures InSystem(Step(c, s, e)) == InSystem(s)
  {
    var s' := Step(c, s, e);
    DequeueStep(c, s, e.t);
    BacklogDrop(s.q, s'.q, e.t);
    Shift(Backlog(s.q), Backlog(s'.q), Flight(s), Flight(s'), multiset{e.t});
  }

  lemma Shift(b: multiset<Task>, b': multiset<Task>, f: multiset<Task>, f': multiset<Task>, x: multiset<Task>)
    requires b == b' + x && f' == f + x
    ensures b + f == b' + f'
  {
  }

  lemma CompleteConserves(c: Config, s: System, t: Task, w: nat)
    requires Inv(c, s) && Enabled(c, s, Complete(t, w))
    ensures InSystem(s) == InSystem(Step(c, s, Complete(t, w))) + multiset{t}
  {
    CompleteStep(c, s, t, w);
    MarkCompleteCoherent(s.q, t);
    CompleteFlight(c, s, t, w);
  }

  lemma ClientMentions(e: Event)
    ensures Internal(e) ==> Mention(e, Acceptance) == [] && Mention(e, Removal) == []
    ensures !Internal(e) ==> Mention(e, Completion) == []
  {
  }

  lemma StepConserves(c: Config, s: System, e: Event)
    requires Inv(c, s) && Enabled(c, s, e)
    ensures InSystem(s) + multiset(Mention(e, Acceptance))
         == InSystem(Step(c, s, e)) + multiset(Mention(e, Completion)) + multiset(Mention(e, Removal))
  {
    ClientMentions(e);
    if Internal(e) {
      InternalConserves(c, s, e);
    } else {
      ClientStepConserves(c, s, e);
    }
  }

  lemma ClientStepConserves(c: Config, s: System, e: Event)
    requires Inv(c, s) && Enabled(c, s, e) && !Internal(e)
    ensures InSystem(s) + multiset(Mention(e, Acceptance)) == InSystem(Step(c, s, e)) + multiset(Mention(e, Removal))
  {
    ClientConserves(c, s, e);
    ClientFlight(c, s, e);
    ClientBalance(Backlog(s.q), Flight(s), multiset(Mention(e, Acceptance)),
                  Backlog(Step(c, s, e).q), multiset{}, multiset(Mention(e, Removal)));
  }

  lemma ClientBalance(b: multiset<Task>, f: multiset<Task>, a: multiset<Task>,
                      b': multiset<Task>, d: multiset<Task>, r: multiset<Task>)
    requires b + a == b' + r && d == multiset{}
    ensures (b + f) + a == (b' + f) + d + r
  {
    assert (b + f) + a == (b + a) + f;
  }

  lemma MoveConserves(c: Config, s: System, e: Event)
    requires Enabled(c, s, e) && (e.Wake? || e.DequeueNil? || e.Send? || e.Handoff? || e.Take?)
    ensures InSystem(Step(c, s, e)) == InSystem(s)
  {
    hide Flight, Enabled, Step;
    MoveFlight(c, s, e);
    MoveIndex(c, s, e);
  }

  lemma MoveIndex(c: Config, s: System, e: Event)
    requires Enabled(c, s, e) && (e.Wake? || e.DequeueNil? || e.Send? || e.Handoff? || e.Take?)
    ensures Step(c, s, e).q.byId == s.q.byId
  {
  }

  lemma InternalMentions(e: Event)
    requires Internal(e)
    ensures multiset(Mention(e, Completion)) == if e.Complete? then multiset{e.t} else multiset{}
  {
  }

  lemma InternalConserves(c: Config, s: System, e: Event)
    requires Inv(c, s) && Enabled(c, s, e) && Internal(e)
    ensures InSystem(s) == InSystem(Step(c, s, e)) + multiset(Mention(e, Completion))
  {
    hide Inv, Enabled, Step, InSystem, Mention;
    InternalMentions(e);
    if e.Complete? {
      CompleteConserves(c, s, e.t, e.worker);
    } else if e.DequeueRecovered? || e.DequeuePending? {
      DequeueConserves(c, s, e);
    } else {
      MoveConserves(c, s, e);
    }
  }

  /** Every acceptance is accounted for exactly once: still in the queue, in flight, completed
    * or removed. Nothing is lost and nothing is processed twice. */
  lemma {:induction false} Conservation(c: Config, es: seq<Event>, s: System)
    requires Run(c, es, s)
    ensures multiset(Log(es, Acceptance))
         == Backlog(s.q) + Flight(s) + multiset(Log(es, Completion)) + multiset(Log(es, Removal))
  {
    if es == [] {
      BusyNone(c.workers);
    } else {
      var s0 := LastStep(c, es, s);
      var es0, e := es[..|es| - 1], es[|es| - 1];
      Conservation(c, es0, s0);
      StepConserves(c, s0, e);
      Balance(multiset(Log(es0, Acceptance)), InSystem(s0), multiset(Log(es0, Completion)), multiset(Log(es0, Removal)),
              multiset(Mention(e, Acceptance)), InSystem(s), multiset(Mention(e, Completion)),
              multiset(Mention(e, Removal)));
    }
  }

  lemma Balance(a: multiset<Task>, i: multiset<Task>, d: multiset<Task>, r: multiset<Task>,
                a': multiset<Task>, i': multiset<Task>, d': multiset<Task>, r': multiset<Task>)
    requires a == i + d + r && i + a' == i' + d' + r'
    ensures a + a' == i' + (d + d') + (r + r')
  {
    assert a + a' == (i + a') + d + r;
  }

  /** HasTask answers exactly whether a task with this ID is accepted and neither completed nor removed. */
  lemma HasTaskExact(c: Config, es: seq<Event>, s: System, id: string)
    requires Run(c, es, s) && id != ""
    ensures HasTask(s.q, id) <==> exists t | t in InSystem(s) :: t.id == id
  {
    InitInv(c);
    RunInv(c, Init(c), es);
    if id in s.q.byId {
      assert IdCoherent(s.q, id);
      assert s.q.byId[id] in s.q.byId.Values;
      assert s.q.byId[id] in InSystem(s);
    } else if HasTask(s.q, id) {
      var repo :| repo in s.q.repos && IsCurrent(s.q, repo, id);
      assert InFlight(s.q, Task(id, repo));
      assert Task(id, repo) in Flight(s);
      assert Task(id, repo) in InSystem(s);
    }
    forall t | t in InSystem(s) && t.id == id ensures HasTask(s.q, id) {
      if t in Backlog(s.q) {
        CoherentKeyed(s.q);
      } else {
        assert t in Flight(s);
        assert InFlight(s.q, t);
        assert IsCurrent(s.q, t.repo, id);
      }
    }
  }

  // ---------- First in, first out ----------

  /** `ts` without the last occurrence of `t`. */
  function DropLast(ts: seq<Task>, t: Task): seq<Task> {
    if ts == [] then []
    else
      var init, last := ts[..|ts| - 1], ts[|ts| - 1];
      if last == t then init else DropLast(init, t) + [last]
  }

  /** The order in which Enqueue accepted the tasks of `repo`, less those taken back while pending. */
  function Lineup(es: seq<Event>, repo: string): seq<Task> {
    if es == [] then []
    else
      var before, e := Lineup(es[..|es| - 1], repo), es[|es| - 1];
      if e.Enqueued? && e.t.repo == repo then before + [e.t]
      else if e.RemovedPending? && e.t.repo == repo then DropLast(before, e.t)
      else before
  }

  lemma {:induction false} WithoutAppend(init: seq<Task>, last: Task, t: Task)
    requires last == t ==> forall u | u in init :: u.id != t.id
    requires last.id == t.id ==> last == t
    ensures Without(init + [last], t.id) == if last == t then init else Without(init, t.id) + [last]
  {
    if init == [] {
      assert init + [last] == [last] && [last][1..] == [];
    } else {
      var rest := init[1..];
      assert (init + [last])[1..] == rest + [last];
      assert forall u | u in rest :: u in init;
      WithoutAppend(rest, last, t);
      assert init == [init[0]] + rest;
    }
  }

  lemma {:induction false} DropLastPending(d: seq<Task>, p: seq<Task>, t: Task)
    requires t in p && Distinct(p) && (forall u | u in p && u.id == t.id :: u == t)
    ensures DropLast(d + p, t) == d + Without(p, t.id)
  {
    hide Without;
    var init, last := p[..|p| - 1], p[|p| - 1];
    assert (d + p)[..|d + p| - 1] == d + init;
    assert p == init + [last];
    assert forall u | u in init :: u in p && u != last;
    WithoutAppend(init, last, t);
    if last != t {
      DropLastPending(d, init, t);
    }
  }

  function PendingOf(q: Queue, repo: string): seq<Task> {
    RepoOrNew(q, repo).tasks
  }

  /** How an event changes the pending list of `repo`. */
  predicate PendingMoves(e: Event, repo: string, p: seq<Task>, p': seq<Task>) {
    if e.Enqueued? && e.t.repo == repo then p' == p + [e.t]
    else if e.RemovedPending? && e.t.repo == repo then p' == Without(p, e.t.id) && e.t in p
    else if e.DequeuePending? && e.t.repo == repo then p == [e.t] + p'
    else p' == p
  }

  lemma RemoveMovesPending(q: Queue, t: Task, repo: string)
    requires Coherent(q) && Indexed(q, t)
    ensures Waiting(q, t) ==> PendingOf(Remove(q, t), repo) == PendingOf(q, repo)
    ensures Pending(q, t) ==>
      PendingOf(Remove(q, t), repo) == if t.repo == repo then Without(PendingOf(q, repo), t.id) else PendingOf(q, repo)
  {
  }

  lemma AcceptMovesPending(q: Queue, t: Task, repo: string)
    ensures PendingOf(Enqueue(q, t), repo) ==
      if t.id !in q.byId && t.repo == repo then PendingOf(q, repo) + [t] else PendingOf(q, repo)
    ensures PendingOf(EnqueueAsRunning(q, t), repo) == PendingOf(q, repo)
  {
  }

  lemma DequeueMovesPending(q: Queue, from: string, repo: string)
    ensures Recoverable(q, from) ==> PendingOf(Recover(q, from).1, repo) == PendingOf(q, repo)
    ensures Startable(q, from) ==> var (t, q') := Start(q, from);
      if from == repo then PendingOf(q, repo) == [t] + PendingOf(q', repo)
      else PendingOf(q', repo) == PendingOf(q, repo)
  {
  }

  lemma CompleteMovesPending(q: Queue, from: string, id: string, repo: string)
    ensures PendingOf(MarkComplete(q, from, id), repo) == PendingOf(q, repo)
  {
  }

  lemma PendingStep(c: Config, s: System, e: Event, repo: string)
    requires Inv(c, s) && Enabled(c, s, e)
    ensures PendingMoves(e, repo, PendingOf(s.q, repo), PendingOf(Step(c, s, e).q, repo))
  {
    hide Coherent, PendingOf, Enqueue, EnqueueAsRunning, Remove, Recover, Start, MarkComplete;
    match e
    case Enqueued(t) => AcceptMovesPending(s.q, t, repo);
    case Recovered(t) => AcceptMovesPending(s.q, t, repo);
    case Duplicate(t) => AcceptMovesPending(s.q, t, repo);
    case RemovedPending(t) => RemoveMovesPending(s.q, t, repo); PendingIn(s.q, t);
    case RemovedWaiting(t) => RemoveMovesPending(s.q, t, repo);
    case DequeueRecovered(t) => DequeueMovesPending(s.q, t.repo, repo);
    case DequeuePending(t) => DequeueMovesPending(s.q, t.repo, repo);
    case Complete(t, w) => CompleteMovesPending(s.q, t.repo, t.id, repo);
    case _ => SamePending(s.q, Step(c, s, e).q, repo);
  }

  lemma PendingIn(q: Queue, t: Task)
    requires Pending(q, t)
    ensures t in PendingOf(q, t.repo)
  {
  }

  lemma SamePending(q: Queue, q': Queue, repo: string)
    requires q'.repos == q.repos
    ensures PendingOf(q', repo) == PendingOf(q, repo)
  {
  }

  /** The tasks of `repo` that a run mentions in one role. */
  function LogOf(es: seq<Event>, part: Part, repo: string): seq<Task> {
    OfRepo(Log(es, part), repo)
  }

  lemma LogOfStep(es: seq<Event>, part: Part, repo: string)
    requires es != []
    ensures var m := Mention(es[|es| - 1], part);
      LogOf(es, part, repo) == LogOf(es[..|es| - 1], part, repo) + (if m != [] && m[0].repo == repo then m else [])
  {
    var m := Mention(es[|es| - 1], part);
    OfRepoAppend(Log(es[..|es| - 1], part), m, repo);
    if m != [] {
      assert m == [m[0]];
      assert OfRepo(m[..0], repo) == [];
    }
  }

  /** For every repository, the tasks handed out from its list followed by those still pending
    * are the tasks in acceptance order. */
  lemma {:induction false} Fifo(c: Config, es: seq<Event>, s: System, repo: string)
    requires Run(c, es, s)
    ensures LogOf(es, PendingDispatch, repo) + PendingOf(s.q, repo) == Lineup(es, repo)
  {
    if es == [] {
    } else {
      var s0 := LastStep(c, es, s);
      Fifo(c, es[..|es| - 1], s0, repo);
      PendingStep(c, s0, es[|es| - 1], repo);
      FifoStep(es, repo, s0.q, PendingOf(s.q, repo));
    }
  }

  /** How one event moves the line `d + p`, given how it moves the pending part. */
  lemma LineupStep(es: seq<Event>, repo: string, d: seq<Task>, p: seq<Task>, p': seq<Task>)
    requires es != [] && d + p == Lineup(es[..|es| - 1], repo)
    requires PendingMoves(es[|es| - 1], repo, p, p')
    requires es[|es| - 1].RemovedPending? && es[|es| - 1].t.repo == repo ==>
      Distinct(p) && forall u | u in p && u.id == es[|es| - 1].t.id :: u == es[|es| - 1].t
    ensures var e := es[|es| - 1];
      (if e.DequeuePending? && e.t.repo == repo then d + [e.t] else d) + p' == Lineup(es, repo)
  {
    hide DropLast, Without;
    var e := es[|es| - 1];
    if e.RemovedPending? && e.t.repo == repo {
      DropLastPending(d, p, e.t);
    } else if e.Enqueued? && e.t.repo == repo {
      assert d + (p + [e.t]) == (d + p) + [e.t];
    } else if e.DequeuePending? && e.t.repo == repo {
      assert (d + [e.t]) + p' == d + p;
    }
  }

  lemma FifoStep(es: seq<Event>, repo: string, q: Queue, p': seq<Task>)
    requires es != [] && Coherent(q)
    requires LogOf(es[..|es| - 1], PendingDispatch, repo) + PendingOf(q, repo) == Lineup(es[..|es| - 1], repo)
    requires PendingMoves(es[|es| - 1], repo, PendingOf(q, repo), p')
    ensures LogOf(es, PendingDispatch, repo) + p' == Lineup(es, repo)
  {
    var e := es[|es| - 1];
    var d := LogOf(es[..|es| - 1], PendingDispatch, repo);
    if e.RemovedPending? && e.t.repo == repo { PendingDistinct(q, repo, e.t); }
    LineupStep(es, repo, d, PendingOf(q, repo), p');
    LogOfStep(es, PendingDispatch, repo);
    assert LogOf(es, PendingDispatch, repo) == if e.DequeuePending? && e.t.repo == repo then d + [e.t] else d;
  }

  lemma PendingDistinct(q: Queue, repo: string, t: Task)
    requires Coherent(q) && t in PendingOf(q, repo)
    ensures Distinct(PendingOf(q, repo)) && forall u | u in PendingOf(q, repo) && u.id == t.id :: u == t
  {
  }

  /** The task of `repo` in flight, as a list of none or one. */
  function FlightOf(q: Queue, repo: string): seq<Task> {
    var t := Task(RepoOrNew(q, repo).current, repo);
    if InFlight(q, t) then [t] else []
  }

  /** How an event changes what is in flight for `repo`. */
  predicate FlightMoves(e: Event, repo: string, f: seq<Task>, f': seq<Task>) {
    if (e.DequeueRecovered? || e.DequeuePending?) && e.t.repo == repo then f == [] && f' == [e.t]
    else if e.Complete? && e.t.repo == repo then f == [e.t] && f' == []
    else f' == f
  }

  /** Two queues that agree on what is in flight agree on what is in flight for `repo`. */
  lemma SameFlight(q: Queue, q': Queue, repo: string)
    requires forall u :: InFlight(q', u) <==> InFlight(q, u)
    ensures FlightOf(q', repo) == FlightOf(q, repo)
  {
    var t, t' := Task(RepoOrNew(q, repo).current, repo), Task(RepoOrNew(q', repo).current, repo);
    assert InFlight(q', t) <==> InFlight(q, t);
    assert InFlight(q', t') <==> InFlight(q, t');
  }

  lemma ClientFlightOf(c: Config, s: System, e: Event, repo: string)
    requires Inv(c, s) && Enabled(c, s, e) && !Internal(e)
    ensures FlightOf(Step(c, s, e).q, repo) == FlightOf(s.q, repo)
  {
    hide Coherent, FlightOf, InFlight, HasTask, Enqueue, EnqueueAsRunning, Remove;
    var q' := Step(c, s, e).q;
    match e
    case Enqueued(t) =>
      forall u ensures InFlight(q', u) <==> InFlight(s.q, u) { EnqueueInFlight(s.q, t, u); }
      SameFlight(s.q, q', repo);
    case Recovered(t) =>
      forall u ensures InFlight(q', u) <==> InFlight(s.q, u) { EnqueueAsRunningInFlight(s.q, t, u); }
      SameFlight(s.q, q', repo);
    case Duplicate(t) => KnownRefused(s.q, t);
    case RemovedPending(t) =>
      forall u ensures InFlight(q', u) <==> InFlight(s.q, u) { RemoveInFlight(s.q, t, u); }
      SameFlight(s.q, q', repo);
    case RemovedWaiting(t) =>
      forall u ensures InFlight(q', u) <==> InFlight(s.q, u) { RemoveInFlight(s.q, t, u); }
      SameFlight(s.q, q', repo);
    case RemoveMissed(id) => MissedUnknown(s.q, id);
  }

  lemma KnownRefused(q: Queue, t: Task)
    requires t.id in q.byId
    ensures Enqueue(q, t) == q
  {
  }

  lemma MissedUnknown(q: Queue, id: string)
    requires !HasTask(q, id)
    ensures RemovePending(q, id) == q
  {
  }

  lemma DequeueFlightOf(q: Queue, from: string, repo: string)
    requires Coherent(q) && MayDequeue(q, from)
    ensures var (t, q') := DequeueFrom(q, from);
      if from == repo then FlightOf(q, repo) == [] && FlightOf(q', repo) == [t]
      else FlightOf(q', repo) == FlightOf(q, repo)
  {
    hide Coherent, MayDequeue, DequeueFrom;
    var (t, q') := DequeueFrom(q, from);
    DequeuedTask(q, from);
    DequeueIdle(q, from);
    var u, u' := Task(RepoOrNew(q, repo).current, repo), Task(RepoOrNew(q', repo).current, repo);
    DequeueInFlight(q, from, u);
    DequeueInFlight(q, from, u');
  }

  lemma CompleteFlightOf(q: Queue, t: Task, repo: string)
    requires Coherent(q) && InFlight(q, t)
    ensures var q' := MarkComplete(q, t.repo, t.id);
      if t.repo == repo then FlightOf(q, repo) == [t] && FlightOf(q', repo) == []
      else FlightOf(q', repo) == FlightOf(q, repo)
  {
    hide Coherent;
  }

  lemma InvCoherent(c: Config, s: System)
    requires Inv(c, s)
    ensures Coherent(s.q)
  {
  }

  lemma FlightStep(c: Config, s: System, e: Event, repo: string)
    requires Inv(c, s) && Enabled(c, s, e)
    ensures FlightMoves(e, repo, FlightOf(s.q, repo), FlightOf(Step(c, s, e).q, repo))
  {
    hide Inv, Coherent, FlightOf, Recover, Start, MarkComplete, InFlight;
    InvCoherent(c, s);
    match e
    case DequeueRecovered(t) => DequeuedTask(s.q, t.repo); DequeueFlightOf(s.q, t.repo, repo);
    case DequeuePending(t) => DequeuedTask(s.q, t.repo); DequeueFlightOf(s.q, t.repo, repo);
    case Complete(t, w) => CompleteStep(c, s, t, w); CompleteFlightOf(s.q, t, repo);
    case Wake => WakeFlightOf(s.q, s.q.signals - 1, repo);
    case DequeueNil =>
    case Send(_) =>
    case Handoff(_, _) =>
    case Take(_, _) =>
    case _ => ClientFlightOf(c, s, e, repo);
  }

  lemma WakeFlightOf(q: Queue, n: nat, repo: string)
    ensures FlightOf(q.(signals := n), repo) == FlightOf(q, repo)
  {
  }

  /** Tasks of one repository complete in exactly the order they were handed out, one at a time. */
  lemma {:induction false} CompletionOrder(c: Config, es: seq<Event>, s: System, repo: string)
    requires Run(c, es, s)
    ensures LogOf(es, Dispatch, repo) == LogOf(es, Completion, repo) + FlightOf(s.q, repo)
  {
    if es == [] {
    } else {
      var s0 := LastStep(c, es, s);
      var es0, e := es[..|es| - 1], es[|es| - 1];
      CompletionOrder(c, es0, s0, repo);
      FlightStep(c, s0, e, repo);
      OrderStep(es, repo, FlightOf(s0.q, repo), FlightOf(s.q, repo));
    }
  }

  lemma OrderStep(es: seq<Event>, repo: string, f: seq<Task>, f': seq<Task>)
    requires es != [] && FlightMoves(es[|es| - 1], repo, f, f')
    requires LogOf(es[..|es| - 1], Dispatch, repo) == LogOf(es[..|es| - 1], Completion, repo) + f
    ensures LogOf(es, Dispatch, repo) == LogOf(es, Completion, repo) + f'
  {
    hide LogOf;
    LogOfStep(es, Dispatch, repo);
    LogOfStep(es, Completion, repo);
    var e := es[|es| - 1];
    var d, k := LogOf(es[..|es| - 1], Dispatch, repo), LogOf(es[..|es| - 1], Completion, repo);
    var d', k' := LogOf(es, Dispatch, repo), LogOf(es, Completion, repo);
    if (e.DequeueRecovered? || e.DequeuePending?) && e.t.repo == repo {
      assert d' == d + [e.t] && k' == k + [] == k;
      assert d == k + [] == k;
    } else if e.Complete? && e.t.repo == repo {
      assert d' == d + [] == d && k' == k + [e.t];
      assert k' + [] == k';
    } else {
      assert d' == d + [] == d && k' == k + [] == k;
    }
  }

  // ---------- First in, first out across repositories ----------

  /** What the dispatch loop and the channel hold, the next one to be received first. */
  function OnTheWay(s: System): seq<Task> {
    s.chan + if s.loop.Holding? then [s.loop.task] else []
  }

  lemma WayStep(c: Config, s: System, e: Event)
    requires Enabled(c, s, e)
    ensures OnTheWay(s) + Mention(e, Dispatch) == Mention(e, Receipt) + OnTheWay(Step(c, s, e))
  {
    hide Enqueue, EnqueueAsRunning, Remove, RemovePending, MarkComplete, Recover, Start, HasTask, Recoverable,
         AnyRecoverable, Startable, AnyDispatchable, Indexed, Pending, Waiting;
    var w, w' := OnTheWay(s), OnTheWay(Step(c, s, e));
    if e.Take? {
      assert s.chan == [s.chan[0]] + s.chan[1..];
      assert w + [] == w && w == [e.t] + w';
    } else if e.DequeueRecovered? || e.DequeuePending? {
      assert w + [e.t] == w' && [] + w' == w';
    } else {
      assert w + [] == w && [] + w' == w';
    }
  }

  /** The workers receive the tasks of all repositories in exactly the order in which Dequeue handed them out; only
    * what the channel and the dispatch loop hold is still to come. */
  lemma {:induction false} ReceiptOrder(c: Config, es: seq<Event>, s: System)
    requires Run(c, es, s)
    ensures Log(es, Dispatch) ==
      Log(es, Receipt) + s.chan + (if s.loop.Holding? then [s.loop.task] else [])
  {
    if es == [] {
    } else {
      hide Inv, Enabled, Step, Mention;
      var s0 := LastStep(c, es, s);
      var init, e := es[..|es| - 1], es[|es| - 1];
      ReceiptOrder(c, init, s0);
      assert Log(init, Dispatch) == Log(init, Receipt) + OnTheWay(s0);
      hide Run, OnTheWay;
      WayStep(c, s0, e);
      ReceiptStep(Log(init, Dispatch), Log(init, Receipt), OnTheWay(s0), OnTheWay(s),
                  Mention(e, Dispatch), Mention(e, Receipt));
      WayAppend(Log(es, Receipt), s);
    }
  }

  lemma WayAppend(k: seq<Task>, s: System)
    ensures k + OnTheWay(s) == k + s.chan + (if s.loop.Holding? then [s.loop.task] else [])
  {
  }

  lemma ReceiptStep(d: seq<Task>, k: seq<Task>, w: seq<Task>, w': seq<Task>, d': seq<Task>, k': seq<Task>)
    requires d == k + w && w + d' == k' + w'
    ensures d + d' == k + k' + w'
  {
    assert d + d' == k + (w + d');
  }

  // ---------- Wake-up signals ----------

  /** The event sends a signal: an acceptance, a completion, or the removal of a waiting recovered task. */
  predicate Sends(e: Event) {
    e.Enqueued? || e.Recovered? || e.Complete? || e.RemovedWaiting?
  }

  function SentIn(es: seq<Event>): nat {
    if es == [] then 0 else SentIn(es[..|es| - 1]) + if Sends(es[|es| - 1]) then 1 else 0
  }

  function WakesIn(es: seq<Event>): nat {
    if es == [] then 0 else WakesIn(es[..|es| - 1]) + if es[|es| - 1].Wake? then 1 else 0
  }

  lemma SignalStep(c: Config, s: System, e: Event)
    requires Inv(c, s) && Enabled(c, s, e)
    ensures Step(c, s, e).q.signals ==
      if Sends(e) then (if s.q.signals < 100 then s.q.signals + 1 else 100)
      else if e.Wake? then s.q.signals - 1
      else s.q.signals
  {
    hide FlightMatches, NoLostWakeUp, WorkerIs;
    match e
    case Enqueued(t) => SignalAccept(s.q, t);
    case Recovered(t) => SignalAccept(s.q, t);
    case Duplicate(t) => KnownRefused(s.q, t);
    case RemovedPending(t) => SignalRemove(s.q, t);
    case RemovedWaiting(t) => SignalRemove(s.q, t);
    case RemoveMissed(id) => MissedUnknown(s.q, id);
    case Complete(t, w) => SignalComplete(c, s, t, w);
    case DequeueRecovered(_) =>
    case DequeuePending(_) =>
    case _ =>
  }

  lemma SignalAccept(q: Queue, t: Task)
    requires t.id !in q.byId && q.signals <= 100
    ensures Enqueue(q, t).signals == if q.signals < 100 then q.signals + 1 else 100
    ensures EnqueueAsRunning(q, t).signals == if q.signals < 100 then q.signals + 1 else 100
  {
  }

  lemma SignalRemove(q: Queue, t: Task)
    requires Coherent(q) && Indexed(q, t)
    ensures Waiting(q, t) ==> Remove(q, t).signals == if q.signals < 100 then q.signals + 1 else 100
    ensures Pending(q, t) ==> Remove(q, t).signals == q.signals
  {
  }

  lemma SignalComplete(c: Config, s: System, t: Task, w: nat)
    requires Inv(c, s) && Enabled(c, s, Complete(t, w))
    ensures MarkComplete(s.q, t.repo, t.id).signals == if s.q.signals < 100 then s.q.signals + 1 else 100
  {
    CompleteStep(c, s, t, w);
    assert InFlight(s.q, t);
  }

  /** Every wake-up uses up one signal that was sent, and none is lost as long as no more than 100 have been sent. */
  lemma {:induction false} SignalsAccounted(c: Config, es: seq<Event>, s: System)
    requires Run(c, es, s)
    ensures WakesIn(es) + s.q.signals <= SentIn(es)
    ensures SentIn(es) <= 100 ==> WakesIn(es) + s.q.signals == SentIn(es)
  {
    if es == [] {
    } else {
      hide Enabled, Step, Inv, Sends;
      var s0 := LastStep(c, es, s);
      SignalsAccounted(c, es[..|es| - 1], s0);
      SignalStep(c, s0, es[|es| - 1]);
    }
  }
}
