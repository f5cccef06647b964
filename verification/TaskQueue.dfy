/** The per-repository task queue of internal/engine/queue.go, as values.
  *
  * Each locked method of the source is one function from queue to queue. The class in
  * RepoTaskQueue.dfy is proved to compute these functions; Pipeline.dfy runs them as
  * atomic steps beside the dispatcher and the workers.
  */
module TaskQueue {

  /** A task is known to the queue by its review ID and its repository URL. */
  datatype Task = Task(id: string, repo: string)

  /** One repository's queue. `current` is "" when no task is running. */
  datatype RepoQueue = RepoQueue(tasks: seq<Task>, running: bool, current: string, dequeued: bool)

  /** `signals` counts the wake-ups buffered in the taskReady channel. */
  datatype Queue = Queue(repos: map<string, RepoQueue>, byId: map<string, Task>, signals: nat)

  /** Capacity of the taskReady channel. */
  const SIGNAL_SLOTS: nat := 100

  const EMPTY_QUEUE := Queue(map[], map[], 0)

  // ---------- Operations ----------

  /** A non-blocking send: the signal is dropped when the buffer is full. */
  function Signal(q: Queue): Queue {
    q.(signals := if q.signals < SIGNAL_SLOTS then q.signals + 1 else q.signals)
  }

  function RepoOrNew(q: Queue, repo: string): RepoQueue {
    if repo in q.repos then q.repos[repo] else RepoQueue([], false, "", false)
  }

  function Enqueue(q: Queue, t: Task): Queue {
    if t.id in q.byId then q
    else
      var rq := RepoOrNew(q, t.repo);
      Signal(q.(repos := q.repos[t.repo := rq.(tasks := rq.tasks + [t])], byId := q.byId[t.id := t]))
  }

  function EnqueueAsRunning(q: Queue, t: Task): Queue {
    if t.id in q.byId then q
    else
      var rq := RepoOrNew(q, t.repo).(running := true, current := t.id, dequeued := false);
      Signal(q.(repos := q.repos[t.repo := rq], byId := q.byId[t.id := t]))
  }

  /** The repository holds a recovered task that was not handed out yet. */
  predicate Recoverable(q: Queue, repo: string) {
    && repo in q.repos
    && q.repos[repo].running && q.repos[repo].current != "" && !q.repos[repo].dequeued
    && q.repos[repo].current in q.byId
  }

  /** The repository is free and has a pending task. */
  predicate Startable(q: Queue, repo: string) {
    repo in q.repos && !q.repos[repo].running && q.repos[repo].tasks != []
  }

  predicate Dispatchable(q: Queue, repo: string) {
    Recoverable(q, repo) || Startable(q, repo)
  }

  predicate AnyRecoverable(q: Queue) {
    exists repo | repo in q.repos :: Recoverable(q, repo)
  }

  predicate AnyDispatchable(q: Queue) {
    exists repo | repo in q.repos :: Dispatchable(q, repo)
  }

  /** Hand out the recovered task of `repo`. */
  function Recover(q: Queue, repo: string): (Task, Queue)
    requires Recoverable(q, repo)
  {
    var rq := q.repos[repo];
    (q.byId[rq.current],
     q.(repos := q.repos[repo := rq.(dequeued := true)], byId := q.byId - {rq.current}))
  }

  /** Hand out the oldest pending task of `repo`. */
  function Start(q: Queue, repo: string): (Task, Queue)
    requires Startable(q, repo)
  {
    var rq := q.repos[repo];
    var t := rq.tasks[0];
    (t,
     q.(repos := q.repos[repo := rq.(tasks := rq.tasks[1..], running := true, current := t.id)],
        byId := q.byId - {t.id}))
  }

  /** Recovered tasks of any repository go before pending tasks of any repository. */
  predicate MayDequeue(q: Queue, repo: string) {
    Recoverable(q, repo) || (!AnyRecoverable(q) && Startable(q, repo))
  }

  /** What Dequeue does when the map iteration reaches `repo` first. */
  function DequeueFrom(q: Queue, repo: string): (Task, Queue)
    requires MayDequeue(q, repo)
  {
    if Recoverable(q, repo) then Recover(q, repo) else Start(q, repo)
  }

  function Freed(rq: RepoQueue): RepoQueue {
    rq.(running := false, current := "", dequeued := false)
  }

  function MarkComplete(q: Queue, repo: string, id: string): Queue {
    var q1 := q.(byId := q.byId - {id});
    if repo !in q.repos then q1
    else
      var rq := Freed(q.repos[repo]);
      Signal(q1.(repos := if rq.tasks == [] then q.repos - {repo} else q.repos[repo := rq]))
  }

  predicate IsCurrent(q: Queue, repo: string, id: string) {
    repo in q.repos && q.repos[repo].current == id
  }

  predicate AnyCurrent(q: Queue, id: string) {
    exists repo | repo in q.repos :: IsCurrent(q, repo, id)
  }

  predicate HasTask(q: Queue, id: string) {
    id in q.byId || AnyCurrent(q, id)
  }

  /** `ts` without its first task whose ID is `id`. */
  function Without(ts: seq<Task>, id: string): seq<Task> {
    if ts == [] then [] else if ts[0].id == id then ts[1..] else [ts[0]] + Without(ts[1..], id)
  }

  /** RemoveTask when the map iteration finds `id` as the current task of `repo`. */
  function RemoveCurrent(q: Queue, repo: string, id: string): Queue
    requires IsCurrent(q, repo, id)
  {
    Signal(q.(repos := q.repos[repo := Freed(q.repos[repo])], byId := q.byId - {id}))
  }

  /** RemoveTask when no repository has `id` as its current task. */
  function RemovePending(q: Queue, id: string): Queue {
    if id !in q.byId then q
    else
      var repo := q.byId[id].repo;
      var q1 := q.(byId := q.byId - {id});
      if repo !in q.repos then q1
      else q1.(repos := q.repos[repo := q.repos[repo].(tasks := Without(q.repos[repo].tasks, id))])
  }

  /** What RemoveTask may leave, whichever repository its map iteration reaches first. */
  predicate RemoveOutcome(q: Queue, id: string, q': Queue) {
    if AnyCurrent(q, id)
    then exists repo | repo in q.repos :: IsCurrent(q, repo, id) && q' == RemoveCurrent(q, repo, id)
    else q' == RemovePending(q, id)
  }

  // ---------- Where a task is ----------

  /** Accepted by Enqueue, not handed out. */
  predicate Pending(q: Queue, t: Task) {
    t.repo in q.repos && t in q.repos[t.repo].tasks
  }

  /** Accepted by EnqueueAsRunning, not handed out. */
  predicate Waiting(q: Queue, t: Task) {
    Recoverable(q, t.repo) && q.repos[t.repo].current == t.id
  }

  /** Handed out, not completed: current in its repository and gone from the index. */
  predicate InFlight(q: Queue, t: Task) {
    IsCurrent(q, t.repo, t.id) && t.id != "" && t.id !in q.byId
  }

  // ---------- Agreement of the index with the per-repository queues ----------

  predicate Distinct<T(==)>(s: seq<T>) {
    forall i, j | 0 <= i < j < |s| :: s[i] != s[j]
  }

  predicate Indexed(q: Queue, t: Task) {
    t.id != "" && t.id in q.byId && q.byId[t.id] == t
  }

  ghost predicate RepoCoherent(q: Queue, repo: string)
    requires repo in q.repos
  {
    var rq := q.repos[repo];
    && (rq.running <==> rq.current != "")
    && (rq.dequeued ==> rq.running)
    && (rq.current in q.byId ==> q.byId[rq.current] == Task(rq.current, repo) && !rq.dequeued)
    && Distinct(rq.tasks)
    && (forall t | t in rq.tasks :: Indexed(q, t) && t.repo == repo && t.id != rq.current)
  }

  ghost predicate IdCoherent(q: Queue, id: string)
    requires id in q.byId
  {
    var t := q.byId[id];
    id != "" && t.id == id && (Pending(q, t) || Waiting(q, t))
  }

  /** No two repositories claim the same running task. */
  ghost predicate CurrentsDiffer(q: Queue) {
    forall r1, r2 | r1 in q.repos && r2 in q.repos && r1 != r2 && q.repos[r1].running ::
      q.repos[r1].current != q.repos[r2].current
  }

  /** `tasksByID` holds exactly the accepted tasks not handed out yet, each under its own repository. */
  ghost predicate Coherent(q: Queue) {
    && (forall repo | repo in q.repos :: RepoCoherent(q, repo))
    && (forall id | id in q.byId :: IdCoherent(q, id))
    && CurrentsDiffer(q)
    && q.signals <= SIGNAL_SLOTS
  }

  // ---------- Every operation keeps the agreement ----------

  /** A repository left alone stays coherent when its own IDs keep their index entries. */
  lemma RepoFrame(q: Queue, q': Queue, repo: string)
    requires repo in q.repos && repo in q'.repos && q'.repos[repo] == q.repos[repo]
    requires RepoCoherent(q, repo)
    requires forall t | t in q.repos[repo].tasks :: t.id in q'.byId && q'.byId[t.id] == q.byId[t.id]
    requires q.repos[repo].current in q'.byId ==>
      q.repos[repo].current in q.byId && q'.byId[q.repos[repo].current] == q.byId[q.repos[repo].current]
    ensures RepoCoherent(q', repo)
  {
  }

  /** An index entry stays coherent when its repository only gains other tasks or loses other tasks. */
  lemma IdFrame(q: Queue, q': Queue, id: string)
    requires id in q.byId && id in q'.byId && q'.byId[id] == q.byId[id] && IdCoherent(q, id)
    requires var t := q.byId[id];
      && t.repo in q'.repos
      && (Pending(q, t) ==> Pending(q', t))
      && (Waiting(q, t) ==> IsCurrent(q', t.repo, id) && q'.repos[t.repo].running && !q'.repos[t.repo].dequeued)
    ensures IdCoherent(q', id)
  {
  }

  lemma DistinctAppend<T>(s: seq<T>, x: T)
    requires Distinct(s) && x !in s
    ensures Distinct(s + [x])
  {
  }

  lemma EnqueueRepo(q: Queue, t: Task)
    requires Coherent(q) && t.id != "" && !HasTask(q, t.id)
    ensures t.repo in Enqueue(q, t).repos && RepoCoherent(Enqueue(q, t), t.repo)
  {
    var q' := Enqueue(q, t);
    var rq := RepoOrNew(q, t.repo);
    if t.repo in q.repos { assert RepoCoherent(q, t.repo) && !IsCurrent(q, t.repo, t.id); }
    forall u | u in rq.tasks ensures Indexed(q', u) && u.repo == t.repo && u.id != rq.current && u != t {
      assert Indexed(q, u);
    }
    DistinctAppend(rq.tasks, t);
    assert q'.repos[t.repo] == rq.(tasks := rq.tasks + [t]);
  }

  lemma EnqueueOther(q: Queue, t: Task, repo: string)
    requires Coherent(q) && t.id != "" && !HasTask(q, t.id) && repo in q.repos && repo != t.repo
    ensures RepoCoherent(Enqueue(q, t), repo)
  {
    assert RepoCoherent(q, repo) && !IsCurrent(q, repo, t.id);
    RepoFrame(q, Enqueue(q, t), repo);
  }

  lemma EnqueueId(q: Queue, t: Task, id: string)
    requires Coherent(q) && t.id != "" && !HasTask(q, t.id) && id in Enqueue(q, t).byId
    ensures IdCoherent(Enqueue(q, t), id)
  {
    var q' := Enqueue(q, t);
    assert q'.repos[t.repo].tasks == RepoOrNew(q, t.repo).tasks + [t];
    if id != t.id {
      assert IdCoherent(q, id);
      IdFrame(q, q', id);
    } else {
      assert t in q'.repos[t.repo].tasks;
    }
  }

  lemma EnqueueCurrents(q: Queue, t: Task)
    requires Coherent(q)
    ensures CurrentsDiffer(Enqueue(q, t))
  {
    var q' := Enqueue(q, t);
    forall r1, r2 | r1 in q'.repos && r2 in q'.repos && r1 != r2 && q'.repos[r1].running
      ensures q'.repos[r1].current != q'.repos[r2].current
    {
      assert RepoCoherent(q, r1);
    }
  }

  lemma EnqueueCoherent(q: Queue, t: Task)
    requires Coherent(q) && t.id != "" && !HasTask(q, t.id)
    ensures Coherent(Enqueue(q, t))
  {
    hide RepoCoherent, IdCoherent, CurrentsDiffer;
    var q' := Enqueue(q, t);
    forall repo | repo in q'.repos ensures RepoCoherent(q', repo) {
      if repo == t.repo { EnqueueRepo(q, t); } else { EnqueueOther(q, t, repo); }
    }
    forall id | id in q'.byId ensures IdCoherent(q', id) { EnqueueId(q, t, id); }
    EnqueueCurrents(q, t);
  }

  lemma EnqueueInFlight(q: Queue, t: Task, u: Task)
    requires Coherent(q) && !HasTask(q, t.id)
    ensures InFlight(Enqueue(q, t), u) <==> InFlight(q, u)
  {
  }

  lemma EnqueueAsRunningRepo(q: Queue, t: Task, repo: string)
    requires Coherent(q) && t.id != "" && !HasTask(q, t.id) && !RepoOrNew(q, t.repo).running
    requires repo in EnqueueAsRunning(q, t).repos
    ensures RepoCoherent(EnqueueAsRunning(q, t), repo)
  {
    if repo in q.repos { assert RepoCoherent(q, repo) && !IsCurrent(q, repo, t.id); }
    if repo != t.repo { RepoFrame(q, EnqueueAsRunning(q, t), repo); }
  }

  lemma EnqueueAsRunningId(q: Queue, t: Task, id: string)
    requires Coherent(q) && t.id != "" && !HasTask(q, t.id) && !RepoOrNew(q, t.repo).running
    requires id in EnqueueAsRunning(q, t).byId
    ensures IdCoherent(EnqueueAsRunning(q, t), id)
  {
    if id != t.id {
      assert IdCoherent(q, id);
      if q.byId[id].repo == t.repo { assert RepoCoherent(q, t.repo); }
      IdFrame(q, EnqueueAsRunning(q, t), id);
    }
  }

  lemma EnqueueAsRunningCurrents(q: Queue, t: Task)
    requires CurrentsDiffer(q) && t.id != "" && !HasTask(q, t.id) && !RepoOrNew(q, t.repo).running
    ensures CurrentsDiffer(EnqueueAsRunning(q, t))
  {
    assert forall repo | repo in q.repos :: !IsCurrent(q, repo, t.id);
  }

  lemma EnqueueAsRunningCoherent(q: Queue, t: Task)
    requires Coherent(q) && t.id != "" && !HasTask(q, t.id) && !RepoOrNew(q, t.repo).running
    ensures Coherent(EnqueueAsRunning(q, t))
    ensures Waiting(EnqueueAsRunning(q, t), t)
  {
    hide RepoCoherent, IdCoherent, CurrentsDiffer;
    var q' := EnqueueAsRunning(q, t);
    forall repo | repo in q'.repos ensures RepoCoherent(q', repo) { EnqueueAsRunningRepo(q, t, repo); }
    forall id | id in q'.byId ensures IdCoherent(q', id) { EnqueueAsRunningId(q, t, id); }
    EnqueueAsRunningCurrents(q, t);
  }

  lemma EnqueueAsRunningInFlight(q: Queue, t: Task, u: Task)
    requires Coherent(q) && !HasTask(q, t.id) && !RepoOrNew(q, t.repo).running
    ensures InFlight(EnqueueAsRunning(q, t), u) <==> InFlight(q, u)
  {
  }

  /** What Dequeue hands out was indexed under its own repository and was not in flight. */
  lemma DequeuedTask(q: Queue, repo: string)
    requires Coherent(q) && MayDequeue(q, repo)
    ensures var (t, q') := DequeueFrom(q, repo);
      && t.repo == repo && Indexed(q, t) && !InFlight(q, t)
      && q'.byId == q.byId - {t.id}
      && q'.repos == q.repos[repo := q'.repos[repo]]
      && q'.repos[repo].running && q'.repos[repo].current == t.id
      && (forall u :: u in q'.repos[repo].tasks ==> u in q.repos[repo].tasks && u.id != t.id)
      && (forall u :: u in q.repos[repo].tasks && u != t ==> u in q'.repos[repo].tasks)
      && Distinct(q'.repos[repo].tasks)
  {
  }

  lemma DequeueRepo(q: Queue, repo: string, r: string)
    requires Coherent(q) && MayDequeue(q, repo) && r in q.repos
    ensures r in DequeueFrom(q, repo).1.repos && RepoCoherent(DequeueFrom(q, repo).1, r)
  {
    DequeuedTask(q, repo);
    assert RepoCoherent(q, r);
    if r != repo { DequeueOther(q, repo, r); }
  }

  lemma DequeueOther(q: Queue, repo: string, r: string)
    requires Coherent(q) && MayDequeue(q, repo) && r in q.repos && r != repo
    ensures r in DequeueFrom(q, repo).1.repos && RepoCoherent(DequeueFrom(q, repo).1, r)
  {
    var q' := DequeueFrom(q, repo).1;
    DequeuedTask(q, repo);
    assert RepoCoherent(q, r);
    forall u | u in q.repos[r].tasks ensures u.id in q'.byId { assert Indexed(q, u); }
    RepoFrame(q, q', r);
  }

  lemma DequeueId(q: Queue, repo: string, id: string)
    requires Coherent(q) && MayDequeue(q, repo) && id in DequeueFrom(q, repo).1.byId
    ensures IdCoherent(DequeueFrom(q, repo).1, id)
  {
    DequeuedTask(q, repo);
    assert id in q.byId && IdCoherent(q, id);
    IdFrame(q, DequeueFrom(q, repo).1, id);
  }

  lemma DequeueCurrents(q: Queue, repo: string)
    requires Coherent(q) && MayDequeue(q, repo)
    ensures CurrentsDiffer(DequeueFrom(q, repo).1)
  {
    var q' := DequeueFrom(q, repo).1;
    DequeuedTask(q, repo);
    forall r1, r2 | r1 in q'.repos && r2 in q'.repos && r1 != r2 && q'.repos[r1].running
      ensures q'.repos[r1].current != q'.repos[r2].current
    {
      assert RepoCoherent(q, r1) && RepoCoherent(q, r2);
    }
  }

  lemma DequeueCoherent(q: Queue, repo: string)
    requires Coherent(q) && MayDequeue(q, repo)
    ensures Coherent(DequeueFrom(q, repo).1)
  {
    hide RepoCoherent, IdCoherent, CurrentsDiffer;
    var q' := DequeueFrom(q, repo).1;
    forall r | r in q'.repos ensures RepoCoherent(q', r) { DequeueRepo(q, repo, r); }
    forall id | id in q'.byId ensures IdCoherent(q', id) { DequeueId(q, repo, id); }
    DequeueCurrents(q, repo);
  }

  lemma DequeueInFlight(q: Queue, repo: string, u: Task)
    requires Coherent(q) && MayDequeue(q, repo)
    ensures var (t, q') := DequeueFrom(q, repo); InFlight(q', u) <==> InFlight(q, u) || u == t
  {
    hide MayDequeue, DequeueFrom;
    var (t, q') := DequeueFrom(q, repo);
    DequeuedTask(q, repo);
    DequeueIdle(q, repo);
    if u.repo != repo && u.repo in q.repos {
      assert RepoCoherent(q, u.repo);
    }
  }

  /** A repository that Dequeue may reach has nothing in flight. */
  lemma DequeueIdle(q: Queue, repo: string)
    requires Coherent(q) && MayDequeue(q, repo)
    ensures repo in q.repos && !InFlight(q, Task(q.repos[repo].current, repo))
  {
    assert RepoCoherent(q, repo);
  }

  /** Completing a task in flight frees its repository, which stays known exactly if it has a pending task, and
    * keeps its pending list; every other repository is as before. */
  lemma MarkCompleteLeaves(q: Queue, t: Task)
    requires Coherent(q) && InFlight(q, t)
    ensures var q' := MarkComplete(q, t.repo, t.id);
      && (t.repo in q'.repos <==> exists u :: Pending(q, u) && u.repo == t.repo)
      && (t.repo in q'.repos ==> q'.repos[t.repo] == RepoQueue(q.repos[t.repo].tasks, false, "", false))
      && (forall repo | repo != t.repo :: repo in q'.repos <==> repo in q.repos)
      && (forall repo | repo != t.repo && repo in q.repos :: q'.repos[repo] == q.repos[repo])
  {
    assert RepoCoherent(q, t.repo);
    if q.repos[t.repo].tasks != [] {
      assert Pending(q, q.repos[t.repo].tasks[0]);
    }
  }

  lemma MarkCompleteRepo(q: Queue, t: Task, r: string)
    requires Coherent(q) && InFlight(q, t) && r in MarkComplete(q, t.repo, t.id).repos
    ensures RepoCoherent(MarkComplete(q, t.repo, t.id), r)
  {
    assert RepoCoherent(q, r) && MarkComplete(q, t.repo, t.id).byId == q.byId;
    if r != t.repo { RepoFrame(q, MarkComplete(q, t.repo, t.id), r); }
  }

  lemma MarkCompleteId(q: Queue, t: Task, id: string)
    requires Coherent(q) && InFlight(q, t) && id in MarkComplete(q, t.repo, t.id).byId
    ensures IdCoherent(MarkComplete(q, t.repo, t.id), id)
  {
    assert IdCoherent(q, id);
    IdFrame(q, MarkComplete(q, t.repo, t.id), id);
  }

  lemma MarkCompleteCurrents(q: Queue, t: Task)
    requires Coherent(q)
    ensures CurrentsDiffer(MarkComplete(q, t.repo, t.id))
  {
    var q' := MarkComplete(q, t.repo, t.id);
    forall r1, r2 | r1 in q'.repos && r2 in q'.repos && r1 != r2 && q'.repos[r1].running
      ensures q'.repos[r1].current != q'.repos[r2].current
    {
      assert RepoCoherent(q, r1);
    }
  }

  lemma MarkCompleteCoherent(q: Queue, t: Task)
    requires Coherent(q) && InFlight(q, t)
    ensures var q' := MarkComplete(q, t.repo, t.id);
      Coherent(q') && q'.byId == q.byId && q'.signals > 0
  {
    hide RepoCoherent, IdCoherent, CurrentsDiffer;
    var q' := MarkComplete(q, t.repo, t.id);
    assert q'.byId == q.byId;
    forall r | r in q'.repos ensures RepoCoherent(q', r) { MarkCompleteRepo(q, t, r); }
    forall id | id in q'.byId ensures IdCoherent(q', id) { MarkCompleteId(q, t, id); }
    MarkCompleteCurrents(q, t);
  }

  lemma MarkCompleteInFlight(q: Queue, t: Task, u: Task)
    requires Coherent(q) && InFlight(q, t)
    ensures InFlight(MarkComplete(q, t.repo, t.id), u) <==> InFlight(q, u) && u != t
  {
  }

  /** RemoveTask for a task that was not handed out, pending or recovered. */
  function Remove(q: Queue, t: Task): Queue {
    if IsCurrent(q, t.repo, t.id) then RemoveCurrent(q, t.repo, t.id) else RemovePending(q, t.id)
  }

  lemma {:induction false} WithoutFacts(ts: seq<Task>, t: Task)
    requires Distinct(ts) && forall u | u in ts && u.id == t.id :: u == t
    ensures Distinct(Without(ts, t.id))
    ensures forall u :: u in Without(ts, t.id) <==> u in ts && u != t
  {
    if ts == [] {
    } else {
      var rest := ts[1..];
      assert ts == [ts[0]] + rest;
      assert Distinct(rest);
      assert forall u | u in rest :: u in ts;
      WithoutFacts(rest, t);
      assert ts[0] !in rest;
    }
  }

  lemma RemoveFacts(q: Queue, t: Task)
    requires Coherent(q) && Indexed(q, t)
    ensures var q' := Remove(q, t);
      && q'.byId == q.byId - {t.id} && q'.repos.Keys == q.repos.Keys && t.repo in q.repos
      && (forall r | r in q.repos && r != t.repo :: q'.repos[r] == q.repos[r])
      && Distinct(q'.repos[t.repo].tasks)
      && (forall u :: u in q'.repos[t.repo].tasks <==> u in q.repos[t.repo].tasks && u != t)
      && q'.repos[t.repo] == (if IsCurrent(q, t.repo, t.id)
                              then q.repos[t.repo].(running := false, current := "", dequeued := false)
                              else q.repos[t.repo].(tasks := q'.repos[t.repo].tasks))
  {
    assert IdCoherent(q, t.id);
    assert RepoCoherent(q, t.repo);
    forall u | u in q.repos[t.repo].tasks && u.id == t.id ensures u == t { assert Indexed(q, u); }
    WithoutFacts(q.repos[t.repo].tasks, t);
  }

  lemma RemoveOwnRepo(q: Queue, t: Task)
    requires Coherent(q) && Indexed(q, t)
    ensures t.repo in Remove(q, t).repos && RepoCoherent(Remove(q, t), t.repo)
  {
    RemoveFacts(q, t);
    assert RepoCoherent(q, t.repo);
    forall u | u in q.repos[t.repo].tasks && u != t ensures Indexed(Remove(q, t), u) { assert Indexed(q, u); }
  }

  lemma RemoveRepo(q: Queue, t: Task, repo: string)
    requires Coherent(q) && Indexed(q, t) && repo in q.repos
    ensures repo in Remove(q, t).repos && RepoCoherent(Remove(q, t), repo)
  {
    if repo == t.repo {
      RemoveOwnRepo(q, t);
    } else {
      RemoveFacts(q, t);
      assert RepoCoherent(q, repo) && t !in q.repos[repo].tasks;
      forall u | u in q.repos[repo].tasks ensures Indexed(Remove(q, t), u) { assert Indexed(q, u); }
      RepoFrame(q, Remove(q, t), repo);
    }
  }

  lemma RemoveId(q: Queue, t: Task, id: string)
    requires Coherent(q) && Indexed(q, t) && id in q.byId && id != t.id
    ensures id in Remove(q, t).byId && IdCoherent(Remove(q, t), id)
  {
    RemoveFacts(q, t);
    assert IdCoherent(q, id);
    IdFrame(q, Remove(q, t), id);
  }

  lemma RemoveCurrents(q: Queue, t: Task)
    requires Coherent(q) && Indexed(q, t)
    ensures CurrentsDiffer(Remove(q, t))
  {
    var q' := Remove(q, t);
    RemoveFacts(q, t);
    forall r1, r2 | r1 in q'.repos && r2 in q'.repos && r1 != r2 && q'.repos[r1].running
      ensures q'.repos[r1].current != q'.repos[r2].current
    {
      assert RepoCoherent(q, r1) && q.repos[r1].running && q.repos[r1].current == q'.repos[r1].current;
    }
  }

  lemma RemoveCoherent(q: Queue, t: Task)
    requires Coherent(q) && Indexed(q, t)
    ensures Coherent(Remove(q, t)) && Remove(q, t).byId == q.byId - {t.id}
  {
    hide RepoCoherent, IdCoherent, CurrentsDiffer;
    var q' := Remove(q, t);
    RemoveFacts(q, t);
    forall r | r in q'.repos ensures RepoCoherent(q', r) { RemoveRepo(q, t, r); }
    forall id | id in q'.byId ensures IdCoherent(q', id) { RemoveId(q, t, id); }
    RemoveCurrents(q, t);
  }

  /** In a coherent queue RemoveTask has one outcome for a task that was not handed out. */
  lemma RemoveDetermined(q: Queue, t: Task, q': Queue)
    requires Coherent(q) && Indexed(q, t) && RemoveOutcome(q, t.id, q')
    ensures q' == Remove(q, t)
  {
  }

  lemma RemoveInFlight(q: Queue, t: Task, u: Task)
    requires Coherent(q) && Indexed(q, t)
    ensures InFlight(Remove(q, t), u) <==> InFlight(q, u)
  {
  }
}
