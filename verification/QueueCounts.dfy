/** What the queue's counting methods count, and how the counts agree with the index and with the
  * tasks in the pipeline.
  */
module QueueCounts {
  import opened TaskQueue
  import opened Pipeline
  import opened PipelineRuns

  /** The pending tasks of the repositories in `repos`, summed. */
  ghost function PendingIn(q: Queue, repos: set<string>): nat
    requires repos <= q.repos.Keys
  {
    if repos == {} then 0 else var r :| r in repos; |q.repos[r].tasks| + PendingIn(q, repos - {r})
  }

  ghost function PendingCount(q: Queue): nat {
    PendingIn(q, q.repos.Keys)
  }

  function RunningRepos(q: Queue): set<string> {
    set repo | repo in q.repos && q.repos[repo].running
  }

  /** Repositories with a recovered task that was not handed out. */
  function WaitingRepos(q: Queue): set<string> {
    set repo | repo in q.repos && Recoverable(q, repo)
  }

  predicate IsEmpty(q: Queue) {
    forall repo | repo in q.repos :: q.repos[repo].tasks == [] && !q.repos[repo].running
  }

  /** The sum does not depend on the order of the repositories. */
  lemma {:induction false} PendingInPick(q: Queue, repos: set<string>, r: string)
    requires repos <= q.repos.Keys && r in repos
    ensures PendingIn(q, repos) == |q.repos[r].tasks| + PendingIn(q, repos - {r})
  {
    var r0 :| r0 in repos && PendingIn(q, repos) == |q.repos[r0].tasks| + PendingIn(q, repos - {r0});
    if r0 != r {
      PendingInPick(q, repos - {r0}, r);
      PendingInPick(q, repos - {r}, r0);
      assert repos - {r0} - {r} == repos - {r} - {r0};
    }
  }

  // ---------- The index counts what is not handed out ----------

  function IdsOf(ts: seq<Task>): set<string> {
    set t | t in ts :: t.id
  }

  lemma {:induction false} IdsOfSize(q: Queue, ts: seq<Task>)
    requires Distinct(ts) && forall t | t in ts :: Indexed(q, t)
    ensures |IdsOf(ts)| == |ts|
  {
    if ts == [] {
    } else {
      var rest := ts[1..];
      assert ts == [ts[0]] + rest;
      IdsOfSize(q, rest);
      assert ts[0].id !in IdsOf(rest) by {
        forall t | t in rest ensures t.id != ts[0].id { assert Indexed(q, t) && Indexed(q, ts[0]) && t != ts[0]; }
      }
      assert IdsOf(ts) == IdsOf(rest) + {ts[0].id};
    }
  }

  /** The index entries that belong to the repositories in `repos`. */
  function IndexIn(q: Queue, repos: set<string>): set<string> {
    set id | id in q.byId && q.byId[id].repo in repos
  }

  lemma IndexOfOne(q: Queue, repo: string)
    requires Coherent(q) && repo in q.repos
    ensures |IndexIn(q, {repo})| == |q.repos[repo].tasks| + (if Recoverable(q, repo) then 1 else 0)
  {
    var rq := q.repos[repo];
    assert RepoCoherent(q, repo);
    IdsOfSize(q, rq.tasks);
    forall id | id in IndexIn(q, {repo})
      ensures id in IdsOf(rq.tasks) || (Recoverable(q, repo) && id == rq.current)
    {
      assert IdCoherent(q, id);
    }
    if Recoverable(q, repo) {
      assert rq.current !in IdsOf(rq.tasks);
      assert IndexIn(q, {repo}) == IdsOf(rq.tasks) + {rq.current};
    } else {
      assert IndexIn(q, {repo}) == IdsOf(rq.tasks);
    }
  }

  lemma IndexInSplit(q: Queue, repos: set<string>, r: string)
    requires r in repos
    ensures |IndexIn(q, repos)| == |IndexIn(q, repos - {r})| + |IndexIn(q, {r})|
  {
    assert IndexIn(q, repos) == IndexIn(q, repos - {r}) + IndexIn(q, {r});
    assert IndexIn(q, repos - {r}) !! IndexIn(q, {r});
  }

  lemma SetSplit(w: set<string>, repos: set<string>, r: string)
    requires r in repos
    ensures |w * repos| == |w * (repos - {r})| + (if r in w then 1 else 0)
  {
    if r in w {
      assert w * repos == w * (repos - {r}) + {r};
    } else {
      assert w * repos == w * (repos - {r});
    }
  }

  lemma {:induction false} IndexInSize(q: Queue, repos: set<string>)
    requires Coherent(q) && repos <= q.repos.Keys
    ensures |IndexIn(q, repos)| == PendingIn(q, repos) + |WaitingRepos(q) * repos|
  {
    if repos == {} {
      assert IndexIn(q, repos) == {};
    } else {
      var r :| r in repos;
      IndexInSize(q, repos - {r});
      PendingInPick(q, repos, r);
      IndexOfOne(q, r);
      IndexInSplit(q, repos, r);
      SetSplit(WaitingRepos(q), repos, r);
    }
  }

  /** In every reachable state the index has one entry for each pending task and one for each
    * recovered task that was not handed out. */
  lemma IndexSize(c: Config, es: seq<Event>, s: System)
    requires Run(c, es, s)
    ensures |s.q.byId| == PendingCount(s.q) + |WaitingRepos(s.q)|
  {
    InitInv(c);
    RunInv(c, Init(c), es);
    forall id | id in s.q.byId ensures s.q.byId[id].repo in s.q.repos { assert IdCoherent(s.q, id); }
    IndexInSize(s.q, s.q.repos.Keys);
    assert IndexIn(s.q, s.q.repos.Keys) == s.q.byId.Keys;
    assert WaitingRepos(s.q) * s.q.repos.Keys == WaitingRepos(s.q);
  }

  // ---------- The running count counts what is in flight ----------

  function CurrentTasks(q: Queue, repos: set<string>): set<Task> {
    set r | r in repos && r in q.repos :: Task(q.repos[r].current, r)
  }

  lemma {:induction false} CurrentTasksSize(q: Queue, repos: set<string>)
    requires repos <= q.repos.Keys
    ensures |CurrentTasks(q, repos)| == |repos|
  {
    if repos != {} {
      var r :| r in repos;
      CurrentTasksSize(q, repos - {r});
      assert CurrentTasks(q, repos) == CurrentTasks(q, repos - {r}) + {Task(q.repos[r].current, r)};
    }
  }

  /** GetRunningCount is the number of tasks in flight plus the number of recovered tasks waiting. */
  lemma RunningSize(c: Config, es: seq<Event>, s: System)
    requires Run(c, es, s)
    ensures |RunningRepos(s.q)| == |Flight(s)| + |WaitingRepos(s.q)|
  {
    InitInv(c);
    RunInv(c, Init(c), es);
    var flying := RunningRepos(s.q) - WaitingRepos(s.q);
    forall t | t in Flight(s) ensures t in CurrentTasks(s.q, flying) && Flight(s)[t] == 1 {
      assert InFlight(s.q, t) && RepoCoherent(s.q, t.repo);
      assert t == Task(s.q.repos[t.repo].current, t.repo);
    }
    forall t | t in CurrentTasks(s.q, flying) ensures t in Flight(s) {
      assert RepoCoherent(s.q, t.repo);
      assert InFlight(s.q, t);
      assert Flight(s)[t] == 1;
    }
    assert Flight(s) == multiset(CurrentTasks(s.q, flying));
    CurrentTasksSize(s.q, flying);
    assert WaitingRepos(s.q) <= RunningRepos(s.q);
  }

  /** IsEmpty answers exactly whether nothing accepted is left. */
  lemma IsEmptyExact(c: Config, es: seq<Event>, s: System)
    requires Run(c, es, s)
    ensures IsEmpty(s.q) <==> InSystem(s) == multiset{}
  {
    InitInv(c);
    RunInv(c, Init(c), es);
    forall t | t in InSystem(s) ensures !IsEmpty(s.q) { WorkInQueue(c, s, t); }
    if !IsEmpty(s.q) {
      var repo :| repo in s.q.repos && (s.q.repos[repo].tasks != [] || s.q.repos[repo].running);
      QueueInWork(c, s, repo);
    }
    if InSystem(s) != multiset{} {
      var t :| t in InSystem(s);
    }
  }

  lemma WorkInQueue(c: Config, s: System, t: Task)
    requires Inv(c, s) && t in InSystem(s)
    ensures t.repo in s.q.repos && (s.q.repos[t.repo].tasks != [] || s.q.repos[t.repo].running)
  {
    if t in Backlog(s.q) {
      var id :| id in s.q.byId && s.q.byId[id] == t;
      assert IdCoherent(s.q, id);
    } else {
      assert t in Flight(s);
      assert InFlight(s.q, t) && RepoCoherent(s.q, t.repo);
    }
  }

  lemma QueueInWork(c: Config, s: System, repo: string)
    requires Inv(c, s) && repo in s.q.repos && (s.q.repos[repo].tasks != [] || s.q.repos[repo].running)
    ensures exists t :: t in InSystem(s) && t.repo == repo
  {
    assert RepoCoherent(s.q, repo);
    var cur := Task(s.q.repos[repo].current, repo);
    if s.q.repos[repo].tasks != [] {
      assert Indexed(s.q, s.q.repos[repo].tasks[0]);
      assert s.q.repos[repo].tasks[0] in Backlog(s.q);
    } else if cur.id in s.q.byId {
      assert cur in Backlog(s.q);
    } else {
      assert InFlight(s.q, cur);
      assert cur in Flight(s);
    }
  }

  // ---------- Which repositories the queue knows ----------

  /** The queue knows the repository but has nothing of it. */
  predicate Vacant(q: Queue, repo: string) {
    repo in q.repos && !q.repos[repo].running && q.repos[repo].tasks == []
  }

  predicate RemovesOf(e: Event, repo: string) {
    (e.RemovedPending? || e.RemovedWaiting?) && e.t.repo == repo
  }

  lemma VacantAccept(q: Queue, t: Task, repo: string)
    requires t.id !in q.byId
    ensures Vacant(Enqueue(q, t), repo) ==> Vacant(q, repo)
    ensures Vacant(EnqueueAsRunning(q, t), repo) ==> Vacant(q, repo)
  {
  }

  lemma VacantDequeue(q: Queue, from: string, repo: string)
    ensures Recoverable(q, from) && Vacant(Recover(q, from).1, repo) ==> Vacant(q, repo)
    ensures Startable(q, from) && Vacant(Start(q, from).1, repo) ==> Vacant(q, repo)
  {
  }

  lemma VacantComplete(q: Queue, t: Task, repo: string)
    requires Coherent(q) && InFlight(q, t)
    ensures Vacant(MarkComplete(q, t.repo, t.id), repo) ==> Vacant(q, repo)
  {
    MarkCompleteLeaves(q, t);
    if t.repo == repo && repo in MarkComplete(q, t.repo, t.id).repos {
      var u :| Pending(q, u) && u.repo == repo;
    }
  }

  lemma VacantRemove(q: Queue, t: Task, repo: string)
    requires Coherent(q) && Indexed(q, t) && (Pending(q, t) || Waiting(q, t)) && repo != t.repo
    ensures Vacant(Remove(q, t), repo) ==> Vacant(q, repo)
  {
    RemoveFacts(q, t);
  }

  lemma VacantStep(c: Config, s: System, e: Event, repo: string)
    requires Inv(c, s) && Enabled(c, s, e) && Vacant(Step(c, s, e).q, repo) && !RemovesOf(e, repo)
    ensures Vacant(s.q, repo)
  {
    hide Vacant, Coherent, Enqueue, EnqueueAsRunning, Remove, RemovePending, MarkComplete, Recover, Start, InFlight;
    match e
    case Enqueued(t) => VacantAccept(s.q, t, repo);
    case Recovered(t) => VacantAccept(s.q, t, repo);
    case Duplicate(t) => KnownRefused(s.q, t);
    case RemovedPending(t) => VacantRemove(s.q, t, repo);
    case RemovedWaiting(t) => VacantRemove(s.q, t, repo);
    case RemoveMissed(id) => MissedUnknown(s.q, id);
    case DequeueRecovered(t) => VacantDequeue(s.q, t.repo, repo);
    case DequeuePending(t) => VacantDequeue(s.q, t.repo, repo);
    case Complete(t, w) => CompleteStep(c, s, t, w); VacantComplete(s.q, t, repo);
    case Wake => VacantWake(s.q, s.q.signals - 1, repo);
    case DequeueNil =>
    case Send(_) =>
    case Handoff(_, _) =>
    case Take(_, _) =>
  }

  lemma VacantWake(q: Queue, n: nat, repo: string)
    ensures Vacant(q.(signals := n), repo) <==> Vacant(q, repo)
  {
  }

  lemma LogHas(es: seq<Event>, repo: string)
    requires es != [] && RemovesOf(es[|es| - 1], repo)
    ensures es[|es| - 1].t in Log(es, Removal)
  {
  }

  /** A repository that is known without being running or having a pending task is left over from a removal. */
  lemma {:induction false} VacantByRemoval(c: Config, es: seq<Event>, s: System, repo: string)
    requires Run(c, es, s) && Vacant(s.q, repo)
    ensures exists t :: t in Log(es, Removal) && t.repo == repo
  {
    if es == [] {
    } else {
      var s0 := LastStep(c, es, s);
      var e := es[|es| - 1];
      if RemovesOf(e, repo) {
        LogHas(es, repo);
      } else {
        VacantStep(c, s0, e, repo);
        VacantByRemoval(c, es[..|es| - 1], s0, repo);
      }
    }
  }

  /** In a run without removals the queue knows exactly the repositories of the unfinished tasks. */
  lemma KnownRepos(c: Config, es: seq<Event>, s: System)
    requires Run(c, es, s) && Log(es, Removal) == []
    ensures s.q.repos.Keys == set t | t in InSystem(s) :: t.repo
  {
    InitInv(c);
    RunInv(c, Init(c), es);
    forall t | t in InSystem(s) ensures t.repo in s.q.repos { WorkInQueue(c, s, t); }
    forall repo | repo in s.q.repos ensures exists t :: t in InSystem(s) && t.repo == repo {
      if Vacant(s.q, repo) {
        VacantByRemoval(c, es, s, repo);
      } else {
        QueueInWork(c, s, repo);
      }
    }
  }
}
