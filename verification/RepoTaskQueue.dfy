/** The queue object of internal/engine/queue.go: its fields, and its methods proved against the
  * functions of module TaskQueue. The mutex makes each method one atomic step.
  */
module RepoTaskQueues {
  import opened TaskQueue
  import opened QueueCounts
  import opened Options

  /** One repository's entry. `tasks` stands for the linked list, front first. */
  class RepoEntry {
    var tasks: seq<Task>
    var running: bool
    var currentTaskID: string
    var dequeued: bool

    ghost function View(): RepoQueue
      reads this
    {
      RepoQueue(tasks, running, currentTaskID, dequeued)
    }

    constructor ()
      ensures View() == RepoQueue([], false, "", false)
    {
      tasks, running, currentTaskID, dequeued := [], false, "", false;
    }

    /** Set the running state. */
    method Set(isRunning: bool, current: string)
      modifies this`running, this`currentTaskID, this`dequeued
      ensures View() == old(View()).(running := isRunning, current := current, dequeued := false)
    {
      running := isRunning;
      currentTaskID := current;
      dequeued := false;
    }

    /** Take the first pending task and run it. */
    method StartFront() returns (task: Task)
      requires tasks != []
      modifies this`tasks, this`running, this`currentTaskID
      ensures task == old(tasks[0])
      ensures View() == old(View()).(tasks := old(tasks[1..]), running := true, current := task.id)
    {
      task := tasks[0];
      tasks := tasks[1..];
      running := true;
      currentTaskID := task.id;
    }
  }

  /** The members of `w` that a loop with `todo` left has passed. */
  function Counted(w: set<string>, todo: set<string>): nat {
    |w - todo|
  }

  lemma CountOne(w: set<string>, todo: set<string>, r: string)
    requires r in todo
    ensures Counted(w, todo - {r}) == Counted(w, todo) + (if r in w then 1 else 0)
  {
    if r in w {
      assert w - (todo - {r}) == w - todo + {r};
    } else {
      assert w - (todo - {r}) == w - todo;
    }
  }

  lemma CountEnds(w: set<string>, todo: set<string>)
    requires w <= todo
    ensures Counted(w, todo) == 0 && Counted(w, {}) == |w|
  {
    assert w - todo == {} && w - {} == w;
  }

  datatype RepoStats = RepoStats(pending: nat, running: bool, current: string)

  datatype QueueStats = QueueStats(pending: nat, running: nat, repos: nat, perRepo: map<string, RepoStats>)

  /** The per-repository statistics of the repositories in `repos`. */
  function PerRepo(q: Queue, repos: set<string>): map<string, RepoStats>
    requires repos <= q.repos.Keys
  {
    map r | r in repos :: RepoStats(|q.repos[r].tasks|, q.repos[r].running, q.repos[r].current)
  }

  /** `stats` covers every repository except those in `todo`. */
  ghost predicate StatsOf(q: Queue, todo: set<string>, stats: QueueStats) {
    && todo <= q.repos.Keys
    && stats.pending + PendingIn(q, todo) == PendingCount(q)
    && stats.running == Counted(RunningRepos(q), todo)
    && stats.repos == |q.repos|
    && stats.perRepo == PerRepo(q, q.repos.Keys - todo)
  }

  /** `stats` with one more repository counted. */
  function CountRepo(stats: QueueStats, repo: string, rq: RepoQueue): QueueStats {
    stats.(pending := stats.pending + |rq.tasks|,
           running := if rq.running then stats.running + 1 else stats.running,
           perRepo := stats.perRepo[repo := RepoStats(|rq.tasks|, rq.running, rq.current)])
  }

  lemma StatsStart(q: Queue, stats: QueueStats)
    requires stats == QueueStats(0, 0, |q.repos.Keys|, map[])
    ensures StatsOf(q, q.repos.Keys, stats)
  {
  }

  lemma StatsStep(q: Queue, todo: set<string>, stats: QueueStats, repo: string)
    requires StatsOf(q, todo, stats) && repo in todo
    ensures StatsOf(q, todo - {repo}, CountRepo(stats, repo, q.repos[repo]))
  {
    hide Counted, PerRepo;
    PendingInPick(q, todo, repo);
    CountOne(RunningRepos(q), todo, repo);
    assert q.repos.Keys - (todo - {repo}) == q.repos.Keys - todo + {repo};
    PerRepoAdd(q, q.repos.Keys - todo, repo);
  }

  lemma PerRepoAdd(q: Queue, repos: set<string>, r: string)
    requires repos <= q.repos.Keys && r in q.repos
    ensures PerRepo(q, repos + {r}) ==
      PerRepo(q, repos)[r := RepoStats(|q.repos[r].tasks|, q.repos[r].running, q.repos[r].current)]
  {
  }

  class RepoTaskQueue {
    var queues: map<string, RepoEntry>
    var tasksByID: map<string, Task>
    var taskReady: nat  // signals buffered in the channel

    /** Entries are not shared between repositories. */
    ghost predicate Valid()
      reads this
    {
      && (forall r1, r2 | r1 in queues && r2 in queues && r1 != r2 :: queues[r1] != queues[r2])
      && taskReady <= SIGNAL_SLOTS
    }

    ghost function State(): Queue
      reads this, queues.Values
    {
      Queue(map repo | repo in queues :: queues[repo].View(), tasksByID, taskReady)
    }

    /** State, entry by entry. */
    lemma StateViews()
      ensures State().repos.Keys == queues.Keys
      ensures forall r | r in queues :: State().repos[r] == queues[r].View()
    {
    }

    constructor ()
      ensures Valid() && State() == EMPTY_QUEUE && queues == map[]
    {
      queues, tasksByID, taskReady := map[], map[], 0;
    }

    method SignalTaskReady()
      requires Valid()
      modifies this`taskReady
      ensures Valid() && taskReady == if old(taskReady) < SIGNAL_SLOTS then old(taskReady) + 1 else old(taskReady)
      ensures State() == Signal(old(State()))
    {
      if taskReady < SIGNAL_SLOTS {
        taskReady := taskReady + 1;
      }
      assert State().repos == old(State()).repos;
    }

    method AddToIndex(t: Task)
      requires Valid()
      modifies this`tasksByID
      ensures Valid() && State() == old(State()).(byId := old(State()).byId[t.id := t])
    {
      tasksByID := tasksByID[t.id := t];
      assert State().repos == old(State()).repos;
    }

    method DropFromIndex(id: string)
      requires Valid()
      modifies this`tasksByID
      ensures Valid() && State() == old(State()).(byId := old(State()).byId - {id})
    {
      tasksByID := tasksByID - {id};
      assert State().repos == old(State()).repos;
    }

    /** Get or create the entry of a repository. */
    method Entry(repo: string) returns (rq: RepoEntry)
      requires Valid()
      modifies this`queues
      ensures Valid() && repo in queues && queues[repo] == rq && rq.View() == RepoOrNew(old(State()), repo)
      ensures queues == old(queues)[repo := rq]
      ensures repo in old(queues) || fresh(rq)
      ensures fresh(queues.Values - old(queues.Values))
      ensures State() == old(State()).(repos := old(State()).repos[repo := RepoOrNew(old(State()), repo)])
    {
      ghost var q := State();
      if repo in queues {
        rq := queues[repo];
        assert q.repos == q.repos[repo := q.repos[repo]];
      } else {
        rq := new RepoEntry();
        queues := queues[repo := rq];
        assert State().repos == q.repos[repo := RepoOrNew(q, repo)];
      }
    }

    /** Set the running state of a repository. */
    method SetRunning(repo: string, running: bool, id: string)
      requires Valid() && repo in queues
      modifies queues[repo]
      ensures var q := old(State());
        State() == q.(repos := q.repos[repo := q.repos[repo].(running := running, current := id, dequeued := false)])
    {
      var rq := queues[repo];
      rq.Set(running, id);
      assert State().repos == old(State()).repos[repo := rq.View()];
    }

    /** Add a task to the end of a repository's list. */
    method Append(repo: string, t: Task)
      requires Valid() && repo in queues
      modifies queues[repo]
      ensures var q := old(State());
        State() == q.(repos := q.repos[repo := q.repos[repo].(tasks := q.repos[repo].tasks + [t])])
    {
      var rq := queues[repo];
      rq.tasks := rq.tasks + [t];
      assert State().repos == old(State()).repos[repo := rq.View()];
    }

    /** Get or create the entry of a task's repository and add the task to its list. */
    method PushBack(t: Task)
      requires Valid()
      modifies this`queues, queues.Values
      ensures Valid() && fresh(queues.Values - old(queues.Values))
      ensures var q := old(State()); var rq := RepoOrNew(q, t.repo);
        State() == q.(repos := q.repos[t.repo := rq.(tasks := rq.tasks + [t])])
    {
      hide RepoOrNew;
      var _ := Entry(t.repo);
      Append(t.repo, t);
    }

    /** Get or create the entry of a recovered task's repository and mark it as running the task. */
    method MarkRunning(t: Task)
      requires Valid()
      modifies this`queues, queues.Values
      ensures Valid() && fresh(queues.Values - old(queues.Values))
      ensures var q := old(State()); var rq := RepoOrNew(q, t.repo);
        State() == q.(repos := q.repos[t.repo := rq.(running := true, current := t.id, dequeued := false)])
    {
      hide RepoOrNew;
      var _ := Entry(t.repo);
      SetRunning(t.repo, true, t.id);
    }

    /** None stands for a nil task or a task without a review. */
    method Enqueue(task: Option<Task>) returns (added: bool)
      requires Valid()
      modifies this, queues.Values
      ensures Valid() && fresh(queues.Values - old(queues.Values))
      ensures added == (task.Some? && task.value.id !in old(tasksByID))
      ensures State() == if task.None? then old(State()) else TaskQueue.Enqueue(old(State()), task.value)
    {
      if task.None? {
        return false;
      }
      var t := task.value;
      if t.id in tasksByID {
        return false;
      }
      PushBack(t);
      AddToIndex(t);
      SignalTaskReady();
      return true;
    }

    method EnqueueAsRunning(task: Option<Task>) returns (added: bool)
      requires Valid()
      modifies this, queues.Values
      ensures Valid() && fresh(queues.Values - old(queues.Values))
      ensures added == (task.Some? && task.value.id !in old(tasksByID))
      ensures State() == if task.None? then old(State()) else TaskQueue.EnqueueAsRunning(old(State()), task.value)
    {
      if task.None? {
        return false;
      }
      var t := task.value;
      if t.id in tasksByID {
        return false;
      }
      MarkRunning(t);
      AddToIndex(t);
      SignalTaskReady();
      return true;
    }

    /** Nothing comes back exactly when no repository is dispatchable; otherwise the task of some
      * repository that may be dequeued, whatever order the map iteration takes. */
    method Dequeue() returns (task: Option<Task>)
      requires Valid()
      modifies this, queues.Values
      ensures Valid() && queues == old(queues)
      ensures task.None? <==> !AnyDispatchable(old(State()))
      ensures task.None? ==> State() == old(State())
      ensures task.Some? ==> exists repo | repo in old(State()).repos ::
        MayDequeue(old(State()), repo) && DequeueFrom(old(State()), repo) == (task.value, State())
    {
      hide Recoverable, Startable, Recover, Start;
      ghost var q := State();
      task := FindRecovered();
      if task.Some? {
        ghost var repo :| repo in q.repos && Recoverable(q, repo) && Recover(q, repo) == (task.value, State());
        assert Dispatchable(q, repo) && DequeueFrom(q, repo) == (task.value, State());
        return;
      }
      task := FindPending();
      if task.Some? {
        ghost var repo :| repo in q.repos && Startable(q, repo) && Start(q, repo) == (task.value, State());
        assert Dispatchable(q, repo) && MayDequeue(q, repo) && DequeueFrom(q, repo) == (task.value, State());
      }
    }

    /** The first loop of Dequeue. */
    method FindRecovered() returns (task: Option<Task>)
      requires Valid()
      modifies this, queues.Values
      ensures Valid() && queues == old(queues)
      ensures task.None? ==> !AnyRecoverable(old(State())) && State() == old(State())
      ensures task.Some? ==> exists repo | repo in old(State()).repos ::
        Recoverable(old(State()), repo) && Recover(old(State()), repo) == (task.value, State())
    {
      ghost var q := State();
      StateViews();
      var todo := queues.Keys;
      while todo != {}
        invariant todo <= queues.Keys && queues == old(queues) && State() == q && Valid()
        invariant forall r | r in queues.Keys - todo :: !Recoverable(q, r)
      {
        var repo :| repo in todo;
        var rq := queues[repo];
        assert q.repos[repo] == rq.View();
        if rq.running && rq.currentTaskID != "" && !rq.dequeued && rq.currentTaskID in tasksByID {
          var t := TakeRecovered(repo);
          return Some(t);
        }
        todo := todo - {repo};
      }
      return None;
    }

    /** The second loop of Dequeue. */
    method FindPending() returns (task: Option<Task>)
      requires Valid()
      modifies this, queues.Values
      ensures Valid() && queues == old(queues)
      ensures task.None? ==>
        State() == old(State()) && forall repo | repo in old(State()).repos :: !Startable(old(State()), repo)
      ensures task.Some? ==> exists repo | repo in old(State()).repos ::
        Startable(old(State()), repo) && Start(old(State()), repo) == (task.value, State())
    {
      ghost var q := State();
      StateViews();
      var todo := queues.Keys;
      while todo != {}
        invariant todo <= queues.Keys && queues == old(queues) && State() == q && Valid()
        invariant forall r | r in queues.Keys - todo :: !Startable(q, r)
      {
        var repo :| repo in todo;
        var rq := queues[repo];
        assert q.repos[repo] == rq.View();
        if !rq.running && |rq.tasks| != 0 {
          var t := TakePending(repo);
          return Some(t);
        }
        todo := todo - {repo};
      }
      return None;
    }

    method TakeRecovered(repo: string) returns (task: Task)
      requires Valid() && Recoverable(State(), repo)
      modifies this`tasksByID, queues[repo]
      ensures Recover(old(State()), repo) == (task, State())
    {
      var rq := queues[repo];
      ghost var q := State();
      task := tasksByID[rq.currentTaskID];
      rq.dequeued := true;
      assert State().repos == q.repos[repo := rq.View()];
      DropFromIndex(rq.currentTaskID);
    }

    method TakePending(repo: string) returns (task: Task)
      requires Valid() && Startable(State(), repo)
      modifies this`tasksByID, queues[repo]
      ensures Start(old(State()), repo) == (task, State())
    {
      var rq := queues[repo];
      ghost var q := State();
      task := rq.StartFront();
      assert State().repos == q.repos[repo := rq.View()];
      DropFromIndex(task.id);
    }

    method MarkComplete(repo: string, id: string)
      requires Valid()
      modifies this, queues.Values
      ensures Valid() && (queues == old(queues) || queues == old(queues) - {repo})
      ensures State() == TaskQueue.MarkComplete(old(State()), repo, id)
    {
      DropFromIndex(id);
      if repo in queues {
        Release(repo);
        SignalTaskReady();
      }
    }

    /** Free a repository and drop its entry when nothing is pending there. */
    method Release(repo: string)
      requires Valid() && repo in queues
      modifies this`queues, queues[repo]
      ensures Valid() && (queues == old(queues) || queues == old(queues) - {repo})
      ensures var q := old(State()); var rq := Freed(q.repos[repo]);
        State() == q.(repos := if rq.tasks == [] then q.repos - {repo} else q.repos[repo := rq])
    {
      SetRunning(repo, false, "");
      ghost var q1 := State();
      assert q1.repos[repo] == queues[repo].View();
      if |queues[repo].tasks| == 0 {
        DropEntry(repo);
        assert State().repos == old(State()).repos - {repo};
      }
    }

    method DropEntry(repo: string)
      requires Valid() && repo in queues
      modifies this`queues
      ensures Valid() && queues == old(queues) - {repo}
      ensures State() == old(State()).(repos := old(State()).repos - {repo})
    {
      queues := queues - {repo};
      assert State().repos == old(State()).repos - {repo};
    }

    /** True exactly when the index, or some repository, knows the ID. */
    method HasTask(id: string) returns (found: bool)
      requires Valid()
      ensures found == TaskQueue.HasTask(State(), id)
    {
      ghost var q := State();
      if id in tasksByID {
        return true;
      }
      var todo := queues.Keys;
      while todo != {}
        invariant todo <= queues.Keys
        invariant forall r | r in queues.Keys - todo :: !IsCurrent(q, r, id)
      {
        var repo :| repo in todo;
        if queues[repo].currentTaskID == id {
          assert IsCurrent(q, repo, id);
          return true;
        }
        todo := todo - {repo};
      }
      return false;
    }

    /** A running task is taken off its repository; a pending one leaves its list; an unknown ID
      * changes nothing. */
    method RemoveTask(id: string) returns (removed: bool)
      requires Valid()
      modifies this, queues.Values
      ensures Valid() && queues == old(queues)
      ensures removed == TaskQueue.HasTask(old(State()), id)
      ensures RemoveOutcome(old(State()), id, State())
    {
      ghost var q := State();
      var todo := queues.Keys;
      while todo != {}
        invariant todo <= queues.Keys && queues == old(queues)
        invariant State() == q && Valid()
        invariant forall r | r in queues.Keys - todo :: !IsCurrent(q, r, id)
      {
        var repo :| repo in todo;
        if queues[repo].currentTaskID == id {
          assert IsCurrent(q, repo, id);
          FreeCurrent(repo, id);
          return true;
        }
        todo := todo - {repo};
      }
      assert !AnyCurrent(q, id);
      if id !in tasksByID {
        return false;
      }
      TakeOff(id);
      return true;
    }

    method FreeCurrent(repo: string, id: string)
      requires Valid() && IsCurrent(State(), repo, id)
      modifies this`tasksByID, this`taskReady, queues[repo]
      ensures Valid() && State() == RemoveCurrent(old(State()), repo, id)
    {
      SetRunning(repo, false, "");
      DropFromIndex(id);
      SignalTaskReady();
    }

    /** Take an indexed ID out of the index and off the list of its repository. */
    method TakeOff(id: string)
      requires Valid() && id in tasksByID
      modifies this`tasksByID, queues.Values
      ensures State() == RemovePending(old(State()), id)
    {
      var repo := tasksByID[id].repo;
      ghost var q := State();
      if repo in queues {
        RemoveFromList(queues[repo], id);
        assert State().repos == q.repos[repo := queues[repo].View()];
      }
      DropFromIndex(id);
    }

    /** Take the first task with this ID off one repository's list. */
    method RemoveFromList(rq: RepoEntry, id: string)
      modifies rq
      ensures rq.View() == old(rq.View()).(tasks := Without(old(rq.tasks), id))
    {
      var ts := rq.tasks;
      var i := 0;
      while i < |ts|
        invariant 0 <= i <= |ts| && rq.View() == old(rq.View())
        invariant Without(ts, id) == ts[..i] + Without(ts[i..], id)
      {
        assert ts[i..][1..] == ts[i + 1..];
        if ts[i].id == id {
          rq.tasks := ts[..i] + ts[i + 1..];
          return;
        }
        assert ts[..i] + ([ts[i]] + Without(ts[i + 1..], id)) == ts[..i + 1] + Without(ts[i + 1..], id);
        i := i + 1;
      }
      assert ts[..i] == ts && ts[i..] == [];
    }

    method GetPendingCount() returns (count: nat)
      requires Valid()
      ensures count == PendingCount(State())
    {
      ghost var q := State();
      StateViews();
      count := 0;
      var todo := queues.Keys;
      while todo != {}
        invariant todo <= queues.Keys
        invariant count + PendingIn(q, todo) == PendingCount(q)
      {
        var repo :| repo in todo;
        PendingInPick(q, todo, repo);
        assert queues[repo].View() == q.repos[repo];
        count := count + |queues[repo].tasks|;
        todo := todo - {repo};
      }
    }

    lemma RunningViews()
      ensures RunningRepos(State()) <= queues.Keys
      ensures forall r | r in queues :: r in RunningRepos(State()) <==> queues[r].running
    {
      StateViews();
    }

    method GetRunningCount() returns (count: nat)
      requires Valid()
      ensures count == |RunningRepos(State())|
    {
      hide RunningRepos, Counted, State;
      ghost var running := RunningRepos(State());
      RunningViews();
      CountEnds(running, queues.Keys);
      count := 0;
      var todo := queues.Keys;
      while todo != {}
        invariant todo <= queues.Keys && count == Counted(running, todo)
      {
        var repo :| repo in todo;
        CountOne(running, todo, repo);
        if queues[repo].running {
          count := count + 1;
        }
        todo := todo - {repo};
      }
    }

    method IsEmpty() returns (empty: bool)
      requires Valid()
      ensures empty == QueueCounts.IsEmpty(State())
    {
      ghost var q := State();
      var todo := queues.Keys;
      while todo != {}
        invariant todo <= queues.Keys
        invariant forall r | r in queues.Keys - todo :: q.repos[r].tasks == [] && !q.repos[r].running
      {
        var repo :| repo in todo;
        assert queues[repo].View() == q.repos[repo];
        if |queues[repo].tasks| > 0 || queues[repo].running {
          return false;
        }
        todo := todo - {repo};
      }
      return true;
    }

    method HasPendingTasks() returns (found: bool)
      requires Valid()
      ensures found <==> exists repo | repo in State().repos :: Startable(State(), repo)
    {
      ghost var q := State();
      var todo := queues.Keys;
      while todo != {}
        invariant todo <= queues.Keys
        invariant forall r | r in queues.Keys - todo :: !Startable(q, r)
      {
        var repo :| repo in todo;
        assert queues[repo].View() == q.repos[repo];
        if !queues[repo].running && |queues[repo].tasks| > 0 {
          assert Startable(q, repo);
          return true;
        }
        todo := todo - {repo};
      }
      return false;
    }

    method GetStats() returns (stats: QueueStats)
      requires Valid()
      ensures StatsOf(State(), {}, stats)
    {
      ghost var q := State();
      StateViews();
      stats := QueueStats(0, 0, |queues|, map[]);
      StatsStart(q, stats);
      hide StatsOf;
      var todo := queues.Keys;
      while todo != {}
        invariant todo <= queues.Keys && StatsOf(q, todo, stats)
      {
        var repo :| repo in todo;
        StatsStep(q, todo, stats, repo);
        stats := AddStats(stats, repo, queues[repo]);
        todo := todo - {repo};
      }
    }

    /** One round of the statistics loop. */
    method AddStats(before: QueueStats, repo: string, rq: RepoEntry) returns (stats: QueueStats)
      ensures stats == CountRepo(before, repo, rq.View())
    {
      stats := before.(pending := before.pending + |rq.tasks|);
      if rq.running {
        stats := stats.(running := stats.running + 1);
      }
      stats := stats.(perRepo := stats.perRepo[repo := RepoStats(|rq.tasks|, rq.running, rq.currentTaskID)]);
    }
  }
}
