/** What the queue's callers must respect, exactly. For each method called from outside the
  * pipeline: the condition, checkable before the call, under which the call leaves the index
  * coherent and the set of tasks in flight as it should be; and what happens when it is broken.
  */
module ClientDiscipline {
  import opened TaskQueue
  import opened Pipeline

  /** The call keeps the index coherent and touches no task in flight. */
  ghost predicate Keeps(q: Queue, q': Queue) {
    Coherent(q') && forall u :: InFlight(q', u) <==> InFlight(q, u)
  }

  predicate InFlightId(q: Queue, id: string) {
    id !in q.byId && AnyCurrent(q, id)
  }

  lemma CurrentMatters(q: Queue, id: string, repo: string)
    requires Coherent(q) && id != "" && id !in q.byId && repo in q.repos && IsCurrent(q, repo, id)
    ensures InFlight(q, Task(id, repo)) && q.repos[repo].running
  {
  }

  /** Enqueue is safe exactly for non-empty IDs that are not being processed (duplicates of
    * waiting tasks are refused). The duplicate check alone does not see a task in flight. */
  lemma EnqueueSafeIff(q: Queue, t: Task)
    requires Coherent(q)
    ensures Keeps(q, Enqueue(q, t)) <==> t.id in q.byId || (t.id != "" && !AnyCurrent(q, t.id))
  {
    var q' := Enqueue(q, t);
    if t.id !in q.byId && t.id != "" && !AnyCurrent(q, t.id) {
      EnqueueCoherent(q, t);
      forall u ensures InFlight(q', u) <==> InFlight(q, u) { EnqueueInFlight(q, t, u); }
    }
    if t.id !in q.byId && t.id == "" {
      assert t.id in q'.byId && !IdCoherent(q', t.id);
    }
    if t.id !in q.byId && t.id != "" && AnyCurrent(q, t.id) {
      var repo :| repo in q.repos && IsCurrent(q, repo, t.id);
      assert !RepoCoherent(q', repo) by {
        assert q'.byId[t.id] == t && q'.repos[repo].current == t.id;
        if t.repo == repo { assert t == q'.repos[repo].tasks[|q.repos[repo].tasks|]; }
      }
    }
  }

  lemma RecoverOverwrites(q: Queue, t: Task)
    requires Coherent(q) && t.id !in q.byId && t.id != "" && RepoOrNew(q, t.repo).running
    ensures !Keeps(q, EnqueueAsRunning(q, t))
  {
    var q' := EnqueueAsRunning(q, t);
    assert RepoCoherent(q, t.repo);
    var cur := Task(q.repos[t.repo].current, t.repo);
    if cur.id in q.byId {
      // an undelivered recovered task is overwritten and never comes out
      assert q'.byId[cur.id] == cur;
      assert !Waiting(q', cur);
      assert !Pending(q', cur) by { assert cur !in q.repos[t.repo].tasks; }
      assert !IdCoherent(q', cur.id);
    } else {
      assert InFlight(q, cur) && !InFlight(q', cur);
    }
  }

  /** EnqueueAsRunning is safe exactly for non-empty IDs that are not being processed, on
    * repositories that are not running. */
  lemma EnqueueAsRunningSafeIff(q: Queue, t: Task)
    requires Coherent(q)
    ensures Keeps(q, EnqueueAsRunning(q, t)) <==>
      t.id in q.byId || (t.id != "" && !AnyCurrent(q, t.id) && !RepoOrNew(q, t.repo).running)
  {
    var q' := EnqueueAsRunning(q, t);
    if t.id in q.byId {
    } else if t.id == "" {
      assert t.id in q'.byId && !IdCoherent(q', t.id);
    } else if RepoOrNew(q, t.repo).running {
      RecoverOverwrites(q, t);
    } else if AnyCurrent(q, t.id) {
      var repo :| repo in q.repos && IsCurrent(q, repo, t.id);
      CurrentMatters(q, t.id, repo);
      assert repo != t.repo && InFlight(q, Task(t.id, repo)) && !InFlight(q', Task(t.id, repo));
    } else {
      EnqueueAsRunningCoherent(q, t);
      forall u ensures InFlight(q', u) <==> InFlight(q, u) { EnqueueAsRunningInFlight(q, t, u); }
    }
  }

  lemma NoEmptyId(q: Queue)
    requires Coherent(q)
    ensures "" !in q.byId
  {
  }

  lemma RemoveEmptyId(q: Queue, repo: string)
    requires Coherent(q) && IsCurrent(q, repo, "")
    ensures Keeps(q, RemoveCurrent(q, repo, ""))
  {
    assert RepoCoherent(q, repo);
    NoEmptyId(q);
    var q' := RemoveCurrent(q, repo, "");
    assert q'.repos == q.repos;
    assert q'.byId == q.byId;
    WakeCoherent(q, q'.signals);
    assert q' == q.(signals := q'.signals);
  }

  /** RemoveTask is safe exactly for tasks that are not being processed: for a task in flight it
    * frees the repository while the worker is still busy. */
  lemma RemoveSafeIff(q: Queue, id: string, q': Queue)
    requires Coherent(q) && RemoveOutcome(q, id, q')
    ensures Keeps(q, q') <==> id == "" || !InFlightId(q, id)
  {
    if id in q.byId {
      assert IdCoherent(q, id);
      var t := q.byId[id];
      RemoveDetermined(q, t, q');
      RemoveCoherent(q, t);
      forall u ensures InFlight(q', u) <==> InFlight(q, u) { RemoveInFlight(q, t, u); }
    } else if AnyCurrent(q, id) {
      var repo :| repo in q.repos && IsCurrent(q, repo, id) && q' == RemoveCurrent(q, repo, id);
      if id == "" {
        RemoveEmptyId(q, repo);
      } else {
        CurrentMatters(q, id, repo);
        assert InFlight(q, Task(id, repo)) && !InFlight(q', Task(id, repo));
      }
    }
  }

  /** The call keeps the index coherent and ends exactly the given task. */
  ghost predicate Ends(q: Queue, t: Task, q': Queue) {
    Coherent(q') && forall u :: InFlight(q', u) <==> InFlight(q, u) && u != t
  }

  lemma CompleteIdleRepo(q: Queue, t: Task, r: string)
    requires Coherent(q) && t.id !in q.byId && !RepoOrNew(q, t.repo).running && r in MarkComplete(q, t.repo, t.id).repos
    ensures RepoCoherent(MarkComplete(q, t.repo, t.id), r)
  {
    assert RepoCoherent(q, r) && MarkComplete(q, t.repo, t.id).byId == q.byId;
    if r != t.repo { RepoFrame(q, MarkComplete(q, t.repo, t.id), r); }
  }

  lemma CompleteIdleKeeps(q: Queue, t: Task, u: Task)
    requires t.id !in q.byId && !RepoOrNew(q, t.repo).running && (Pending(q, u) || Waiting(q, u))
    ensures var q' := MarkComplete(q, t.repo, t.id);
      && u.repo in q'.repos && q'.byId == q.byId && (Pending(q, u) ==> Pending(q', u))
      && (Waiting(q, u) ==> q'.repos[u.repo] == q.repos[u.repo])
  {
  }

  lemma CompleteIdleId(q: Queue, t: Task, id: string)
    requires Coherent(q) && t.id !in q.byId && !RepoOrNew(q, t.repo).running && id in MarkComplete(q, t.repo, t.id).byId
    ensures IdCoherent(MarkComplete(q, t.repo, t.id), id)
  {
    assert IdCoherent(q, id);
    CompleteIdleKeeps(q, t, q.byId[id]);
    hide MarkComplete;
    IdFrame(q, MarkComplete(q, t.repo, t.id), id);
  }

  lemma CompleteIdleFlight(q: Queue, t: Task, u: Task)
    requires Coherent(q) && t.id !in q.byId && !RepoOrNew(q, t.repo).running
    ensures InFlight(MarkComplete(q, t.repo, t.id), u) <==> InFlight(q, u) && u != t
  {
    assert MarkComplete(q, t.repo, t.id).byId == q.byId;
    if u.repo in q.repos { assert RepoCoherent(q, u.repo); }
  }

  lemma CompleteIdle(q: Queue, t: Task)
    requires Coherent(q) && t.id !in q.byId && !RepoOrNew(q, t.repo).running
    ensures Ends(q, t, MarkComplete(q, t.repo, t.id))
  {
    hide RepoCoherent, IdCoherent, CurrentsDiffer, InFlight;
    var q' := MarkComplete(q, t.repo, t.id);
    forall r | r in q'.repos ensures RepoCoherent(q', r) { CompleteIdleRepo(q, t, r); }
    forall id | id in q'.byId ensures IdCoherent(q', id) { CompleteIdleId(q, t, id); }
    MarkCompleteCurrents(q, t);
    forall u ensures InFlight(q', u) <==> InFlight(q, u) && u != t { CompleteIdleFlight(q, t, u); }
  }

  lemma CompleteOther(q: Queue, t: Task)
    requires Coherent(q) && RepoOrNew(q, t.repo).running && RepoOrNew(q, t.repo).current != t.id
    ensures !Ends(q, t, MarkComplete(q, t.repo, t.id))
  {
    var q' := MarkComplete(q, t.repo, t.id);
    assert RepoCoherent(q, t.repo);
    var cur := Task(q.repos[t.repo].current, t.repo);
    if cur.id in q.byId {
      assert q'.byId[cur.id] == cur;
      assert !Pending(q', cur) && !Waiting(q', cur) && !IdCoherent(q', cur.id);
    } else {
      assert InFlight(q, cur) && !InFlight(q', cur) && cur != t;
    }
  }

  lemma CompletePending(q: Queue, t: Task)
    requires Coherent(q) && t.id in q.byId && !IsCurrent(q, t.repo, t.id)
    ensures !Ends(q, t, MarkComplete(q, t.repo, t.id))
  {
    var q' := MarkComplete(q, t.repo, t.id);
    assert IdCoherent(q, t.id);
    var u := q.byId[t.id];
    assert RepoCoherent(q, u.repo);
    if Pending(q, u) {
      assert u in q'.repos[u.repo].tasks && !Indexed(q', u);
      assert !RepoCoherent(q', u.repo);
    } else {
      assert u != t && !InFlight(q, u) && InFlight(q', u);
    }
  }

  /** MarkComplete never compares IDs. It ends exactly the named task when the named ID is the
    * current task of a running repository, and no pending ID is named. */
  lemma MarkCompleteSafeIff(q: Queue, t: Task)
    requires Coherent(q)
    ensures Ends(q, t, MarkComplete(q, t.repo, t.id)) <==>
      (t.id in q.byId ==> IsCurrent(q, t.repo, t.id)) &&
      (RepoOrNew(q, t.repo).running ==> RepoOrNew(q, t.repo).current == t.id)
  {
    if RepoOrNew(q, t.repo).running && RepoOrNew(q, t.repo).current != t.id {
      CompleteOther(q, t);
    } else if t.id in q.byId && !IsCurrent(q, t.repo, t.id) {
      CompletePending(q, t);
    } else if t.id in q.byId {
      CompleteWaiting(q, t);
    } else if RepoOrNew(q, t.repo).running {
      CurrentNonEmpty(q, t.repo);
      MarkCompleteCoherent(q, t);
      forall u ensures InFlight(MarkComplete(q, t.repo, t.id), u) <==> InFlight(q, u) && u != t {
        MarkCompleteInFlight(q, t, u);
      }
    } else {
      CompleteIdle(q, t);
    }
  }

  lemma CurrentNonEmpty(q: Queue, repo: string)
    requires Coherent(q) && RepoOrNew(q, repo).running
    ensures q.repos[repo].current != ""
  {
  }

  /** Completing a recovered task that was not handed out yet amounts to removing it. */
  lemma CompleteWaiting(q: Queue, t: Task)
    requires Coherent(q) && t.id in q.byId && IsCurrent(q, t.repo, t.id)
    ensures Ends(q, t, MarkComplete(q, t.repo, t.id))
  {
    hide RepoCoherent, IdCoherent, CurrentsDiffer, InFlight;
    var q' := MarkComplete(q, t.repo, t.id);
    forall r | r in q'.repos ensures RepoCoherent(q', r) { CompleteWaitingRepo(q, t, r); }
    forall id | id in q'.byId ensures IdCoherent(q', id) { CompleteWaitingId(q, t, id); }
    MarkCompleteCurrents(q, t);
    CompleteWaitingFlight(q, t);
  }

  lemma CompleteWaitingRepo(q: Queue, t: Task, repo: string)
    requires Coherent(q) && t.id in q.byId && IsCurrent(q, t.repo, t.id) && repo in MarkComplete(q, t.repo, t.id).repos
    ensures RepoCoherent(MarkComplete(q, t.repo, t.id), repo)
  {
    assert RepoCoherent(q, t.repo) && IdCoherent(q, t.id);
    RemoveRepo(q, t, repo);
    RepoFrame(Remove(q, t), MarkComplete(q, t.repo, t.id), repo);
  }

  lemma CompleteWaitingId(q: Queue, t: Task, id: string)
    requires Coherent(q) && t.id in q.byId && IsCurrent(q, t.repo, t.id) && id in MarkComplete(q, t.repo, t.id).byId
    ensures IdCoherent(MarkComplete(q, t.repo, t.id), id)
  {
    assert RepoCoherent(q, t.repo) && IdCoherent(q, t.id);
    RemoveId(q, t, id);
    IdFrame(Remove(q, t), MarkComplete(q, t.repo, t.id), id);
  }

  lemma CompleteWaitingFlight(q: Queue, t: Task)
    requires Coherent(q) && t.id in q.byId && IsCurrent(q, t.repo, t.id)
    ensures forall u :: InFlight(MarkComplete(q, t.repo, t.id), u) <==> InFlight(q, u) && u != t
  {
  }

  /** HasTask("") answers true exactly when some repository entry is idle: the empty ID is not a task. */
  lemma HasTaskEmptyIff(q: Queue)
    requires Coherent(q)
    ensures HasTask(q, "") <==> exists repo | repo in q.repos :: !q.repos[repo].running
  {
  }

  // ---------- What goes wrong ----------

  /** Enqueueing the ID of a task in flight makes Dequeue hand it out a second time: at once, or, for a task that
    * had been recovered, from the pending list once the first round completes. */
  lemma EnqueuedTwice(q: Queue, t: Task)
    requires Coherent(q) && InFlight(q, t)
    ensures var q' := Enqueue(q, t); var q1 := MarkComplete(q', t.repo, t.id);
      if !q.repos[t.repo].dequeued then Recoverable(q', t.repo) && DequeueFrom(q', t.repo).0 == t
      else
        && !Recoverable(q', t.repo)
        && Startable(q1, t.repo) && q1.repos[t.repo].tasks == q.repos[t.repo].tasks + [t]
  {
  }

  /** Recovering a task of a running repository makes Dequeue hand it out beside the running one. */
  lemma RecoveredBeside(q: Queue, running: Task, t: Task)
    requires Coherent(q) && InFlight(q, running) && t.repo == running.repo && t.id != "" && !HasTask(q, t.id)
    ensures var q' := EnqueueAsRunning(q, t);
      && Recoverable(q', t.repo) && DequeueFrom(q', t.repo).0 == t && t != running
  {
  }

  /** Removing a task in flight lets Dequeue start the next task of the same repository beside it. */
  lemma RemovedInFlight(q: Queue, t: Task)
    requires Coherent(q) && InFlight(q, t) && q.repos[t.repo].tasks != []
    ensures var q' := RemoveCurrent(q, t.repo, t.id);
      && Startable(q', t.repo) && Start(q', t.repo).0.repo == t.repo && Start(q', t.repo).0 != t
  {
  }

  /** Start-up recovery runs beside the dispatcher, oldest review first. When a pending review of a
    * repository is older than the running one, the dispatcher may take it in between, and the
    * recovered task then joins it in flight. */
  lemma StartupOverlap(c: Config, pending: Task, running: Task) returns (es: seq<Event>, s: System)
    requires pending.repo == running.repo && pending.id != running.id && pending.id != "" && running.id != ""
    ensures Run(c, es, s) && forall e | e in es :: Internal(e) || e == Enqueued(pending)
    ensures pending in Flight(s) && !HasTask(s.q, running.id)
    ensures var q' := EnqueueAsRunning(s.q, running);
      Recoverable(q', running.repo) && DequeueFrom(q', running.repo).0 == running
  {
    var s1 := Step(c, Init(c), Enqueued(pending));
    var s2 := Step(c, s1, Wake);
    assert Startable(s2.q, pending.repo);
    s := Step(c, s2, DequeuePending(pending));
    es := [] + [Enqueued(pending)] + [Wake] + [DequeuePending(pending)];
    RunOne(c, [], Init(c), Enqueued(pending));
    RunOne(c, [] + [Enqueued(pending)], s1, Wake);
    RunOne(c, [] + [Enqueued(pending)] + [Wake], s2, DequeuePending(pending));
  }

  lemma RunOne(c: Config, es: seq<Event>, s: System, e: Event)
    requires Run(c, es, s) && Enabled(c, s, e)
    ensures Run(c, es + [e], Step(c, s, e))
  {
    assert (es + [e])[..|es|] == es;
  }
}
