/** tryDispatch of internal/engine/dispatcher.go run without interleaving: the drain loop over the
  * queue object. The interleaved dispatcher is in Pipeline.dfy.
  */
module Dispatchers {
  import opened TaskQueue
  import opened RepoTaskQueues
  import opened Options

  function DispatchableRepos(q: Queue): set<string> {
    set repo | repo in q.repos && Dispatchable(q, repo)
  }

  /** The task a dispatchable repository has to offer: its recovered task, or else its oldest pending one. */
  function Offer(q: Queue, repo: string): Task
    requires Dispatchable(q, repo)
  {
    if Recoverable(q, repo) then q.byId[q.repos[repo].current] else q.repos[repo].tasks[0]
  }

  /** Handing out the offer of one repository leaves every other repository as it was. */
  lemma DequeueLeaves(q: Queue, repo: string, other: string)
    requires Coherent(q) && MayDequeue(q, repo) && other != repo
    ensures var q' := DequeueFrom(q, repo).1;
      && (Recoverable(q', other) <==> Recoverable(q, other))
      && (Startable(q', other) <==> Startable(q, other))
      && (Dispatchable(q, other) ==> Offer(q', other) == Offer(q, other))
  {
  }

  lemma DequeueTakes(q: Queue, repo: string)
    requires Coherent(q) && MayDequeue(q, repo)
    ensures var (t, q') := DequeueFrom(q, repo);
      && t == Offer(q, repo) && t.repo == repo
      && !Dispatchable(q', repo)
      && DispatchableRepos(q') == DispatchableRepos(q) - {repo}
  {
    var (t, q') := DequeueFrom(q, repo);
    DequeuedTask(q, repo);
    forall other | other != repo ensures Dispatchable(q', other) <==> Dispatchable(q, other) {
      DequeueLeaves(q, repo, other);
    }
  }

  /** Whatever the state of the queue, a round of Dequeue leaves fewer dispatchable repositories. */
  lemma DequeueShrinks(q: Queue, repo: string)
    requires MayDequeue(q, repo)
    ensures DispatchableRepos(DequeueFrom(q, repo).1) <= DispatchableRepos(q) - {repo}
    ensures |DispatchableRepos(DequeueFrom(q, repo).1)| < |DispatchableRepos(q)|
  {
    assert repo in DispatchableRepos(q);
    var q' := DequeueFrom(q, repo).1;
    assert DispatchableRepos(q') <= DispatchableRepos(q) - {repo};
    SubsetSmaller(DispatchableRepos(q'), DispatchableRepos(q), repo);
  }

  lemma {:induction false} SubsetSmaller(s: set<string>, t: set<string>, x: string)
    requires s <= t - {x} && x in t
    ensures |s| < |t|
  {
    if s == {} {
      assert t != {};
    } else {
      var y :| y in s;
      SubsetSmaller(s - {y}, t - {y}, x);
    }
  }

  /** The tasks handed out, and the queue left, when Dequeue reaches the repositories in `order`;
    * None when some repository of `order` may not be dequeued at its turn. */
  function DrainAlong(q: Queue, order: seq<string>): Option<(seq<Task>, Queue)> {
    if order == [] then Some(([], q))
    else
      var before, repo := DrainAlong(q, order[..|order| - 1]), order[|order| - 1];
      if before.Some? && MayDequeue(before.value.1, repo)
      then
        var (t, q') := DequeueFrom(before.value.1, repo);
        Some((before.value.0 + [t], q'))
      else None
  }

  /** Repository `repo` still offers in `q` what it offered in `q0`. */
  ghost predicate Untouched(q0: Queue, q: Queue, repo: string) {
    && Dispatchable(q0, repo) && Dispatchable(q, repo)
    && Offer(q, repo) == Offer(q0, repo)
    && (Recoverable(q, repo) <==> Recoverable(q0, repo))
  }

  function Members(order: seq<string>): set<string> {
    set r | r in order
  }

  lemma {:induction false} DrainCoherent(q: Queue, order: seq<string>)
    requires Coherent(q) && DrainAlong(q, order).Some?
    ensures Coherent(DrainAlong(q, order).value.1)
  {
    if order == [] {
    } else {
      var n := |order| - 1;
      DrainCoherent(q, order[..n]);
      DequeueCoherent(DrainAlong(q, order[..n]).value.1, order[n]);
    }
  }

  /** A drain takes each repository of `order` off the dispatchable ones and leaves the rest alone. */
  lemma {:induction false} DrainLeaves(q: Queue, order: seq<string>)
    requires Coherent(q) && DrainAlong(q, order).Some?
    ensures var q' := DrainAlong(q, order).value.1;
      && DispatchableRepos(q') == DispatchableRepos(q) - Members(order)
      && forall repo | repo in DispatchableRepos(q') :: Untouched(q, q', repo)
  {
    hide Coherent;
    if order == [] {
      assert Members(order) == {};
    } else {
      var n := |order| - 1;
      var rest, repo := order[..n], order[n];
      DrainLeaves(q, rest);
      DrainCoherent(q, rest);
      assert order == rest + [repo];
      var q1 := DrainAlong(q, rest).value.1;
      DequeueTakes(q1, repo);
      forall other | other in DispatchableRepos(q1) - {repo}
        ensures Untouched(q, DequeueFrom(q1, repo).1, other)
      {
        assert Untouched(q, q1, other);
        DequeueLeaves(q1, repo, other);
      }
    }
  }

  /** Each repository of `order` hands out, once, what it offered at the start. */
  lemma {:induction false} DrainOffers(q: Queue, order: seq<string>)
    requires Coherent(q) && DrainAlong(q, order).Some?
    ensures var sent := DrainAlong(q, order).value.0;
      && |sent| == |order| && Distinct(order)
      && forall i | 0 <= i < |order| ::
           Dispatchable(q, order[i]) && sent[i] == Offer(q, order[i]) && sent[i].repo == order[i]
  {
    hide Coherent;
    if order == [] {
    } else {
      var n := |order| - 1;
      var rest, repo := order[..n], order[n];
      DrainOffers(q, rest);
      DrainLeaves(q, rest);
      DrainCoherent(q, rest);
      assert order == rest + [repo];
      var q1 := DrainAlong(q, rest).value.1;
      DequeueTakes(q1, repo);
      assert repo in DispatchableRepos(q1);
      assert Untouched(q, q1, repo);
      assert repo !in rest;
    }
  }

  /** Recovered tasks come out before pending ones. */
  lemma {:induction false} DrainRecoveredFirst(q: Queue, order: seq<string>, i: nat, j: nat)
    requires Coherent(q) && DrainAlong(q, order).Some? && i < j < |order| && Recoverable(q, order[j])
    ensures Recoverable(q, order[i])
  {
    hide Coherent;
    var n := |order| - 1;
    if j < n {
      DrainRecoveredFirst(q, order[..n], i, j);
    } else {
      // At the turn of order[i], order[j] was still recoverable.
      var rest := order[..i];
      DrainTurn(q, order, i);
      DrainLeaves(q, rest);
      DrainOffers(q, order);
      var q1 := DrainAlong(q, rest).value.1;
      assert order[j] in DispatchableRepos(q1) && Untouched(q, q1, order[j]);
      assert order[i] in DispatchableRepos(q1) && Untouched(q, q1, order[i]);
      assert AnyRecoverable(q1);
    }
  }

  lemma DrainTurn(q: Queue, order: seq<string>, i: nat)
    requires Coherent(q) && DrainAlong(q, order).Some? && i < |order|
    ensures DrainAlong(q, order[..i]).Some? && MayDequeue(DrainAlong(q, order[..i]).value.1, order[i])
  {
    DrainPrefix(q, order, i + 1);
    assert order[..i + 1][..i] == order[..i];
  }

  lemma {:induction false} DrainPrefix(q: Queue, order: seq<string>, k: nat)
    requires DrainAlong(q, order).Some? && k <= |order|
    ensures DrainAlong(q, order[..k]).Some?
  {
    if k < |order| {
      DrainPrefix(q, order[..|order| - 1], k);
      assert order[..|order| - 1][..k] == order[..k];
    } else {
      assert order[..k] == order;
    }
  }

  /** A drain that ends took exactly one task from every dispatchable repository. */
  lemma DrainExact(q: Queue, order: seq<string>)
    requires Coherent(q) && DrainAlong(q, order).Some? && !AnyDispatchable(DrainAlong(q, order).value.1)
    ensures Members(order) == DispatchableRepos(q)
    ensures |DrainAlong(q, order).value.0| == |DispatchableRepos(q)|
  {
    hide Coherent, DrainAlong, DispatchableRepos, Members, Dispatchable;
    DrainLeaves(q, order);
    DrainOffers(q, order);
    NoneLeft(DrainAlong(q, order).value.1);
    MembersDispatchable(q, order);
    Covered(DispatchableRepos(q), Members(order));
    MembersSize(order);
  }

  lemma NoneLeft(q: Queue)
    requires !AnyDispatchable(q)
    ensures DispatchableRepos(q) == {}
  {
  }

  lemma MembersDispatchable(q: Queue, order: seq<string>)
    requires forall i | 0 <= i < |order| :: Dispatchable(q, order[i])
    ensures Members(order) <= DispatchableRepos(q)
  {
  }

  lemma Covered(s: set<string>, m: set<string>)
    requires m <= s && s - m == {}
    ensures m == s
  {
    assert s == m + (s - m);
  }

  lemma {:induction false} MembersSize(order: seq<string>)
    requires Distinct(order)
    ensures |Members(order)| == |order|
  {
    if order == [] {
    } else {
      var rest := order[1..];
      assert order == [order[0]] + rest;
      MembersSize(rest);
      assert Members(order) == Members(rest) + {order[0]};
    }
  }

  /** Along `order` the drain of `q0` appends to the channel log `before` and leaves `q`. */
  predicate DrainTo(q0: Queue, order: seq<string>, log: seq<Task>, before: seq<Task>, q: Queue) {
    var d := DrainAlong(q0, order);
    d.Some? && d.value.1 == q && log == before + d.value.0
  }

  class Dispatcher {
    const queue: RepoTaskQueue
    var taskQueue: seq<Task>  // every task sent to the worker channel, in order

    constructor (queue: RepoTaskQueue)
      ensures this.queue == queue && taskQueue == []
    {
      this.queue := queue;
      taskQueue := [];
    }

    /** Dequeue and send until nothing is dispatchable; `order` records the repositories reached. */
    method TryDispatch() returns (ghost order: seq<string>)
      requires queue.Valid()
      modifies this, queue, queue.queues.Values
      ensures queue.Valid() && !AnyDispatchable(queue.State())
      ensures DrainTo(old(queue.State()), order, taskQueue, old(taskQueue), queue.State())
    {
      ghost var q0, before := queue.State(), taskQueue;
      order := [];
      while true
        invariant queue.Valid() && queue.queues == old(queue.queues)
        invariant DrainTo(q0, order, taskQueue, before, queue.State())
        decreases |DispatchableRepos(queue.State())|
      {
        var more;
        more, order := DispatchOne(q0, order, before);
        if !more {
          return;
        }
      }
    }

    /** One round of the loop: Dequeue, then send what came back. */
    method DispatchOne(ghost q0: Queue, ghost order: seq<string>, ghost before: seq<Task>)
      returns (more: bool, ghost order': seq<string>)
      requires queue.Valid() && DrainTo(q0, order, taskQueue, before, queue.State())
      modifies this, queue, queue.queues.Values
      ensures queue.Valid() && queue.queues == old(queue.queues)
      ensures DrainTo(q0, order', taskQueue, before, queue.State())
      ensures more ==> |DispatchableRepos(queue.State())| < |DispatchableRepos(old(queue.State()))|
      ensures !more ==> !AnyDispatchable(queue.State())
    {
      hide DrainTo, DispatchableRepos, MayDequeue, DequeueFrom, AnyDispatchable;
      ghost var q := queue.State();
      var task := queue.Dequeue();
      if task.None? {
        return false, order;
      }
      order' := DrainMore(q0, order, taskQueue, before, q, task.value, queue.State());
      taskQueue := taskQueue + [task.value];
      more := true;
    }
  }

  lemma DrainMore(q0: Queue, order: seq<string>, log: seq<Task>, before: seq<Task>, q: Queue, t: Task, q': Queue)
    returns (order': seq<string>)
    requires DrainTo(q0, order, log, before, q)
    requires exists repo | repo in q.repos :: MayDequeue(q, repo) && DequeueFrom(q, repo) == (t, q')
    ensures DrainTo(q0, order', log + [t], before, q') && |DispatchableRepos(q')| < |DispatchableRepos(q)|
  {
    var repo :| repo in q.repos && MayDequeue(q, repo) && DequeueFrom(q, repo) == (t, q');
    order' := order + [repo];
    DrainNext(q0, order, log, before, q, repo);
  }

  lemma DrainNext(q0: Queue, order: seq<string>, log: seq<Task>, before: seq<Task>, q: Queue, repo: string)
    requires DrainTo(q0, order, log, before, q) && MayDequeue(q, repo)
    ensures var (t, q') := DequeueFrom(q, repo);
      DrainTo(q0, order + [repo], log + [t], before, q') && |DispatchableRepos(q')| < |DispatchableRepos(q)|
  {
    hide MayDequeue, DequeueFrom, DispatchableRepos;
    assert (order + [repo])[..|order + [repo]| - 1] == order;
    DequeueShrinks(q, repo);
  }
}
