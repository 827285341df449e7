/**
 * priority_task_system, the portable thread pool: a fixed vector of core
 * queues, a fixed vector of expansion gates, the round-robin index `_index`
 * and the list of started threads, of which only the number matters here.
 * Each critical section is one method. A failed try_to_lock is an
 * `acquired` input that is false. A thread's loop body is split where it
 * blocks: the Seek methods run up to the park, the Resume methods after it.
 */
module TaskSystem {
  import opened Wrappers
  import opened MergedKey
  import opened Heap
  import opened Gate
  import opened NotificationQueues
  import opened Schedule

  /** The state of one notification_queue, as a value. */
  datatype QueueState = QueueState(q: seq<Element>, count: nat, done: bool, waiting: bool)

  /** The state of one waiter, as a value. */
  datatype GateState = GateState(waiting: bool, done: bool)

  /** Which queues hold a task. */
  function NonEmpty(states: seq<QueueState>): (r: seq<bool>)
    ensures |r| == |states| && forall k :: 0 <= k < |states| ==> r[k] == (states[k].q != [])
  {
    seq(|states|, k requires 0 <= k < |states| => states[k].q != [])
  }

  /** Which queues have a worker parked in pop(). */
  function QueuesWaiting(states: seq<QueueState>): (r: seq<bool>)
    ensures |r| == |states| && forall k :: 0 <= k < |states| ==> r[k] == states[k].waiting
  {
    seq(|states|, k requires 0 <= k < |states| => states[k].waiting)
  }

  /** Which of the first m gates have an expansion thread parked in wait(). */
  function GatesWaiting(states: seq<GateState>, m: nat): (r: seq<bool>)
    requires m <= |states|
    ensures |r| == m && forall n :: 0 <= n < m ==> r[n] == states[n].waiting
  {
    seq(m, n requires 0 <= n < m => states[n].waiting)
  }

  /** `after` is `before` after one push of `task` at `priority`. */
  ghost predicate Pushed(before: QueueState, after: QueueState, priority: nat, task: TaskId)
    requires priority < 4 && before.count < Pow64
  {
    && multiset(after.q) == multiset(before.q) + multiset{Element(MergePriorityCount(priority, before.count), task)}
    && after.count == (before.count + 1) % Pow64
    && after.done == before.done && after.waiting == before.waiting
  }

  /** `after` is `before` after pop_not_empty handed out `task`. */
  ghost predicate Popped(before: QueueState, after: QueueState, task: TaskId)
  {
    && PoppedLeast(before.q, after.q) && task == before.q[0].task
    && after.count == before.count && after.done == before.done
  }

  /**
   * The outcome of a try_pop loop that took its task from `source`: nothing
   * changed when there was no source; otherwise the source queue handed out
   * its front task `t`, kept its `_waiting` flag, and no other queue changed.
   */
  ghost predicate StealStep(before: seq<QueueState>, after: seq<QueueState>, source: Option<nat>, t: Option<TaskId>)
  {
    match source
    case None => t.None? && after == before
    case Some(k) =>
      && k < |before| && |after| == |before| && t.Some?
      && Popped(before[k], after[k], t.value) && after[k].waiting == before[k].waiting
      && after == before[k := after[k]]
  }

  /**
   * The outcome of pool-level wake that chose `choice`: the chosen queue or
   * gate is no longer waiting, and nothing else changed.
   */
  ghost predicate WakeStep(queuesBefore: seq<QueueState>, queuesAfter: seq<QueueState>,
                           gatesBefore: seq<GateState>, gatesAfter: seq<GateState>, choice: Option<WakeTarget>)
  {
    match choice
    case None => queuesAfter == queuesBefore && gatesAfter == gatesBefore
    case Some(CoreQueue(k)) =>
      k < |queuesBefore| && queuesAfter == queuesBefore[k := queuesBefore[k].(waiting := false)] && gatesAfter == gatesBefore
    case Some(ExpansionGate(n)) =>
      n < |gatesBefore| && queuesAfter == queuesBefore && gatesAfter == gatesBefore[n := gatesBefore[n].(waiting := false)]
  }

  /**
   * What pool-level wake promises, given the lock outcomes, the states of
   * the queues and gates before and after, and the number of started
   * expansion threads: it answers whether WakeChoice found something, and
   * only that queue or gate stops waiting.
   */
  ghost predicate WakeOutcome(queueAcquired: seq<bool>, gateAcquired: seq<bool>,
                              queuesBefore: seq<QueueState>, queuesAfter: seq<QueueState>,
                              gatesBefore: seq<GateState>, gatesAfter: seq<GateState>, started: nat, woken: bool)
  {
    && |queueAcquired| == |queuesBefore| && started <= |gateAcquired| && started <= |gatesBefore|
    && var choice := WakeChoice(Both(queueAcquired, QueuesWaiting(queuesBefore)),
                                Both(gateAcquired[..started], GatesWaiting(gatesBefore, started)));
       woken == choice.Some? && WakeStep(queuesBefore, queuesAfter, gatesBefore, gatesAfter, choice)
  }

  /**
   * Wake's contract, queue loop first and gate loop only when it found
   * nothing, is WakeChoice: the unit the two loops wake is the one
   * WakeChoice picks.
   */
  lemma WakeIsChoice(queueAcquired: seq<bool>, gateAcquired: seq<bool>,
                     queues0: seq<QueueState>, queues1: seq<QueueState>,
                     gates0: seq<GateState>, gates1: seq<GateState>, started: nat, woken: bool)
    requires |queueAcquired| == |queues0| && started <= |gateAcquired| && started <= |gates0|
    requires var k := FirstTrue(Both(queueAcquired, QueuesWaiting(queues0)));
      k < |queues0| ==> woken && WakeStep(queues0, queues1, gates0, gates1, Some(CoreQueue(k)))
    requires var k := FirstTrue(Both(queueAcquired, QueuesWaiting(queues0)));
      var n := FirstTrue(Both(gateAcquired[..started], GatesWaiting(gates0, started)));
      k == |queues0| ==>
        (woken == (n < started) && WakeStep(queues0, queues1, gates0, gates1, if woken then Some(ExpansionGate(n)) else None))
    ensures WakeOutcome(queueAcquired, gateAcquired, queues0, queues1, gates0, gates1, started, woken)
  {
  }

  /** One step of a worker or expansion thread's loop. */
  datatype ThreadStep =
    | Run(task: TaskId)  // a task was found and is to be run
    | Parked             // nothing was found; the thread blocks
    | Retry              // woken with no task; the loop starts over
    | Exit               // shut down; the loop ends

  class PriorityTaskSystem {
    /** `_count`: the number of core workers, each owning one queue. */
    const count: nat
    /** `_thread_limit`: the most threads, core and expansion, the pool starts. */
    const threadLimit: nat
    /** `_q`: one queue per core worker. */
    const queues: seq<NotificationQueue>
    /** `_waiters`: one gate per expansion thread slot. */
    const waiters: seq<Waiter>
    /** `_index`: the round-robin start of the next execute, an `unsigned`. */
    var index: nat
    /** `_threads.size()`: core workers first, then expansion threads. */
    var threads: nat

    ghost predicate Valid()
      reads this, queues
    {
      && 1 <= count < threadLimit
      && |queues| == count && |waiters| == threadLimit - count
      && count <= threads <= threadLimit
      && index < Pow32
      && (forall j, k :: 0 <= j < |queues| && 0 <= k < |queues| && queues[j] == queues[k] ==> j == k)
      && (forall j, k :: 0 <= j < |waiters| && 0 <= k < |waiters| && waiters[j] == waiters[k] ==> j == k)
      && forall k :: 0 <= k < |queues| ==> queues[k].Valid()
    }

    ghost function QueueStates(): (s: seq<QueueState>)
      reads queues
      ensures |s| == |queues|
      ensures forall k :: 0 <= k < |queues| ==>
        s[k] == QueueState(queues[k].q, queues[k].count, queues[k].done, queues[k].waiting)
    {
      seq(|queues|, k requires 0 <= k < |queues| reads queues =>
        QueueState(queues[k].q, queues[k].count, queues[k].done, queues[k].waiting))
    }

    ghost function GateStates(): (s: seq<GateState>)
      reads waiters
      ensures |s| == |waiters|
      ensures forall n :: 0 <= n < |waiters| ==> s[n] == GateState(waiters[n].waiting, waiters[n].done)
    {
      seq(|waiters|, n requires 0 <= n < |waiters| reads waiters => GateState(waiters[n].waiting, waiters[n].done))
    }

    /**
     * The constructor: sizes the pool from the hardware concurrency `hc`,
     * creates the queues and gates and starts the core workers.
     */
    constructor (hc: nat)
      ensures Valid()
      ensures count == CoreCount(hc) && threadLimit == ThreadLimit(hc)
      ensures threads == count && index == 0
      ensures forall k :: 0 <= k < count ==> QueueStates()[k] == QueueState([], 0, false, false)
      ensures forall n :: 0 <= n < |waiters| ==> GateStates()[n] == GateState(false, false)
      ensures forall k :: 0 <= k < |queues| ==> fresh(queues[k])
      ensures forall n :: 0 <= n < |waiters| ==> fresh(waiters[n])
    {
      PoolSizing(hc);
      var c := CoreCount(hc);
      var limit := ThreadLimit(hc);
      var qs: seq<NotificationQueue> := [];
      for n := 0 to c
        invariant |qs| == n
        invariant forall j, k :: 0 <= j < n && 0 <= k < n && qs[j] == qs[k] ==> j == k
        invariant forall k :: 0 <= k < n ==> fresh(qs[k])
        invariant forall k :: 0 <= k < n ==>
          qs[k].Valid() && qs[k].q == [] && qs[k].count == 0 && !qs[k].done && !qs[k].waiting
      {
        var queue := new NotificationQueue();
        qs := qs + [queue];
      }
      var ws: seq<Waiter> := [];
      for n := 0 to limit - c
        invariant |ws| == n
        invariant forall j, k :: 0 <= j < n && 0 <= k < n && ws[j] == ws[k] ==> j == k
        invariant forall k :: 0 <= k < n ==> !ws[k].waiting && !ws[k].done
        invariant forall k :: 0 <= k < n ==> fresh(ws[k])
        invariant forall k :: 0 <= k < c ==> fresh(qs[k])
        invariant forall k :: 0 <= k < c ==>
          qs[k].Valid() && qs[k].q == [] && qs[k].count == 0 && !qs[k].done && !qs[k].waiting
      {
        var gate := new Waiter();
        ws := ws + [gate];
      }
      count, threadLimit, queues, waiters := c, limit, qs, ws;
      index, threads := 0, c;
    }

    // One call on one queue, restated over QueueStates(); every other queue is untouched.

    method TryPushOn(k: nat, priority: nat, task: TaskId, acquired: bool) returns (pushed: bool)
      requires Valid() && k < count && priority < 3
      modifies queues[k]
      ensures Valid() && pushed == acquired
      ensures QueueStates() == old(QueueStates())[k := QueueStates()[k]]
      ensures pushed ==> Pushed(old(QueueStates())[k], QueueStates()[k], priority, task)
      ensures !pushed ==> QueueStates() == old(QueueStates())
    {
      pushed := queues[k].TryPush(task, priority, acquired);
    }

    method PushOn(k: nat, priority: nat, task: TaskId)
      requires Valid() && k < count && priority < 3
      modifies queues[k]
      ensures Valid()
      ensures QueueStates() == old(QueueStates())[k := QueueStates()[k]]
      ensures Pushed(old(QueueStates())[k], QueueStates()[k], priority, task)
    {
      queues[k].Push(task, priority);
    }

    /** Step n of the try_pop loop from index i: try_pop on queue (i + n) mod count. */
    method StealAttempt(i: nat, n: nat, acquired: seq<bool>) returns (t: Option<TaskId>)
      requires Valid() && |acquired| == count && n < count
      modifies queues[Probe(i, n, count)]
      ensures Valid()
      ensures t.Some? == StealHits(i, count, acquired, NonEmpty(old(QueueStates())))[n]
      ensures StealStep(old(QueueStates()), QueueStates(), if t.Some? then Some(Probe(i, n, count)) else None, t)
    {
      t := queues[Probe(i, n, count)].TryPop(acquired[n]);
    }

    /**
     * execute<P>: takes the next round-robin index i, offers the task to the
     * queues in probe order from i and, when every try_push was contended,
     * pushes it on queue i mod count with the blocking push.
     */
    method Execute(priority: nat, task: TaskId, acquired: seq<bool>)
      requires Valid() && priority < 3 && |acquired| == count
      modifies this, queues
      ensures Valid() && threads == old(threads)
      ensures index == (old(index) + 1) % Pow32
      ensures var k := ExecuteTarget(old(index), count, acquired);
        && Pushed(old(QueueStates())[k], QueueStates()[k], priority, task)
        && QueueStates() == old(QueueStates())[k := QueueStates()[k]]
    {
      var i := index;
      index := (index + 1) % Pow32;
      var pushed := OfferInProbeOrder(i, priority, task, acquired);
      if !pushed {
        PushOn(i % count, priority, task);
      }
    }

    /**
     * The try_push loop of execute: offers the task to each queue once in
     * probe order from i and stops at the first whose lock was acquired.
     * `acquired[n]` is the outcome of the lock at probe step n.
     */
    method OfferInProbeOrder(i: nat, priority: nat, task: TaskId, acquired: seq<bool>) returns (pushed: bool)
      requires Valid() && priority < 3 && |acquired| == count
      modifies queues
      ensures Valid()
      ensures pushed <==> FirstTrue(acquired) < count
      ensures !pushed ==> QueueStates() == old(QueueStates())
      ensures pushed ==> var k := ExecuteTarget(i, count, acquired);
        && Pushed(old(QueueStates())[k], QueueStates()[k], priority, task)
        && QueueStates() == old(QueueStates())[k := QueueStates()[k]]
    {
      ghost var before := QueueStates();
      for n := 0 to count
        invariant Valid()
        invariant QueueStates() == before
        invariant forall j :: 0 <= j < n ==> !acquired[j]
      {
        var k := Probe(i, n, count);
        pushed := TryPushOn(k, priority, task, acquired[n]);
        if pushed {
          assert FirstTrue(acquired) == n;
          assert ExecuteTarget(i, count, acquired) == k;
          return;
        }
      }
      assert FirstTrue(acquired) == count;
      pushed := false;
    }

    /**
     * The try_pop loop of a worker or expansion thread with index i: tries
     * each queue once in probe order and stops at the first that hands out a
     * task. It comes back empty only when every queue was empty or its lock
     * contended.
     */
    method TrySteal(i: nat, acquired: seq<bool>) returns (t: Option<TaskId>)
      requires Valid() && |acquired| == count
      modifies queues
      ensures Valid()
      ensures StealStep(old(QueueStates()), QueueStates(), StealSource(i, count, acquired, NonEmpty(old(QueueStates()))), t)
    {
      ghost var before := QueueStates();
      ghost var hits := StealHits(i, count, acquired, NonEmpty(before));
      for n := 0 to count
        invariant Valid()
        invariant QueueStates() == before
        invariant forall j :: 0 <= j < n ==> !hits[j]
      {
        t := StealAttempt(i, n, acquired);
        if t.Some? {
          StealSourceAt(i, count, acquired, NonEmpty(before), n);
          return;
        }
      }
      StealSourceAt(i, count, acquired, NonEmpty(before), count);
      t := None;
    }

    method WakeQueueOn(k: nat, acquired: bool) returns (woken: bool)
      requires Valid() && k < count
      modifies queues[k]
      ensures Valid() && woken == (acquired && old(queues[k].waiting))
      ensures woken ==> QueueStates() == old(QueueStates())[k := old(QueueStates())[k].(waiting := false)]
      ensures !woken ==> QueueStates() == old(QueueStates())
    {
      woken := queues[k].Wake(acquired);
    }

    method DoneQueueOn(k: nat)
      requires Valid() && k < count
      modifies queues[k]
      ensures Valid()
      ensures QueueStates() == old(QueueStates())[k := old(QueueStates())[k].(done := true)]
    {
      queues[k].Done();
    }

    method DoneGateOn(n: nat)
      requires Valid() && n < |waiters|
      modifies waiters[n]
      ensures Valid()
      ensures GateStates() == old(GateStates())[n := old(GateStates())[n].(done := true)]
    {
      waiters[n].Done();
    }

    method BeginPopOn(k: nat)
      requires Valid() && k < count
      modifies queues[k]
      ensures Valid()
      ensures QueueStates() == old(QueueStates())[k := old(QueueStates())[k].(waiting := true)]
    {
      queues[k].BeginPop();
    }

    method BeginWaitOn(n: nat)
      requires Valid() && n < |waiters|
      modifies waiters[n]
      ensures Valid() && QueueStates() == old(QueueStates())
      ensures waiters[n].waiting && waiters[n].done == old(waiters[n].done)
    {
      waiters[n].BeginWait();
    }

    method WakeGateOn(n: nat, acquired: bool) returns (woken: bool)
      requires Valid() && n < |waiters|
      modifies waiters[n]
      ensures Valid() && QueueStates() == old(QueueStates())
      ensures woken == (acquired && old(waiters[n].waiting))
      ensures woken ==> GateStates() == old(GateStates())[n := old(GateStates())[n].(waiting := false)]
      ensures !woken ==> GateStates() == old(GateStates())
    {
      woken := waiters[n].Wake(acquired);
    }

    // ------------------------------------------------------------ threads

    /**
     * The body of run(i) for core worker i, up to where it blocks: the
     * try_pop loop, and when it finds nothing, pop() on the worker's own
     * queue up to its wait loop.
     */
    method WorkerSeek(i: nat, acquired: seq<bool>) returns (step: ThreadStep)
      requires Valid() && i < count && |acquired| == count
      modifies queues
      ensures Valid()
      ensures step.Run? || step.Parked?
      ensures var source := StealSource(i, count, acquired, NonEmpty(old(QueueStates())));
        && (step.Run? ==> StealStep(old(QueueStates()), QueueStates(), source, Some(step.task)))
        && (step.Parked? ==> source.None? && QueueStates() == old(QueueStates())[i := old(QueueStates())[i].(waiting := true)])
    {
      var t := TrySteal(i, acquired);
      if t.Some? {
        return Run(t.value);
      }
      BeginPopOn(i);
      step := Parked;
    }

    /**
     * The body of run(i) after pop() has left its wait loop: the worker
     * exits only when its queue was done and empty; it runs the front task
     * of a non-empty queue even when the queue is done, and starts over when
     * woken with nothing to run.
     */
    method WorkerResume(i: nat) returns (step: ThreadStep)
      requires Valid() && i < count
      requires queues[i].q != [] || queues[i].done || !queues[i].waiting
      modifies queues[i]
      ensures Valid() && !queues[i].waiting
      ensures step.Exit? <==> old(queues[i].q) == [] && old(queues[i].done)
      ensures step.Retry? <==> old(queues[i].q) == [] && !old(queues[i].done)
      ensures step.Run? ==> Popped(old(QueueStates())[i], QueueStates()[i], step.task)
      ensures step.Exit? || step.Retry? ==> QueueStates()[i] == old(QueueStates())[i].(waiting := false)
      ensures !step.Parked?
      ensures QueueStates() == old(QueueStates())[i := QueueStates()[i]]
    {
      var isDone, t := queues[i].EndPop();
      if isDone {
        return Exit;
      }
      step := if t.Some? then Run(t.value) else Retry;
    }

    /**
     * The loop body of expansion thread i, up to where it blocks: the
     * try_pop loop, and when it finds nothing, wait() on gate i - count up to
     * its wait loop.
     */
    method ExpansionSeek(i: nat, acquired: seq<bool>) returns (step: ThreadStep)
      requires Valid() && count <= i < threads && |acquired| == count
      modifies queues, waiters[i - count]
      ensures Valid()
      ensures step.Run? || step.Parked?
      ensures var source := StealSource(i, count, acquired, NonEmpty(old(QueueStates())));
        && (step.Run? ==> StealStep(old(QueueStates()), QueueStates(), source, Some(step.task)))
        && (step.Parked? ==> source.None? && QueueStates() == old(QueueStates()) && waiters[i - count].waiting)
      ensures waiters[i - count].done == old(waiters[i - count].done)
      ensures step.Run? ==> waiters[i - count].waiting == old(waiters[i - count].waiting)
    {
      var t := TrySteal(i, acquired);
      if t.Some? {
        return Run(t.value);
      }
      BeginWaitOn(i - count);
      step := Parked;
    }

    /**
     * The loop body of expansion thread i after wait() has left its wait
     * loop: the thread exits exactly when its gate is done.
     */
    method ExpansionResume(i: nat) returns (step: ThreadStep)
      requires Valid() && count <= i < threads
      requires !waiters[i - count].waiting || waiters[i - count].done
      modifies waiters[i - count]
      ensures step == (if old(waiters[i - count].done) then Exit else Retry)
      ensures !waiters[i - count].waiting && waiters[i - count].done == old(waiters[i - count].done)
    {
      var isDone := waiters[i - count].EndWait();
      step := if isDone then Exit else Retry;
    }

    // ------------------------------------------------------- growth and wake

    /**
     * add_thread: starts one expansion thread unless the pool is at its
     * limit; the new thread's index is the old thread count, and its gate
     * index, that minus count, is in range.
     */
    method AddThread() returns (spawned: Option<nat>)
      requires Valid()
      modifies this
      ensures Valid() && index == old(index)
      ensures old(threads) == threadLimit ==> spawned.None? && threads == old(threads)
      ensures old(threads) < threadLimit ==> spawned == Some(old(threads)) && threads == old(threads) + 1
      ensures spawned.Some? ==> count <= spawned.value < threads && spawned.value - count < |waiters|
    {
      if threads == threadLimit {
        return None;
      }
      spawned := Some(threads);
      threads := threads + 1;
    }

    /** waiters_size: the number of expansion threads started, which is at most the number of gates. */
    method WaitersSize() returns (size: nat)
      requires Valid()
      ensures size + count == threads && size <= |waiters|
    {
      size := threads - count;
    }

    /**
     * wake: tries each core queue's wake in order, then the gates of the
     * started expansion threads in order, and stops at the first success.
     * `queueAcquired[k]` and `gateAcquired[n]` are the lock outcomes.
     */
    method Wake(queueAcquired: seq<bool>, gateAcquired: seq<bool>) returns (woken: bool)
      requires Valid() && |queueAcquired| == count && |gateAcquired| == |waiters|
      modifies queues, waiters
      ensures Valid()
      ensures var k := FirstTrue(Both(queueAcquired, QueuesWaiting(old(QueueStates()))));
        k < count ==> woken && WakeStep(old(QueueStates()), QueueStates(), old(GateStates()), GateStates(), Some(CoreQueue(k)))
      ensures var k := FirstTrue(Both(queueAcquired, QueuesWaiting(old(QueueStates()))));
        var started := threads - count;
        var n := FirstTrue(Both(gateAcquired[..started], GatesWaiting(old(GateStates()), started)));
        k == count ==>
          (woken == (n < started) &&
           WakeStep(old(QueueStates()), QueueStates(), old(GateStates()), GateStates(), if woken then Some(ExpansionGate(n)) else None))
    {
      woken := WakeQueues(queueAcquired);
      if woken {
        return;
      }
      var started := WaitersSize();
      woken := WakeGates(gateAcquired, started);
    }

    /** The first loop of wake: each core queue's wake, in order, up to the first success. */
    method WakeQueues(queueAcquired: seq<bool>) returns (woken: bool)
      requires Valid() && |queueAcquired| == count
      modifies queues
      ensures Valid()
      ensures var k := FirstTrue(Both(queueAcquired, QueuesWaiting(old(QueueStates()))));
        && woken == (k < count)
        && WakeStep(old(QueueStates()), QueueStates(), GateStates(), GateStates(), if woken then Some(CoreQueue(k)) else None)
    {
      ghost var before := QueueStates();
      ghost var wakeable := Both(queueAcquired, QueuesWaiting(before));
      for k := 0 to count
        invariant Valid() && QueueStates() == before
        invariant forall j :: 0 <= j < k ==> !wakeable[j]
      {
        woken := WakeQueueOn(k, queueAcquired[k]);
        if woken {
          assert FirstTrue(wakeable) == k;
          return;
        }
      }
      assert FirstTrue(wakeable) == count;
      woken := false;
    }

    /** The second loop of wake: the gates of the first `started` expansion threads, in order, up to the first success. */
    method WakeGates(acquired: seq<bool>, started: nat) returns (woken: bool)
      requires Valid() && started <= |acquired| && started <= |waiters|
      modifies waiters
      ensures Valid() && QueueStates() == old(QueueStates())
      ensures var n := FirstTrue(Both(acquired[..started], GatesWaiting(old(GateStates()), started)));
        && woken == (n < started)
        && WakeStep(QueueStates(), QueueStates(), old(GateStates()), GateStates(), if woken then Some(ExpansionGate(n)) else None)
    {
      ghost var before := GateStates();
      ghost var wakeable := Both(acquired[..started], GatesWaiting(before, started));
      for n := 0 to started
        invariant Valid() && GateStates() == before
        invariant forall j :: 0 <= j < n ==> !wakeable[j]
      {
        woken := WakeGateOn(n, acquired[n]);
        if woken {
          assert FirstTrue(wakeable) == n;
          return;
        }
      }
      assert FirstTrue(wakeable) == started;
      woken := false;
    }

    /**
     * The destructor's first two loops: every queue and every gate is marked
     * done, and nothing else changes.
     */
    method Shutdown()
      requires Valid()
      modifies queues, waiters
      ensures Valid()
      ensures forall k :: 0 <= k < count ==> QueueStates()[k] == old(QueueStates())[k].(done := true)
      ensures forall n :: 0 <= n < |waiters| ==> GateStates()[n] == old(GateStates())[n].(done := true)
    {
      MarkQueuesDone();
      MarkGatesDone();
    }

    method MarkQueuesDone()
      requires Valid()
      modifies queues
      ensures Valid()
      ensures forall k :: 0 <= k < count ==> QueueStates()[k] == old(QueueStates())[k].(done := true)
    {
      ghost var before := QueueStates();
      for k := 0 to count
        invariant Valid()
        invariant forall j :: 0 <= j < k ==> QueueStates()[j] == before[j].(done := true)
        invariant forall j :: k <= j < count ==> QueueStates()[j] == before[j]
      {
        DoneQueueOn(k);
      }
    }

    method MarkGatesDone()
      requires Valid()
      modifies waiters
      ensures forall n :: 0 <= n < |waiters| ==> GateStates()[n] == old(GateStates())[n].(done := true)
    {
      ghost var before := GateStates();
      for n := 0 to |waiters|
        invariant Valid()
        invariant forall j :: 0 <= j < n ==> GateStates()[j] == before[j].(done := true)
        invariant forall j :: n <= j < |waiters| ==> GateStates()[j] == before[j]
      {
        DoneGateOn(n);
      }
    }
  }

  /** A sequence whose multiset is a single element is that element alone. */
  lemma SingletonSeq<T>(s: seq<T>, x: T)
    requires multiset(s) == multiset{x}
    ensures s == [x]
  {
  }

  /**
   * A new pool runs one execute on which every try_push gets its lock, and
   * then the try_pop loop of worker 0 on which every try_pop gets its lock,
   * before shutting down: the steal hands back the task that was executed.
   */
  method ExecuteThenSteal(hc: nat, priority: nat, task: TaskId) returns (t: Option<TaskId>)
    requires priority < 3
    ensures t == Some(task)
  {
    var pool := new PriorityTaskSystem(hc);
    var acquired := seq(pool.count, _ => true);
    assert acquired[0];
    pool.Execute(priority, task, acquired);
    ghost var executed := pool.QueueStates();
    SingletonSeq(executed[0].q, Element(MergePriorityCount(priority, 0), task));
    StealSourceAt(0, pool.count, acquired, NonEmpty(executed), 0);
    t := pool.TrySteal(0, acquired);
    pool.Shutdown();
  }
}
