/**
 * notification_queue: a per-worker priority queue. Its state (the heap vector
 * `_q`, the insertion counter `_count` and the flags `_done` and `_waiting`)
 * changes only under the queue's mutex; each critical section is one method,
 * and a failed try_to_lock is the input `acquired == false`. The blocking pop()
 * is split at its condition-variable loop into BeginPop and EndPop.
 */
module NotificationQueues {
  import opened Wrappers
  import opened MergedKey
  import opened Heap

  /**
   * `after` is `before` with its front removed, and that front had the
   * smallest key of all of `before`.
   */
  ghost predicate PoppedLeast(before: seq<Element>, after: seq<Element>)
  {
    && before != []
    && multiset(after) == multiset(before) - multiset{before[0]}
    && forall i :: 0 <= i < |before| ==> before[0].key <= before[i].key
  }

  /**
   * No element of `rest` comes before `front` in the queue's order: none has
   * a smaller priority number, and none of the same priority has a smaller
   * insertion count.
   */
  predicate NoneBefore(front: Element, rest: seq<Element>)
  {
    forall e :: e in rest ==>
      && KeyPriority(front.key) <= KeyPriority(e.key)
      && (KeyPriority(front.key) == KeyPriority(e.key) ==> KeyCount(front.key) <= KeyCount(e.key))
  }

  /** The front that pop removes comes before everything left behind. */
  lemma PoppedFrontComesFirst(before: seq<Element>, after: seq<Element>)
    requires PoppedLeast(before, after)
    ensures NoneBefore(before[0], after)
  {
    forall e | e in after
      ensures KeyPriority(before[0].key) <= KeyPriority(e.key)
      ensures KeyPriority(before[0].key) == KeyPriority(e.key) ==> KeyCount(before[0].key) <= KeyCount(e.key)
    {
      assert e in multiset(after);
      var i :| 0 <= i < |before| && before[i] == e;
      KeyOrderIsLexicographic(before[0].key, e.key);
    }
  }

  class NotificationQueue {
    /** `_q`, kept as a heap under element_t::greater. */
    var q: seq<Element>
    /** `_count`, a std::size_t. */
    var count: nat
    var done: bool
    var waiting: bool
    /** The number of pushes so far, which `_count` tracks modulo 2^64. */
    ghost var pushes: nat

    /**
     * The heap property, and, while fewer than 2^62 tasks have been pushed,
     * `_count` is the number of pushes and every queued key carries an
     * insertion count from an earlier push.
     */
    ghost predicate Valid()
      reads this
    {
      && IsHeap(q) && count < Pow64
      && (pushes < Pow62 ==> count == pushes && forall e :: e in q ==> KeyCount(e.key) < pushes)
    }

    constructor ()
      ensures Valid() && q == [] && count == 0 && !done && !waiting && pushes == 0
    {
      q, count, done, waiting := [], 0, false, false;
      pushes := 0;
    }

    /** pop_not_empty: takes the front task, then pop_heap and pop_back. */
    method PopNotEmpty() returns (t: TaskId)
      requires Valid() && q != []
      modifies this
      ensures Valid() && PoppedLeast(old(q), q) && t == old(q)[0].task
      ensures NoneBefore(old(q)[0], q)
      ensures count == old(count) && done == old(done) && waiting == old(waiting) && pushes == old(pushes)
    {
      t := q[0].task;
      forall i | 0 <= i < |q|
        ensures q[0].key <= q[i].key
      {
        HeapFrontIsLeast(q, i);
      }
      ghost var before := q;
      q := PopHeap(q);
      assert q == q[..|q| - 1] + [before[0]];
      q := q[..|q| - 1];
      PoppedFrontComesFirst(before, q);
      forall e | e in q
        ensures e in before
      {
        assert e in multiset(q);
      }
    }

    /**
     * try_pop: nothing when the lock is contended or the queue is empty;
     * otherwise the front task, removed.
     */
    method TryPop(acquired: bool) returns (t: Option<TaskId>)
      requires Valid()
      modifies this
      ensures Valid()
      ensures t.None? <==> !acquired || old(q) == []
      ensures t.None? ==> q == old(q)
      ensures t.Some? ==> t.value == old(q)[0].task && PoppedLeast(old(q), q) && NoneBefore(old(q)[0], q)
      ensures count == old(count) && done == old(done) && waiting == old(waiting) && pushes == old(pushes)
    {
      if !acquired || q == [] {
        return None;
      }
      var f := PopNotEmpty();
      t := Some(f);
    }

    /**
     * wake: with the lock acquired and a thread parked in pop(), clears
     * `_waiting` (which ends that pop) and answers true; otherwise answers
     * false and changes nothing.
     */
    method Wake(acquired: bool) returns (woken: bool)
      modifies this
      ensures woken == (acquired && old(waiting))
      ensures waiting == (old(waiting) && !woken)
      ensures q == old(q) && count == old(count) && done == old(done) && pushes == old(pushes)
    {
      if !acquired || !waiting {
        return false;
      }
      waiting := false;
      woken := true;
    }

    /** pop(), up to its wait loop: the caller parks. */
    method BeginPop()
      modifies this
      ensures waiting
      ensures q == old(q) && count == old(count) && done == old(done) && pushes == old(pushes)
    {
      waiting := true;
    }

    /**
     * pop(), after its wait loop, which exits once the queue holds a task,
     * is done, or was woken. An empty queue answers (`_done`, no task); a
     * non-empty one answers (false, its front task) even when done.
     */
    method EndPop() returns (isDone: bool, t: Option<TaskId>)
      requires Valid()
      requires q != [] || done || !waiting
      modifies this
      ensures Valid() && !waiting
      ensures isDone <==> old(q) == [] && old(done)
      ensures t.None? <==> old(q) == []
      ensures t.None? ==> q == old(q)
      ensures t.Some? ==> t.value == old(q)[0].task && PoppedLeast(old(q), q) && NoneBefore(old(q)[0], q)
      ensures count == old(count) && done == old(done) && pushes == old(pushes)
    {
      waiting := false;
      if q == [] {
        return done, None;
      }
      var f := PopNotEmpty();
      isDone, t := false, Some(f);
    }

    /** done: sets the terminal flag; calling it again changes nothing more. */
    method Done()
      modifies this
      ensures done
      ensures q == old(q) && count == old(count) && waiting == old(waiting) && pushes == old(pushes)
    {
      done := true;
    }

    /**
     * push: adds the task under the key merging `priority` with the current
     * count, and advances the count by one (modulo 2^64). While fewer than
     * 2^62 tasks have been pushed, the new key carries `priority` and an
     * insertion count larger than that of every task already queued.
     */
    method Push(task: TaskId, priority: nat)
      requires Valid() && priority < 4
      modifies this
      ensures Valid()
      ensures multiset(q) == multiset(old(q)) + multiset{Element(MergePriorityCount(priority, old(count)), task)}
      ensures count == (old(count) + 1) % Pow64 && pushes == old(pushes) + 1
      ensures done == old(done) && waiting == old(waiting)
      ensures var key := MergePriorityCount(priority, old(count));
        old(pushes) < Pow62 ==>
          && KeyPriority(key) == priority && KeyCount(key) == old(pushes)
          && forall e :: e in old(q) ==> KeyCount(e.key) < KeyCount(key)
    {
      var key := MergePriorityCount(priority, count);
      if pushes < Pow62 {
        MergeFields(priority, count);
      }
      count := (count + 1) % Pow64;
      pushes := pushes + 1;
      q := q + [Element(key, task)];
      assert q[..|q| - 1] == old(q);
      q := PushHeap(q);
      forall e | e in q
        ensures e in old(q) || e == Element(key, task)
      {
        assert e in multiset(q);
      }
    }

    /**
     * try_push: fails, changing nothing, when the lock is contended;
     * otherwise does what push does.
     */
    method TryPush(task: TaskId, priority: nat, acquired: bool) returns (ok: bool)
      requires Valid() && priority < 4
      modifies this
      ensures Valid() && ok == acquired
      ensures !ok ==> q == old(q) && count == old(count) && pushes == old(pushes)
      ensures ok ==> multiset(q) == multiset(old(q)) + multiset{Element(MergePriorityCount(priority, old(count)), task)}
      ensures ok ==> count == (old(count) + 1) % Pow64 && pushes == old(pushes) + 1
      ensures done == old(done) && waiting == old(waiting)
      ensures var key := MergePriorityCount(priority, old(count));
        ok && old(pushes) < Pow62 ==>
          && KeyPriority(key) == priority && KeyCount(key) == old(pushes)
          && forall e :: e in old(q) ==> KeyCount(e.key) < KeyCount(key)
    {
      if !acquired {
        return false;
      }
      Push(task, priority);
      ok := true;
    }
  }
}
