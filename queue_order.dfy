/**
 * The ordering a single notification_queue gives: pushing tasks with
 * priorities p0, p1, ... and then popping until empty yields them by
 * ascending priority number, and in push order among equal priorities.
 */
module QueueOrder {
  import opened Wrappers
  import opened MergedKey
  import opened Heap
  import opened NotificationQueues
  import Schedule

  /**
   * With task t being the t-th pushed, task `a` comes out before task `b`:
   * a smaller priority number, or the same priority and pushed earlier.
   */
  predicate PopsBefore(priorities: seq<nat>, a: TaskId, b: TaskId)
    requires a < |priorities| && b < |priorities|
  {
    priorities[a] < priorities[b] || (priorities[a] == priorities[b] && a < b)
  }

  ghost predicate Pushable(priorities: seq<nat>)
  {
    |priorities| <= Pow62 && forall j :: 0 <= j < |priorities| ==> priorities[j] < 4
  }

  /** The elements a fresh queue holds after the first `n` pushes: task j under key (p_j, j). */
  function Keyed(priorities: seq<nat>, n: nat): (r: seq<Element>)
    requires Pushable(priorities) && n <= |priorities|
    ensures |r| == n
    ensures forall j :: 0 <= j < n ==> r[j] == Element(priorities[j] * Pow62 + j, j)
  {
    if n == 0 then [] else Keyed(priorities, n - 1) + [Element(priorities[n - 1] * Pow62 + n - 1, n - 1)]
  }

  /** The (n+1)-th push adds task n under the merged key of its priority and count n. */
  lemma KeyedNext(priorities: seq<nat>, n: nat)
    requires Pushable(priorities) && n < |priorities|
    ensures Keyed(priorities, n + 1) == Keyed(priorities, n) + [Element(MergePriorityCount(priorities[n], n), n)]
  {
    MergeIsSum(priorities[n], n);
  }

  /** No element is pushed twice. */
  lemma {:induction false} KeyedDistinct(priorities: seq<nat>, n: nat)
    requires Pushable(priorities) && n <= |priorities|
    ensures forall e :: multiset(Keyed(priorities, n))[e] <= 1
  {
    if n > 0 {
      KeyedDistinct(priorities, n - 1);
      var x := Element(priorities[n - 1] * Pow62 + n - 1, n - 1);
      assert Keyed(priorities, n) == Keyed(priorities, n - 1) + [x];
      assert x !in Keyed(priorities, n - 1);
    }
  }

  /** Every pushed element is task j < n under the key (p_j, j). */
  lemma KeyedShape(priorities: seq<nat>, n: nat, e: Element)
    requires Pushable(priorities) && n <= |priorities|
    requires e in Keyed(priorities, n)
    ensures e.task < n && e.key == priorities[e.task] * Pow62 + e.task
  {
    var j :| 0 <= j < n && Keyed(priorities, n)[j] == e;
  }

  /** Different pushed elements have different keys. */
  lemma KeyedKeysDiffer(priorities: seq<nat>, n: nat, e1: Element, e2: Element)
    requires Pushable(priorities) && n <= |priorities|
    requires e1 in Keyed(priorities, n) && e2 in Keyed(priorities, n) && e1 != e2
    ensures e1.key != e2.key
  {
    KeyedShape(priorities, n, e1);
    KeyedShape(priorities, n, e2);
    assert e1.task != e2.task;
    var p1, p2 := priorities[e1.task], priorities[e2.task];
    MergeIsSum(p1, e1.task);
    MergeIsSum(p2, e2.task);
    MergeOrder(p1, e1.task, p2, e2.task);
    MergeOrder(p2, e2.task, p1, e1.task);
  }

  /** The element just popped has a key strictly below every element left behind. */
  lemma DrainStep(priorities: seq<nat>, n: nat, rest: seq<Element>, popped: seq<Element>, e0: Element)
    requires Pushable(priorities) && n <= |priorities|
    requires multiset(rest) + multiset(popped + [e0]) == multiset(Keyed(priorities, n))
    requires forall e :: e in rest ==> e0.key <= e.key
    ensures forall e :: e in rest ==> e0.key < e.key
  {
    var all := multiset(Keyed(priorities, n));
    KeyedDistinct(priorities, n);
    assert multiset(popped + [e0])[e0] >= 1;
    assert all[e0] <= 1;
    assert all[e0] == multiset(rest)[e0] + multiset(popped + [e0])[e0];
    assert multiset(rest)[e0] == 0;
    forall e | e in rest
      ensures e0.key < e.key
    {
      assert e in all && e0 in all && e != e0;
      KeyedKeysDiffer(priorities, n, e, e0);
    }
  }

  /**
   * The tasks popped so far (`order`, with their elements `popped`) came out
   * in strictly increasing key order, below every key still in `rest`.
   */
  ghost predicate DrainedSoFar(rest: seq<Element>, popped: seq<Element>, order: seq<TaskId>)
  {
    && |order| == |popped|
    && (forall j :: 0 <= j < |popped| ==> order[j] == popped[j].task)
    && (forall j, k :: 0 <= j < k < |popped| ==> popped[j].key < popped[k].key)
    && (forall j, e :: 0 <= j < |popped| && e in rest ==> popped[j].key < e.key)
  }

  /** What a pop leaves behind was there before, with a key no smaller than the popped one. */
  lemma LeftBehind(before: seq<Element>, after: seq<Element>)
    requires PoppedLeast(before, after)
    ensures multiset(before) == multiset(after) + multiset{before[0]}
    ensures forall e :: e in after ==> e in before && before[0].key <= e.key
  {
    assert before[0] in multiset(before);
    forall e | e in after
      ensures e in before && before[0].key <= e.key
    {
      assert e in multiset(after);
      assert e in multiset(before);
      var i :| 0 <= i < |before| && before[i] == e;
    }
  }

  /** Appending an element below everything left keeps DrainedSoFar. */
  lemma DrainedExtend(before: seq<Element>, after: seq<Element>, popped: seq<Element>,
                      order: seq<TaskId>, e0: Element)
    requires DrainedSoFar(before, popped, order) && e0 in before
    requires forall e :: e in after ==> e in before && e0.key < e.key
    ensures DrainedSoFar(after, popped + [e0], order + [e0.task])
  {
  }

  /** One pop of the drain keeps DrainedSoFar and accounts for every pushed element. */
  lemma DrainAdvance(priorities: seq<nat>, n: nat, before: seq<Element>, after: seq<Element>,
                     popped: seq<Element>, order: seq<TaskId>)
    requires Pushable(priorities) && n <= |priorities|
    requires multiset(before) + multiset(popped) == multiset(Keyed(priorities, n))
    requires DrainedSoFar(before, popped, order) && PoppedLeast(before, after)
    ensures multiset(after) + multiset(popped + [before[0]]) == multiset(Keyed(priorities, n))
    ensures DrainedSoFar(after, popped + [before[0]], order + [before[0].task])
  {
    LeftBehind(before, after);
    DrainStep(priorities, n, after, popped, before[0]);
    DrainedExtend(before, after, popped, order, before[0]);
  }

  /** A permutation of the pushed elements holds each task once, under its own key. */
  lemma PoppedArePushed(priorities: seq<nat>, popped: seq<Element>)
    requires Pushable(priorities)
    requires multiset(popped) == multiset(Keyed(priorities, |priorities|))
    ensures |popped| == |priorities|
    ensures forall j :: 0 <= j < |popped| ==>
      popped[j].task < |priorities| && popped[j].key == priorities[popped[j].task] * Pow62 + popped[j].task
    ensures forall t :: 0 <= t < |priorities| ==> Keyed(priorities, |priorities|)[t] in popped
  {
    var all := Keyed(priorities, |priorities|);
    assert |popped| == |multiset(popped)| == |multiset(all)| == |all|;
    PoppedAreKeyed(priorities, popped);
    forall t | 0 <= t < |priorities|
      ensures all[t] in popped
    {
      assert all[t] in multiset(popped);
    }
  }

  /** Each popped element is some task's pushed element. */
  lemma PoppedAreKeyed(priorities: seq<nat>, popped: seq<Element>)
    requires Pushable(priorities)
    requires multiset(popped) == multiset(Keyed(priorities, |priorities|))
    ensures forall j :: 0 <= j < |popped| ==>
      popped[j].task < |priorities| && popped[j].key == priorities[popped[j].task] * Pow62 + popped[j].task
  {
    forall j | 0 <= j < |popped|
      ensures popped[j].task < |priorities| && popped[j].key == priorities[popped[j].task] * Pow62 + popped[j].task
    {
      assert popped[j] in multiset(Keyed(priorities, |priorities|));
      KeyedShape(priorities, |priorities|, popped[j]);
    }
  }

  /** Between pushed elements, a smaller key means PopsBefore. */
  lemma KeyOrderIsPopsBefore(priorities: seq<nat>, a: TaskId, b: TaskId)
    requires Pushable(priorities) && a < |priorities| && b < |priorities|
    requires priorities[a] * Pow62 + a < priorities[b] * Pow62 + b
    ensures PopsBefore(priorities, a, b)
  {
  }

  /**
   * Once everything pushed has been popped, in strictly increasing key
   * order, the popped tasks are every task once, ordered by PopsBefore.
   */
  lemma DrainComplete(priorities: seq<nat>, popped: seq<Element>, order: seq<TaskId>)
    requires Pushable(priorities)
    requires multiset(popped) == multiset(Keyed(priorities, |priorities|))
    requires DrainedSoFar([], popped, order)
    ensures |order| == |priorities|
    ensures forall j :: 0 <= j < |order| ==> order[j] < |priorities|
    ensures forall t :: 0 <= t < |priorities| ==> t in order
    ensures forall j, k :: 0 <= j < k < |order| ==> PopsBefore(priorities, order[j], order[k])
  {
    PoppedArePushed(priorities, popped);
    DrainHasEveryTask(priorities, popped, order);
    DrainIsOrdered(priorities, popped, order);
  }

  /** Popping in increasing key order pops in PopsBefore order. */
  lemma DrainIsOrdered(priorities: seq<nat>, popped: seq<Element>, order: seq<TaskId>)
    requires Pushable(priorities)
    requires forall j :: 0 <= j < |popped| ==>
      popped[j].task < |priorities| && popped[j].key == priorities[popped[j].task] * Pow62 + popped[j].task
    requires |order| == |popped| && forall j :: 0 <= j < |popped| ==> order[j] == popped[j].task
    requires forall j, k :: 0 <= j < k < |popped| ==> popped[j].key < popped[k].key
    ensures forall j, k :: 0 <= j < k < |order| ==>
      order[j] < |priorities| && order[k] < |priorities| && PopsBefore(priorities, order[j], order[k])
  {
    forall j, k | 0 <= j < k < |order|
      ensures order[j] < |priorities| && order[k] < |priorities| && PopsBefore(priorities, order[j], order[k])
    {
      KeyOrderIsPopsBefore(priorities, order[j], order[k]);
    }
  }

  /** Every pushed task is among the popped ones. */
  lemma DrainHasEveryTask(priorities: seq<nat>, popped: seq<Element>, order: seq<TaskId>)
    requires Pushable(priorities)
    requires forall t :: 0 <= t < |priorities| ==> Keyed(priorities, |priorities|)[t] in popped
    requires |order| == |popped| && forall j :: 0 <= j < |popped| ==> order[j] == popped[j].task
    ensures forall t :: 0 <= t < |priorities| ==> t in order
  {
    var all := Keyed(priorities, |priorities|);
    forall t | 0 <= t < |priorities|
      ensures t in order
    {
      assert all[t] in popped;
      var j :| 0 <= j < |popped| && popped[j] == all[t];
      assert order[j] == t;
    }
  }

  /** Pushes task j with priority priorities[j], for j = 0, 1, ..., into an empty queue. */
  method PushAll(queue: NotificationQueue, priorities: seq<nat>)
    requires Pushable(priorities)
    requires queue.Valid() && queue.q == [] && queue.count == 0
    modifies queue
    ensures queue.Valid() && multiset(queue.q) == multiset(Keyed(priorities, |priorities|))
  {
    var n := 0;
    while n < |priorities|
      invariant n <= |priorities|
      invariant queue.Valid() && queue.count == n
      invariant multiset(queue.q) == multiset(Keyed(priorities, n))
    {
      KeyedNext(priorities, n);
      assert (n + 1) % Pow64 == n + 1;
      queue.Push(n, priorities[n]);
      n := n + 1;
    }
  }

  /**
   * Pushes tasks 0, 1, ..., |priorities| - 1 with the given priorities into a
   * new queue, then pops until it is empty; `order` is the tasks in the
   * order they came out: every task exactly once, by ascending priority
   * number, first in first out among equal priorities.
   */
  method PushThenDrain(priorities: seq<nat>) returns (order: seq<TaskId>)
    requires |priorities| <= Pow62
    requires forall j :: 0 <= j < |priorities| ==> priorities[j] < 4
    ensures |order| == |priorities|
    ensures forall j :: 0 <= j < |order| ==> order[j] < |priorities|
    ensures forall t :: 0 <= t < |priorities| ==> t in order
    ensures forall j, k :: 0 <= j < k < |order| ==> PopsBefore(priorities, order[j], order[k])
  {
    var queue := new NotificationQueue();
    PushAll(queue, priorities);
    var n := |priorities|;
    ghost var all := Keyed(priorities, n);
    order := [];
    ghost var popped: seq<Element> := [];
    while queue.q != []
      invariant queue.Valid()
      invariant multiset(queue.q) + multiset(popped) == multiset(all)
      invariant DrainedSoFar(queue.q, popped, order)
      decreases |queue.q|
    {
      ghost var before := queue.q;
      var t := queue.TryPop(true);
      DrainAdvance(priorities, n, before, queue.q, popped, order);
      popped := popped + [before[0]];
      order := order + [t.value];
    }
    DrainComplete(priorities, popped, order);
  }

  /** Position of tasks A = 0, B = 1, C = 2 in the expected pop order A, C, B. */
  function ScenarioRank(t: TaskId): nat
  {
    if t == 0 then 0 else if t == 2 then 1 else 2
  }

  /**
   * Tasks A (high), B (low) and C (high) pushed to one queue in that order
   * come out as A, C, B.
   */
  method HighLowHighScenario() returns (order: seq<TaskId>)
    ensures order == [0, 2, 1]
  {
    var priorities := [Schedule.PriorityNumber(Schedule.High), Schedule.PriorityNumber(Schedule.Low), Schedule.PriorityNumber(Schedule.High)];
    assert priorities == [0, 2, 0];
    order := PushThenDrain(priorities);
    assert forall a, b :: 0 <= a < 3 && 0 <= b < 3 ==>
      (PopsBefore(priorities, a, b) <==> ScenarioRank(a) < ScenarioRank(b));
    assert ScenarioRank(order[0]) < ScenarioRank(order[1]) < ScenarioRank(order[2]);
  }
}
