# stlab portable default executor: a verified model

This project models the portable task system of stlab's default executor
(`stlab/concurrency/default_executor.hpp`, the `STLAB_TASK_SYSTEM(PORTABLE)`
branch) and proves properties of the model in Dafny.

The model has three parts:

- **`notification_queue`**: a per-worker priority queue. Its `_q` vector is
  kept as a min-heap under `element_t::greater`. Each element is keyed by
  `merge_priority_count`, which puts a 2-bit priority in the top two bits of a
  64-bit `std::size_t` and the per-queue insertion count `_count` in the rest.
  The flags `_done` and `_waiting` drive the blocking `pop()`, `wake()` and
  `done()`.
- **`waiter`**: the gate on which an expansion thread parks. It holds the two
  flags `_waiting` and `_done`.
- **`priority_task_system`**: the pool. Its parts are:
  - the sizes `_count` and `_thread_limit` derived from the hardware
    concurrency;
  - the round-robin `_index`;
  - the `try_push` probe of `execute`;
  - the `try_pop` steal loop of the worker and expansion threads;
  - `add_thread` and `waiters_size`;
  - the pool-level `wake`;
  - the destructor's marking of every queue and gate as done.

Each critical section is modelled as one method that runs atomically:

- A `try_to_lock` that fails is an `acquired` argument equal to `false`.
- A blocking lock always succeeds.
- A blocking call is split where it waits on its condition variable, since
  it continues only once another thread has acted:
  - `pop()` becomes `BeginPop`/`EndPop`;
  - `wait()` becomes `BeginWait`/`EndWait`.
  The second half requires the exit condition of the wait loop.
- A loop over several locked steps is also one method. These loops are the
  try_push probe of `execute`, the try_pop steal loop, and the two loops of
  the pool's `wake`. Each step's `acquired` argument covers any contention
  from other threads. Changes other threads make to a queue or gate between
  two steps of the same loop are not modelled.
- The hardware concurrency is a natural-number parameter.
- Tasks are opaque ids (`TaskId`).
- `std::size_t` is a natural number below 2^64, and `unsigned` one below
  2^32. The wrap-around of `_count`, of `merge_priority_count` and of
  `_index` is written out. Two unsigned computations also wrap in the source:
  the probe `(i + n) % _count` of `execute` and the limit `hc * 4 + 1`. Each
  is modelled as written (`ProbeAsWritten`, `ThreadLimitAsWritten`) next to a
  corrected version (`Probe`, `ThreadLimit`). The pool uses the corrected
  versions; see Findings.

The pool (`TaskSystem.PriorityTaskSystem`) holds its queues and gates as
objects. Each of its methods states its effect on `QueueStates()` and
`GateStates()`, the value snapshots of those objects, in terms of the pure
functions in `Schedule`:

- `ExecuteTarget`: the queue a task lands on;
- `StealSource`: the queue a steal takes from;
- `WakeChoice`: the queue or gate a wake unparks.

The properties of those functions are proved as lemmas.

Modules and files:

- `wrappers.dfy`: `Option`.
- `merged_key.dfy`: `merge_priority_count`.
- `heap.dfy`: `element_t`, `greater`, and `push_heap`/`pop_heap` as
  sift-up/sift-down.
- `notification_queue.dfy`: the queue class.
- `queue_order.dfy`: the end-to-end pop order of one queue.
- `waiter.dfy`: the gate class.
- `schedule.dfy`: the pool arithmetic and choice functions.
- `task_system.dfy`: the pool class.

## Model

| member | source | states |
|---|---|---|
| MergedKey.MergePriorityCount | stlab/concurrency/default_executor.hpp:301-304 | `(priority << 62) \| count` stays a 64-bit size_t; the top two bits are the OR of the priority and the count's top bits |
| MergedKey.MergeIsSum | stlab/concurrency/default_executor.hpp:301-304 | for counts below 2^62 the OR does not mix the fields: key = priority * 2^62 + count |
| MergedKey.MergeFields | stlab/concurrency/default_executor.hpp:301-304 | for counts below 2^62 the top two bits of the key give back the priority and the low 62 bits the count |
| MergedKey.MergeOrder | stlab/concurrency/default_executor.hpp:301-304 | for counts below 2^62, key(p1, c1) < key(p2, c2) exactly when p1 < p2, or p1 = p2 and c1 < c2 |
| MergedKey.MergeInjective | stlab/concurrency/default_executor.hpp:301-304 | for counts below 2^62, equal keys come from equal (priority, count) pairs |
| MergedKey.CountSpillsIntoPriority | stlab/concurrency/default_executor.hpp:303 | at count 2^62 the count spills into the priority bits: a priority-0 key equals a priority-1 key, and a later priority-0 key orders after a priority-1 one |
| Heap.GreaterIsStrictWeakOrder | stlab/concurrency/default_executor.hpp:286-290 | `greater` is a strict weak ordering, as the heap algorithms require: irreflexive, transitive, and incomparability (equal keys) is transitive |
| Heap.HeapFrontIsLeast | stlab/concurrency/default_executor.hpp:286-290 | in a heap under `greater`, the front element has the smallest key |
| Heap.PushHeap | stlab/concurrency/default_executor.hpp:356 | push_heap: given a heap plus one appended element, returns a heap with the same multiset of elements |
| Heap.PopHeap | stlab/concurrency/default_executor.hpp:309 | pop_heap: moves the front to the back, leaves a heap in front of it, and keeps the multiset of elements |
| NotificationQueues.PoppedFrontComesFirst | stlab/concurrency/default_executor.hpp:286-290 | the element a pop removes has no larger priority number than any element left, and no larger insertion count than any left with the same priority |
| NotificationQueues.NotificationQueue.constructor | stlab/concurrency/default_executor.hpp:296-299 | a new queue is empty, with `_count` 0, no pushes and both flags clear |
| NotificationQueues.NotificationQueue.PopNotEmpty | stlab/concurrency/default_executor.hpp:306-312 | returns the front task, which had the smallest key; no element left has a smaller priority number, or the same priority and a smaller insertion count; removes exactly that element; keeps the heap and the invariant that relates queued keys to `_count`; leaves count and flags unchanged |
| NotificationQueues.NotificationQueue.TryPop | stlab/concurrency/default_executor.hpp:315-319 | no task exactly when the lock is contended or `_q` is empty, and then nothing changes; otherwise pops the front element as PopNotEmpty, with the same order guarantee |
| NotificationQueues.NotificationQueue.Wake | stlab/concurrency/default_executor.hpp:322-330 | true exactly when the lock was acquired and `_waiting` was set; it then clears `_waiting`; nothing else changes |
| NotificationQueues.NotificationQueue.BeginPop | stlab/concurrency/default_executor.hpp:333-335 | pop() before its wait loop: sets `_waiting` and changes nothing else |
| NotificationQueues.NotificationQueue.EndPop | stlab/concurrency/default_executor.hpp:336-340 | pop() after its wait loop: an empty queue returns (`_done`, no task); a non-empty one returns (false, its least task) even when done, with the same order guarantee as PopNotEmpty; `_waiting` is false |
| NotificationQueues.NotificationQueue.Done | stlab/concurrency/default_executor.hpp:342-348 | sets `_done` and changes nothing else, so a second call changes nothing |
| NotificationQueues.NotificationQueue.TryPush | stlab/concurrency/default_executor.hpp:350-360 | contended: false, and `_q` and `_count` are unchanged; otherwise does what Push does |
| NotificationQueues.NotificationQueue.Push | stlab/concurrency/default_executor.hpp:362-370 | adds exactly one element keyed merge_priority_count(priority, _count), increments `_count` modulo 2^64 and keeps the heap; while fewer than 2^62 tasks have been pushed, the new key carries the priority and an insertion count above that of every task still queued, so `_count` orders the queue FIFO within a priority |
| QueueOrder.KeyedNext | stlab/concurrency/default_executor.hpp:355 | the n-th push into a fresh queue adds task n under key priority * 2^62 + n |
| QueueOrder.KeyedDistinct | stlab/concurrency/default_executor.hpp:355 | no element is pushed twice |
| QueueOrder.DrainAdvance | stlab/concurrency/default_executor.hpp:306-312 | each pop takes an element whose key is strictly below every element left, and all pushed elements are accounted for |
| QueueOrder.DrainComplete | stlab/concurrency/default_executor.hpp:306-312 | once everything is popped in increasing key order, every task came out exactly once, by ascending priority number and FIFO among equal priorities |
| QueueOrder.PushThenDrain | stlab/concurrency/default_executor.hpp:350-370 | pushing tasks with priorities below 4 into a new queue and popping until empty yields each task once, lowest priority number first and in push order among equal priorities |
| QueueOrder.HighLowHighScenario | stlab/concurrency/default_executor.hpp:286-290 | tasks A (high), B (low), C (high) pushed in that order pop as A, C, B |
| Gate.Waiter.constructor | stlab/concurrency/default_executor.hpp:244-245 | a new gate has both flags clear |
| Gate.Waiter.Done | stlab/concurrency/default_executor.hpp:248-254 | sets `_done` and leaves `_waiting` unchanged |
| Gate.Waiter.Wake | stlab/concurrency/default_executor.hpp:257-265 | true exactly when the lock was acquired and `_waiting` was set; it then clears `_waiting`; `_done` is unchanged |
| Gate.Waiter.BeginWait | stlab/concurrency/default_executor.hpp:269-270 | wait() before its loop: sets `_waiting` |
| Gate.Waiter.EndWait | stlab/concurrency/default_executor.hpp:271-273 | wait() after its loop: returns `_done` and leaves `_waiting` false |
| Gate.WaitAfterDone | stlab/concurrency/default_executor.hpp:268-274 | after done(), a whole wait() returns true without any other thread acting |
| Schedule.PriorityNumber | stlab/concurrency/default_executor.hpp:56-61 | executor_priority high, medium and low are the queue priorities 0, 1 and 2, all below 3 |
| Schedule.CoreCount | stlab/concurrency/default_executor.hpp:378 | `_count` is at least 1, and from two hardware threads on it leaves exactly one of them to the caller |
| Schedule.ThreadLimit | stlab/concurrency/default_executor.hpp:382 | the intended `_thread_limit` is at least 9 and above four threads per hardware thread |
| Schedule.WaiterSlots | stlab/concurrency/default_executor.hpp:390 | `_thread_limit - _count` gates: at least 8, and with `_count` they make up the limit |
| Schedule.ThreadLimitAsWritten | stlab/concurrency/default_executor.hpp:382 | `max(9U, hc * 4 + 1)` in unsigned arithmetic is odd and at least 9 |
| Schedule.WrappedLimitIsOdd | stlab/concurrency/default_executor.hpp:382 | hc * 4 + 1 wraps to (hc mod 2^30) * 4 + 1, which is odd |
| Schedule.ThreadLimitAgrees | stlab/concurrency/default_executor.hpp:382 | below 2^30 hardware threads, the unsigned limit equals max(9, 4 hc + 1) |
| Schedule.ThreadLimitAsWrittenWraps | stlab/concurrency/default_executor.hpp:382 | at hc = 2^30 the unsigned limit is 9, below `_count` |
| Schedule.PoolSizing | stlab/concurrency/default_executor.hpp:378-390 | `_count` >= 1; `_thread_limit` is odd, >= 9 and > `_count`; there are at least 8 waiter slots, and slots plus `_count` is the limit |
| Schedule.Probe | stlab/concurrency/default_executor.hpp:435 | the intended probe (i + n) mod `_count` is a valid queue index |
| Schedule.ProbeAsWritten | stlab/concurrency/default_executor.hpp:435 | `(i + n) % _count` on unsigned, with the sum wrapping modulo 2^32, is a valid queue index |
| Schedule.ProbeIsPermutation | stlab/concurrency/default_executor.hpp:434-435 | over n in [0, _count) the probe (i + n) mod _count visits every queue exactly once: ProbeStep inverts it both ways |
| Schedule.ProbeAgrees | stlab/concurrency/default_executor.hpp:435 | while i + n stays below 2^32, the unsigned probe is the intended one |
| Schedule.ProbeAsWrittenSkipsQueue | stlab/concurrency/default_executor.hpp:432-435 | with `_count` 3 and `_index` 2^32 - 1, the unsigned probe tries queues 0, 0, 1; the intended one tries 0, 1, 2 |
| Schedule.ExecuteTarget | stlab/concurrency/default_executor.hpp:432-438 | the queue execute pushes to is a valid queue index |
| Schedule.ExecuteTargetIsFirstAcquired | stlab/concurrency/default_executor.hpp:434-438 | execute falls back to the blocking push on i mod _count exactly when every try_push was contended; otherwise it uses the first queue in probe order whose try_push got the lock |
| Schedule.StealSource | stlab/concurrency/default_executor.hpp:397-399 | the queue a steal takes from is valid and not empty |
| Schedule.StealSourceAt | stlab/concurrency/default_executor.hpp:397-399 | the first probe step whose try_pop got its lock on a non-empty queue names the steal's source; none means no source |
| Schedule.StealMissesOnlyEmptyOrContended | stlab/concurrency/default_executor.hpp:397-399 | a steal finds nothing exactly when every queue is empty or its try_pop was contended |
| Schedule.WakeChoice | stlab/concurrency/default_executor.hpp:466-474 | a chosen queue or gate is in range and wakeable |
| Schedule.WakeChoiceOrder | stlab/concurrency/default_executor.hpp:466-474 | pool wake fails exactly when nothing is wakeable; it tries every queue before any gate; it picks the first wakeable one |
| TaskSystem.WakeIsChoice | stlab/concurrency/default_executor.hpp:466-474 | the queue loop followed, on failure, by the gate loop wakes exactly the unit WakeChoice picks |
| TaskSystem.PriorityTaskSystem.constructor | stlab/concurrency/default_executor.hpp:378-421 | the pool has `_count` and `_thread_limit` from the hardware concurrency, one fresh queue per worker, `_thread_limit - _count` fresh gates, `_count` threads and `_index` 0 |
| TaskSystem.ExecuteThenSteal | stlab/concurrency/default_executor.hpp:392-439 | on a new pool, an execute whose try_pushes all get their locks, followed by worker 0's try_pop loop, hands the executed task back to the worker |
| TaskSystem.PriorityTaskSystem.Execute | stlab/concurrency/default_executor.hpp:429-439 | `_index` advances modulo 2^32; exactly one queue, ExecuteTarget of the old index, gets the task pushed; every other queue is unchanged |
| TaskSystem.PriorityTaskSystem.OfferInProbeOrder | stlab/concurrency/default_executor.hpp:434-436 | the try_push loop succeeds exactly when some try_push got its lock, and then pushes onto ExecuteTarget; when it fails, nothing changes |
| TaskSystem.PriorityTaskSystem.TrySteal | stlab/concurrency/default_executor.hpp:397-399 | the try_pop loop takes the front task of StealSource, leaving that queue's count and flags (`_waiting` included) unchanged, and changes no other queue; when there is no source it returns no task and changes nothing |
| TaskSystem.PriorityTaskSystem.WorkerSeek | stlab/concurrency/default_executor.hpp:394-402 | a worker runs the stolen task, or, when the steal found nothing, parks in pop() on its own queue; only that queue's `_waiting` changes |
| TaskSystem.PriorityTaskSystem.WorkerResume | stlab/concurrency/default_executor.hpp:402-405 | after pop() returns, a worker exits exactly when its queue was empty and done; it retries when the queue was empty and not done; on exit or retry only its `_waiting` is cleared; otherwise it runs the least task |
| TaskSystem.PriorityTaskSystem.ExpansionSeek | stlab/concurrency/default_executor.hpp:449-460 | an expansion thread runs the stolen task, leaving its gate unchanged, or, when the steal found nothing, parks on gate i - _count |
| TaskSystem.PriorityTaskSystem.ExpansionResume | stlab/concurrency/default_executor.hpp:460 | after wait() returns, an expansion thread exits exactly when its gate was done |
| TaskSystem.PriorityTaskSystem.AddThread | stlab/concurrency/default_executor.hpp:443-446 | at the limit nothing changes; otherwise the thread count grows by one; the new thread's gate index i - _count is a valid `_waiters` index |
| TaskSystem.PriorityTaskSystem.WaitersSize | stlab/concurrency/default_executor.hpp:409-412 | the number of started expansion threads, which is at most the number of gates |
| TaskSystem.PriorityTaskSystem.Wake | stlab/concurrency/default_executor.hpp:466-474 | the first queue whose wake gets its lock while a worker is parked is woken; only when there is none, the first such gate among the started expansion threads; only that unit changes |
| TaskSystem.PriorityTaskSystem.WakeQueues | stlab/concurrency/default_executor.hpp:467-469 | the queue loop of wake stops at the first queue that is acquired and waiting, and clears only its `_waiting` |
| TaskSystem.PriorityTaskSystem.WakeGates | stlab/concurrency/default_executor.hpp:470-472 | the gate loop of wake, over the started expansion threads, stops at the first gate that is acquired and waiting, and clears only its `_waiting` |
| TaskSystem.PriorityTaskSystem.Shutdown | stlab/concurrency/default_executor.hpp:423-425 | every queue and every gate is marked done, and nothing else changes |

## Left out

- The LIBDISPATCH, Emscripten, PNaCl and Windows backends
  (`default_executor.hpp:65-233`). They wrap platform APIs whose behaviour is
  not visible here.
- Condition variables and real mutexes:
  - `notify_one` and the waits are not modelled;
  - a contended `try_to_lock` is an input;
  - a blocking lock always succeeds;
  - each blocking call is cut at its wait loop.
- `_index` is a `std::atomic<unsigned>`. It is modelled as a plain field
  that wraps modulo 2^32, since each call is one atomic step.
- The pool's own `_mutex` is not modelled, because `add_thread` and
  `waiters_size` are each one atomic step.
- Thread creation, `join` in the destructor (`default_executor.hpp:426`) and
  `set_current_thread_name`. Of `_threads` only its size is kept.
- Each worker's loop is modelled one iteration at a time (the Seek and Resume
  methods), not as a running thread.
- Other threads acting between two locked steps of one loop (in `execute`,
  the steal loop and `wake`). Each such loop runs as one method, and only
  lock contention is an input.
- Running the task `f()`: it is opaque user code.
- The process-wide singletons `pts()`, `task_system` and `executor_type`
  (`default_executor.hpp:477-506`). They are static-initialisation glue.
- How `_q` and its elements are stored:
  - `_q` is a sequence field reassigned by each operation, not a vector
    updated in place;
  - `std::push_heap`/`std::pop_heap` are not part of this model, so they are
    given their standard contract (heap kept, same multiset, front moved to
    the back) through a sift-up and a sift-down;
  - the task payload is an id, so moving a `task<void()>` is not modelled.
- MergedKey.MergePriorityCount: the field round trip and the ordering are
  proved only for counts below 2^62. Beyond that the count spills into the
  priority bits, as CountSpillsIntoPriority shows.
- QueueOrder.PushThenDrain: it requires at most 2^62 pushes, for the same
  reason.
- NotificationQueues.NotificationQueue.Push: the FIFO guarantee (insertion
  counts above those of every queued task) holds only while fewer than 2^62
  tasks have been pushed into that queue, for the same reason.
- `std::size_t` is taken to be 64 bits wide, as `merge_priority_count`'s
  shift by 62 assumes. On a platform with a 32-bit `size_t` the count would
  spill into the priority bits after 2^30 pushes rather than 2^62; that width
  is not modelled.
- The pool uses the corrected probe `Probe` and limit `ThreadLimit` (see
  Findings). The unsigned versions as written are modelled beside them, with
  lemmas saying where they agree and where they differ. The members below
  therefore state the corrected behaviour:
- TaskSystem.PriorityTaskSystem.Execute: pushes onto the queue found by the
  corrected probe. It differs from the source only when `_index + n` reaches
  2^32 during the probe (ProbeAgrees, ProbeAsWrittenSkipsQueue).
- TaskSystem.PriorityTaskSystem.OfferInProbeOrder: tries the queues in the
  corrected probe order, so every queue exactly once. The source's order
  differs only when `_index + n` reaches 2^32.
- TaskSystem.PriorityTaskSystem.constructor: sizes the pool with the
  corrected limit. It differs from the source only from 2^30 hardware threads
  on (ThreadLimitAgrees, ThreadLimitAsWrittenWraps).
- Schedule.ExecuteTarget: is defined over the corrected probe. It differs
  from the source only when `_index + n` reaches 2^32.
- Schedule.ExecuteTargetIsFirstAcquired: is stated over the corrected probe.
  It differs from the source only when `_index + n` reaches 2^32.

## Findings

| source | as written | input that shows it | evidently intended | confidence | as-written member | corrected member |
|---|---|---|---|---|---|---|
| stlab/concurrency/default_executor.hpp:432-435 | `auto i = _index++` is `unsigned`, so `(i + n) % _count` wraps `i + n` modulo 2^32 before taking it modulo `_count` | `_count` = 3 and `_index` = 2^32 - 1: the probe tries queues 0, 0, 1, trying queue 0 twice and never queue 2 | each execute offers the task to every queue exactly once, (i + n) mod `_count` | medium; not executed | Schedule.ProbeAsWrittenSkipsQueue | Schedule.ProbeIsPermutation |
| stlab/concurrency/default_executor.hpp:382 | `std::thread::hardware_concurrency() * 4 + 1` is computed in `unsigned` and wraps | hc = 2^30: the limit becomes max(9, 1) = 9, below `_count` = 2^30 - 1, and `_thread_limit - _count` (line 390) underflows | `_thread_limit` = max(9, 4 hc + 1) > `_count` | low (needs 2^30 hardware threads); not executed | Schedule.ThreadLimitAsWrittenWraps | Schedule.PoolSizing |
