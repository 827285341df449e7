/**
 * The arithmetic and index logic of priority_task_system, as pure functions:
 * pool sizing from the hardware concurrency, the round-robin probe order of
 * execute and of the worker loops, and which queue or gate each of them picks.
 */
module Schedule {
  import opened Wrappers

  const Pow30: nat := 0x4000_0000
  /** 2^32: `unsigned` arithmetic wraps modulo this. */
  const Pow32: nat := 0x1_0000_0000

  function Max(a: nat, b: nat): (m: nat)
    ensures a <= m && b <= m && (m == a || m == b)
  {
    if a < b then b else a
  }

  /** executor_priority: high, medium and low, as the numbers 0, 1, 2. */
  datatype ExecutorPriority = High | Medium | Low

  function PriorityNumber(p: ExecutorPriority): (n: nat)
    ensures n < 3
    ensures p == High <==> n == 0
    ensures p == Low <==> n == 2
  {
    match p
    case High => 0
    case Medium => 1
    case Low => 2
  }

  // ---------------------------------------------------------------- sizing

  /** `_count`: the core workers, max(2, hc) - 1 (one hardware thread is left to the main thread). */
  function CoreCount(hc: nat): (c: nat)
    ensures c >= 1
    ensures hc >= 2 ==> c + 1 == hc
  {
    Max(2, hc) - 1
  }

  /** `_thread_limit` as written: max(9, hc * 4 + 1) in 32-bit unsigned arithmetic. */
  function ThreadLimitAsWritten(hc: nat): (limit: nat)
    requires hc < Pow32
    ensures limit % 2 == 1 && limit >= 9
  {
    WrappedLimitIsOdd(hc);
    Max(9, (hc * 4 + 1) % Pow32)
  }

  /** hc * 4 + 1 wraps to (hc mod 2^30) * 4 + 1, which is still odd. */
  lemma WrappedLimitIsOdd(hc: nat)
    ensures (hc * 4 + 1) % Pow32 == (hc % Pow30) * 4 + 1
    ensures ((hc * 4 + 1) % Pow32) % 2 == 1
  {
    var low := hc % Pow30;
    assert hc * 4 + 1 == (hc / Pow30) * Pow32 + (low * 4 + 1);
    DivModUnique(hc * 4 + 1, hc / Pow30, low * 4 + 1, Pow32);
    DivModUnique(low * 4 + 1, low * 2, 1, 2);
  }

  /** `_thread_limit` as intended: max(9, hc * 4 + 1) without wrap-around. */
  function ThreadLimit(hc: nat): (limit: nat)
    ensures limit >= 9 && limit > 4 * hc
  {
    Max(9, hc * 4 + 1)
  }

  /** The number of waiter slots, `_thread_limit - _count`. */
  function WaiterSlots(hc: nat): (slots: nat)
    ensures slots >= 8 && slots + CoreCount(hc) == ThreadLimit(hc)
  {
    ThreadLimit(hc) - CoreCount(hc)
  }

  /**
   * The pool always has a core worker, an odd thread limit of at least 9
   * above the core count, and so at least 8 waiter slots.
   */
  lemma PoolSizing(hc: nat)
    ensures CoreCount(hc) >= 1
    ensures ThreadLimit(hc) % 2 == 1 && ThreadLimit(hc) >= 9
    ensures ThreadLimit(hc) > CoreCount(hc)
    ensures WaiterSlots(hc) >= 8 && WaiterSlots(hc) + CoreCount(hc) == ThreadLimit(hc)
  {
    if hc <= 2 {
      assert CoreCount(hc) == 1 && ThreadLimit(hc) == 9;
    } else {
      assert CoreCount(hc) == hc - 1 && ThreadLimit(hc) == hc * 4 + 1;
      DivModUnique(hc * 4 + 1, hc * 2, 1, 2);
    }
  }

  /** Below 2^30 hardware threads the written and intended limits agree. */
  lemma ThreadLimitAgrees(hc: nat)
    requires hc < Pow30
    ensures ThreadLimitAsWritten(hc) == ThreadLimit(hc)
  {
  }

  /** With 2^30 hardware threads, hc * 4 + 1 wraps to 1 and the written limit falls below the core count. */
  lemma ThreadLimitAsWrittenWraps()
    ensures ThreadLimitAsWritten(Pow30) == 9
    ensures ThreadLimitAsWritten(Pow30) < CoreCount(Pow30)
  {
  }

  // ------------------------------------------------------------ probe order

  /** The queue tried at step n of a probe that starts from index i, as written: `(i + n) % _count` on `unsigned`. */
  function ProbeAsWritten(i: nat, n: nat, count: nat): (k: nat)
    requires i < Pow32 && n < Pow32 && count > 0
    ensures k < count
  {
    ((i + n) % Pow32) % count
  }

  /** The queue tried at step n of a probe that starts from index i, as intended: (i + n) mod count. */
  function Probe(i: nat, n: nat, count: nat): (k: nat)
    requires count > 0
    ensures k < count
  {
    (i + n) % count
  }

  /** The step of a probe from index i at which queue k is tried. */
  function ProbeStep(i: nat, k: nat, count: nat): (n: nat)
    requires count > 0
    ensures n < count
  {
    (k + count - i % count) % count
  }

  /** A nonzero multiple of c is at least c away from zero. */
  lemma MulAwayFromZero(k: int, c: int)
    requires c > 0
    ensures k >= 1 ==> k * c >= c
    ensures k <= -1 ==> k * c <= -c
  {
  }

  /** Quotient and remainder are unique. */
  lemma DivModUnique(z: nat, q: nat, r: nat, c: nat)
    requires c > 0 && r < c && z == q * c + r
    ensures z % c == r && z / c == q
  {
    var d, m := z / c, z % c;
    assert z == d * c + m;
    assert (d - q) * c == r - m;
    MulAwayFromZero(d - q, c);
  }

  /** Adding a multiple of c does not change the remainder modulo c. */
  lemma ModAddMultiple(x: nat, q: nat, c: nat)
    requires c > 0
    ensures (x + q * c) % c == x % c
  {
    assert x == (x / c) * c + x % c;
    assert x + q * c == (x / c + q) * c + x % c;
    DivModUnique(x + q * c, x / c + q, x % c, c);
  }

  lemma ModOfSmall(x: nat, c: nat)
    requires x < c
    ensures x % c == x
  {
  }

  lemma ModOfWrapped(x: nat, c: nat)
    requires c <= x < 2 * c
    ensures x % c == x - c
  {
    ModAddMultiple(x - c, 1, c);
    ModOfSmall(x - c, c);
  }

  /** (i + n) mod c as the rotation of n by i mod c. */
  lemma ProbeRotates(i: nat, n: nat, count: nat)
    requires count > 0 && n < count
    ensures var a := i % count;
      Probe(i, n, count) == if a + n < count then a + n else a + n - count
  {
    var a := i % count;
    ModAddMultiple(a + n, i / count, count);
    assert i + n == a + n + (i / count) * count;
    if a + n < count {
      ModOfSmall(a + n, count);
    } else {
      ModOfWrapped(a + n, count);
    }
  }

  /**
   * A probe of `count` steps tries every queue exactly once: ProbeStep
   * inverts Probe in both directions.
   */
  lemma ProbeIsPermutation(i: nat, count: nat)
    requires count > 0
    ensures forall n :: 0 <= n < count ==> ProbeStep(i, Probe(i, n, count), count) == n
    ensures forall k :: 0 <= k < count ==> Probe(i, ProbeStep(i, k, count), count) == k
  {
    var a := i % count;
    forall n | 0 <= n < count
      ensures ProbeStep(i, Probe(i, n, count), count) == n
    {
      ProbeRotates(i, n, count);
      var k := Probe(i, n, count);
      if a + n < count {
        ModOfWrapped(k + count - a, count);
      } else {
        ModOfSmall(k + count - a, count);
      }
    }
    forall k | 0 <= k < count
      ensures Probe(i, ProbeStep(i, k, count), count) == k
    {
      var n := ProbeStep(i, k, count);
      if k + count - a < count {
        ModOfSmall(k + count - a, count);
      } else {
        ModOfWrapped(k + count - a, count);
      }
      ProbeRotates(i, n, count);
    }
  }

  /** While i + n does not reach 2^32 the written probe is the intended one. */
  lemma ProbeAgrees(i: nat, n: nat, count: nat)
    requires count > 0 && i + n < Pow32
    ensures ProbeAsWritten(i, n, count) == Probe(i, n, count)
  {
    ModOfSmall(i + n, Pow32);
  }

  /**
   * With 3 core queues and the round-robin index at 2^32 - 1, the written
   * probe tries queue 0 twice and never tries queue 2; the intended probe
   * tries 0, 1, 2.
   */
  lemma ProbeAsWrittenSkipsQueue()
    ensures ProbeAsWritten(Pow32 - 1, 0, 3) == 0
    ensures ProbeAsWritten(Pow32 - 1, 1, 3) == 0
    ensures ProbeAsWritten(Pow32 - 1, 2, 3) == 1
    ensures Probe(Pow32 - 1, 0, 3) == 0 && Probe(Pow32 - 1, 1, 3) == 1 && Probe(Pow32 - 1, 2, 3) == 2
  {
  }

  // ------------------------------------------------- first success in a loop

  /** The position of the first true entry, or |s| when there is none. */
  function FirstTrue(s: seq<bool>): (k: nat)
    ensures k <= |s|
    ensures forall j :: 0 <= j < k ==> !s[j]
    ensures k < |s| ==> s[k]
  {
    if s == [] then 0 else if s[0] then 0 else 1 + FirstTrue(s[1..])
  }

  // ----------------------------------------------------------------- execute

  /**
   * The queue execute pushes to from round-robin index i, where acquired[n]
   * says whether try_push at probe step n got its lock: the queue of the
   * first step that did, or queue i mod count for the blocking push when
   * every step was contended.
   */
  function ExecuteTarget(i: nat, count: nat, acquired: seq<bool>): (k: nat)
    requires count > 0 && |acquired| == count
    ensures k < count
  {
    var n := FirstTrue(acquired);
    if n < count then Probe(i, n, count) else i % count
  }

  /**
   * execute falls back to the blocking push only when try_push was contended
   * on every queue; otherwise its queue is one whose try_push got the lock,
   * and every queue probed before it was contended.
   */
  lemma ExecuteTargetIsFirstAcquired(i: nat, count: nat, acquired: seq<bool>)
    requires count > 0 && |acquired| == count
    ensures FirstTrue(acquired) == count <==> forall k :: 0 <= k < count ==> !acquired[ProbeStep(i, k, count)]
    ensures FirstTrue(acquired) < count ==>
      && acquired[ProbeStep(i, ExecuteTarget(i, count, acquired), count)]
      && forall k :: 0 <= k < count && ProbeStep(i, k, count) < ProbeStep(i, ExecuteTarget(i, count, acquired), count)
           ==> !acquired[ProbeStep(i, k, count)]
  {
    ProbeIsPermutation(i, count);
    var n := FirstTrue(acquired);
    if n < count {
      assert ProbeStep(i, Probe(i, n, count), count) == n;
      assert !acquired[ProbeStep(i, Probe(i, n, count), count)] ==> false;
    }
  }

  // ------------------------------------------------------------------ steal

  /** Probe step n of a steal finds a task: its try_pop got the lock and its queue is not empty. */
  function StealHits(i: nat, count: nat, acquired: seq<bool>, occupied: seq<bool>): (hits: seq<bool>)
    requires count > 0 && |acquired| == count && |occupied| == count
    ensures |hits| == count
    ensures forall n :: 0 <= n < count ==> hits[n] == (acquired[n] && occupied[Probe(i, n, count)])
  {
    seq(count, n requires 0 <= n < count => acquired[n] && occupied[Probe(i, n, count)])
  }

  /**
   * The queue the try_pop loop of a worker with index i takes its task from,
   * where occupied[k] says whether queue k is non-empty: the first queue in
   * probe order that is non-empty and whose lock was acquired, if any.
   */
  function StealSource(i: nat, count: nat, acquired: seq<bool>, occupied: seq<bool>): (source: Option<nat>)
    requires count > 0 && |acquired| == count && |occupied| == count
    ensures source.Some? ==> source.value < count && occupied[source.value]
  {
    var n := FirstTrue(StealHits(i, count, acquired, occupied));
    if n < count then Some(Probe(i, n, count)) else None
  }

  /** The loop's view of StealSource: the first probe step that hits names the source. */
  lemma StealSourceAt(i: nat, count: nat, acquired: seq<bool>, occupied: seq<bool>, n: nat)
    requires count > 0 && |acquired| == count && |occupied| == count && n <= count
    requires forall j :: 0 <= j < n ==> !StealHits(i, count, acquired, occupied)[j]
    requires n < count ==> StealHits(i, count, acquired, occupied)[n]
    ensures StealSource(i, count, acquired, occupied) == if n < count then Some(Probe(i, n, count)) else None
  {
    assert FirstTrue(StealHits(i, count, acquired, occupied)) == n;
  }

  /**
   * A steal finds nothing only when every queue was empty or contended;
   * without contention, exactly when every queue is empty.
   */
  lemma StealMissesOnlyEmptyOrContended(i: nat, count: nat, acquired: seq<bool>, occupied: seq<bool>)
    requires count > 0 && |acquired| == count && |occupied| == count
    ensures StealSource(i, count, acquired, occupied).None? <==>
      forall k :: 0 <= k < count ==> !occupied[k] || !acquired[ProbeStep(i, k, count)]
  {
    ProbeIsPermutation(i, count);
    var hits := StealHits(i, count, acquired, occupied);
    if StealSource(i, count, acquired, occupied).None? {
      forall k | 0 <= k < count
        ensures !occupied[k] || !acquired[ProbeStep(i, k, count)]
      {
        assert !hits[ProbeStep(i, k, count)];
      }
    } else {
      var n := FirstTrue(hits);
      assert hits[n];
      assert ProbeStep(i, Probe(i, n, count), count) == n;
    }
  }

  // ------------------------------------------------------------------- wake

  /** What pool-level wake unparks: a core worker's queue or an expansion thread's gate. */
  datatype WakeTarget = CoreQueue(index: nat) | ExpansionGate(slot: nat)

  /** Entry-wise conjunction. */
  function Both(a: seq<bool>, b: seq<bool>): (r: seq<bool>)
    requires |a| == |b|
    ensures |r| == |a| && forall j :: 0 <= j < |a| ==> r[j] == (a[j] && b[j])
  {
    seq(|a|, j requires 0 <= j < |a| => a[j] && b[j])
  }

  /**
   * What pool-level wake unparks, where queueWakeable[k] says that queue k's
   * wake would succeed and gateWakeable[n] the same of gate n: the first
   * wakeable queue, else the first wakeable gate, else nothing.
   */
  function WakeChoice(queueWakeable: seq<bool>, gateWakeable: seq<bool>): (c: Option<WakeTarget>)
    ensures c.Some? && c.value.CoreQueue? ==> c.value.index < |queueWakeable| && queueWakeable[c.value.index]
    ensures c.Some? && c.value.ExpansionGate? ==> c.value.slot < |gateWakeable| && gateWakeable[c.value.slot]
  {
    var k := FirstTrue(queueWakeable);
    if k < |queueWakeable| then Some(CoreQueue(k))
    else
      var n := FirstTrue(gateWakeable);
      if n < |gateWakeable| then Some(ExpansionGate(n)) else None
  }

  /**
   * Pool-level wake fails only when nothing is wakeable, tries every queue
   * before any gate, and picks the first wakeable one in each group.
   */
  lemma WakeChoiceOrder(queueWakeable: seq<bool>, gateWakeable: seq<bool>)
    ensures WakeChoice(queueWakeable, gateWakeable).None? <==>
      (forall k :: 0 <= k < |queueWakeable| ==> !queueWakeable[k]) &&
      (forall n :: 0 <= n < |gateWakeable| ==> !gateWakeable[n])
    ensures forall k :: 0 <= k < |queueWakeable| && queueWakeable[k] ==>
      WakeChoice(queueWakeable, gateWakeable) == Some(CoreQueue(FirstTrue(queueWakeable)))
    ensures forall n :: 0 <= n < |gateWakeable| && WakeChoice(queueWakeable, gateWakeable) == Some(ExpansionGate(n)) ==>
      (forall k :: 0 <= k < |queueWakeable| ==> !queueWakeable[k]) && (forall m :: 0 <= m < n ==> !gateWakeable[m])
  {
  }
}
