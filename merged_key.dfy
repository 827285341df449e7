/**
 * The merged heap key of notification_queue: a 2-bit priority in the two most
 * significant bits of a 64-bit std::size_t, the per-queue insertion count in
 * the remaining 62 bits, combined with a bitwise OR.
 */
module MergedKey {

  /** 2^62: the weight of the lowest priority bit. */
  const Pow62: nat := 0x4000_0000_0000_0000
  /** 2^64: one past the largest std::size_t. */
  const Pow64: nat := 0x1_0000_0000_0000_0000

  /** Bitwise OR of two 2-bit values. */
  function Or2(a: nat, b: nat): (r: nat)
    requires a < 4 && b < 4
    ensures r < 4
    ensures b == 0 ==> r == a
  {
    (if a % 2 == 1 || b % 2 == 1 then 1 else 0) + (if a / 2 == 1 || b / 2 == 1 then 2 else 0)
  }

  /** The priority stored in the top two bits of a key. */
  function KeyPriority(key: nat): nat { key / Pow62 }

  /** The insertion count stored in the low 62 bits of a key. */
  function KeyCount(key: nat): nat { key % Pow62 }

  /**
   * merge_priority_count: `(priority << 62) | count` on a 64-bit size_t.
   * The top two bits of the result are the OR of the priority and the top two
   * bits of the count; the low 62 bits are those of the count.
   */
  function MergePriorityCount(priority: nat, count: nat): (key: nat)
    requires priority < 4 && count < Pow64
    ensures key < Pow64
  {
    Or2(priority, count / Pow62) * Pow62 + count % Pow62
  }

  /** For counts below 2^62 the OR does not mix the fields: the key is p * 2^62 + c. */
  lemma MergeIsSum(p: nat, c: nat)
    requires p < 4 && c < Pow62
    ensures MergePriorityCount(p, c) == p * Pow62 + c
  {
  }

  /** For counts below 2^62 the key's top two bits are the priority and its low 62 bits the count. */
  lemma MergeFields(p: nat, c: nat)
    requires p < 4 && c < Pow62
    ensures KeyPriority(MergePriorityCount(p, c)) == p && KeyCount(MergePriorityCount(p, c)) == c
  {
    MergeIsSum(p, c);
    if p == 0 {
    } else if p == 1 {
    } else if p == 2 {
    } else {
    }
  }

  /**
   * For counts below 2^62 the merged key orders lexicographically: first by
   * priority, then by insertion count.
   */
  lemma MergeOrder(p1: nat, c1: nat, p2: nat, c2: nat)
    requires p1 < 4 && p2 < 4 && c1 < Pow62 && c2 < Pow62
    ensures MergePriorityCount(p1, c1) < MergePriorityCount(p2, c2)
            <==> p1 < p2 || (p1 == p2 && c1 < c2)
  {
    MergeIsSum(p1, c1);
    MergeIsSum(p2, c2);
  }

  /**
   * Any key no larger than another has no larger priority field and, when
   * the priorities agree, no larger count field: the numeric order of keys
   * is lexicographic in (priority, count).
   */
  lemma KeyOrderIsLexicographic(a: nat, b: nat)
    requires a <= b
    ensures KeyPriority(a) <= KeyPriority(b)
    ensures KeyPriority(a) == KeyPriority(b) ==> KeyCount(a) <= KeyCount(b)
  {
  }

  /**
   * Keys of two different (priority, count) pairs with counts below 2^62 differ.
   */
  lemma MergeInjective(p1: nat, c1: nat, p2: nat, c2: nat)
    requires p1 < 4 && p2 < 4 && c1 < Pow62 && c2 < Pow62
    requires MergePriorityCount(p1, c1) == MergePriorityCount(p2, c2)
    ensures p1 == p2 && c1 == c2
  {
    MergeFields(p1, c1);
    MergeFields(p2, c2);
  }

  /**
   * Once the count reaches 2^62 it spills into the priority bits: the
   * 2^62-th element pushed with priority 0 gets the same key as the first
   * element pushed with priority 1, and a later priority-0 element orders
   * after a priority-1 one.
   */
  lemma CountSpillsIntoPriority()
    ensures MergePriorityCount(0, Pow62) == MergePriorityCount(1, 0)
    ensures MergePriorityCount(1, 5) < MergePriorityCount(0, 2 * Pow62)
  {
  }
}
