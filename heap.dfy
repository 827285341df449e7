/**
 * The binary heap that notification_queue keeps in its vector `_q`, ordered by
 * the comparator element_t::greater, which makes the element with the
 * smallest merged key the front of the heap. std::push_heap and std::pop_heap
 * are modelled by their standard contracts, implemented by sift-up and
 * sift-down.
 */
module Heap {

  /** Tasks are opaque; a task is identified by a number. */
  type TaskId = nat

  /** element_t: the merged priority/count key and the task. */
  datatype Element = Element(key: nat, task: TaskId)

  /** element_t::greater: `a` orders after `b` when `b`'s key is smaller. */
  predicate Greater(a: Element, b: Element)
  {
    b.key < a.key
  }

  /**
   * greater is a strict weak ordering, as the heap algorithms require of
   * their comparator: irreflexive, transitive, and with incomparability
   * (equal keys) transitive as well.
   */
  lemma GreaterIsStrictWeakOrder(a: Element, b: Element, c: Element)
    ensures !Greater(a, a)
    ensures Greater(a, b) && Greater(b, c) ==> Greater(a, c)
    ensures !Greater(a, b) && !Greater(b, a) && !Greater(b, c) && !Greater(c, b) ==>
      !Greater(a, c) && !Greater(c, a)
  {
  }

  function Parent(i: nat): nat
    requires i > 0
  {
    (i - 1) / 2
  }

  /** A heap with respect to `greater`: no element is greater than its children. */
  predicate IsHeap(h: seq<Element>)
  {
    forall i :: 0 < i < |h| ==> !Greater(h[Parent(i)], h[i])
  }

  /** The front of a heap has the smallest key. */
  lemma {:induction false} HeapFrontIsLeast(h: seq<Element>, i: nat)
    requires IsHeap(h) && i < |h|
    ensures h[0].key <= h[i].key
    decreases i
  {
    if i > 0 {
      HeapFrontIsLeast(h, Parent(i));
    }
  }

  function Swap(s: seq<Element>, i: nat, j: nat): (r: seq<Element>)
    requires i < |s| && j < |s|
    ensures |r| == |s| && r[i] == s[j] && r[j] == s[i]
    ensures forall k :: 0 <= k < |s| && k != i && k != j ==> r[k] == s[k]
    ensures multiset(r) == multiset(s)
  {
    s[i := s[j]][j := s[i]]
  }

  /** Every parent/child pair satisfies the heap order, except the pairs whose parent is `k`. */
  ghost predicate HeapBelowExcept(h: seq<Element>, k: nat)
  {
    forall i :: 0 < i < |h| && Parent(i) != k ==> !Greater(h[Parent(i)], h[i])
  }

  /** Every parent/child pair satisfies the heap order, except the pair whose child is `k`. */
  ghost predicate HeapAboveExcept(h: seq<Element>, k: nat)
  {
    forall i :: 0 < i < |h| && i != k ==> !Greater(h[Parent(i)], h[i])
  }

  /** The parent of `k` is not greater than the children of `k`. */
  ghost predicate BridgesOver(h: seq<Element>, k: nat)
    requires k < |h|
  {
    k > 0 ==> forall i :: 0 < i < |h| && Parent(i) == k ==> !Greater(h[Parent(k)], h[i])
  }

  /** One sift-up step: swapping a too-small element with its parent moves the defect up. */
  lemma SiftUpStep(h: seq<Element>, k: nat)
    requires 0 < k < |h| && HeapAboveExcept(h, k) && BridgesOver(h, k)
    requires Greater(h[Parent(k)], h[k])
    ensures HeapAboveExcept(Swap(h, Parent(k), k), Parent(k))
    ensures BridgesOver(Swap(h, Parent(k), k), Parent(k))
  {
    var p := Parent(k);
    var r := Swap(h, p, k);
    forall i | 0 < i < |r| && i != p
      ensures !Greater(r[Parent(i)], r[i])
    {
      if i == k {
      } else if Parent(i) == k {
        assert r[Parent(i)] == h[p];
      } else if Parent(i) == p {
        assert !Greater(h[p], h[i]);
      } else if i != p && Parent(i) != p {
      }
    }
    if p > 0 {
      forall i | 0 < i < |r| && Parent(i) == p
        ensures !Greater(r[Parent(p)], r[i])
      {
        assert r[Parent(p)] == h[Parent(p)];
        assert !Greater(h[Parent(p)], h[p]);
        if i != k {
          assert !Greater(h[p], h[i]);
        }
      }
    }
  }

  /**
   * std::push_heap: the last element is added to the heap formed by the
   * others; the result is a heap holding the same elements.
   */
  method PushHeap(h: seq<Element>) returns (r: seq<Element>)
    requires |h| > 0 && IsHeap(h[..|h| - 1])
    ensures IsHeap(r) && multiset(r) == multiset(h)
  {
    r := h;
    var k := |r| - 1;
    assert HeapAboveExcept(r, k) by {
      forall i | 0 < i < |r| && i != k
        ensures !Greater(r[Parent(i)], r[i])
      {
        assert h[..|h| - 1][i] == r[i] && h[..|h| - 1][Parent(i)] == r[Parent(i)];
      }
    }
    while k > 0 && Greater(r[Parent(k)], r[k])
      invariant |r| == |h| && 0 <= k < |r| && multiset(r) == multiset(h)
      invariant HeapAboveExcept(r, k) && BridgesOver(r, k)
    {
      SiftUpStep(r, k);
      r := Swap(r, Parent(k), k);
      k := Parent(k);
    }
  }

  /** One sift-down step: swapping an element with its smaller, smaller-keyed child moves the defect down. */
  lemma SiftDownStep(h: seq<Element>, k: nat, c: nat)
    requires c < |h| && k < c && Parent(c) == k
    requires HeapBelowExcept(h, k) && BridgesOver(h, k)
    requires forall i :: 0 < i < |h| && Parent(i) == k ==> h[c].key <= h[i].key
    requires Greater(h[k], h[c])
    ensures HeapBelowExcept(Swap(h, k, c), c) && BridgesOver(Swap(h, k, c), c)
  {
    var r := Swap(h, k, c);
    forall i | 0 < i < |r| && Parent(i) != c
      ensures !Greater(r[Parent(i)], r[i])
    {
      if i == k {
        assert !Greater(h[Parent(k)], h[c]);
      } else if i == c {
      } else if Parent(i) == k {
        assert h[c].key <= h[i].key;
      } else {
        assert Parent(i) != k;
      }
    }
    forall i | 0 < i < |r| && Parent(i) == c
      ensures !Greater(r[Parent(c)], r[i])
    {
      assert !Greater(h[c], h[i]);
    }
  }

  /** Once no child of `k` is smaller than `k`, the defect is gone. */
  lemma SettledIsHeap(h: seq<Element>, k: nat)
    requires HeapBelowExcept(h, k)
    requires forall i :: 0 < i < |h| && Parent(i) == k ==> !Greater(h[k], h[i])
    ensures IsHeap(h)
  {
  }

  /**
   * Sift-down from the front of a sequence that is a heap everywhere except
   * possibly between the front and its children.
   */
  method SiftDown(h: seq<Element>) returns (r: seq<Element>)
    requires HeapBelowExcept(h, 0)
    ensures |r| == |h| && IsHeap(r) && multiset(r) == multiset(h)
  {
    r := h;
    var k := 0;
    while 2 * k + 1 < |r|
      invariant |r| == |h| && multiset(r) == multiset(h)
      invariant k == 0 || k < |r|
      invariant HeapBelowExcept(r, k)
      invariant k < |r| ==> BridgesOver(r, k)
      decreases |r| - k
    {
      var c := SmallerChild(r, k);
      if !Greater(r[k], r[c]) {
        SettledIsHeap(r, k);
        return;
      }
      SiftDownStep(r, k, c);
      r := Swap(r, k, c);
      k := c;
    }
    ChildrenOf(|r|, k);
    SettledIsHeap(r, k);
  }

  /** The child of `k` that sift-down swaps with: the one with the smaller key, the left one on a tie. */
  function SmallerChild(h: seq<Element>, k: nat): (c: nat)
    requires 2 * k + 1 < |h|
    ensures c < |h| && k < c && Parent(c) == k
    ensures forall i :: 0 < i < |h| && Parent(i) == k ==> h[c].key <= h[i].key
  {
    ChildrenOf(|h|, k);
    if 2 * k + 2 < |h| && Greater(h[2 * k + 1], h[2 * k + 2]) then 2 * k + 2 else 2 * k + 1
  }

  /** The only positions whose parent is `k` are 2k+1 and 2k+2. */
  lemma ChildrenOf(n: nat, k: nat)
    ensures forall i :: 0 < i < n && Parent(i) == k ==> i == 2 * k + 1 || i == 2 * k + 2
  {
  }

  /**
   * std::pop_heap: the front moves to the last position and the elements
   * before it form a heap again; the elements are the same.
   */
  method PopHeap(h: seq<Element>) returns (r: seq<Element>)
    requires |h| > 0 && IsHeap(h)
    ensures |r| == |h| && r[|h| - 1] == h[0]
    ensures IsHeap(r[..|h| - 1]) && multiset(r) == multiset(h)
  {
    var n := |h| - 1;
    var swapped := Swap(h, 0, n);
    assert swapped == swapped[..n] + [h[0]];
    var front := SiftDown(swapped[..n]);
    r := front + [h[0]];
    assert r[..n] == front;
  }
}
