/** The binary heap of delayed retries (`PriorityQueue.ts`): the least key, the earliest time, comes first. */
module PriorityQueues {
  import opened Wrappers

  datatype QueueNode<T> = QueueNode(key: int, value: T)

  function Parent(i: nat): nat
    requires i > 0
  {
    (i - 1) / 2
  }

  ghost predicate AboveParent<T>(h: seq<QueueNode<T>>, i: nat)
    requires 0 < i < |h|
  {
    h[Parent(i)].key <= h[i].key
  }

  ghost predicate IsHeap<T>(h: seq<QueueNode<T>>) {
    forall i: nat :: 0 < i < |h| ==> AboveParent(h, i)
  }

  function Swapped<T>(h: seq<T>, a: nat, b: nat): (r: seq<T>)
    requires a < |h| && b < |h|
    ensures |r| == |h|
  {
    h[a := h[b]][b := h[a]]
  }

  lemma SwapKeepsItems<T>(h: seq<T>, a: nat, b: nat)
    requires a < |h| && b < |h|
    ensures multiset(Swapped(h, a, b)) == multiset(h)
  {}

  // ---------- going up ----------

  ghost predicate FitsBelow<T>(h: seq<QueueNode<T>>, k: nat, i: nat)
    requires 0 < k < |h| && 0 < i < |h|
  {
    Parent(i) == k ==> h[Parent(k)].key <= h[i].key
  }

  /** A heap but for node `k`, which may be smaller than its parent; its children are not. */
  ghost predicate HeapUpTo<T>(h: seq<QueueNode<T>>, k: nat)
    requires k < |h|
  {
    && (forall i: nat :: 0 < i < |h| && i != k ==> AboveParent(h, i))
    && (k > 0 ==> forall i: nat :: 0 < i < |h| ==> FitsBelow(h, k, i))
  }

  lemma StepUp<T>(h: seq<QueueNode<T>>, k: nat)
    requires 0 < k < |h| && HeapUpTo(h, k) && h[Parent(k)].key >= h[k].key
    ensures HeapUpTo(Swapped(h, k, Parent(k)), Parent(k))
  {
    var p := Parent(k);
    var s := Swapped(h, k, p);
    forall i: nat | 0 < i < |s| && i != p ensures AboveParent(s, i) {
      if i != k {
        assert AboveParent(h, i);
        assert FitsBelow(h, k, i);
      }
    }
    if p > 0 {
      assert AboveParent(h, p);
      forall i: nat | 0 < i < |s| ensures FitsBelow(s, p, i) {
        if i != p && i != k { assert AboveParent(h, i); }
      }
    }
  }

  // ---------- going down ----------

  ghost predicate FitsAbove<T>(h: seq<QueueNode<T>>, k: nat, i: nat)
    requires 0 < i < |h|
  {
    Parent(i) == k && k > 0 ==> h[Parent(k)].key <= h[i].key
  }

  /** A heap but for node `k`, which may be larger than its children. */
  ghost predicate HeapDownTo<T>(h: seq<QueueNode<T>>, k: nat) {
    && (forall i: nat :: 0 < i < |h| && Parent(i) != k ==> AboveParent(h, i))
    && (forall i: nat :: 0 < i < |h| ==> FitsAbove(h, k, i))
  }

  function SmallerChild<T>(h: seq<QueueNode<T>>, k: nat): (c: nat)
    requires 2 * k + 1 < |h|
    ensures k < c < |h| && Parent(c) == k
  {
    if 2 * k + 2 < |h| && h[2 * k + 2].key < h[2 * k + 1].key then 2 * k + 2 else 2 * k + 1
  }

  lemma SmallerChildLeast<T>(h: seq<QueueNode<T>>, k: nat, i: nat)
    requires 2 * k + 1 < |h| && 0 < i < |h| && Parent(i) == k
    ensures h[SmallerChild(h, k)].key <= h[i].key
  {
    assert i == 2 * k + 1 || i == 2 * k + 2;
  }

  lemma StepDown<T>(h: seq<QueueNode<T>>, k: nat)
    requires 2 * k + 1 < |h| && HeapDownTo(h, k) && h[SmallerChild(h, k)].key <= h[k].key
    ensures HeapDownTo(Swapped(h, k, SmallerChild(h, k)), SmallerChild(h, k))
  {
    var c := SmallerChild(h, k);
    var s := Swapped(h, k, c);
    forall i: nat | 0 < i < |s| && Parent(i) != c ensures AboveParent(s, i) {
      if Parent(i) == k {
        SmallerChildLeast(h, k, i);
      } else if i == k {
        assert FitsAbove(h, k, c);
      } else {
        assert AboveParent(h, i);
      }
    }
    forall i: nat | 0 < i < |s| ensures FitsAbove(s, c, i) {
      if Parent(i) == c { assert AboveParent(h, i); }
    }
  }

  lemma DoneDown<T>(h: seq<QueueNode<T>>, k: nat)
    requires HeapDownTo(h, k)
    requires 2 * k + 1 < |h| ==> h[SmallerChild(h, k)].key >= h[k].key
    ensures IsHeap(h)
  {
    forall i: nat | 0 < i < |h| ensures AboveParent(h, i) {
      if Parent(i) == k { SmallerChildLeast(h, k, i); }
    }
  }

  /** The last node moved to the root leaves a heap except for the root. */
  lemma LastToRoot<T>(h: seq<QueueNode<T>>)
    requires IsHeap(h) && h != []
    ensures var s := Swapped(h, 0, |h| - 1)[..|h| - 1];
            HeapDownTo(s, 0) && multiset(h) == multiset(s) + multiset{h[0]}
  {
    var swapped := Swapped(h, 0, |h| - 1);
    var s := swapped[..|h| - 1];
    assert swapped == s + [h[0]];
    SwapKeepsItems(h, 0, |h| - 1);
    forall i: nat | 0 < i < |s| && Parent(i) != 0 ensures AboveParent(s, i) {
      assert AboveParent(h, i);
    }
  }

  /** The node at the root of a heap has the least key of all. */
  lemma {:induction false} RootIsLeast<T>(h: seq<QueueNode<T>>, i: nat)
    requires IsHeap(h) && i < |h|
    ensures h[0].key <= h[i].key
    decreases i
  {
    if i > 0 {
      assert AboveParent(h, i);
      RootIsLeast(h, Parent(i));
    }
  }

  class PriorityQueue<T(==)> {
    var heap: seq<QueueNode<T>>

    ghost predicate Valid()
      reads this
    {
      IsHeap(heap)
    }

    constructor ()
      ensures Valid() && heap == []
    {
      heap := [];
    }

    function Length(): nat
      reads this
    {
      |heap|
    }

    function PeekKey(): Option<int>
      reads this
    {
      if heap == [] then None else Some(heap[0].key)
    }

    function Peek(): Option<T>
      reads this
    {
      if heap == [] then None else Some(heap[0].value)
    }

    method Push(item: T, priority: int)
      requires Valid()
      modifies this
      ensures Valid()
      ensures multiset(heap) == old(multiset(heap)) + multiset{QueueNode(priority, item)}
    {
      heap := heap + [QueueNode(priority, item)];
      var addedIndex := |heap| - 1;
      forall i: nat | 0 < i < |heap| && i != addedIndex ensures AboveParent(heap, i) {
        assert AboveParent(old(heap), i);
      }
      while addedIndex > 0
        invariant 0 <= addedIndex < |heap|
        invariant HeapUpTo(heap, addedIndex)
        invariant multiset(heap) == old(multiset(heap)) + multiset{QueueNode(priority, item)}
      {
        var parentIndex := Parent(addedIndex);
        if heap[parentIndex].key < heap[addedIndex].key {
          assert AboveParent(heap, addedIndex);
          break;
        }
        StepUp(heap, addedIndex);
        SwapKeepsItems(heap, addedIndex, parentIndex);
        heap := Swapped(heap, addedIndex, parentIndex);
        addedIndex := parentIndex;
      }
    }

    /** Removes the node with the least key, the one `Peek` and `PeekKey` show. */
    method Pop() returns (r: Option<T>)
      requires Valid()
      modifies this
      ensures Valid()
      ensures r == old(Peek())
      ensures old(heap) == [] ==> heap == []
      ensures old(heap) != [] ==> multiset(heap) + multiset{old(heap)[0]} == old(multiset(heap))
      ensures forall n :: n in multiset(old(heap)) ==> old(heap)[0].key <= n.key
    {
      if heap == [] {
        return None;
      }
      forall n | n in multiset(heap) ensures heap[0].key <= n.key {
        var i :| 0 <= i < |heap| && heap[i] == n;
        RootIsLeast(heap, i);
      }
      LastToRoot(heap);
      var item := heap[0];
      heap := Swapped(heap, 0, |heap| - 1)[..|heap| - 1];
      var current := 0;
      while 2 * current + 1 < |heap|
        invariant HeapDownTo(heap, current)
        invariant multiset(heap) + multiset{old(heap)[0]} == old(multiset(heap))
        decreases |heap| - current
      {
        var smallerChild := SmallerChild(heap, current);
        if heap[smallerChild].key > heap[current].key {
          break;
        }
        StepDown(heap, current);
        SwapKeepsItems(heap, current, smallerChild);
        heap := Swapped(heap, current, smallerChild);
        current := smallerChild;
      }
      DoneDown(heap, current);
      return Some(item.value);
    }
  }
}
