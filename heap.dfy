/** The priority queue itself: a growable storage vector used as a 1-based
    implicit binary tree, the number of live elements, and the comparator
    fixed at construction. */
module BinaryHeap {
  import opened Orders
  import opened HeapShape

  datatype Option<T> = None | Some(value: T)

  class Heap<T(!new)> {
    var count: nat
    var items: seq<T>
    const comparator: (T, T) -> bool

    /** Storage holds the sentinel plus `count` live elements, the comparator is
        a strict weak order, and no live child outranks its parent. */
    ghost predicate Valid()
      reads this
    {
      && |items| == count + 1
      && StrictWeakOrder(comparator)
      && HeapOrdered(comparator, items)
    }

    /** The live elements, in storage order. */
    ghost function Elements(): seq<T>
      reads this
      requires Valid()
    {
      items[1..]
    }

    /** An empty heap: the storage is just the sentinel `default`. */
    constructor (comparator: (T, T) -> bool, default: T)
      requires StrictWeakOrder(comparator)
      ensures Valid()
      ensures this.comparator == comparator
      ensures count == 0 && items == [default]
      ensures Elements() == []
    {
      this.count := 0;
      this.items := [default];
      this.comparator := comparator;
    }

    /** Number of live elements. */
    function Len(): (n: nat)
      reads this
      requires Valid()
      ensures n == |Elements()|
    {
      count
    }

    /** Whether the heap holds no live elements. */
    function IsEmpty(): (b: bool)
      reads this
      requires Valid()
      ensures b <==> Elements() == []
    {
      Len() == 0
    }

    /** Append `value` and bubble it up while it outranks its parent. */
    method Add(value: T)
      requires Valid()
      modifies this
      ensures Valid()
      ensures count == old(count) + 1
      ensures items == Inserted(comparator, old(items), value)
      ensures multiset(Elements()) == multiset(old(Elements())) + multiset{value}
    {
      InsertLeaf(comparator, items, value);
      ghost var start := items + [value];
      items := items + [value];
      count := count + 1;

      var currentIdx := count;
      while currentIdx > 1
        invariant 1 <= currentIdx <= count && |items| == count + 1 && |start| == count + 1
        invariant SiftUp(comparator, items, currentIdx) == SiftUp(comparator, start, count)
        decreases currentIdx
      {
        var parentIdx := ParentIdx(currentIdx);
        if comparator(items[currentIdx], items[parentIdx]) {
          items := Swap(items, currentIdx, parentIdx);
          currentIdx := parentIdx;
        } else {
          break;
        }
      }
    }

    /** Remove and return the root: move the last live element to the root,
        pop the old root off the end, then sink the new root while its
        preferred child outranks it. An empty heap yields `None`. */
    method Next() returns (r: Option<T>)
      requires Valid()
      modifies this
      ensures Valid()
      ensures old(count) == 0 ==> r == None && count == 0 && items == old(items)
      ensures old(count) > 0 ==>
        && r == Some(old(items[1]))
        && count == old(count) - 1
        && items == Removed(comparator, old(items))
      ensures old(count) > 0 ==> multiset(Elements()) + multiset{r.value} == multiset(old(Elements()))
      ensures old(count) > 0 ==> forall e :: e in Elements() ==> !comparator(e, r.value)
    {
      if IsEmpty() {
        return None;
      }
      ExtractRoot(comparator, items);

      items := Swap(items, 1, count);
      var result := Some(items[count]);
      items := items[..count];
      count := count - 1;

      if count <= 1 {
        return result;
      }

      ghost var start := items;
      var currentIdx := 1;
      while ChildrenPresent(count, currentIdx)
        invariant 1 <= currentIdx <= count && |items| == count + 1
        invariant SiftDown(comparator, items, currentIdx) == SiftDown(comparator, start, 1)
        decreases count - currentIdx
      {
        var childToSwapIdx := SmallestChildIdx(comparator, items, count, currentIdx);
        if comparator(items[childToSwapIdx], items[currentIdx]) {
          items := Swap(items, currentIdx, childToSwapIdx);
          currentIdx := childToSwapIdx;
        } else {
          break;
        }
      }

      r := result;
    }
  }

  /** `new_min`: the smallest integer has the highest priority. */
  method NewMin() returns (h: Heap<int>)
    ensures fresh(h) && h.Valid()
    ensures h.comparator == Less && h.count == 0 && h.items == [0]
  {
    LessIsStrictWeakOrder();
    h := new Heap(Less, 0);
  }

  /** `new_max`: the largest integer has the highest priority. */
  method NewMax() returns (h: Heap<int>)
    ensures fresh(h) && h.Valid()
    ensures h.comparator == Greater && h.count == 0 && h.items == [0]
  {
    GreaterIsStrictWeakOrder();
    h := new Heap(Greater, 0);
  }
}
