/** The implicit binary tree behind the heap, as values.
    Storage is a sequence whose slot 0 is an unused sentinel and whose slots
    1..count hold the live elements; the node at index i has its children at
    2i and 2i+1 and its parent at i/2. The helpers here read nothing but
    their arguments: the heap passes its own `count` and `items`. */
module HeapShape {
  import opened Orders

  /** Index of the parent of `idx`: the node whose two children span `idx`. */
  function ParentIdx(idx: nat): (p: nat)
    ensures 2 * p <= idx <= 2 * p + 1
    ensures idx >= 2 ==> 1 <= p < idx
  {
    idx / 2
  }

  /** Index of the left child of `idx`: an even index whose parent is `idx`. */
  function LeftChildIdx(idx: nat): (c: nat)
    ensures ParentIdx(c) == idx && c % 2 == 0
  {
    idx * 2
  }

  /** Index of the right child of `idx`: the slot after the left child, with the same parent. */
  function RightChildIdx(idx: nat): (c: nat)
    ensures ParentIdx(c) == idx && c == LeftChildIdx(idx) + 1
  {
    LeftChildIdx(idx) + 1
  }

  /** Whether node `idx` of a heap with `count` live elements has a live child. */
  function ChildrenPresent(count: nat, idx: nat): (b: bool)
    ensures idx >= 1 ==> (b <==> exists c :: 1 <= c <= count && ParentIdx(c) == idx)
  {
    var present := LeftChildIdx(idx) <= count;
    assert idx >= 1 && present ==> 1 <= LeftChildIdx(idx) <= count && ParentIdx(LeftChildIdx(idx)) == idx;
    present
  }

  /** The child of `idx` that sift-down would move up: the right child exactly when
      it is live and outranks the left one, the left child otherwise. Whenever `idx`
      has a live child the result is live, and under a strict weak order no live
      child of `idx` outranks it. */
  function SmallestChildIdx<T(!new)>(outranks: (T, T) -> bool, items: seq<T>, count: nat, idx: nat): (r: nat)
    requires count < |items|
    ensures r == LeftChildIdx(idx) || r == RightChildIdx(idx)
    ensures ChildrenPresent(count, idx) ==> r <= count
    ensures r == RightChildIdx(idx) <==>
      RightChildIdx(idx) <= count && outranks(items[RightChildIdx(idx)], items[LeftChildIdx(idx)])
    ensures StrictWeakOrder(outranks) && ChildrenPresent(count, idx) ==>
      && !outranks(items[LeftChildIdx(idx)], items[r])
      && (RightChildIdx(idx) <= count ==> !outranks(items[RightChildIdx(idx)], items[r]))
  {
    var leftIdx := LeftChildIdx(idx);
    var rightIdx := RightChildIdx(idx);
    if rightIdx <= count then
      if outranks(items[rightIdx], items[leftIdx]) then rightIdx else leftIdx
    else
      leftIdx
  }

  /** Exchange of two slots, as the storage vector's swap does it. */
  function Swap<T>(s: seq<T>, i: nat, j: nat): (r: seq<T>)
    requires i < |s| && j < |s|
    ensures |r| == |s| && r[i] == s[j] && r[j] == s[i]
    ensures forall k :: 0 <= k < |s| && k != i && k != j ==> r[k] == s[k]
  {
    s[i := s[j]][j := s[i]]
  }

  /** Heap order: no live child outranks its parent. */
  ghost predicate HeapOrdered<T>(outranks: (T, T) -> bool, s: seq<T>) {
    forall i :: 2 <= i < |s| ==> !outranks(s[i], s[ParentIdx(i)])
  }

  /** Heap order everywhere except, possibly, between `k` and its parent (sift-up's state). */
  ghost predicate OrderedExceptAbove<T>(outranks: (T, T) -> bool, s: seq<T>, k: nat) {
    forall i :: 2 <= i < |s| && i != k ==> !outranks(s[i], s[ParentIdx(i)])
  }

  /** Heap order everywhere except, possibly, between `k` and its children (sift-down's state). */
  ghost predicate OrderedExceptBelow<T>(outranks: (T, T) -> bool, s: seq<T>, k: nat) {
    forall i :: 2 <= i < |s| && ParentIdx(i) != k ==> !outranks(s[i], s[ParentIdx(i)])
  }

  /** The children of `k` do not outrank the parent of `k`, so `k`'s slot may be bypassed. */
  ghost predicate ChildrenDefer<T>(outranks: (T, T) -> bool, s: seq<T>, k: nat) {
    k >= 2 ==>
      && (LeftChildIdx(k) < |s| ==> !outranks(s[LeftChildIdx(k)], s[ParentIdx(k)]))
      && (RightChildIdx(k) < |s| ==> !outranks(s[RightChildIdx(k)], s[ParentIdx(k)]))
  }

  /** Bubble the element at `k` towards the root while it outranks its parent. */
  function SiftUp<T>(outranks: (T, T) -> bool, s: seq<T>, k: nat): (r: seq<T>)
    requires 1 <= k < |s|
    ensures |r| == |s| && r[0] == s[0]
    decreases k
  {
    if k <= 1 then s
    else
      var p := ParentIdx(k);
      if outranks(s[k], s[p]) then SiftUp(outranks, Swap(s, k, p), p) else s
  }

  /** Sink the element at `k` while its preferred child outranks it; the live
      elements are the slots 1..|s|-1. */
  function SiftDown<T(!new)>(outranks: (T, T) -> bool, s: seq<T>, k: nat): (r: seq<T>)
    requires 1 <= k && 1 <= |s|
    ensures |r| == |s| && r[0] == s[0]
    decreases |s| - k
  {
    if !ChildrenPresent(|s| - 1, k) then s
    else
      var c := SmallestChildIdx(outranks, s, |s| - 1, k);
      if outranks(s[c], s[k]) then SiftDown(outranks, Swap(s, k, c), c) else s
  }

  /** Storage after `add(value)`: the value appended as a new leaf, then bubbled up. */
  function Inserted<T>(outranks: (T, T) -> bool, s: seq<T>, value: T): (r: seq<T>)
    requires 1 <= |s|
    ensures |r| == |s| + 1 && r[0] == s[0]
  {
    SiftUp(outranks, s + [value], |s|)
  }

  /** Storage after `next` on a non-empty heap: the last live element swapped into
      the root, the old root popped off the end, the new root sunk. */
  function Removed<T(!new)>(outranks: (T, T) -> bool, s: seq<T>): (r: seq<T>)
    requires 2 <= |s|
    ensures |r| == |s| - 1 && r[0] == s[0]
  {
    SiftDown(outranks, Swap(s, 1, |s| - 1)[..|s| - 1], 1)
  }

  /** Swapping two slots permutes the storage. */
  lemma SwapPermutes<T>(s: seq<T>, i: nat, j: nat)
    requires i < |s| && j < |s|
    ensures multiset(Swap(s, i, j)) == multiset(s)
  {
  }

  /** Sift-up only swaps, so it permutes the storage. */
  lemma {:induction false} SiftUpPermutes<T>(outranks: (T, T) -> bool, s: seq<T>, k: nat)
    requires 1 <= k < |s|
    ensures multiset(SiftUp(outranks, s, k)) == multiset(s)
    decreases k
  {
    if k > 1 {
      var p := ParentIdx(k);
      if outranks(s[k], s[p]) {
        SwapPermutes(s, k, p);
        SiftUpPermutes(outranks, Swap(s, k, p), p);
      }
    }
  }

  /** Sift-down only swaps, so it permutes the storage. */
  lemma {:induction false} SiftDownPermutes<T(!new)>(outranks: (T, T) -> bool, s: seq<T>, k: nat)
    requires 1 <= k && 1 <= |s|
    ensures multiset(SiftDown(outranks, s, k)) == multiset(s)
    decreases |s| - k
  {
    if ChildrenPresent(|s| - 1, k) {
      var c := SmallestChildIdx(outranks, s, |s| - 1, k);
      if outranks(s[c], s[k]) {
        SwapPermutes(s, k, c);
        SiftDownPermutes(outranks, Swap(s, k, c), c);
      }
    }
  }

  /** Sift-up turns the state "ordered except above k, k's children defer" into a heap. */
  lemma {:induction false} SiftUpRestoresOrder<T(!new)>(outranks: (T, T) -> bool, s: seq<T>, k: nat)
    requires StrictWeakOrder(outranks)
    requires 1 <= k < |s|
    requires OrderedExceptAbove(outranks, s, k) && ChildrenDefer(outranks, s, k)
    ensures HeapOrdered(outranks, SiftUp(outranks, s, k))
    decreases k
  {
    if k > 1 {
      var p := ParentIdx(k);
      if outranks(s[k], s[p]) {
        var t := Swap(s, k, p);
        forall i | 2 <= i < |t| && i != p
          ensures !outranks(t[i], t[ParentIdx(i)])
        {
          SwapStepUp(outranks, s, k, i);
        }
        SwapStepUpDefer(outranks, s, k);
        SiftUpRestoresOrder(outranks, t, p);
      }
    }
  }

  /** One bubbling swap keeps every link except the one above the parent. */
  lemma SwapStepUp<T(!new)>(outranks: (T, T) -> bool, s: seq<T>, k: nat, i: nat)
    requires StrictWeakOrder(outranks)
    requires 2 <= k < |s| && outranks(s[k], s[ParentIdx(k)])
    requires OrderedExceptAbove(outranks, s, k) && ChildrenDefer(outranks, s, k)
    requires 2 <= i < |s| && i != ParentIdx(k)
    ensures var t := Swap(s, k, ParentIdx(k)); !outranks(t[i], t[ParentIdx(i)])
  {
    var p := ParentIdx(k);
    var t := Swap(s, k, p);
    if i == k {
      // the old parent now sits below the element that outranked it
      assert t[i] == s[p] && t[ParentIdx(i)] == s[k];
    } else if ParentIdx(i) == k {
      // a child of k now sits below k's old parent
      assert i == LeftChildIdx(k) || i == RightChildIdx(k);
    } else if ParentIdx(i) == p {
      // k's sibling now sits below the element that outranked their parent
      assert !outranks(s[i], s[p]) && t[ParentIdx(i)] == s[k];
    } else {
      assert t[i] == s[i] && t[ParentIdx(i)] == s[ParentIdx(i)];
    }
  }

  /** After a bubbling swap the children of the parent slot defer to the grandparent. */
  lemma SwapStepUpDefer<T(!new)>(outranks: (T, T) -> bool, s: seq<T>, k: nat)
    requires StrictWeakOrder(outranks)
    requires 2 <= k < |s| && outranks(s[k], s[ParentIdx(k)])
    requires OrderedExceptAbove(outranks, s, k)
    ensures ChildrenDefer(outranks, Swap(s, k, ParentIdx(k)), ParentIdx(k))
  {
    var p := ParentIdx(k);
    var t := Swap(s, k, p);
    if p >= 2 {
      var g := ParentIdx(p);
      assert !outranks(s[p], s[g]);
      forall c | c == LeftChildIdx(p) || c == RightChildIdx(p)
        ensures c < |t| ==> !outranks(t[c], t[g])
      {
        if c < |t| {
          if c == k {
            assert t[c] == s[p];
          } else {
            assert t[c] == s[c] && !outranks(s[c], s[p]);
          }
        }
      }
    }
  }

  /** Sift-down turns the state "ordered except below k, k's children defer" into a heap. */
  lemma {:induction false} SiftDownRestoresOrder<T(!new)>(outranks: (T, T) -> bool, s: seq<T>, k: nat)
    requires StrictWeakOrder(outranks)
    requires 1 <= k && 1 <= |s|
    requires OrderedExceptBelow(outranks, s, k) && ChildrenDefer(outranks, s, k)
    ensures HeapOrdered(outranks, SiftDown(outranks, s, k))
    decreases |s| - k
  {
    var n := |s| - 1;
    if !ChildrenPresent(n, k) {
      forall i | 2 <= i < |s|
        ensures !outranks(s[i], s[ParentIdx(i)])
      {
        assert ParentIdx(i) != k;
      }
    } else {
      var c := SmallestChildIdx(outranks, s, n, k);
      if outranks(s[c], s[k]) {
        var t := Swap(s, k, c);
        forall i | 2 <= i < |t| && ParentIdx(i) != c
          ensures !outranks(t[i], t[ParentIdx(i)])
        {
          SwapStepDown(outranks, s, k, i);
        }
        SwapStepDownDefer(outranks, s, k);
        SiftDownRestoresOrder(outranks, t, c);
      } else {
        // neither child outranks the preferred one, which does not outrank k
        forall i | 2 <= i < |s|
          ensures !outranks(s[i], s[ParentIdx(i)])
        {
          if ParentIdx(i) == k {
            assert i == LeftChildIdx(k) || i == RightChildIdx(k);
            assert !outranks(s[i], s[c]);
          }
        }
      }
    }
  }

  /** One sinking swap keeps every link except those below the preferred child. */
  lemma SwapStepDown<T(!new)>(outranks: (T, T) -> bool, s: seq<T>, k: nat, i: nat)
    requires StrictWeakOrder(outranks)
    requires 1 <= k < |s| && ChildrenPresent(|s| - 1, k)
    requires outranks(s[SmallestChildIdx(outranks, s, |s| - 1, k)], s[k])
    requires OrderedExceptBelow(outranks, s, k) && ChildrenDefer(outranks, s, k)
    requires 2 <= i < |s| && ParentIdx(i) != SmallestChildIdx(outranks, s, |s| - 1, k)
    ensures var t := Swap(s, k, SmallestChildIdx(outranks, s, |s| - 1, k)); !outranks(t[i], t[ParentIdx(i)])
  {
    var c := SmallestChildIdx(outranks, s, |s| - 1, k);
    var t := Swap(s, k, c);
    if i == c {
      // k's old element now sits below the child that outranked it
      assert t[i] == s[k] && t[ParentIdx(i)] == s[c];
    } else if i == k {
      // the preferred child now sits below k's parent
      assert t[i] == s[c] && t[ParentIdx(i)] == s[ParentIdx(k)];
      assert c == LeftChildIdx(k) || c == RightChildIdx(k);
    } else if ParentIdx(i) == k {
      // the other child now sits below the preferred one
      assert i == LeftChildIdx(k) || i == RightChildIdx(k);
      assert t[i] == s[i] && t[ParentIdx(i)] == s[c];
    } else {
      assert t[i] == s[i] && t[ParentIdx(i)] == s[ParentIdx(i)];
    }
  }

  /** After a sinking swap the grandchildren of k defer to the element moved up into k. */
  lemma SwapStepDownDefer<T(!new)>(outranks: (T, T) -> bool, s: seq<T>, k: nat)
    requires StrictWeakOrder(outranks)
    requires 1 <= k < |s| && ChildrenPresent(|s| - 1, k)
    requires OrderedExceptBelow(outranks, s, k)
    ensures var c := SmallestChildIdx(outranks, s, |s| - 1, k);
      ChildrenDefer(outranks, Swap(s, k, c), c)
  {
    var c := SmallestChildIdx(outranks, s, |s| - 1, k);
    var t := Swap(s, k, c);
    forall g | g == LeftChildIdx(c) || g == RightChildIdx(c)
      ensures g < |t| ==> !outranks(t[g], t[ParentIdx(c)])
    {
      if g < |t| {
        assert t[g] == s[g] && t[ParentIdx(c)] == s[c];
        assert ParentIdx(g) == c;
      }
    }
  }

  /** In a heap, no live element outranks the root. */
  lemma {:induction false} RootNotOutranked<T(!new)>(outranks: (T, T) -> bool, s: seq<T>, i: nat)
    requires StrictWeakOrder(outranks)
    requires HeapOrdered(outranks, s)
    requires 1 <= i < |s|
    ensures !outranks(s[i], s[1])
    decreases i
  {
    if i >= 2 {
      RootNotOutranked(outranks, s, ParentIdx(i));
    }
  }

  /** Rearranging storage without touching the sentinel keeps the live elements. */
  lemma SameLiveElements<T>(s: seq<T>, t: seq<T>)
    requires 1 <= |s| && 1 <= |t| && t[0] == s[0] && multiset(t) == multiset(s)
    ensures multiset(t[1..]) == multiset(s[1..])
  {
    assert s == [s[0]] + s[1..];
    assert t == [t[0]] + t[1..];
    assert multiset(s[1..]) == multiset(s) - multiset{s[0]};
    assert multiset(t[1..]) == multiset(t) - multiset{t[0]};
  }

  /** Appending a leaf adds it to the live elements. */
  lemma AppendLiveElement<T>(s: seq<T>, value: T)
    requires 1 <= |s|
    ensures multiset((s + [value])[1..]) == multiset(s[1..]) + multiset{value}
  {
    assert (s + [value])[1..] == s[1..] + [value];
  }

  /** Popping the last slot removes it from the live elements. */
  lemma PopLiveElement<T>(s: seq<T>)
    requires 2 <= |s|
    ensures multiset(s[..|s| - 1][1..]) + multiset{s[|s| - 1]} == multiset(s[1..])
  {
    assert s[1..] == s[..|s| - 1][1..] + [s[|s| - 1]];
  }

  /** Moving the last live element to the root and popping the old root off
      the end breaks heap order at most below the root. */
  lemma PopRootState<T>(outranks: (T, T) -> bool, s: seq<T>)
    requires HeapOrdered(outranks, s) && 2 <= |s|
    ensures var start := Swap(s, 1, |s| - 1)[..|s| - 1];
      OrderedExceptBelow(outranks, start, 1) && ChildrenDefer(outranks, start, 1)
  {
    var start := Swap(s, 1, |s| - 1)[..|s| - 1];
    forall i | 2 <= i < |start| && ParentIdx(i) != 1
      ensures !outranks(start[i], start[ParentIdx(i)])
    {
      assert start[i] == s[i] && start[ParentIdx(i)] == s[ParentIdx(i)];
    }
  }

  /** Taking the root out of a heap — last live element moved to the root, the old
      root popped off the end, the new root sunk — leaves a heap of the other
      elements, none of which outranks the root that was taken. */
  lemma ExtractRoot<T(!new)>(outranks: (T, T) -> bool, s: seq<T>)
    requires StrictWeakOrder(outranks)
    requires HeapOrdered(outranks, s) && 2 <= |s|
    ensures var rest := Removed(outranks, s);
      && HeapOrdered(outranks, rest)
      && multiset(rest[1..]) + multiset{s[1]} == multiset(s[1..])
      && forall e :: e in rest[1..] ==> !outranks(e, s[1])
  {
    var n := |s| - 1;
    var swapped := Swap(s, 1, n);
    var start := swapped[..n];
    PopRootState(outranks, s);
    SiftDownRestoresOrder(outranks, start, 1);
    var rest := SiftDown(outranks, start, 1);
    SwapPermutes(s, 1, n);
    SiftDownPermutes(outranks, start, 1);
    SameLiveElements(s, swapped);
    PopLiveElement(swapped);
    SameLiveElements(start, rest);
    forall e | e in rest[1..]
      ensures !outranks(e, s[1])
    {
      assert e in multiset(s[1..]);
      var j :| 1 <= j < |s| && s[j] == e;
      RootNotOutranked(outranks, s, j);
    }
  }

  /** Inserting a value — appended as a new leaf and bubbled up — into a heap
      gives a heap holding the old live elements and the value. */
  lemma InsertLeaf<T(!new)>(outranks: (T, T) -> bool, s: seq<T>, value: T)
    requires StrictWeakOrder(outranks)
    requires HeapOrdered(outranks, s) && 1 <= |s|
    ensures var grown := Inserted(outranks, s, value);
      && HeapOrdered(outranks, grown)
      && multiset(grown[1..]) == multiset(s[1..]) + multiset{value}
  {
    var start := s + [value];
    SiftUpRestoresOrder(outranks, start, |s|);
    SiftUpPermutes(outranks, start, |s|);
    AppendLiveElement(s, value);
    SameLiveElements(start, SiftUp(outranks, start, |s|));
  }
}
