/** Callers of the heap: consuming it as an iterator, and the scenarios of the
    source's own tests, proved from the heap's contracts alone. */
module HeapScenarios {
  import opened Orders
  import opened HeapShape
  import opened BinaryHeap

  /** Calling `next` while the heap is non-empty (what iterating over the heap
      does, short of the final call that yields `None` and changes nothing)
      hands out every element exactly once, in non-increasing priority, and
      leaves the heap empty. */
  method Drain<T(!new)>(h: Heap<T>) returns (out: seq<T>)
    requires h.Valid()
    modifies h
    ensures h.Valid() && h.Elements() == []
    ensures multiset(out) == old(multiset(h.Elements()))
    ensures forall i, j :: 0 <= i < j < |out| ==> !h.comparator(out[j], out[i])
  {
    out := [];
    while !h.IsEmpty()
      invariant h.Valid()
      invariant multiset(out) + multiset(h.Elements()) == old(multiset(h.Elements()))
      invariant DrainedInOrder(h.comparator, out, h.Elements())
      decreases h.count
    {
      ghost var before := h.Elements();
      var x := h.Next();
      DrainStep(h.comparator, out, before, h.Elements(), x.value);
      out := out + [x.value];
    }
  }

  /** What has been handed out is in non-increasing priority, and nothing still
      in the heap outranks any of it. */
  ghost predicate DrainedInOrder<T>(outranks: (T, T) -> bool, out: seq<T>, rest: seq<T>) {
    && (forall i, j :: 0 <= i < j < |out| ==> !outranks(out[j], out[i]))
    && (forall i, e :: 0 <= i < |out| && e in rest ==> !outranks(e, out[i]))
  }

  /** Handing out the top `x` of the remaining elements keeps the drain in order. */
  lemma DrainStep<T>(outranks: (T, T) -> bool, out: seq<T>, before: seq<T>, after: seq<T>, x: T)
    requires DrainedInOrder(outranks, out, before)
    requires multiset(after) + multiset{x} == multiset(before)
    requires forall e :: e in after ==> !outranks(e, x)
    ensures DrainedInOrder(outranks, out + [x], after)
    ensures multiset(out + [x]) + multiset(after) == multiset(out) + multiset(before)
  {
    assert x in multiset(before);
    assert x in before;
    forall e | e in after
      ensures e in before
    {
      assert multiset(before)[e] >= multiset(after)[e] > 0;
    }
    var grown := out + [x];
    forall i, j | 0 <= i < j < |grown|
      ensures !outranks(grown[j], grown[i])
    {
      if j == |out| {
        assert grown[j] == x && grown[i] == out[i];
      } else {
        assert grown[j] == out[j] && grown[i] == out[i];
      }
    }
  }

  /** The storage vectors a min-heap of `i32` goes through in the source's test:
      add 4, 2, 9, 11; three extractions; add 1; one extraction. */
  lemma MinHeapTrace()
    ensures Inserted(Less, [0], 4) == [0, 4]
    ensures Inserted(Less, [0, 4], 2) == [0, 2, 4]
    ensures Inserted(Less, [0, 2, 4], 9) == [0, 2, 4, 9]
    ensures Inserted(Less, [0, 2, 4, 9], 11) == [0, 2, 4, 9, 11]
    ensures Removed(Less, [0, 2, 4, 9, 11]) == [0, 4, 11, 9]
    ensures Removed(Less, [0, 4, 11, 9]) == [0, 9, 11]
    ensures Removed(Less, [0, 9, 11]) == [0, 11]
    ensures Inserted(Less, [0, 11], 1) == [0, 1, 11]
    ensures Removed(Less, [0, 1, 11]) == [0, 11]
  {
    assert SiftUp(Less, [0, 2, 4], 1) == [0, 2, 4];
    assert Swap([0, 4, 2], 2, 1) == [0, 2, 4];
    assert Swap([0, 2, 4, 9, 11], 1, 4)[..4] == [0, 11, 4, 9];
    assert Swap([0, 11, 4, 9], 1, 2) == [0, 4, 11, 9];
    assert SiftDown(Less, [0, 4, 11, 9], 2) == [0, 4, 11, 9];
    assert Swap([0, 4, 11, 9], 1, 3)[..3] == [0, 9, 11];
    assert Swap([0, 9, 11], 1, 2)[..2] == [0, 11];
    assert Swap([0, 11, 1], 2, 1) == [0, 1, 11];
    assert SiftUp(Less, [0, 1, 11], 1) == [0, 1, 11];
    assert Swap([0, 1, 11], 1, 2)[..2] == [0, 11];
  }

  /** The same for a max-heap. */
  lemma MaxHeapTrace()
    ensures Inserted(Greater, [0], 4) == [0, 4]
    ensures Inserted(Greater, [0, 4], 2) == [0, 4, 2]
    ensures Inserted(Greater, [0, 4, 2], 9) == [0, 9, 2, 4]
    ensures Inserted(Greater, [0, 9, 2, 4], 11) == [0, 11, 9, 4, 2]
    ensures Removed(Greater, [0, 11, 9, 4, 2]) == [0, 9, 2, 4]
    ensures Removed(Greater, [0, 9, 2, 4]) == [0, 4, 2]
    ensures Removed(Greater, [0, 4, 2]) == [0, 2]
    ensures Inserted(Greater, [0, 2], 1) == [0, 2, 1]
    ensures Removed(Greater, [0, 2, 1]) == [0, 1]
  {
    assert Swap([0, 4, 2, 9], 3, 1) == [0, 9, 2, 4];
    assert SiftUp(Greater, [0, 9, 2, 4], 1) == [0, 9, 2, 4];
    assert Swap([0, 9, 2, 4, 11], 4, 2) == [0, 9, 11, 4, 2];
    assert Swap([0, 9, 11, 4, 2], 2, 1) == [0, 11, 9, 4, 2];
    assert SiftUp(Greater, [0, 11, 9, 4, 2], 1) == [0, 11, 9, 4, 2];
    assert Swap([0, 11, 9, 4, 2], 1, 4)[..4] == [0, 2, 9, 4];
    assert Swap([0, 2, 9, 4], 1, 2) == [0, 9, 2, 4];
    assert SiftDown(Greater, [0, 9, 2, 4], 2) == [0, 9, 2, 4];
    assert Swap([0, 9, 2, 4], 1, 3)[..3] == [0, 4, 2];
    assert Swap([0, 4, 2], 1, 2)[..2] == [0, 2];
    assert Swap([0, 2, 1], 1, 2)[..2] == [0, 1];
  }

  /** A fresh max-heap of integers yields nothing. */
  method EmptyMaxHeapScenario() returns (first: Option<int>)
    ensures first == None
  {
    var h := NewMax();
    first := h.Next();
  }

  /** Min-heap: add 4, 2, 9, 11; the length is 4 and the heap yields 2, 4, 9;
      after adding 1 it yields 1. */
  method MinHeapScenario() returns (len: nat, first: Option<int>, second: Option<int>, third: Option<int>, afterAdd: Option<int>)
    ensures len == 4
    ensures first == Some(2) && second == Some(4) && third == Some(9)
    ensures afterAdd == Some(1)
  {
    MinHeapTrace();
    var h := NewMin();
    h.Add(4);
    h.Add(2);
    h.Add(9);
    h.Add(11);
    len := h.Len();
    first := h.Next();
    second := h.Next();
    third := h.Next();
    h.Add(1);
    afterAdd := h.Next();
  }

  /** Max-heap: add 4, 2, 9, 11; the length is 4 and the heap yields 11, 9, 4;
      after adding 1 it yields 2. */
  method MaxHeapScenario() returns (len: nat, first: Option<int>, second: Option<int>, third: Option<int>, afterAdd: Option<int>)
    ensures len == 4
    ensures first == Some(11) && second == Some(9) && third == Some(4)
    ensures afterAdd == Some(2)
  {
    MaxHeapTrace();
    var h := NewMax();
    h.Add(4);
    h.Add(2);
    h.Add(9);
    h.Add(11);
    len := h.Len();
    first := h.Next();
    second := h.Next();
    third := h.Next();
    h.Add(1);
    afterAdd := h.Next();
  }
}
