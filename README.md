# Binary heap priority queue

A Dafny model of the generic binary heap `Heap<T>` in
`exercises/algorithm/algorithm9.rs`. The heap stores its elements in a growable
vector used as a 1-based implicit binary tree. Slot 0 holds a sentinel value, and
the `count` live elements sit in slots `1..=count`. The parent of slot `i` is
`i / 2`, and its children are `2i` and `2i + 1`. A comparator
`comparator(a, b)` is fixed at construction and answers "does `a` have strictly
higher priority than `b`". `a < b` gives a min-heap and `a > b` a max-heap.
`add` appends an element and bubbles it up. `next` swaps the root with the last
live element, pops the old root and sinks the new root toward its preferred
child. An empty heap yields `None`.

The project has four modules:

- `Orders` (`orders.dfy`) says what a comparator must be for the heap to make
  sense: a strict weak order. It also gives the two integer comparators and
  proves that both qualify.
- `HeapShape` (`heap_shape.dfy`) holds the index arithmetic,
  `smallest_child_idx`, and the swap on the storage sequence. It gives the sift-up
  and sift-down loops as recursive specification functions, `SiftUp` and
  `SiftDown`. It defines the whole insert and extract steps on the storage
  sequence as `Inserted` and `Removed`. It proves that both steps restore heap
  order, that the insert step adds exactly the value and the extract step
  removes exactly the old root from the live elements, and that nothing left
  behind outranks the extracted root.
- `BinaryHeap` (`heap.dfy`) is the heap as a class. It has the mutable fields
  `count` and `items` and a constant `comparator`. `Add` and `Next` are methods
  with the source's own loops, and each is proved against `Inserted` and
  `Removed`. This module also holds `NewMin` and `NewMax`.
- `HeapScenarios` (`scenarios.dfy`) consumes the heap as an iterator. `Drain`
  calls `next` while the heap is non-empty and yields every element once, in
  non-increasing priority. The module also proves the three scenarios of the
  source's tests from the class's contracts.

## Model

| member | source | states |
|---|---|---|
| Orders.LessIsStrictWeakOrder | exercises/algorithm/algorithm9.rs:100-102 | the min-heap comparator `a < b` is irreflexive, transitive and has a transitive complement, so it meets the comparator contract |
| Orders.GreaterIsStrictWeakOrder | exercises/algorithm/algorithm9.rs:105-107 | the same for the max-heap comparator `a > b` |
| HeapShape.ParentIdx | exercises/algorithm/algorithm9.rs:58-60 | `idx` is one of the two children `2p` and `2p + 1` of its parent `p`; below the root, the parent is a live index strictly smaller than `idx` |
| HeapShape.LeftChildIdx | exercises/algorithm/algorithm9.rs:66-68 | the left child is even and its parent is `idx` again (round trip) |
| HeapShape.RightChildIdx | exercises/algorithm/algorithm9.rs:70-72 | the right child comes right after the left child and its parent is `idx` again (round trip) |
| HeapShape.ChildrenPresent | exercises/algorithm/algorithm9.rs:62-64 | for a tree slot `idx >= 1`, true exactly when some live slot `1..count` has `idx` as its parent |
| HeapShape.SmallestChildIdx | exercises/algorithm/algorithm9.rs:74-92 | returns the left or the right child. It returns the right one exactly when that child is live and outranks the left one. When children are present the result is live, and under a strict weak order no child outranks it |
| HeapShape.Swap | exercises/algorithm/algorithm9.rs:49 | the two slots exchange their values; every other slot and the length are unchanged |
| HeapShape.SwapPermutes | exercises/algorithm/algorithm9.rs:122 | a swap keeps the multiset of the storage |
| HeapShape.SiftUp | exercises/algorithm/algorithm9.rs:45-55 | the bubble-up loop keeps the storage length and the sentinel slot |
| HeapShape.SiftUpPermutes | exercises/algorithm/algorithm9.rs:45-55 | bubbling up only permutes the storage |
| HeapShape.SiftUpRestoresOrder | exercises/algorithm/algorithm9.rs:45-55 | suppose the tree is heap-ordered except between slot `k` and its parent, and `k`'s children do not outrank `k`'s parent. Then bubbling up from `k` leaves the whole tree heap-ordered |
| HeapShape.SiftDown | exercises/algorithm/algorithm9.rs:131-141 | the sink loop keeps the storage length and the sentinel slot |
| HeapShape.SiftDownPermutes | exercises/algorithm/algorithm9.rs:131-141 | sinking only permutes the storage |
| HeapShape.SiftDownRestoresOrder | exercises/algorithm/algorithm9.rs:131-141 | suppose the tree is heap-ordered except between slot `k` and its children, and those children do not outrank `k`'s parent. Then sinking from `k` leaves the whole tree heap-ordered |
| HeapShape.RootNotOutranked | exercises/algorithm/algorithm9.rs:116-128 | in a heap-ordered tree no live element outranks the root (induction along the parent chain) |
| HeapShape.InsertLeaf | exercises/algorithm/algorithm9.rs:38-56 | inserting into a heap-ordered storage keeps it heap-ordered, and the live elements gain exactly `value` |
| HeapShape.ExtractRoot | exercises/algorithm/algorithm9.rs:116-144 | extracting from a heap-ordered storage keeps it heap-ordered. The live elements lose exactly the old root, and nothing left outranks the old root |
| BinaryHeap.Heap.constructor | exercises/algorithm/algorithm9.rs:22-28 | a new heap has count 0, storage holding only the sentinel, no live elements, and the given comparator |
| BinaryHeap.Heap.Len | exercises/algorithm/algorithm9.rs:30-32 | the length is the number of live elements |
| BinaryHeap.Heap.IsEmpty | exercises/algorithm/algorithm9.rs:34-36 | true exactly when there are no live elements |
| BinaryHeap.Heap.Add | exercises/algorithm/algorithm9.rs:38-56 | count grows by one and the live elements gain exactly `value`. The storage becomes `Inserted` of the old storage, so heap order is kept |
| BinaryHeap.Heap.Next | exercises/algorithm/algorithm9.rs:116-144 | on an empty heap, returns `None` and changes nothing. Otherwise it returns `Some` of the old root. Count drops by one, the live elements lose exactly that value, nothing left outranks it, and the storage becomes `Removed` of the old storage, so heap order is kept |
| BinaryHeap.NewMin | exercises/algorithm/algorithm9.rs:100-102 | a valid empty heap of integers ordered by `a < b` |
| BinaryHeap.NewMax | exercises/algorithm/algorithm9.rs:105-107 | a valid empty heap of integers ordered by `a > b` |
| HeapScenarios.Drain | exercises/algorithm/algorithm9.rs:110-144 | calling `next` while the heap is non-empty returns each element exactly once (same multiset). Earlier results are never outranked by later ones, and the heap ends empty |
| HeapScenarios.DrainStep | exercises/algorithm/algorithm9.rs:116-144 | handing out the top of the remaining elements keeps the drained prefix ordered and ahead of everything still in the heap |
| HeapScenarios.MinHeapTrace | exercises/algorithm/algorithm9.rs:181-193 | lists the exact storage vectors of the min-heap test after each `add` and `next` |
| HeapScenarios.MaxHeapTrace | exercises/algorithm/algorithm9.rs:195-208 | lists the exact storage vectors of the max-heap test after each `add` and `next` |
| HeapScenarios.EmptyMaxHeapScenario | exercises/algorithm/algorithm9.rs:174-178 | a fresh max-heap yields `None` |
| HeapScenarios.MinHeapScenario | exercises/algorithm/algorithm9.rs:181-193 | after adding 4, 2, 9 and 11 the length is 4 and the heap yields 2, 4, 9; after adding 1 it yields 1 |
| HeapScenarios.MaxHeapScenario | exercises/algorithm/algorithm9.rs:195-208 | after adding 4, 2, 9 and 11 the length is 4 and the heap yields 11, 9, 4; after adding 1 it yields 2 |

## Left out

- The `Iterator` trait impl (lines 110-114) is not modelled as plumbing. `next` is
  modelled as `Heap.Next`, and consuming the iterator is modelled by `Drain`.
  Adapters such as `collect` are out of scope.
- The `MinHeap` and `MaxHeap` unit structs (lines 147-169) are not modelled.
  Their `new` functions build the same heaps as `new_min` and `new_max`, which are
  `NewMin` and `NewMax`. The scenarios use those.
- `T: Default` is not modelled as a trait bound. The sentinel `T::default()` is a
  constructor parameter `default`, and `NewMin`/`NewMax` pass `0`, which is
  `i32::default()`. `T: Ord` is replaced by the concrete comparators on `int`.
- The comparator is modelled as a Dafny function value fixed at construction.
  The constructor requires it to be a strict weak order. Rust accepts any
  `fn(&T, &T) -> bool`, but heap order and "the root has the highest priority"
  mean nothing without that caller contract.
- `usize` overflow of `count` and of the index arithmetic is not modelled, and
  neither is allocation failure. Indices are unbounded naturals.
- Panics are not modelled, because none is reachable. Every index the source uses
  is proved in bounds, including `smallest_child_idx`'s reads under
  `children_present`. `count -= 1` never underflows because of the emptiness check.
- `Vec` reallocation and in-place mutation through `&mut` are modelled as
  reassigning the `items: seq<T>` field of the class. Aliasing of the storage is
  not modelled.
- The test module is not modelled as code. Its three tests are proved as the
  `HeapScenarios` methods, with `i32` values as `int`.
