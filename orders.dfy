/** Priority comparators.
    A heap is built around a comparator `outranks(a, b)` that answers whether
    `a` has strictly higher priority than `b`. The heap-order invariant only
    means something when that comparator behaves like a strict weak order. */
module Orders {

  /** No element outranks itself. */
  ghost predicate Irreflexive<T(!new)>(outranks: (T, T) -> bool) {
    forall a :: !outranks(a, a)
  }

  /** Outranking chains: a over b over c gives a over c. */
  ghost predicate Transitive<T(!new)>(outranks: (T, T) -> bool) {
    forall a, b, c :: outranks(a, b) && outranks(b, c) ==> outranks(a, c)
  }

  /** "Does not outrank" chains as well, so priorities can be ranked on one scale. */
  ghost predicate NotOutranksTransitive<T(!new)>(outranks: (T, T) -> bool) {
    forall a, b, c :: !outranks(a, b) && !outranks(b, c) ==> !outranks(a, c)
  }

  /** The contract a caller's comparator must meet for the heap to be ordered. */
  ghost predicate StrictWeakOrder<T(!new)>(outranks: (T, T) -> bool) {
    && Irreflexive(outranks)
    && Transitive(outranks)
    && NotOutranksTransitive(outranks)
  }

  /** Priority of a min-heap: the smaller integer comes out first. */
  function Less(a: int, b: int): (r: bool) {
    a < b
  }

  /** Priority of a max-heap: the larger integer comes out first. */
  function Greater(a: int, b: int): (r: bool) {
    a > b
  }

  lemma LessIsStrictWeakOrder()
    ensures StrictWeakOrder(Less)
  {
  }

  lemma GreaterIsStrictWeakOrder()
    ensures StrictWeakOrder(Greater)
  {
  }
}
