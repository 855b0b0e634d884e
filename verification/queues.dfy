/** What the repository relies on from the standard library's container/heap: a
    bag of elements from which Pop takes an element no other element precedes. */
module Queues {

  /** `less` is a strict order whose incomparability is transitive. */
  ghost predicate StrictWeakOrder<T(!new)>(less: (T, T) -> bool)
  {
    && (forall a, b :: less(a, b) ==> !less(b, a))
    && (forall a, b, c :: less(a, b) && less(b, c) ==> less(a, c))
    && (forall a, b, c :: less(a, c) ==> less(a, b) || less(b, c))
  }

  /** A non-empty bag has an element that no element of the bag precedes. */
  lemma {:induction false} LeastExists<T(!new)>(bag: multiset<T>, less: (T, T) -> bool) returns (least: T)
    requires StrictWeakOrder(less)
    requires bag != multiset{}
    ensures least in bag && forall e | e in bag :: !less(e, least)
    decreases |bag|
  {
    least :| least in bag;
    var first := least;
    var rest := bag - multiset{first};
    assert !less(first, first) by { assert less(first, first) ==> !less(first, first); }
    if rest == multiset{} {
      forall e | e in bag ensures e == first { assert e != first ==> e in rest; }
    } else {
      var other := LeastExists(rest, less);
      assert other in bag;
      if less(other, first) { least := other; }
      forall e | e in bag ensures !less(e, least) {
        if e in rest {
          assert less(e, first) ==> less(e, other) || less(other, first);
        } else {
          assert e == first;
          assert less(other, first) ==> !less(first, other);
        }
      }
    }
  }

  /** heap.Pop: removes a least element. */
  method Pop<T(!new, ==)>(bag: multiset<T>, less: (T, T) -> bool) returns (top: T, rest: multiset<T>)
    requires StrictWeakOrder(less)
    requires bag != multiset{}
    ensures top in bag && rest == bag - multiset{top}
    ensures forall e | e in bag :: !less(e, top)
  {
    ghost var _ := LeastExists(bag, less);
    top :| top in bag && forall e | e in bag :: !less(e, top);
    rest := bag - multiset{top};
  }

  /** The element heap.Pop would take. */
  method Peek<T(!new, ==)>(bag: multiset<T>, less: (T, T) -> bool) returns (top: T)
    requires StrictWeakOrder(less)
    requires bag != multiset{}
    ensures top in bag
    ensures forall e | e in bag :: !less(e, top)
  {
    ghost var _ := LeastExists(bag, less);
    top :| top in bag && forall e | e in bag :: !less(e, top);
  }
}
