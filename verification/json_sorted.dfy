/** The key-sorted printer: a canonical form of a value up to the order of its
    object members. */
module JsonSorted {
  import Queues
  import Sorting
  import opened Json
  import JsonReader
  import GoOrder

  // ------------------------------------------------------------ members in key order

  predicate KeyLess(p: Pair, q: Pair) { GoOrder.Less(p.key, q.key) }

  lemma KeyLessIsAnOrder()
    ensures Queues.StrictWeakOrder(KeyLess)
  {
    hide GoOrder.Less;
    GoOrder.LessIsTotal();
  }

  /** sort.Slice by key. */
  function SortPairs(pairs: seq<Pair>): (r: seq<Pair>)
    ensures multiset(r) == multiset(pairs) && |r| == |pairs|
  {
    Sorting.Sort(pairs, KeyLess)
  }

  ghost function Keys(pairs: seq<Pair>): (r: seq<string>)
    ensures |r| == |pairs|
  {
    seq(|pairs|, i requires 0 <= i < |pairs| => pairs[i].key)
  }

  lemma SortedKeysAscend(pairs: seq<Pair>)
    ensures GoOrder.Ascending(Keys(SortPairs(pairs)))
  {
    hide GoOrder.Less;
    KeyLessIsAnOrder();
    GoOrder.LessIsTotal();
    Sorting.SortIsOrdered(pairs, KeyLess);
    var r := SortPairs(pairs);
    forall i, j | 0 <= i < j < |r| ensures Keys(r)[i] == Keys(r)[j] || GoOrder.Less(Keys(r)[i], Keys(r)[j]) {
      assert !KeyLess(r[j], r[i]);
    }
  }

  /** Only one sequence lists a set of strings in ascending order. */
  lemma {:induction false} AscendingIsUnique(a: seq<string>, b: seq<string>)
    requires GoOrder.StrictlyAscending(a) && GoOrder.StrictlyAscending(b)
    requires forall x :: x in a <==> x in b
    ensures a == b
  {
    hide GoOrder.Less;
    assert |b| > 0 ==> b[0] in a;
    if a != [] {
      assert a[0] in b;
      var i :| 0 <= i < |b| && b[i] == a[0];
      var j :| 0 <= j < |a| && a[j] == b[0];
      if i > 0 && j > 0 { GoOrder.Asymmetric(a[0], b[0]); }
      GoOrder.AscendingIsDistinct(a);
      GoOrder.AscendingIsDistinct(b);
      forall x ensures x in a[1..] <==> x in b[1..] {
        assert x in a[1..] <==> x in a && x != a[0] by { TailOfDistinct(a, x); }
        assert x in b[1..] <==> x in b && x != b[0] by { TailOfDistinct(b, x); }
      }
      AscendingIsUnique(a[1..], b[1..]);
      assert a == [a[0]] + a[1..] && b == [b[0]] + b[1..];
    }
  }

  lemma TailOfDistinct(s: seq<string>, x: string)
    requires s != [] && forall i, j | 0 <= i < j < |s| :: s[i] != s[j]
    ensures x in s[1..] <==> x in s && x != s[0]
  {
    assert s == [s[0]] + s[1..];
  }

  // ------------------------------------------------------------ the canonical form

  /** Members in key order at every depth. */
  function Sorted(v: Value): (r: Value)
    ensures v.Array? ==> r.Array? && |r.items| == |v.items|
    ensures v.Object? ==> r.Object? && |r.pairs| == |v.pairs|
  {
    match v
    case Array(items) => Array(seq(|items|, i requires 0 <= i < |items| => Sorted(items[i])))
    case Object(pairs) =>
      Object(seq(|pairs|, i requires 0 <= i < |pairs| =>
        var p := SortPairs(pairs)[i];
        assert p in multiset(pairs);
        Pair(p.key, Sorted(p.val))))
    case _ => v
  }

  /** The key-sorted printer prints the canonical form. */
  method WriteJsonSorted(b: Builder, v: Value)
    modifies b
    ensures b.text == old(b.text) + Text(Sorted(v))
    decreases v
  {
    if v.Array? {
      WriteArraySorted(b, v);
    } else if v.Object? {
      WriteObjectSorted(b, v);
    } else {
      WriteJson(b, v);
    }
  }

  method WriteArraySorted(b: Builder, v: Value)
    requires v.Array?
    modifies b
    ensures b.text == old(b.text) + Text(Sorted(v))
    decreases v, 0
  {
    hide Text, ItemsText;
    ghost var r := Sorted(v);
    Brackets(r);
    b.WriteString("[");
    ghost var whole := b.text + ItemsText(r, 0);
    assert whole == old(b.text) + Text(r);
    for i := 0 to |v.items|
      invariant b.text + ItemsText(r, i) == whole
    {
      ItemWritten(b.text, r, i, whole);
      if i > 0 { b.WriteString(","); }
      WriteJsonSorted(b, v.items[i]);
    }
    b.WriteString("]");
  }

  method WriteObjectSorted(b: Builder, v: Value)
    requires v.Object?
    modifies b
    ensures b.text == old(b.text) + Text(Sorted(v))
    decreases v, 0
  {
    hide Text, PairsText, StringText, GoOrder.Less, SortPairs, Sorted;
    ghost var r := Sorted(v);
    SortPermutes(v.pairs);
    Brackets(r);
    var pairs := SortPairs(v.pairs);
    b.WriteString("{");
    ghost var whole := b.text + PairsText(r, 0);
    assert whole == old(b.text) + Text(r);
    for i := 0 to |pairs|
      invariant b.text + PairsText(r, i) == whole
    {
      PairWritten(b.text, r, i, whole);
      SortedPairAt(v, i);
      if i > 0 { b.WriteString(","); }
      WriteJsonString(b, pairs[i].key);
      b.WriteString(":");
      WriteJsonSorted(b, pairs[i].val);
    }
    b.WriteString("}");
  }

  // ------------------------------------------------------------ equal up to member order

  /** Equal up to the order of object members, at every depth. */
  ghost predicate Same(a: Value, b: Value)
    decreases a, 1
  {
    match a
    case Array(items) =>
      b.Array? && |items| == |b.items| && forall i | 0 <= i < |items| :: Same(items[i], b.items[i])
    case Object(pairs) =>
      b.Object? && |pairs| == |b.pairs| && forall i | 0 <= i < |pairs| :: Matched(a, b, i)
    case _ => a == b
  }

  /** Member `i` of `a` has its like in `b`. */
  ghost predicate Matched(a: Value, b: Value, i: nat)
    requires a.Object? && b.Object? && i < |a.pairs|
    decreases a, 0
  {
    exists j :: 0 <= j < |b.pairs| && a.pairs[i].key == b.pairs[j].key && Same(a.pairs[i].val, b.pairs[j].val)
  }

  /** No object has a key twice, at any depth. */
  ghost predicate Distinct(v: Value) {
    match v
    case Array(items) => forall i | 0 <= i < |items| :: Distinct(items[i])
    case Object(pairs) => DistinctKeys(pairs) && forall i | 0 <= i < |pairs| :: Distinct(pairs[i].val)
    case _ => true
  }

  lemma SubsetOfSameSize<T>(a: set<T>, b: set<T>)
    requires a <= b && |a| == |b|
    ensures a == b
  {
    assert |b - a| == 0;
  }

  lemma {:induction false} SizeOfKeys(pairs: seq<Pair>)
    requires DistinctKeys(pairs)
    ensures |set p | p in pairs :: p.key| == |pairs|
  {
    if pairs != [] {
      var n := |pairs| - 1;
      SizeOfKeys(pairs[..n]);
      assert pairs == pairs[..n] + [pairs[n]];
      assert (set p | p in pairs :: p.key) == (set p | p in pairs[..n] :: p.key) + {pairs[n].key};
    }
  }

  ghost predicate HasKey(pairs: seq<Pair>, key: string) {
    exists i :: 0 <= i < |pairs| && pairs[i].key == key
  }

  /** As many distinct keys, all of them there: the same keys. */
  lemma SameKeySets(a: seq<Pair>, b: seq<Pair>)
    requires DistinctKeys(a) && DistinctKeys(b) && |a| == |b|
    requires forall i | 0 <= i < |a| :: HasKey(b, a[i].key)
    ensures forall j | 0 <= j < |b| :: HasKey(a, b[j].key)
  {
    SizeOfKeys(a);
    SizeOfKeys(b);
    var ka, kb := set p | p in a :: p.key, set p | p in b :: p.key;
    forall x | x in ka ensures x in kb {
      var p :| p in a && p.key == x;
      var i :| 0 <= i < |a| && a[i] == p;
    }
    SubsetOfSameSize(ka, kb);
    forall j | 0 <= j < |b| ensures HasKey(a, b[j].key) {
      assert b[j] in b;
      assert b[j].key in kb;
      var p :| p in a && p.key == b[j].key;
    }
  }

  lemma KeysAreStrict(pairs: seq<Pair>)
    requires DistinctKeys(pairs)
    ensures GoOrder.StrictlyAscending(Keys(SortPairs(pairs)))
    ensures forall x :: x in Keys(SortPairs(pairs)) <==> x in Keys(pairs)
  {
    hide GoOrder.Less, SortPairs;
    SortedKeysAscend(pairs);
    var r := SortPairs(pairs);
    SortPermutes(pairs);
    assert DistinctKeys(r) by { DistinctSurvives(pairs, r); }
    KeysOfPermuted(pairs, r);
    KeysOfPermuted(r, pairs);
  }

  lemma KeysOfPermuted(pairs: seq<Pair>, r: seq<Pair>)
    requires forall p | p in pairs :: p in r
    ensures forall x | x in Keys(pairs) :: x in Keys(r)
  {
    forall x | x in Keys(pairs) ensures x in Keys(r) {
      var i :| 0 <= i < |pairs| && Keys(pairs)[i] == x;
      assert pairs[i] in r;
      var k :| 0 <= k < |r| && r[k] == pairs[i];
      assert Keys(r)[k] == x;
    }
  }

  lemma SortPermutes(pairs: seq<Pair>)
    ensures multiset(SortPairs(pairs)) == multiset(pairs) && |SortPairs(pairs)| == |pairs|
    ensures forall p :: p in SortPairs(pairs) <==> p in pairs
  {
    hide GoOrder.Less;
    KeyLessIsAnOrder();
    Sorting.SortIsOrdered(pairs, KeyLess);
  }

  lemma DistinctSurvives(pairs: seq<Pair>, r: seq<Pair>)
    requires DistinctKeys(pairs) && multiset(r) == multiset(pairs)
    ensures DistinctKeys(r)
  {
    Sorting.DistinctSurvives(pairs, r);
    forall i, j | 0 <= i < j < |r| ensures r[i].key != r[j].key {
      assert r[i] in multiset(r) && r[j] in multiset(r);
      assert r[i] in pairs && r[j] in pairs;
    }
  }

  /** Values equal up to member order have one canonical form, and only such values. */
  lemma {:induction false} SortedIsCanonical(a: Value, b: Value)
    requires Distinct(a) && Distinct(b)
    ensures Same(a, b) <==> Sorted(a) == Sorted(b)
    decreases a
  {
    if a.Array? && b.Array? && |a.items| == |b.items| {
      forall i | 0 <= i < |a.items| ensures Same(a.items[i], b.items[i]) <==> Sorted(a).items[i] == Sorted(b).items[i] {
        SortedIsCanonical(a.items[i], b.items[i]);
      }
    } else if a.Object? && b.Object? && |a.pairs| == |b.pairs| {
      forall i, j | 0 <= i < |a.pairs| && 0 <= j < |b.pairs|
        ensures Same(a.pairs[i].val, b.pairs[j].val) <==> Sorted(a.pairs[i].val) == Sorted(b.pairs[j].val) {
        SortedIsCanonical(a.pairs[i].val, b.pairs[j].val);
      }
      if Same(a, b) {
        SameSortsAlike(a, b);
      } else if Sorted(a) == Sorted(b) {
        AlikeIsSame(a, b);
      }
    }
  }

  lemma SortedPairAt(v: Value, k: nat)
    requires v.Object? && k < |v.pairs|
    ensures SortPairs(v.pairs)[k] in v.pairs
    ensures Sorted(v).pairs[k] == Pair(SortPairs(v.pairs)[k].key, Sorted(SortPairs(v.pairs)[k].val))
  {
    hide SortPairs;
    SortPermutes(v.pairs);
    assert SortPairs(v.pairs)[k] in SortPairs(v.pairs);
  }

  ghost predicate ValuesAgree(a: Value, b: Value)
    requires a.Object? && b.Object?
  {
    forall i, j | 0 <= i < |a.pairs| && 0 <= j < |b.pairs| ::
      Same(a.pairs[i].val, b.pairs[j].val) <==> Sorted(a.pairs[i].val) == Sorted(b.pairs[j].val)
  }

  lemma SameSortsAlike(a: Value, b: Value)
    requires a.Object? && b.Object? && Distinct(a) && Distinct(b) && ValuesAgree(a, b) && Same(a, b)
    ensures Sorted(a) == Sorted(b)
  {
    hide GoOrder.Less, SortPairs, ValuesAgree, Sorted;
    var A, B := SortPairs(a.pairs), SortPairs(b.pairs);
    SortPermutes(a.pairs);
    SortPermutes(b.pairs);
    KeysAreStrict(a.pairs);
    KeysAreStrict(b.pairs);
    KeysOfMatched(a, b);
    AscendingIsUnique(Keys(A), Keys(B));
    forall k | 0 <= k < |a.pairs| ensures Sorted(a).pairs[k] == Sorted(b).pairs[k] {
      assert Keys(A)[k] == Keys(B)[k];
      MembersSortAlike(a, b, k);
    }
    assert Sorted(a).pairs == Sorted(b).pairs;
  }

  lemma KeysOfMatched(a: Value, b: Value)
    requires a.Object? && b.Object? && Distinct(a) && Distinct(b) && Same(a, b)
    ensures forall x :: x in Keys(a.pairs) <==> x in Keys(b.pairs)
  {
    forall i | 0 <= i < |a.pairs| ensures HasKey(b.pairs, a.pairs[i].key) {
      assert Matched(a, b, i);
    }
    SameKeySets(a.pairs, b.pairs);
    KeysCovered(a.pairs, b.pairs);
    KeysCovered(b.pairs, a.pairs);
  }

  lemma KeysCovered(a: seq<Pair>, b: seq<Pair>)
    requires forall i | 0 <= i < |a| :: HasKey(b, a[i].key)
    ensures forall x | x in Keys(a) :: x in Keys(b)
  {
    forall x | x in Keys(a) ensures x in Keys(b) {
      var i :| 0 <= i < |a| && Keys(a)[i] == x;
      assert HasKey(b, a[i].key);
      var j :| 0 <= j < |b| && b[j].key == x;
      assert Keys(b)[j] == x;
    }
  }

  lemma MembersSortAlike(a: Value, b: Value, k: nat)
    requires a.Object? && b.Object? && Distinct(b) && ValuesAgree(a, b) && Same(a, b) && k < |a.pairs|
    requires SortPairs(a.pairs)[k].key == SortPairs(b.pairs)[k].key
    ensures Sorted(a).pairs[k] == Sorted(b).pairs[k]
  {
    hide SortPairs, Sorted;
    SortedPairAt(a, k);
    SortedPairAt(b, k);
    var i :| 0 <= i < |a.pairs| && a.pairs[i] == SortPairs(a.pairs)[k];
    var j :| 0 <= j < |b.pairs| && b.pairs[j] == SortPairs(b.pairs)[k];
    assert Matched(a, b, i);
    var m :| 0 <= m < |b.pairs| && a.pairs[i].key == b.pairs[m].key && Same(a.pairs[i].val, b.pairs[m].val);
    assert m == j;
  }

  lemma AlikeIsSame(a: Value, b: Value)
    requires a.Object? && b.Object? && |a.pairs| == |b.pairs| && ValuesAgree(a, b) && Sorted(a) == Sorted(b)
    ensures Same(a, b)
  {
    hide ValuesAgree, Sorted, SortPairs;
    SortPermutes(a.pairs);
    forall i | 0 <= i < |a.pairs| ensures Matched(a, b, i) {
      assert a.pairs[i] in SortPairs(a.pairs);
      var k :| 0 <= k < |a.pairs| && SortPairs(a.pairs)[k] == a.pairs[i];
      SortedPairAt(a, k);
      SortedPairAt(b, k);
      var j :| 0 <= j < |b.pairs| && b.pairs[j] == SortPairs(b.pairs)[k];
      assert Sorted(a.pairs[i].val) == Sorted(b.pairs[j].val);
      MatchedBy(a, b, i, j);
    }
  }

  lemma MatchedBy(a: Value, b: Value, i: nat, j: nat)
    requires a.Object? && b.Object? && ValuesAgree(a, b)
    requires i < |a.pairs| && j < |b.pairs| && a.pairs[i].key == b.pairs[j].key
             && Sorted(a.pairs[i].val) == Sorted(b.pairs[j].val)
    ensures Matched(a, b, i)
  {
    hide Same, Sorted;
  }

  // ------------------------------------------------------------ equal text

  lemma {:induction false} SortedIsWellFormed(v: Value)
    requires JsonReader.WellFormed(v)
    ensures JsonReader.WellFormed(Sorted(v))
  {
    hide GoOrder.Less, SortPairs, JsonReader.IsNumber;
    if v.Array? {
      forall i | 0 <= i < |v.items| ensures JsonReader.WellFormed(Sorted(v).items[i]) {
        SortedIsWellFormed(v.items[i]);
      }
    } else if v.Object? {
      SortPermutes(v.pairs);
      var r := SortPairs(v.pairs);
      forall i | 0 <= i < |r| ensures JsonReader.WellFormed(Sorted(v).pairs[i].val) {
        assert r[i] in v.pairs;
        var j :| 0 <= j < |v.pairs| && v.pairs[j] == r[i];
        SortedIsWellFormed(v.pairs[j].val);
      }
    }
  }

  /** Two values print the same key-sorted text exactly when they are equal up to the
      order of object members. */
  lemma SortedTextDecides(a: Value, b: Value)
    requires JsonReader.WellFormed(a) && JsonReader.WellFormed(b) && Distinct(a) && Distinct(b)
    ensures Text(Sorted(a)) == Text(Sorted(b)) <==> Same(a, b)
  {
    SortedIsCanonical(a, b);
    SortedIsWellFormed(a);
    SortedIsWellFormed(b);
    if Text(Sorted(a)) == Text(Sorted(b)) { JsonReader.TextIsInjective(Sorted(a), Sorted(b)); }
  }

  // ------------------------------------------------------------ deepEqual

  /** deepEqual: a key missing on the right reads as null. */
  predicate DeepEqual(a: Value, b: Value) {
    match a
    case Array(items) =>
      b.Array? && |items| == |b.items| && forall i | 0 <= i < |items| :: DeepEqual(items[i], b.items[i])
    case Object(pairs) =>
      b.Object? && |pairs| == |b.pairs| && forall i | 0 <= i < |pairs| :: DeepEqual(pairs[i].val, Get(b, pairs[i].key))
    case _ => a == b
  }

  /** Every member on the left whose value is null is a member on the right too,
      wherever deepEqual compares two objects. */
  ghost predicate NullsArePresent(a: Value, b: Value) {
    match a
    case Array(items) =>
      b.Array? && |items| == |b.items| ==> forall i | 0 <= i < |items| :: NullsArePresent(items[i], b.items[i])
    case Object(pairs) =>
      b.Object? ==> forall i | 0 <= i < |pairs| ::
        && (pairs[i].val.Null? ==> exists j :: 0 <= j < |b.pairs| && b.pairs[j].key == pairs[i].key)
        && NullsArePresent(pairs[i].val, Get(b, pairs[i].key))
    case _ => true
  }

  lemma GetIs(b: Value, j: nat)
    requires b.Object? && DistinctKeys(b.pairs) && j < |b.pairs|
    ensures Get(b, b.pairs[j].key) == b.pairs[j].val
  {
  }

  /** deepEqual decides equality up to member order exactly where no null member is
      missing from the other side. */
  lemma {:induction false} DeepEqualDecides(a: Value, b: Value)
    requires Distinct(a) && Distinct(b)
    ensures Same(a, b) ==> DeepEqual(a, b) && NullsArePresent(a, b)
    ensures DeepEqual(a, b) && NullsArePresent(a, b) ==> Same(a, b)
    decreases a
  {
    if a.Array? && b.Array? && |a.items| == |b.items| {
      forall i | 0 <= i < |a.items|
        ensures Same(a.items[i], b.items[i]) <==>
                DeepEqual(a.items[i], b.items[i]) && NullsArePresent(a.items[i], b.items[i]) {
        DeepEqualDecides(a.items[i], b.items[i]);
      }
    } else if a.Object? && b.Object? && |a.pairs| == |b.pairs| {
      forall i | 0 <= i < |a.pairs|
        ensures Matched(a, b, i) <==> DeepMatched(a, b, i) {
        MemberDecides(a, b, i);
      }
      DeepObjects(a, b);
    }
  }

  ghost predicate DeepMatched(a: Value, b: Value, i: nat)
    requires a.Object? && b.Object? && i < |a.pairs|
  {
    var other := Get(b, a.pairs[i].key);
    && DeepEqual(a.pairs[i].val, other)
    && (a.pairs[i].val.Null? ==> exists j :: 0 <= j < |b.pairs| && b.pairs[j].key == a.pairs[i].key)
    && NullsArePresent(a.pairs[i].val, other)
  }

  lemma DeepObjects(a: Value, b: Value)
    requires a.Object? && b.Object? && |a.pairs| == |b.pairs|
    ensures DeepEqual(a, b) && NullsArePresent(a, b) <==> forall i | 0 <= i < |a.pairs| :: DeepMatched(a, b, i)
  {
    hide Get;
    if forall i | 0 <= i < |a.pairs| :: DeepMatched(a, b, i) {
      forall i | 0 <= i < |a.pairs|
        ensures DeepEqual(a.pairs[i].val, Get(b, a.pairs[i].key))
                && NullsArePresent(a.pairs[i].val, Get(b, a.pairs[i].key))
        ensures a.pairs[i].val.Null? ==> exists j :: 0 <= j < |b.pairs| && b.pairs[j].key == a.pairs[i].key {
        assert DeepMatched(a, b, i);
      }
      assert DeepEqual(a, b) && NullsArePresent(a, b);
    }
  }

  lemma MemberDecides(a: Value, b: Value, i: nat)
    requires a.Object? && b.Object? && i < |a.pairs| && Distinct(a) && Distinct(b)
    ensures Matched(a, b, i) <==> DeepMatched(a, b, i)
    decreases a, 0
  {
    var p := a.pairs[i];
    if j :| 0 <= j < |b.pairs| && b.pairs[j].key == p.key {
      GetIs(b, j);
      DeepEqualDecides(p.val, b.pairs[j].val);
    }
  }

  /** It is not symmetric: a null member equals a missing one, but not the other way. */
  lemma DeepEqualIsNotSymmetric()
    ensures exists a, b :: Distinct(a) && Distinct(b) && DeepEqual(a, b) && !DeepEqual(b, a)
  {
    var a, b := Object([Pair("", Null)]), Object([Pair("k", Bool(true))]);
    assert a.pairs[0].key == "" && b.pairs[0].key == "k";
    assert Get(b, "") == Null && Get(a, "k") == Null;
    assert DeepEqual(Null, Null) && !DeepEqual(Bool(true), Null);
    assert DeepEqual(a, b);
    assert !DeepEqual(b, a);
  }
}
