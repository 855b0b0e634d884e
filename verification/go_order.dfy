/** The order Go's `<` puts on strings. Go compares the UTF-8 bytes; for valid
    UTF-8 that is the order of the code points, which is what is written here. */
module GoOrder {
  import Queues
  import Sorting

  predicate Less(a: string, b: string)
  {
    if b == "" then false
    else if a == "" then true
    else if a[0] != b[0] then a[0] < b[0]
    else Less(a[1..], b[1..])
  }

  lemma {:induction false} Irreflexive(a: string)
    ensures !Less(a, a)
  {
    if a != "" { Irreflexive(a[1..]); }
  }

  lemma {:induction false} Transitive(a: string, b: string, c: string)
    requires Less(a, b) && Less(b, c)
    ensures Less(a, c)
  {
    if a != "" && a[0] == b[0] && b[0] == c[0] { Transitive(a[1..], b[1..], c[1..]); }
  }

  lemma {:induction false} Asymmetric(a: string, b: string)
    requires Less(a, b)
    ensures !Less(b, a)
  {
    if a != "" && a[0] == b[0] { Asymmetric(a[1..], b[1..]); }
  }

  lemma {:induction false} Total(a: string, b: string)
    ensures a == b || Less(a, b) || Less(b, a)
  {
    if a != "" && b != "" && a[0] == b[0] {
      Total(a[1..], b[1..]);
      assert a == [a[0]] + a[1..] && b == [b[0]] + b[1..];
    }
  }

  // ------------------------------------------------------------ sort.Strings

  ghost predicate Ascending(s: seq<string>) {
    forall i, j | 0 <= i < j < |s| :: s[i] == s[j] || Less(s[i], s[j])
  }

  ghost predicate StrictlyAscending(s: seq<string>) {
    forall i, j | 0 <= i < j < |s| :: Less(s[i], s[j])
  }

  lemma AscendingIsDistinct(s: seq<string>)
    requires StrictlyAscending(s)
    ensures forall i, j | 0 <= i < j < |s| :: s[i] != s[j]
  {
    forall i, j | 0 <= i < j < |s| ensures s[i] != s[j] {
      Irreflexive(s[i]);
    }
  }

  lemma LessIsTotal()
    ensures Sorting.Total(Less) && Queues.StrictWeakOrder(Less)
  {
    forall a, b ensures (Less(a, b) ==> !Less(b, a)) && (a == b || Less(a, b) || Less(b, a)) {
      Total(a, b);
      if Less(a, b) { Asymmetric(a, b); }
    }
    forall a, b, c ensures Less(a, b) && Less(b, c) ==> Less(a, c) {
      if Less(a, b) && Less(b, c) { Transitive(a, b, c); }
    }
    forall a, b, c ensures Less(a, c) ==> Less(a, b) || Less(b, c) {
      Total(a, b);
    }
  }

  /** sort.Strings */
  function SortStrings(s: seq<string>): (r: seq<string>)
    ensures multiset(r) == multiset(s)
  {
    Sorting.Sort(s, Less)
  }

  lemma SortStringsAscends(s: seq<string>)
    ensures Ascending(SortStrings(s))
  {
    hide Less;
    LessIsTotal();
    Sorting.SortIsOrdered(s, Less);
  }

  /** The distinct values of a slice in ascending order: a set to drop repeats,
      then sort.Strings. */
  method SortedDistinct(values: seq<string>) returns (out: seq<string>)
    ensures StrictlyAscending(out)
    ensures forall x :: x in out <==> x in values
  {
    var seen: set<string> := {};
    var kept: seq<string> := [];
    for i := 0 to |values|
      invariant forall x :: x in seen <==> x in values[..i]
      invariant forall x :: x in seen <==> x in kept
      invariant forall j, k | 0 <= j < k < |kept| :: kept[j] != kept[k]
    {
      if values[i] !in seen {
        seen := seen + {values[i]};
        kept := kept + [values[i]];
      }
    }
    assert values[..|values|] == values;
    out := SortStrings(kept);
    SortStringsAscends(kept);
    Sorting.DistinctSurvives(kept, out);
    forall x ensures x in out <==> x in kept {
      assert x in out <==> x in multiset(out);
      assert x in kept <==> x in multiset(kept);
    }
  }

  /** The keys of a map, sorted. */
  method SortedKeys(keys: set<string>) returns (out: seq<string>)
    ensures StrictlyAscending(out)
    ensures forall x :: x in out <==> x in keys
  {
    var list: seq<string> := [];
    var todo := keys;
    while todo != {}
      invariant todo <= keys
      invariant forall x :: x in list <==> x in keys - todo
    {
      var x :| x in todo;
      todo := todo - {x};
      list := list + [x];
    }
    out := SortedDistinct(list);
  }
}
