/** Streaming top-k: a bounded heap with the worst kept neighbor on top keeps exactly
    the first k of all candidates ranked by (-weight, id). */
module NeighborSelect {
  import GoOrder
  import Queues
  import Sorting

  datatype Neighbor = Neighbor(id: string, s: real, w: real)

  /** `a` ranks before `b`. */
  predicate Better(a: Neighbor, b: Neighbor) {
    if a.w != b.w then a.w > b.w else GoOrder.Less(a.id, b.id)
  }

  /** neighborHeap.Less: the worst neighbor comes first. */
  predicate Worse(a: Neighbor, b: Neighbor) {
    if a.w != b.w then a.w < b.w else GoOrder.Less(b.id, a.id)
  }

  lemma WorseIsAnOrder()
    ensures Queues.StrictWeakOrder(Worse)
  {
    forall a, b ensures Worse(a, b) ==> !Worse(b, a) {
      if Worse(a, b) && a.w == b.w { GoOrder.Asymmetric(b.id, a.id); }
    }
    forall a, b, c ensures Worse(a, b) && Worse(b, c) ==> Worse(a, c) {
      if Worse(a, b) && Worse(b, c) && a.w == b.w == c.w { GoOrder.Transitive(c.id, b.id, a.id); }
    }
    forall a, b, c ensures Worse(a, c) ==> Worse(a, b) || Worse(b, c) {
      if Worse(a, c) && a.w == b.w == c.w {
        GoOrder.Total(a.id, b.id);
        if GoOrder.Less(a.id, b.id) { GoOrder.Transitive(c.id, a.id, b.id); }
      }
    }
  }

  lemma BetterIsTotal(a: Neighbor, b: Neighbor)
    ensures Better(a, b) == Worse(b, a)
    ensures a.id != b.id ==> Better(a, b) != Better(b, a)
  {
    GoOrder.Total(a.id, b.id);
    if a.w == b.w && GoOrder.Less(a.id, b.id) { GoOrder.Asymmetric(a.id, b.id); }
  }

  lemma BetterIsTransitive(a: Neighbor, b: Neighbor, c: Neighbor)
    requires Better(a, b) && Better(b, c)
    ensures Better(a, c)
  {
    if a.w == b.w == c.w { GoOrder.Transitive(a.id, b.id, c.id); }
  }

  ghost predicate Ranked(s: seq<Neighbor>) {
    forall i, j | 0 <= i < j < |s| :: Better(s[i], s[j])
  }

  ghost predicate DistinctIDs(s: seq<Neighbor>) {
    forall i, j | 0 <= i < j < |s| :: s[i].id != s[j].id
  }

  /** A neighbor put in its rank. */
  ghost function Insert(s: seq<Neighbor>, x: Neighbor): (r: seq<Neighbor>)
    ensures |r| == |s| + 1 && multiset(r) == multiset(s) + multiset{x}
  {
    Sorting.Insert(s, x, Better)
  }

  /** All candidates in rank order. */
  ghost function Ranking(candidates: seq<Neighbor>): (r: seq<Neighbor>)
    ensures |r| == |candidates| && multiset(r) == multiset(candidates)
  {
    Sorting.Sort(candidates, Better)
  }

  ghost function First(k: nat, s: seq<Neighbor>): seq<Neighbor> {
    if k >= |s| then s else s[..k]
  }

  /** The k best candidates, best first. */
  ghost function Top(k: nat, candidates: seq<Neighbor>): seq<Neighbor> {
    First(k, Ranking(candidates))
  }

  lemma BetterIsAnOrder()
    ensures Queues.StrictWeakOrder(Better)
  {
    WorseIsAnOrder();
    forall a, b ensures Better(a, b) == Worse(b, a) { BetterIsTotal(a, b); }
    hide Better, Worse;
  }

  lemma RankingIsRanked(candidates: seq<Neighbor>)
    requires DistinctIDs(candidates)
    ensures Ranked(Ranking(candidates))
    ensures forall x :: x in Ranking(candidates) <==> x in candidates
  {
    hide Better;
    BetterIsAnOrder();
    Sorting.SortIsOrdered(candidates, Better);
    var r := Ranking(candidates);
    Sorting.DistinctSurvives(candidates, r);
    forall i, j | 0 <= i < j < |r| ensures Better(r[i], r[j]) {
      assert r[i] in r && r[j] in r;
      BetterIsTotal(r[i], r[j]);
    }
  }

  /** Only the kept prefix matters for the next prefix. */
  lemma {:induction false} FirstOfInsert(k: nat, s: seq<Neighbor>, x: Neighbor)
    ensures First(k, Insert(s, x)) == First(k, Insert(First(k, s), x))
  {
    hide Better;
    if 0 < k < |s| {
      var kept := s[..k];
      if Better(x, s[0]) {
        assert First(k, [x] + s) == [x] + s[..k - 1] == First(k, [x] + kept);
      } else {
        FirstOfInsert(k - 1, s[1..], x);
        assert kept[1..] == First(k - 1, s[1..]);
        FirstAfterHead(k, s[0], Insert(s[1..], x));
        FirstAfterHead(k, s[0], Insert(kept[1..], x));
      }
    }
  }

  lemma FirstAfterHead(k: nat, head: Neighbor, rest: seq<Neighbor>)
    requires k > 0
    ensures First(k, [head] + rest) == [head] + First(k - 1, rest)
  {
  }

  /** In a full ranked list a newcomer counts only if it beats the last, which then
      drops out. */
  lemma {:induction false} InsertIntoFull(s: seq<Neighbor>, x: Neighbor)
    requires s != [] && Ranked(s) && forall y | y in s :: y.id != x.id
    ensures var n := |s|;
            First(n, Insert(s, x)) == if Better(x, s[n - 1]) then Insert(s[..n - 1], x) else s
  {
    hide Better;
    var n := |s|;
    if Better(x, s[0]) {
      if n > 1 { BetterIsTransitive(x, s[0], s[n - 1]); }
      assert First(n, [x] + s) == [x] + s[..n - 1];
    } else if n == 1 {
      assert s == [s[0]];
    } else {
      assert Insert(s, x) == [s[0]] + Insert(s[1..], x);
      FirstAfterHead(n, s[0], Insert(s[1..], x));
      assert s[1..][..n - 2] == s[..n - 1][1..];
      assert Insert(s[..n - 1], x) == [s[0]] + Insert(s[..n - 1][1..], x);
      hide Insert;
      InsertIntoFull(s[1..], x);
      assert s == [s[0]] + s[1..];
    }
  }

  /** The worst element of a bag of ranked neighbors is the last of the ranking. */
  lemma WorstIsLast(bag: multiset<Neighbor>, s: seq<Neighbor>, top: Neighbor)
    requires s != [] && Ranked(s) && bag == multiset(s)
    requires top in bag && forall e | e in bag :: !Worse(e, top)
    ensures top == s[|s| - 1]
    ensures bag - multiset{top} == multiset(s[..|s| - 1])
  {
    var last := s[|s| - 1];
    assert top in s && last in s && last in bag;
    var i :| 0 <= i < |s| && s[i] == top;
    if i < |s| - 1 {
      assert Better(s[i], last) && !Worse(last, top);
      BetterIsTotal(s[i], last);
    }
    hide Better, Worse, Ranked;
    assert s == s[..|s| - 1] + [last];
  }

  /** What one more candidate does to the kept ones. */
  lemma Prefixes(k: nat, seen: seq<Neighbor>, candidate: Neighbor)
    requires k >= 1 && DistinctIDs(seen + [candidate])
    ensures Ranked(Top(k, seen)) && |Top(k, seen)| <= k
    ensures forall y | y in Top(k, seen) :: y.id != candidate.id
    ensures Top(k, seen + [candidate]) == First(k, Insert(Top(k, seen), candidate))
  {
    var more := seen + [candidate];
    assert more[..|seen|] == seen;
    assert DistinctIDs(seen) by {
      forall i, j | 0 <= i < j < |seen| ensures seen[i].id != seen[j].id { assert more[i].id != more[j].id; }
    }
    RankingIsRanked(seen);
    forall y | y in Top(k, seen) ensures y.id != candidate.id {
      assert y in Ranking(seen);
      var i :| 0 <= i < |seen| && seen[i] == y;
      assert more[i].id != more[|seen|].id;
    }
    FirstOfInsert(k, Ranking(seen), candidate);
  }

  /** One candidate offered to the bounded heap. */
  method Offer(selected: multiset<Neighbor>, k: nat, candidate: Neighbor, ghost seen: seq<Neighbor>)
    returns (selected': multiset<Neighbor>)
    requires k >= 1 && DistinctIDs(seen + [candidate])
    requires selected == multiset(Top(k, seen))
    ensures selected' == multiset(Top(k, seen + [candidate]))
  {
    hide Better, Worse, Insert, Top, Ranked, Queues.StrictWeakOrder, DistinctIDs;
    ghost var top := Top(k, seen);
    Prefixes(k, seen, candidate);
    WorseIsAnOrder();
    assert |selected| == |top|;
    selected' := selected;
    if |selected| < k {
      selected' := selected + multiset{candidate};
    } else {
      var worst := Queues.Peek(selected, Worse);
      WorstIsLast(selected, top, worst);
      InsertIntoFull(top, candidate);
      BetterMeans(candidate, worst);
      if candidate.w > worst.w || (candidate.w == worst.w && GoOrder.Less(candidate.id, worst.id)) {
        var popped, rest := Queues.Pop(selected, Worse);
        WorstIsLast(selected, top, popped);
        selected' := rest + multiset{candidate};
      }
    }
  }

  lemma BetterMeans(a: Neighbor, b: Neighbor)
    ensures Better(a, b) <==> a.w > b.w || (a.w == b.w && GoOrder.Less(a.id, b.id))
  {
  }

  lemma WorstOfPrefix(bag: multiset<Neighbor>, s: seq<Neighbor>, m: nat, top: Neighbor)
    requires 0 < m <= |s| && Ranked(s) && bag == multiset(s[..m])
    requires top in bag && forall e | e in bag :: !Worse(e, top)
    ensures top == s[m - 1]
    ensures bag - multiset{top} == multiset(s[..m - 1])
  {
    hide Better, Worse;
    WorstIsLast(bag, s[..m], top);
    assert s[..m][..m - 1] == s[..m - 1];
  }

  /** Pops everything, worst first. */
  method PopAll(selected: multiset<Neighbor>, ghost top: seq<Neighbor>) returns (out: seq<Neighbor>)
    requires Ranked(top) && selected == multiset(top)
    ensures |out| == |top| && forall i | 0 <= i < |out| :: out[i] == top[|top| - 1 - i]
  {
    hide Better, Worse, Ranked, Queues.StrictWeakOrder;
    WorseIsAnOrder();
    var rest := selected;
    out := [];
    ghost var m: nat := |top|;
    assert top[..m] == top;
    while rest != multiset{}
      invariant m <= |top| && |out| == |top| - m
      invariant rest == multiset(top[..m]) && |rest| == m
      invariant forall i | 0 <= i < |out| :: out[i] == top[|top| - 1 - i]
      decreases m
    {
      var popped: Neighbor;
      ghost var before := rest;
      popped, rest := Queues.Pop(rest, Worse);
      WorstOfPrefix(before, top, m, popped);
      out := out + [popped];
      m := m - 1;
    }
  }

  /** Reverses in place, two ends at a time. */
  method Reverse(s: seq<Neighbor>) returns (out: seq<Neighbor>)
    ensures |out| == |s| && forall i | 0 <= i < |out| :: out[i] == s[|s| - 1 - i]
  {
    out := s;
    var l, r := 0, |out| - 1;
    while l < r
      invariant 0 <= l <= |out| == |s| && r == |out| - 1 - l
      invariant forall i | l <= i <= r :: out[i] == s[i]
      invariant forall i | 0 <= i < l :: out[i] == s[|s| - 1 - i]
      invariant forall i | r < i < |s| :: out[i] == s[|s| - 1 - i]
    {
      var a, b := out[l], out[r];
      assert a == s[|s| - 1 - r] && b == s[|s| - 1 - l];
      out := out[l := b][r := a];
      l, r := l + 1, r - 1;
    }
  }

  /** The kept neighbors, best first. */
  method Drain(selected: multiset<Neighbor>, ghost top: seq<Neighbor>) returns (out: seq<Neighbor>)
    requires Ranked(top) && selected == multiset(top)
    ensures out == top
  {
    out := PopAll(selected, top);
    out := Reverse(out);
  }
}
