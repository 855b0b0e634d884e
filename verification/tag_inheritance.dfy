/** Unanswered tags inherit from the nearest generation of ancestors that holds an
    answer. The parent graph may be cyclic. */
module TagInheritance {
  import GoOrder

  type Graph = map<string, seq<string>>

  function Parents(parents: Graph, tag: string): seq<string> {
    if tag in parents then parents[tag] else []
  }

  // ------------------------------------------------------------ distances

  /** A walk of k parent steps leads from one tag to another. */
  ghost predicate Walk(parents: Graph, tag: string, to: string, k: nat)
    decreases k
  {
    if k == 0 then to == tag
    else exists mid :: Walk(parents, tag, mid, k - 1) && to in Parents(parents, mid)
  }

  /** No walk is shorter than k, and one has k steps. */
  ghost predicate Generation(parents: Graph, tag: string, to: string, k: nat) {
    Walk(parents, tag, to, k) && forall j: nat | j < k :: !Walk(parents, tag, to, j)
  }

  ghost predicate Within(parents: Graph, tag: string, to: string, k: nat) {
    exists j: nat :: j < k && Walk(parents, tag, to, j)
  }

  /** The answered tags of generation k. */
  ghost predicate AreAnswered(sources: seq<string>, parents: Graph, answers: map<string, real>, tag: string, k: nat) {
    forall t :: t in sources <==> t in answers && Generation(parents, tag, t, k)
  }

  ghost predicate NoneBefore(parents: Graph, answers: map<string, real>, tag: string, k: nat) {
    forall t, j: nat | t in answers && j < k :: !Walk(parents, tag, t, j)
  }

  /** The sources of a tag: none when no answered tag is an ancestor, else all the
      answered tags of the first generation that has any. */
  ghost predicate AreNearest(sources: seq<string>, parents: Graph, answers: map<string, real>, tag: string) {
    && GoOrder.StrictlyAscending(sources)
    && if sources == [] then forall t, k: nat | t in answers :: !Walk(parents, tag, t, k)
       else exists k: nat ::
         k >= 1 && AreAnswered(sources, parents, answers, tag, k) && NoneBefore(parents, answers, tag, k)
  }

  /** Every tag that has a walk at all has a generation. */
  lemma {:induction false} WalkHasGeneration(parents: Graph, tag: string, to: string, k: nat) returns (g: nat)
    requires Walk(parents, tag, to, k)
    ensures g <= k && Generation(parents, tag, to, g)
    decreases k
  {
    hide Walk;
    if j: nat :| j < k && Walk(parents, tag, to, j) {
      g := WalkHasGeneration(parents, tag, to, j);
    } else {
      g := k;
    }
  }

  /** Generation k is what the parents of generation k - 1 add. */
  lemma NextGeneration(parents: Graph, tag: string, to: string, k: nat)
    requires k >= 1
    ensures Generation(parents, tag, to, k) <==>
              !Within(parents, tag, to, k)
                && exists mid :: Generation(parents, tag, mid, k - 1) && to in Parents(parents, mid)
  {
    hide Walk, Parents;
    if Generation(parents, tag, to, k) {
      var mid := LastStep(parents, tag, to, k);
      var g := WalkHasGeneration(parents, tag, mid, k - 1);
      OneStepMore(parents, tag, mid, to, g);
    }
    if mid :| Generation(parents, tag, mid, k - 1) && to in Parents(parents, mid) {
      OneStepMore(parents, tag, mid, to, k - 1);
    }
  }

  lemma LastStep(parents: Graph, tag: string, to: string, k: nat) returns (mid: string)
    requires k >= 1 && Walk(parents, tag, to, k)
    ensures Walk(parents, tag, mid, k - 1) && to in Parents(parents, mid)
  {
    mid :| Walk(parents, tag, mid, k - 1) && to in Parents(parents, mid);
  }

  lemma OneStepMore(parents: Graph, tag: string, mid: string, to: string, k: nat)
    requires Walk(parents, tag, mid, k) && to in Parents(parents, mid)
    ensures Walk(parents, tag, to, k + 1)
  {
  }

  lemma WithinOneMore(parents: Graph, tag: string, to: string, k: nat)
    ensures Within(parents, tag, to, k + 1) <==> Within(parents, tag, to, k) || Generation(parents, tag, to, k)
  {
    hide Walk;
    if j: nat :| j < k + 1 && Walk(parents, tag, to, j) {
      var g := WalkHasGeneration(parents, tag, to, j);
    }
  }

  /** When a generation is empty there is nothing beyond it. */
  lemma {:induction false} NothingBeyond(parents: Graph, tag: string, to: string, k: nat, n: nat)
    requires k >= 1 && forall t :: !Generation(parents, tag, t, k)
    requires Walk(parents, tag, to, n)
    ensures Within(parents, tag, to, k)
    decreases n
  {
    hide Generation;
    if n > 0 {
      var mid :| Walk(parents, tag, mid, n - 1) && to in Parents(parents, mid);
      NothingBeyond(parents, tag, mid, k, n - 1);
      var j: nat :| j < k && Walk(parents, tag, mid, j);
      OneStepMore(parents, tag, mid, to, j);
      if j + 1 == k {
        WithinOneMore(parents, tag, to, k);
      }
    }
  }

  // ------------------------------------------------------------ the frontier loop

  /** One round: the unseen tags of the frontier, which of them have answers, and all
      their parents. */
  method Round(frontier: seq<string>, seen: set<string>, answers: map<string, real>, parents: Graph)
    returns (seen': set<string>, sources: seq<string>, next: seq<string>)
    ensures forall t :: t in seen' <==> t in seen || t in frontier
    ensures forall t :: t in sources <==> t in frontier && t !in seen && t in answers
    ensures forall i, j | 0 <= i < j < |sources| :: sources[i] != sources[j]
    ensures forall t :: t in next <==> exists mid :: mid in frontier && mid !in seen && t in Parents(parents, mid)
    ensures seen' == seen ==> next == []
  {
    seen', sources, next := seen, [], [];
    for i := 0 to |frontier|
      invariant forall t :: t in seen' <==> t in seen || t in frontier[..i]
      invariant forall t :: t in sources <==> t in frontier[..i] && t !in seen && t in answers
      invariant forall i, j | 0 <= i < j < |sources| :: sources[i] != sources[j]
      invariant forall t ::
                t in next <==> exists mid :: mid in frontier[..i] && mid !in seen && t in Parents(parents, mid)
      invariant seen' == seen ==> next == []
    {
      var t := frontier[i];
      if t in seen' { continue; }
      seen' := seen' + {t};
      if t in answers { sources := sources + [t]; }
      next := next + Parents(parents, t);
    }
    assert frontier[..|frontier|] == frontier;
  }

  /** Before round k: what is seen, and what the frontier holds. */
  ghost predicate Front(frontier: seq<string>, seen: set<string>, parents: Graph, tag: string, k: nat) {
    && k >= 1
    && (forall t :: t in seen <==> Within(parents, tag, t, k))
    && forall t :: t in frontier <==> exists mid :: Generation(parents, tag, mid, k - 1) && t in Parents(parents, mid)
  }

  lemma FrontAdds(frontier: seq<string>, seen: set<string>, parents: Graph, tag: string, k: nat)
    requires Front(frontier, seen, parents, tag, k)
    ensures forall t :: t in frontier && t !in seen <==> Generation(parents, tag, t, k)
    ensures forall t :: t in seen || t in frontier <==> Within(parents, tag, t, k + 1)
  {
    hide Generation, Within;
    forall t ensures t in frontier && t !in seen <==> Generation(parents, tag, t, k) {
      NextGeneration(parents, tag, t, k);
    }
    forall t ensures t in seen || t in frontier <==> Within(parents, tag, t, k + 1) {
      NextGeneration(parents, tag, t, k);
      WithinOneMore(parents, tag, t, k);
    }
  }

  lemma FirstFront(parents: Graph, tag: string)
    ensures Front(Parents(parents, tag), {tag}, parents, tag, 1)
  {
    forall t ensures t in {tag} <==> Within(parents, tag, t, 1) {
      assert Walk(parents, tag, tag, 0);
    }
    assert Generation(parents, tag, tag, 0);
  }

  lemma NextFront(frontier: seq<string>, seen: set<string>, seen': set<string>, next: seq<string>, parents: Graph,
                  tag: string, k: nat)
    requires Front(frontier, seen, parents, tag, k)
    requires forall t :: t in seen' <==> t in seen || t in frontier
    requires forall t :: t in next <==> exists mid :: mid in frontier && mid !in seen && t in Parents(parents, mid)
    ensures Front(next, seen', parents, tag, k + 1)
  {
    hide Generation, Within;
    FrontAdds(frontier, seen, parents, tag, k);
  }

  /** All the tags the graph mentions. */
  ghost function Mentioned(parents: Graph): set<string> {
    set tag, p | tag in parents && p in parents[tag] :: p
  }

  /** What is seen can only grow up to the mentioned tags. */
  lemma SeenShrinksRest(parents: Graph, tag: string, frontier: seq<string>, seen: set<string>, seen': set<string>)
    requires forall t | t in frontier :: t in Mentioned(parents)
    requires forall t :: t in seen' <==> t in seen || t in frontier
    ensures seen' == seen || |Mentioned(parents) - seen'| < |Mentioned(parents) - seen|
  {
    if x :| x in seen' && x !in seen {
      var rest, rest' := Mentioned(parents) - seen, Mentioned(parents) - seen';
      assert x in rest && rest' <= rest - {x};
      Smaller(rest', rest - {x});
    } else {
      assert seen' == seen;
    }
  }

  lemma {:induction false} Smaller(a: set<string>, b: set<string>)
    requires a <= b
    ensures |a| <= |b|
  {
    if a != {} {
      var x :| x in a;
      Smaller(a - {x}, b - {x});
    }
  }

  lemma ParentsAreMentioned(parents: Graph, mid: string)
    ensures forall t | t in Parents(parents, mid) :: t in Mentioned(parents)
  {
  }

  /** The nearest answered ancestors of a tag without an answer of its own. */
  method NearestSources(parents: Graph, answers: map<string, real>, tag: string) returns (sources: seq<string>)
    requires tag !in answers
    ensures AreNearest(sources, parents, answers, tag)
  {
    hide Generation, Within, Walk, GoOrder.Less, Mentioned, Parents;
    var seen := {tag};
    var frontier := Parents(parents, tag);
    sources := [];
    ghost var k := 1;
    FirstFront(parents, tag);
    ParentsAreMentioned(parents, tag);
    NoneAtStart(parents, answers, tag);
    while |frontier| > 0 && |sources| == 0
      invariant forall i, j | 0 <= i < j < |sources| :: sources[i] != sources[j]
      invariant forall t | t in frontier :: t in Mentioned(parents)
      invariant sources == [] ==> Front(frontier, seen, parents, tag, k) && NoneBefore(parents, answers, tag, k)
      invariant sources != [] ==>
                AreAnswered(sources, parents, answers, tag, k) && NoneBefore(parents, answers, tag, k) && k >= 1
      decreases |Mentioned(parents) - seen|, |frontier|
    {
      var seen', next;
      seen', sources, next := Round(frontier, seen, answers, parents);
      FrontAdds(frontier, seen, parents, tag, k);
      SeenShrinksRest(parents, tag, frontier, seen, seen');
      if sources == [] {
        NextFront(frontier, seen, seen', next, parents, tag, k);
        NoneYet(parents, answers, tag, k);
        k := k + 1;
      }
      forall t | t in next ensures t in Mentioned(parents) {
        var mid :| mid in frontier && mid !in seen && t in Parents(parents, mid);
        ParentsAreMentioned(parents, mid);
      }
      frontier, seen := next, seen';
    }
    if sources == [] {
      FrontEnds(frontier, seen, parents, answers, tag, k);
    }
    var listed := sources;
    sources := GoOrder.SortedDistinct(listed);
    assert sources != [] ==> sources[0] in sources;
    assert listed != [] ==> listed[0] in listed;
    assert listed != [] ==> AreAnswered(sources, parents, answers, tag, k);
  }

  lemma NoneAtStart(parents: Graph, answers: map<string, real>, tag: string)
    requires tag !in answers
    ensures NoneBefore(parents, answers, tag, 1)
  {
  }

  lemma NoneYet(parents: Graph, answers: map<string, real>, tag: string, k: nat)
    requires NoneBefore(parents, answers, tag, k) && forall t | t in answers :: !Generation(parents, tag, t, k)
    ensures NoneBefore(parents, answers, tag, k + 1)
  {
    hide Walk;
  }

  lemma FrontEnds(frontier: seq<string>, seen: set<string>, parents: Graph, answers: map<string, real>, tag: string,
                  k: nat)
    requires Front(frontier, seen, parents, tag, k) && NoneBefore(parents, answers, tag, k) && frontier == []
    ensures forall t, n: nat | t in answers :: !Walk(parents, tag, t, n)
  {
    hide Walk, Generation;
    FrontAdds(frontier, seen, parents, tag, k);
    forall t, n: nat | t in answers ensures !Walk(parents, tag, t, n) {
      if Walk(parents, tag, t, n) { NothingBeyond(parents, tag, t, k, n); }
    }
  }

  /** The sources are a function of the graph and the answers. */
  lemma NearestIsUnique(a: seq<string>, b: seq<string>, parents: Graph, answers: map<string, real>, tag: string)
    requires AreNearest(a, parents, answers, tag) && AreNearest(b, parents, answers, tag)
    ensures forall t :: t in a <==> t in b
  {
    hide Walk, GoOrder.Less;
    if a == [] {
      if b != [] { NearestReaches(b, parents, answers, tag); }
    } else if b == [] {
      NearestReaches(a, parents, answers, tag);
    } else {
      var k: nat :| AreAnswered(a, parents, answers, tag, k) && NoneBefore(parents, answers, tag, k);
      var j: nat :| AreAnswered(b, parents, answers, tag, j) && NoneBefore(parents, answers, tag, j);
      NearestIsAt(a, parents, answers, tag, k, j);
      NearestIsAt(b, parents, answers, tag, j, k);
    }
  }

  lemma NearestIsAt(sources: seq<string>, parents: Graph, answers: map<string, real>, tag: string, k: nat, j: nat)
    requires sources != [] && AreAnswered(sources, parents, answers, tag, k) && NoneBefore(parents, answers, tag, j)
    ensures k >= j
  {
    assert sources[0] in sources;
    assert Walk(parents, tag, sources[0], k);
  }

  lemma NearestReaches(sources: seq<string>, parents: Graph, answers: map<string, real>, tag: string)
    requires AreNearest(sources, parents, answers, tag) && sources != []
    ensures exists t, k: nat :: t in answers && Walk(parents, tag, t, k)
  {
    hide Walk, GoOrder.Less;
    var k: nat :| AreAnswered(sources, parents, answers, tag, k);
    assert sources[0] in sources;
  }
}
