/** Pseudo-sessions rebuilt from play and O timestamps. */
module Historical {
  import opened Sorting
  import Queues

  /** A play or an O: when, and which of several at that time. */
  datatype Mark = Mark(at: int, ordinal: int)

  predicate MarkBefore(a: Mark, b: Mark) { a.at < b.at || (a.at == b.at && a.ordinal < b.ordinal) }

  lemma MarksAreTotal()
    ensures Total(MarkBefore)
  {
  }

  // ------------------------------------------------------------ pairs in the window

  datatype Candidate = Candidate(distance: int, play: nat, o: nat)

  /** The order in which pairs are tried. */
  predicate Earlier(a: Candidate, b: Candidate) {
    if a.distance != b.distance then a.distance < b.distance
    else if a.play != b.play then a.play < b.play
    else a.o < b.o
  }

  lemma EarlierIsTotal()
    ensures Total(Earlier)
  {
  }

  function Abs(x: int): int { if x < 0 then -x else x }

  function Pair(plays: seq<Mark>, os: seq<Mark>, p: nat, o: nat): Candidate
    requires p < |plays| && o < |os|
  {
    Candidate(Abs(plays[p].at - os[o].at), p, o)
  }

  ghost predicate IsCandidate(c: Candidate, plays: seq<Mark>, os: seq<Mark>, window: int) {
    c.play < |plays| && c.o < |os| && c == Pair(plays, os, c.play, c.o) && c.distance <= window
  }

  // ------------------------------------------------------------ what a matching is

  /** Play p is matched with O m[p]: within the window, and no O twice. */
  ghost predicate Matching(m: map<nat, nat>, plays: seq<Mark>, os: seq<Mark>, window: int) {
    && (forall p | p in m :: p < |plays| && m[p] < |os| && IsCandidate(Pair(plays, os, p, m[p]), plays, os, window))
    && (forall p, q | p in m && q in m && p != q :: m[p] != m[q])
  }

  /** The play or the O of `c` is matched by a pair no later than `c`. */
  ghost predicate Settled(m: map<nat, nat>, c: Candidate, plays: seq<Mark>, os: seq<Mark>) {
    exists p ::
      p in m && p < |plays| && m[p] < |os| && (p == c.play || m[p] == c.o) && !Earlier(c, Pair(plays, os, p, m[p]))
  }

  /** Every pair in the window is settled. */
  ghost predicate Stable(m: map<nat, nat>, plays: seq<Mark>, os: seq<Mark>, window: int) {
    && Matching(m, plays, os, window)
    && forall c | IsCandidate(c, plays, os, window) :: Settled(m, c, plays, os)
  }

  /** In particular no play and O in the window are both left over. */
  lemma StableIsMaximal(m: map<nat, nat>, plays: seq<Mark>, os: seq<Mark>, window: int, p: nat, o: nat)
    requires Stable(m, plays, os, window) && p < |plays| && o < |os| && Abs(plays[p].at - os[o].at) <= window
    ensures p in m || o in m.Values
  {
    assert IsCandidate(Pair(plays, os, p, o), plays, os, window);
  }

  /** `c` is one of the matched pairs. */
  ghost predicate Holds(m: map<nat, nat>, c: Candidate, plays: seq<Mark>, os: seq<Mark>) {
    c.play in m && c.play < |plays| && m[c.play] == c.o < |os| && c == Pair(plays, os, c.play, c.o)
  }

  /** There is only one stable matching. */
  lemma StableIsUnique(m: map<nat, nat>, m': map<nat, nat>, plays: seq<Mark>, os: seq<Mark>, window: int)
    requires Stable(m, plays, os, window) && Stable(m', plays, os, window)
    ensures m == m'
  {
    hide Queues.StrictWeakOrder, Total, Earlier, Settled, IsCandidate, Holds;
    var ours := Pairs(m, plays, os);
    var theirs := Pairs(m', plays, os);
    PairsAre(m, plays, os, window);
    PairsAre(m', plays, os, window);
    var odd := (ours - theirs) + (theirs - ours);
    if some :| some in odd {
      EarlierIsTotal();
      TotalIsWeak(Earlier);
      assert some in multiset(odd);
      var c := Queues.LeastExists(multiset(odd), Earlier);
      assert c in odd && forall d | d in odd :: d in multiset(odd) && !Earlier(d, c);
      if c in ours {
        var d := OddIsLater(m, m', plays, os, window, c);
      } else {
        var d := OddIsLater(m', m, plays, os, window, c);
      }
    }
    SamePairs(m, m', plays, os, window);
  }

  lemma TotalIsWeak<T(!new)>(less: (T, T) -> bool)
    requires Total(less)
    ensures Queues.StrictWeakOrder(less)
  {
  }

  lemma EarlierOrNot(c: Candidate, d: Candidate)
    ensures c == d || Earlier(c, d) || Earlier(d, c)
  {
  }

  ghost function Pairs(m: map<nat, nat>, plays: seq<Mark>, os: seq<Mark>): set<Candidate>
    requires forall p | p in m :: p < |plays| && m[p] < |os|
  {
    set p | p in m :: Pair(plays, os, p, m[p])
  }

  lemma PairsAre(m: map<nat, nat>, plays: seq<Mark>, os: seq<Mark>, window: int)
    requires Matching(m, plays, os, window)
    ensures forall c :: c in Pairs(m, plays, os) <==> Holds(m, c, plays, os)
  {
  }

  /** A pair that only one matching holds comes after another such pair. */
  lemma OddIsLater(m: map<nat, nat>, m': map<nat, nat>, plays: seq<Mark>, os: seq<Mark>, window: int, c: Candidate)
    returns (d: Candidate)
    requires Stable(m, plays, os, window) && Stable(m', plays, os, window)
    requires Holds(m, c, plays, os) && !Holds(m', c, plays, os)
    ensures Holds(m', d, plays, os) && !Holds(m, d, plays, os) && Earlier(d, c)
  {
    hide Earlier, IsCandidate, Stable, Holds;
    HeldIsSettled(m, m', plays, os, window, c);
    d := SettledBy(m', c, plays, os);
    EarlierOrNot(c, d);
    NotBoth(m, c, d, plays, os, window);
  }

  lemma HeldIsSettled(m: map<nat, nat>, m': map<nat, nat>, plays: seq<Mark>, os: seq<Mark>, window: int, c: Candidate)
    requires Stable(m, plays, os, window) && Stable(m', plays, os, window) && Holds(m, c, plays, os)
    ensures Matching(m, plays, os, window) && Settled(m', c, plays, os)
  {
    hide Earlier, Settled;
    assert IsCandidate(c, plays, os, window);
  }

  lemma SettledBy(m: map<nat, nat>, c: Candidate, plays: seq<Mark>, os: seq<Mark>) returns (d: Candidate)
    requires Settled(m, c, plays, os)
    ensures Holds(m, d, plays, os) && (d.play == c.play || d.o == c.o) && !Earlier(c, d)
  {
    hide Earlier;
    var q :| q in m && q < |plays| && m[q] < |os| && (q == c.play || m[q] == c.o)
      && !Earlier(c, Pair(plays, os, q, m[q]));
    d := Pair(plays, os, q, m[q]);
  }

  /** A matching holds no two pairs with an end in common. */
  lemma NotBoth(m: map<nat, nat>, c: Candidate, d: Candidate, plays: seq<Mark>, os: seq<Mark>, window: int)
    requires Matching(m, plays, os, window) && Holds(m, c, plays, os) && (c.play == d.play || c.o == d.o) && c != d
    ensures !Holds(m, d, plays, os)
  {
  }

  lemma SamePairs(m: map<nat, nat>, m': map<nat, nat>, plays: seq<Mark>, os: seq<Mark>, window: int)
    requires Matching(m, plays, os, window) && Matching(m', plays, os, window)
    requires Pairs(m, plays, os) == Pairs(m', plays, os)
    ensures m == m'
  {
    PairsAre(m, plays, os, window);
    PairsAre(m', plays, os, window);
    forall p | p in m ensures p in m' && m'[p] == m[p] {
      assert Holds(m, Pair(plays, os, p, m[p]), plays, os);
    }
    forall p | p in m' ensures p in m {
      assert Holds(m', Pair(plays, os, p, m'[p]), plays, os);
    }
  }

  // ------------------------------------------------------------ matchOs

  method PairsInWindow(plays: seq<Mark>, os: seq<Mark>, window: int) returns (candidates: seq<Candidate>)
    ensures forall c :: c in candidates <==> IsCandidate(c, plays, os, window)
  {
    candidates := [];
    for p := 0 to |plays|
      invariant forall c :: c in candidates <==> IsCandidate(c, plays, os, window) && c.play < p
    {
      for o := 0 to |os|
        invariant forall c ::
                  c in candidates <==> IsCandidate(c, plays, os, window) && (c.play < p || (c.play == p && c.o < o))
      {
        var distance := Abs(plays[p].at - os[o].at);
        if distance <= window {
          candidates := candidates + [Candidate(distance, p, o)];
        }
      }
    }
  }

  /** After the pairs before the k-th are tried. */
  ghost predicate Tried(m: map<nat, nat>, candidates: seq<Candidate>, k: nat, plays: seq<Mark>, os: seq<Mark>,
                        window: int)
    requires k <= |candidates|
  {
    && Matching(m, plays, os, window)
    && (forall p | p in m :: Pair(plays, os, p, m[p]) in candidates[..k])
    && forall j | 0 <= j < k :: Settled(m, candidates[j], plays, os)
  }

  method MatchOs(plays: seq<Mark>, os: seq<Mark>, window: int)
    returns (matchedPlays: map<nat, nat>, matchedOs: set<nat>)
    ensures Stable(matchedPlays, plays, os, window)
    ensures matchedOs == matchedPlays.Values
  {
    var candidates := PairsInWindow(plays, os, window);
    hide Earlier, Queues.StrictWeakOrder, Total, Settled, Pair;
    EarlierIsTotal();
    TotalIsWeak(Earlier);
    SortIsOrdered(candidates, Earlier);
    candidates := Sort(candidates, Earlier);
    matchedPlays, matchedOs := map[], {};
    for k := 0 to |candidates|
      invariant Tried(matchedPlays, candidates, k, plays, os, window)
      invariant matchedOs == matchedPlays.Values
    {
      hide Tried, IsCandidate;
      var c := candidates[k];
      assert c in candidates;
      if c.play !in matchedPlays && c.o !in matchedOs {
        MatchOne(matchedPlays, candidates, k, plays, os, window);
        matchedPlays := matchedPlays[c.play := c.o];
        matchedOs := matchedOs + {c.o};
      } else {
        TakenIsSettled(matchedPlays, candidates, k, plays, os, window);
      }
    }
    forall c | IsCandidate(c, plays, os, window) ensures Settled(matchedPlays, c, plays, os) {
      assert c in candidates;
    }
  }

  /** Taking a free pair keeps the matching and settles the pair. */
  lemma MatchOne(m: map<nat, nat>, candidates: seq<Candidate>, k: nat, plays: seq<Mark>, os: seq<Mark>, window: int)
    requires k < |candidates| && Tried(m, candidates, k, plays, os, window)
             && IsCandidate(candidates[k], plays, os, window)
    requires candidates[k].play !in m && candidates[k].o !in m.Values
    ensures var m' := m[candidates[k].play := candidates[k].o];
            m'.Values == m.Values + {candidates[k].o} && Tried(m', candidates, k + 1, plays, os, window)
  {
    hide Earlier, Pair, Matching, Settled;
    var c := candidates[k];
    var m' := m[c.play := c.o];
    ValuesOfMore(m, c.play, c.o);
    MatchingGrows(m, c, plays, os, window);
    MatchingIsWithin(m, plays, os, window);
    MatchingIsWithin(m', plays, os, window);
    PairIsCandidate(c, plays, os, window);
    forall p | p in m' ensures Pair(plays, os, p, m'[p]) in candidates[..k + 1] {
      if p == c.play {
        assert candidates[..k + 1][k] == c;
      } else {
        assert Pair(plays, os, p, m[p]) in candidates[..k];
      }
    }
    forall j | 0 <= j < k + 1 ensures Settled(m', candidates[j], plays, os) {
      if j == k {
        TakenSettles(m', c, plays, os, window);
      } else {
        StaysSettled(m, m', candidates[j], plays, os);
      }
    }
  }

  lemma PairIsCandidate(c: Candidate, plays: seq<Mark>, os: seq<Mark>, window: int)
    requires IsCandidate(c, plays, os, window)
    ensures c.play < |plays| && c.o < |os| && Pair(plays, os, c.play, c.o) == c
  {
  }

  lemma MatchingIsWithin(m: map<nat, nat>, plays: seq<Mark>, os: seq<Mark>, window: int)
    requires Matching(m, plays, os, window)
    ensures forall p | p in m :: p < |plays| && m[p] < |os|
  {
  }

  lemma MatchingGrows(m: map<nat, nat>, c: Candidate, plays: seq<Mark>, os: seq<Mark>, window: int)
    requires Matching(m, plays, os, window) && IsCandidate(c, plays, os, window)
    requires c.play !in m && c.o !in m.Values
    ensures Matching(m[c.play := c.o], plays, os, window)
  {
    hide Pair;
    forall p | p in m ensures m[p] != c.o { assert m[p] in m.Values; }
  }

  lemma TakenSettles(m: map<nat, nat>, c: Candidate, plays: seq<Mark>, os: seq<Mark>, window: int)
    requires IsCandidate(c, plays, os, window) && c.play in m && m[c.play] == c.o
    ensures Settled(m, c, plays, os)
  {
    hide Earlier;
    NotEarlierThanItself(c);
  }

  lemma NotEarlierThanItself(c: Candidate)
    ensures !Earlier(c, c)
  {
  }

  lemma ValuesOfMore(m: map<nat, nat>, p: nat, o: nat)
    requires p !in m
    ensures m[p := o].Values == m.Values + {o}
  {
    var m' := m[p := o];
    forall v ensures v in m'.Values <==> v in m.Values + {o} {
      if v == o { assert m'[p] == v; }
      if v in m.Values {
        var q :| q in m && m[q] == v;
        assert m'[q] == v;
      }
    }
  }

  lemma StaysSettled(m: map<nat, nat>, m': map<nat, nat>, c: Candidate, plays: seq<Mark>, os: seq<Mark>)
    requires Settled(m, c, plays, os) && forall p | p in m :: p in m' && m'[p] == m[p]
    ensures Settled(m', c, plays, os)
  {
    hide Earlier, Pair;
  }

  /** A pair with a taken end comes after the pair that took it. */
  lemma TakenIsSettled(m: map<nat, nat>, candidates: seq<Candidate>, k: nat, plays: seq<Mark>, os: seq<Mark>,
                       window: int)
    requires k < |candidates| && Ordered(candidates, Earlier) && Tried(m, candidates, k, plays, os, window)
    requires candidates[k].play in m || candidates[k].o in m.Values
    ensures Tried(m, candidates, k + 1, plays, os, window)
  {
    hide Earlier, Pair, Matching, Settled;
    MatchingIsWithin(m, plays, os, window);
    var c := candidates[k];
    var p :| p in m && (p == c.play || m[p] == c.o);
    var j :| 0 <= j < k && candidates[j] == Pair(plays, os, p, m[p]);
    assert !Earlier(c, candidates[j]);
    SettledThere(m, c, p, plays, os);
    assert forall d | d in candidates[..k] :: d in candidates[..k + 1];
  }

  lemma SettledThere(m: map<nat, nat>, c: Candidate, p: nat, plays: seq<Mark>, os: seq<Mark>)
    requires p in m && p < |plays| && m[p] < |os| && (p == c.play || m[p] == c.o)
             && !Earlier(c, Pair(plays, os, p, m[p]))
    ensures Settled(m, c, plays, os)
  {
    hide Earlier, Pair;
  }
}
