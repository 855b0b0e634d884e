/** The greedy lane ordering, stated from scratch: after every pick the utility of
    every candidate is recomputed from the list of picks, and the next pick is the
    least (-utility, scene, lane) of the first non-empty pool. */
module OrderingSpec {
  import opened Options
  import GoOrder
  import RealSums

  datatype Key = Key(sceneID: string, lane: string)

  /** `dimension`, `facet` and `entity` are what the lane rotations read from a
      candidate's qualification ("" when absent). */
  datatype Candidate = Candidate(
    sceneID: string,
    lane: string,
    laneValue: real,
    performers: seq<string>,
    studioGroup: string,
    content: map<string, real>,
    dimension: string,
    facet: string,
    entity: string)
  {
    function KeyOf(): Key { Key(sceneID, lane) }
  }

  datatype Selector = All | Of(kind: string, value: string)

  const PERFORMER_PENALTY := 0.06
  const STUDIO_PENALTY := 0.08
  const CONTENT_PENALTY := 0.14
  const UNCOVERED_BONUS := 0.03

  /** One ordering to compute. `extras` names the selector a candidate has
      beside "all", if any. */
  datatype Problem = Problem(
    byKey: map<Key, Candidate>,
    varied: bool,
    extras: map<Key, Selector>)
  {
    ghost predicate Valid() {
      forall k | k in byKey :: byKey[k].KeyOf() == k
    }

    predicate Selects(s: Selector, k: Key) {
      s == All || (k in extras && extras[k] == s)
    }

    ghost function SceneIDs(): set<string> {
      set k | k in byKey :: k.sceneID
    }

    /** What the picks so far have shown. */
    ghost function SeenPerformers(picks: seq<Key>): set<string> {
      set k, x | k in picks && k in byKey && x in byKey[k].performers :: x
    }

    ghost function SeenStudios(picks: seq<Key>): set<string> {
      set k | k in picks && k in byKey && byKey[k].studioGroup != "" :: byKey[k].studioGroup
    }

    ghost function CoveredFeatures(picks: seq<Key>): set<string> {
      set k, f | k in picks && k in byKey && f in byKey[k].content :: f
    }

    ghost predicate PerformerRepeats(picks: seq<Key>, c: Candidate) {
      exists x :: x in c.performers && x in SeenPerformers(picks)
    }

    ghost predicate StudioRepeats(picks: seq<Key>, c: Candidate) {
      c.studioGroup in SeenStudios(picks)
    }

    /** A candidate's utility given what has been seen. */
    ghost function UtilityGiven(performers: set<string>, studios: set<string>, covered: set<string>,
                                c: Candidate): real {
      if !varied then c.laneValue
      else
        c.laneValue
        + (if c.content != map[] then UNCOVERED_BONUS else 0.0)
        - (if exists x :: x in c.performers && x in performers then PERFORMER_PENALTY else 0.0)
        - (if c.studioGroup in studios then STUDIO_PENALTY else 0.0)
        - (CONTENT_PENALTY + UNCOVERED_BONUS) * CoveredShare(c.content, covered)
    }

    ghost function Utility(picks: seq<Key>, k: Key): real
      requires k in byKey
    {
      UtilityGiven(SeenPerformers(picks), SeenStudios(picks), CoveredFeatures(picks), byKey[k])
    }

    /** Whether `k` may be picked next, from the pool of `selector`. */
    ghost predicate Eligible(selected: set<string>, previous: Option<Key>, selector: Selector, allowAdjacent: bool,
                             k: Key)
      requires previous.Some? ==> previous.value in byKey
    {
      && k in byKey
      && k.sceneID !in selected
      && Selects(selector, k)
      && !(varied && previous.Some? && !allowAdjacent && SharePerformer(byKey[k], byKey[previous.value]))
    }

    /** `k` is the least (-utility, scene, lane) of its pool. */
    ghost predicate IsBest(utilities: map<Key, real>, selected: set<string>, previous: Option<Key>,
                           selector: Selector, allowAdjacent: bool, k: Key)
      requires previous.Some? ==> previous.value in byKey
      requires utilities.Keys == byKey.Keys
    {
      && Eligible(selected, previous, selector, allowAdjacent, k)
      && forall j | j != k && Eligible(selected, previous, selector, allowAdjacent, j) ::
           Before(utilities[k], k, utilities[j], j)
    }

    ghost predicate ValidPicks(picks: seq<Key>) {
      forall i | 0 <= i < |picks| :: picks[i] in byKey
    }

    ghost function Utilities(picks: seq<Key>): map<Key, real> {
      map k | k in byKey :: Utility(picks, k)
    }

    ghost function Best(picks: seq<Key>, selector: Selector, allowAdjacent: bool): (best: Option<Key>)
      requires ValidPicks(picks)
      ensures best.Some? ==> best.value in byKey && best.value.sceneID !in Scenes(picks)
    {
      if exists k :: IsBest(Utilities(picks), Scenes(picks), Last(picks), selector, allowAdjacent, k) then
        var k :| IsBest(Utilities(picks), Scenes(picks), Last(picks), selector, allowAdjacent, k);
        Some(k)
      else None
    }

    /** The next pick: the wanted pool, else everything, else everything with
        adjacency allowed. */
    ghost function Choice(wanted: Selector, picks: seq<Key>): (choice: Option<Key>)
      requires ValidPicks(picks)
      ensures choice.Some? ==> choice.value in byKey && choice.value.sceneID !in Scenes(picks)
    {
      var first := Best(picks, wanted, false);
      if first.Some? then first
      else
        var second := Best(picks, All, false);
        if second.Some? then second else Best(picks, All, true)
    }

    /** The naive greedy from the given picks on; the positions ask
        for the rotation's selectors in turn. */
    ghost function Greedy(rotation: seq<Selector>, picks: seq<Key>): (all: seq<Key>)
      requires ValidPicks(picks)
      ensures ValidPicks(all) && picks <= all
      decreases SceneIDs() - Scenes(picks)
    {
      var next := Choice(Wanted(rotation, |picks|), picks);
      if next.None? then picks
      else
        assert next.value.sceneID in SceneIDs() - Scenes(picks);
        assert Scenes(picks + [next.value]) == Scenes(picks) + {next.value.sceneID};
        Greedy(rotation, picks + [next.value])
    }

    /** The same with a function of the position. */
    ghost function GreedyBy(wanted: nat -> Selector, picks: seq<Key>): (all: seq<Key>)
      requires ValidPicks(picks)
      decreases SceneIDs() - Scenes(picks)
    {
      var next := Choice(wanted(|picks|), picks);
      if next.None? then picks
      else
        assert next.value.sceneID in SceneIDs() - Scenes(picks);
        assert Scenes(picks + [next.value]) == Scenes(picks) + {next.value.sceneID};
        GreedyBy(wanted, picks + [next.value])
    }
  }

  /** The selector a position asks for first: the rotation's, in turn, or everything
      when nothing rotates. RotationIsAnyFunction shows that a rotation covers every
      function of the position. */
  function Wanted(rotation: seq<Selector>, position: nat): Selector {
    if rotation == [] then All else rotation[position % |rotation|]
  }

  function Scenes(picks: seq<Key>): set<string> {
    set k | k in picks :: k.sceneID
  }

  function Last(picks: seq<Key>): Option<Key> {
    if picks == [] then None else Some(picks[|picks| - 1])
  }

  predicate SharePerformer(a: Candidate, b: Candidate) {
    exists x :: x in a.performers && x in b.performers
  }

  /** heapQueue.Less on (-utility, scene, lane). */
  predicate Before(u: real, k: Key, v: real, j: Key) {
    if -u != -v then -u < -v
    else if k.sceneID != j.sceneID then GoOrder.Less(k.sceneID, j.sceneID)
    else GoOrder.Less(k.lane, j.lane)
  }

  /** The content mass of a set of a candidate's features. */
  ghost function Mass(content: map<string, real>, features: set<string>): real
    requires features <= content.Keys
  {
    RealSums.SumOver(Magnitudes(content), features)
  }

  function Magnitudes(content: map<string, real>): map<string, real> {
    map f | f in content :: RealSums.Abs(content[f])
  }

  /** The share of a candidate's content mass that is already covered. */
  ghost function CoveredShare(content: map<string, real>, covered: set<string>): real {
    var total := Mass(content, content.Keys);
    if total > 0.0 then Part(Mass(content, content.Keys * covered), total) else 0.0
  }

  function Part(a: real, total: real): real
    requires total > 0.0
  {
    a / total
  }

  lemma PartsAdd(a: real, b: real, total: real)
    requires total > 0.0
    ensures Part(a + b, total) == Part(a, total) + Part(b, total)
  {
  }

  // ---------------------------------------------------------------- the order

  lemma BeforeIsTotal(u: real, k: Key, v: real, j: Key)
    ensures k == j || Before(u, k, v, j) || Before(v, j, u, k)
    ensures !(Before(u, k, v, j) && Before(v, j, u, k))
  {
    GoOrder.Total(k.sceneID, j.sceneID);
    GoOrder.Total(k.lane, j.lane);
    if Before(u, k, v, j) && Before(v, j, u, k) {
      if k.sceneID != j.sceneID { GoOrder.Asymmetric(k.sceneID, j.sceneID); }
      else { GoOrder.Asymmetric(k.lane, j.lane); }
    }
  }

  lemma BeforeIsTransitive(u: real, k: Key, v: real, j: Key, w: real, i: Key)
    requires Before(u, k, v, j) && Before(v, j, w, i)
    ensures Before(u, k, w, i)
  {
    if u == v && v == w {
      if k.sceneID != j.sceneID && j.sceneID != i.sceneID {
        GoOrder.Transitive(k.sceneID, j.sceneID, i.sceneID);
        if k.sceneID == i.sceneID { GoOrder.Irreflexive(k.sceneID); }
      } else if k.sceneID == j.sceneID && j.sceneID == i.sceneID {
        GoOrder.Transitive(k.lane, j.lane, i.lane);
      }
    }
  }

  // ------------------------------------------------------------- content mass

  lemma MassOfAdded(content: map<string, real>, features: set<string>, f: string)
    requires features <= content.Keys && f in features
    ensures Mass(content, features) == RealSums.Abs(content[f]) + Mass(content, features - {f})
  {
    RealSums.SumOverTakesOut(Magnitudes(content), features, f);
  }

  lemma {:induction false} MassIsNonNegative(content: map<string, real>, features: set<string>)
    requires features <= content.Keys
    ensures Mass(content, features) >= 0.0
    decreases features
  {
    if features != {} {
      var f :| f in features;
      MassOfAdded(content, features, f);
      MassIsNonNegative(content, features - {f});
    }
  }

  lemma {:induction false} MassIsMonotone(content: map<string, real>, part: set<string>, whole: set<string>)
    requires part <= whole <= content.Keys
    ensures Mass(content, part) <= Mass(content, whole)
    decreases whole
  {
    if part != whole {
      var f :| f in whole && f !in part;
      MassOfAdded(content, whole, f);
      MassIsMonotone(content, part, whole - {f});
    }
  }

  lemma RatioOfPart(part: real, total: real)
    requires 0.0 <= part <= total && total > 0.0
    ensures 0.0 <= part / total <= 1.0
  {
  }

  lemma CoveredShareIsAShare(content: map<string, real>, covered: set<string>)
    ensures 0.0 <= CoveredShare(content, covered) <= 1.0
  {
    MassIsNonNegative(content, content.Keys * covered);
    MassIsMonotone(content, content.Keys * covered, content.Keys);
    var total, part := Mass(content, content.Keys), Mass(content, content.Keys * covered);
    if total > 0.0 { RatioOfPart(part, total); }
  }

  /** Covering one more feature adds exactly that feature's share. */
  lemma CoveredShareGrows(content: map<string, real>, covered: set<string>, f: string)
    requires f !in covered
    ensures CoveredShare(content, covered + {f}) ==
            CoveredShare(content, covered) +
            (if f in content && Mass(content, content.Keys) > 0.0
             then Part(RealSums.Abs(content[f]), Mass(content, content.Keys)) else 0.0)
  {
    hide Mass, Part, RealSums.Abs;
    if f in content {
      MassOfAdded(content, content.Keys * (covered + {f}), f);
      assert content.Keys * (covered + {f}) - {f} == content.Keys * covered;
      if Mass(content, content.Keys) > 0.0 {
        PartsAdd(RealSums.Abs(content[f]), Mass(content, content.Keys * covered), Mass(content, content.Keys));
      }
    } else {
      assert content.Keys * (covered + {f}) == content.Keys * covered;
    }
  }

  // --------------------------------------------------------- the naive greedy

  lemma {:induction false} LeastOf(p: Problem, utilities: map<Key, real>, pool: set<Key>) returns (k: Key)
    requires pool != {} && pool <= p.byKey.Keys == utilities.Keys
    ensures k in pool && forall j | j in pool && j != k :: Before(utilities[k], k, utilities[j], j)
    decreases pool
  {
    k :| k in pool;
    if pool != {k} {
      var j := LeastOf(p, utilities, pool - {k});
      BeforeIsTotal(utilities[k], k, utilities[j], j);
      if Before(utilities[j], j, utilities[k], k) {
        k := j;
      } else {
        forall i | i in pool && i != k ensures Before(utilities[k], k, utilities[i], i) {
          if i != j { BeforeIsTransitive(utilities[k], k, utilities[j], j, utilities[i], i); }
        }
      }
    }
  }

  lemma BestIsUnique(p: Problem, utilities: map<Key, real>, selected: set<string>, previous: Option<Key>,
                     selector: Selector, allowAdjacent: bool, k: Key, j: Key)
    requires previous.Some? ==> previous.value in p.byKey
    requires utilities.Keys == p.byKey.Keys
    requires p.IsBest(utilities, selected, previous, selector, allowAdjacent, k)
    requires p.IsBest(utilities, selected, previous, selector, allowAdjacent, j)
    ensures k == j
  {
    BeforeIsTotal(utilities[k], k, utilities[j], j);
  }

  /** Best finds a pick exactly when the pool is not empty, and the pick is the
      pool's least candidate. */
  lemma BestMeaning(p: Problem, picks: seq<Key>, selector: Selector, allowAdjacent: bool)
    requires p.ValidPicks(picks)
    ensures var b := p.Best(picks, selector, allowAdjacent);
            if b.Some?
            then p.IsBest(p.Utilities(picks), Scenes(picks), Last(picks), selector, allowAdjacent, b.value)
            else forall k :: !p.Eligible(Scenes(picks), Last(picks), selector, allowAdjacent, k)
  {
    var pool := set k | k in p.byKey && p.Eligible(Scenes(picks), Last(picks), selector, allowAdjacent, k);
    if pool != {} {
      var k := LeastOf(p, p.Utilities(picks), pool);
      assert p.IsBest(p.Utilities(picks), Scenes(picks), Last(picks), selector, allowAdjacent, k);
    } else {
      forall k ensures !p.Eligible(Scenes(picks), Last(picks), selector, allowAdjacent, k) {
        assert k !in pool;
      }
    }
  }

  /** The three pools, seen from the pick: it is always an unlisted candidate; it
      leaves the wanted selector only when nothing there is free of the previous
      pick's performers, and it repeats one of the previous pick's performers only
      when every unlisted candidate does. There is no pick only when every scene
      is listed. */
  lemma ChoiceMeaning(p: Problem, wanted: Selector, picks: seq<Key>)
    requires p.Valid() && p.ValidPicks(picks)
    ensures p.Choice(wanted, picks).None? <==> p.SceneIDs() <= Scenes(picks)
    ensures p.Choice(wanted, picks).Some? ==>
              var k := p.Choice(wanted, picks).value;
              && k in p.byKey && k.sceneID !in Scenes(picks)
              && (!p.Selects(wanted, k) ==>
                    forall j :: !p.Eligible(Scenes(picks), Last(picks), wanted, false, j))
              && (p.varied && picks != [] && SharePerformer(p.byKey[k], p.byKey[picks[|picks| - 1]]) ==>
                    forall j | j in p.byKey && j.sceneID !in Scenes(picks) ::
                      SharePerformer(p.byKey[j], p.byKey[picks[|picks| - 1]]))
  {
    BestMeaning(p, picks, wanted, false);
    BestMeaning(p, picks, All, false);
    BestMeaning(p, picks, All, true);
    if p.Choice(wanted, picks).None? {
      forall s | s in p.SceneIDs() ensures s in Scenes(picks) {
        var k :| k in p.byKey && k.sceneID == s;
        assert !p.Eligible(Scenes(picks), Last(picks), All, true, k);
      }
    } else {
      var k := p.Choice(wanted, picks).value;
      assert k.sceneID in p.SceneIDs();
      if p.varied && picks != [] && SharePerformer(p.byKey[k], p.byKey[picks[|picks| - 1]]) {
        forall j | j in p.byKey && j.sceneID !in Scenes(picks)
          ensures SharePerformer(p.byKey[j], p.byKey[picks[|picks| - 1]])
        {
          assert !p.Eligible(Scenes(picks), Last(picks), All, false, j);
        }
      }
    }
  }

  ghost predicate NoSceneTwice(picks: seq<Key>) {
    forall i, j | 0 <= i < j < |picks| :: picks[i].sceneID != picks[j].sceneID
  }

  /** The greedy extends its picks by choices and lists every scene exactly once. */
  lemma {:induction false} GreedyListsEveryScene(p: Problem, rotation: seq<Selector>, picks: seq<Key>)
    requires p.Valid() && p.ValidPicks(picks) && NoSceneTwice(picks)
    ensures var all := p.Greedy(rotation, picks);
            && p.ValidPicks(all) && NoSceneTwice(all) && picks <= all
            && Scenes(all) == p.SceneIDs()
            && forall i | |picks| <= i < |all| :: p.Choice(Wanted(rotation, i), all[..i]) == Some(all[i])
    decreases p.SceneIDs() - Scenes(picks)
  {
    hide Problem.Choice, Wanted;
    ChoiceMeaning(p, Wanted(rotation, |picks|), picks);
    var next := p.Choice(Wanted(rotation, |picks|), picks);
    if next.None? {
      forall s | s in Scenes(picks) ensures s in p.SceneIDs() {
        var k :| k in picks && k.sceneID == s;
        assert k in p.byKey;
      }
      assert p.Greedy(rotation, picks) == picks;
    } else {
      var more := picks + [next.value];
      OneMorePick(p, picks, next.value);
      GreedyListsEveryScene(p, rotation, more);
      var all := p.Greedy(rotation, more);
      assert all == p.Greedy(rotation, picks);
      forall i | |picks| <= i < |all| ensures p.Choice(Wanted(rotation, i), all[..i]) == Some(all[i]) {
        if i == |picks| {
          assert all[..i] == more[..i] == picks;
          assert all[i] == more[i];
        }
      }
    }
  }

  lemma {:induction false} DistinctScenes(picks: seq<Key>)
    requires NoSceneTwice(picks)
    ensures |Scenes(picks)| == |picks|
  {
    if picks != [] {
      var n := |picks| - 1;
      DistinctScenes(picks[..n]);
      assert picks == picks[..n] + [picks[n]];
      assert Scenes(picks) == Scenes(picks[..n]) + {picks[n].sceneID};
      assert picks[n].sceneID !in Scenes(picks[..n]);
    } else {
      assert Scenes(picks) == {};
    }
  }

  lemma OneMorePick(p: Problem, picks: seq<Key>, k: Key)
    requires p.ValidPicks(picks) && NoSceneTwice(picks)
    requires k in p.byKey && k.sceneID !in Scenes(picks)
    ensures p.ValidPicks(picks + [k]) && NoSceneTwice(picks + [k])
    ensures Scenes(picks + [k]) == Scenes(picks) + {k.sceneID}
    ensures k.sceneID in p.SceneIDs() && Scenes(picks) <= p.SceneIDs()
  {
    var more := picks + [k];
    forall i, j | 0 <= i < j < |more| ensures more[i].sceneID != more[j].sceneID {
      if j == |picks| { assert more[i] in picks; }
    }
    forall s | s in Scenes(picks) ensures s in p.SceneIDs() {
      var j :| j in picks && j.sceneID == s;
      assert j in p.byKey;
    }
  }

  function RotationOf(wanted: nat -> Selector, n: nat): seq<Selector> {
    seq(n, i requires 0 <= i < n => wanted(i))
  }

  /** Whatever selector a function asks for at each position, the greedy is the one of
      the rotation that lists the function's values, one for each scene. */
  lemma {:induction false} RotationIsAnyFunction(p: Problem, wanted: nat -> Selector, picks: seq<Key>)
    requires p.Valid() && p.ValidPicks(picks) && NoSceneTwice(picks)
    ensures p.GreedyBy(wanted, picks) == p.Greedy(RotationOf(wanted, |p.SceneIDs()|), picks)
    decreases p.SceneIDs() - Scenes(picks)
  {
    hide Problem.Choice;
    var rotation := RotationOf(wanted, |p.SceneIDs()|);
    var asked := Wanted(rotation, |picks|);
    ChoicesRunOutTogether(p, asked, wanted(|picks|), picks);
    if p.Choice(asked, picks).Some? {
      var k := p.Choice(asked, picks).value;
      OneMorePick(p, picks, k);
      FewerPicks(p, picks, k.sceneID);
      WantedInTurn(rotation, |picks|);
      assert asked == wanted(|picks|);
      RotationIsAnyFunction(p, wanted, picks + [k]);
      assert p.Greedy(rotation, picks) == p.Greedy(rotation, picks + [k]);
      assert p.GreedyBy(wanted, picks) == p.GreedyBy(wanted, picks + [k]);
    }
  }

  lemma ChoicesRunOutTogether(p: Problem, one: Selector, other: Selector, picks: seq<Key>)
    requires p.Valid() && p.ValidPicks(picks)
    ensures p.Choice(one, picks).None? <==> p.Choice(other, picks).None?
  {
    ChoiceMeaning(p, one, picks);
    ChoiceMeaning(p, other, picks);
  }

  lemma FewerPicks(p: Problem, picks: seq<Key>, left: string)
    requires NoSceneTwice(picks) && Scenes(picks) <= p.SceneIDs()
    requires left in p.SceneIDs() && left !in Scenes(picks)
    ensures |picks| < |p.SceneIDs()|
  {
    DistinctScenes(picks);
    Larger(Scenes(picks) + {left}, p.SceneIDs());
  }

  lemma {:induction false} Larger(part: set<string>, whole: set<string>)
    requires part <= whole
    ensures |part| <= |whole|
  {
    if part != {} {
      var x :| x in part;
      Larger(part - {x}, whole - {x});
    }
  }

  lemma WantedInTurn(rotation: seq<Selector>, position: nat)
    requires position < |rotation|
    ensures Wanted(rotation, position) == rotation[position]
  {
  }

  lemma ChoiceAt(p: Problem, rotation: seq<Selector>, i: nat)
    requires p.Valid() && i < |p.Greedy(rotation, [])|
    ensures var all := p.Greedy(rotation, []); p.Choice(Wanted(rotation, i), all[..i]) == Some(all[i])
  {
    GreedyListsEveryScene(p, rotation, []);
  }

  /** In a varied ordering two neighbours share a performer only if every scene
      not listed yet has nothing but candidates sharing one with the earlier. */
  lemma NeighboursShareOnlyWhenForced(p: Problem, rotation: seq<Selector>, i: nat)
    requires p.Valid() && p.varied && i + 1 < |p.Greedy(rotation, [])|
    ensures var all := p.Greedy(rotation, []);
            SharePerformer(p.byKey[all[i + 1]], p.byKey[all[i]]) ==>
              forall j | j in p.byKey && j.sceneID !in Scenes(all[..i + 1]) ::
                SharePerformer(p.byKey[j], p.byKey[all[i]])
  {
    var all := p.Greedy(rotation, []);
    ChoiceAt(p, rotation, i + 1);
    var picks := all[..i + 1];
    assert picks[|picks| - 1] == all[i];
    ChoiceMeaning(p, Wanted(rotation, i + 1), picks);
  }

  /** Without variety adjacency never matters. */
  lemma UnvariedChoice(p: Problem, picks: seq<Key>)
    requires p.ValidPicks(picks) && !p.varied
    ensures p.Choice(All, picks) == p.Best(picks, All, false)
  {
    BestMeaning(p, picks, All, false);
    BestMeaning(p, picks, All, true);
    forall k ensures p.Eligible(Scenes(picks), Last(picks), All, true, k) ==
                     p.Eligible(Scenes(picks), Last(picks), All, false, k) {
    }
  }

  /** Without variety and rotation the ordering is the candidates' score order:
      every listed candidate precedes every later one by (-value, scene, lane). */
  lemma ScoreFirstIsSorted(p: Problem, rotation: seq<Selector>, i: nat, j: nat)
    requires p.Valid() && !p.varied && rotation == []
    requires i < j < |p.Greedy(rotation, [])|
    ensures var all := p.Greedy(rotation, []);
            Before(p.byKey[all[i]].laneValue, all[i], p.byKey[all[j]].laneValue, all[j])
  {
    hide Before, Problem.Choice, Problem.Best, SharePerformer;
    GreedyListsEveryScene(p, rotation, []);
    var all := p.Greedy(rotation, []);
    var picks := all[..i];
    assert p.Choice(Wanted(rotation, i), picks) == Some(all[i]);
    assert Wanted(rotation, i) == All;
    forall k | k in picks ensures k.sceneID != all[j].sceneID {
      var n :| 0 <= n < i && picks[n] == k;
      assert all[n].sceneID != all[j].sceneID;
    }
    BestComesFirst(p, picks, all[i], all[j]);
  }

  lemma BestComesFirst(p: Problem, picks: seq<Key>, k: Key, j: Key)
    requires p.ValidPicks(picks) && !p.varied && p.Choice(All, picks) == Some(k)
    requires k != j && k in p.byKey && j in p.byKey && j.sceneID !in Scenes(picks)
    ensures Before(p.byKey[k].laneValue, k, p.byKey[j].laneValue, j)
  {
    hide Before, SharePerformer, Problem.Choice, Problem.Best;
    UnvariedChoice(p, picks);
    BestMeaning(p, picks, All, false);
    assert p.Eligible(Scenes(picks), Last(picks), All, false, j);
  }
}
