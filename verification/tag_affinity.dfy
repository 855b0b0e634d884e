/** What an unanswered tag's affinity becomes once its nearest answers are known. */
module TagAffinity {
  import opened TagInheritance
  import opened RealSums
  import Calibration
  import GoOrder

  const INHERITED_SUPPORT: real := 4.0

  datatype Context = NoContext | Inherited(preference: real, from: seq<string>, learnedAffinity: real,
                                           learnedConfidence: real)

  datatype Affinity = Affinity(affinity: real, confidence: real, support: real, sceneCount: int, context: Context)

  function Unlearned(): Affinity { Affinity(0.0, 0.0, 0.0, 0, NoContext) }

  function Learned(result: map<string, Affinity>, feature: string): Affinity {
    if feature in result then result[feature] else Unlearned()
  }

  function Values(sources: seq<string>, answers: map<string, real>): (r: seq<real>)
    requires forall t | t in sources :: t in answers
    ensures |r| == |sources|
  {
    seq(|sources|, i requires 0 <= i < |sources| => assert sources[i] in sources; answers[sources[i]])
  }

  function Mean(values: seq<real>): real
    requires values != []
  {
    Sum(values) / |values| as real
  }

  function WeightedMean(a: real, s: real, b: real, t: real): real
    requires s + t != 0.0
  {
    (a * s + b * t) / (s + t)
  }

  function Blend(learned: Affinity, inherited: real, sources: seq<string>): Affinity
    requires learned.support + INHERITED_SUPPORT != 0.0
  {
    Affinity(
      Calibration.Clamp(WeightedMean(learned.affinity, learned.support, inherited, INHERITED_SUPPORT)),
      if learned.confidence > 0.6 then learned.confidence else 0.6,
      learned.support + INHERITED_SUPPORT,
      learned.sceneCount,
      Inherited(inherited, sources, learned.affinity, learned.confidence))
  }

  /** A tag that gets something from its ancestors. */
  predicate Asks(tag: string, answered: set<string>, parents: Graph) {
    tag !in answered && Parents(parents, tag) != []
  }

  /** The tag's feature after inheriting from `sources`. */
  ghost predicate Took(before: map<string, Affinity>, after: map<string, Affinity>, feature: string,
                       sources: seq<string>, answers: map<string, real>)
    requires forall t | t in sources :: t in answers
    requires Learned(before, feature).support >= 0.0
  {
    if sources == []
      then (feature in after <==> feature in before) && Learned(after, feature) == Learned(before, feature)
    else feature in after && after[feature] == Blend(Learned(before, feature), Mean(Values(sources, answers)), sources)
  }

  lemma SourcesAreAnswered(sources: seq<string>, parents: Graph, answers: map<string, real>, tag: string)
    requires AreNearest(sources, parents, answers, tag)
    ensures forall t | t in sources :: t in answers
  {
    hide Generation, GoOrder.Less;
  }

  /** One tag of the loop. */
  method InheritOne(parents: Graph, answers: map<string, real>, answered: set<string>, tag: string, feature: string,
                    result: map<string, Affinity>)
    returns (result': map<string, Affinity>, ghost sources: seq<string>)
    requires answers.Keys <= answered && Learned(result, feature).support >= 0.0
    ensures forall t | t in sources :: t in answers
    ensures forall other | other != feature ::
            (other in result' <==> other in result) && Learned(result', other) == Learned(result, other)
    ensures Asks(tag, answered, parents) ==> AreNearest(sources, parents, answers, tag)
    ensures !Asks(tag, answered, parents) ==> sources == []
    ensures Took(result, result', feature, sources, answers)
  {
    hide AreNearest, Calibration.Clamp;
    result', sources := result, [];
    if tag in answered || |Parents(parents, tag)| == 0 { return; }
    var found := NearestSources(parents, answers, tag);
    SourcesAreAnswered(found, parents, answers, tag);
    sources := found;
    if |found| == 0 { return; }
    var total := 0.0;
    for i := 0 to |found|
      invariant total == Sum(Values(found, answers)[..i])
    {
      assert found[i] in found;
      assert Values(found, answers)[..i + 1] == Values(found, answers)[..i] + [answers[found[i]]];
      total := total + answers[found[i]];
    }
    assert Values(found, answers)[..|found|] == Values(found, answers);
    var inherited := total / |found| as real;
    result' := result[feature := Blend(Learned(result, feature), inherited, found)];
  }

  /** The tag's feature went from `before` to `after` as its nearest answers say. */
  ghost predicate Inherits(parents: Graph, answers: map<string, real>, answered: set<string>, tag: string,
                           feature: string, before: map<string, Affinity>, after: map<string, Affinity>)
    requires Learned(before, feature).support >= 0.0
  {
    exists sources: seq<string> ::
      && (forall t | t in sources :: t in answers)
      && (if Asks(tag, answered, parents) then AreNearest(sources, parents, answers, tag) else sources == [])
      && Took(before, after, feature, sources, answers)
  }

  ghost predicate Unchanged(before: map<string, Affinity>, after: map<string, Affinity>, feature: string) {
    (feature in after <==> feature in before) && Learned(after, feature) == Learned(before, feature)
  }

  lemma InheritsAlike(parents: Graph, answers: map<string, real>, answered: set<string>, tag: string, feature: string,
                      a: map<string, Affinity>, a': map<string, Affinity>, b: map<string, Affinity>,
                      b': map<string, Affinity>)
    requires Learned(a, feature).support >= 0.0 && Unchanged(a, b, feature) && Unchanged(a', b', feature)
    requires Inherits(parents, answers, answered, tag, feature, a, a')
    ensures Inherits(parents, answers, answered, tag, feature, b, b')
  {
    hide AreNearest, Blend, Asks;
    var sources: seq<string> :|
      && (forall t | t in sources :: t in answers)
      && (if Asks(tag, answered, parents) then AreNearest(sources, parents, answers, tag) else sources == [])
      && Took(a, a', feature, sources, answers);
    assert Took(b, b', feature, sources, answers);
  }

  /** The tables the loop goes through, one per tag: each tag inherits in turn, on top of
      what the tags before it left, and changes its own feature only. */
  ghost predicate IsTrail(parents: Graph, answers: map<string, real>, answered: set<string>,
                          features: map<string, string>, tags: seq<string>, trail: seq<map<string, Affinity>>)
  {
    && |trail| == |tags| + 1
    && forall i | 0 <= i < |tags| :: tags[i] in features
         && Turn(parents, answers, answered, tags[i], features[tags[i]], trail[i], trail[i + 1])
  }

  ghost predicate Turn(parents: Graph, answers: map<string, real>, answered: set<string>, tag: string, feature: string,
                       before: map<string, Affinity>, after: map<string, Affinity>)
  {
    && Learned(before, feature).support >= 0.0
    && Inherits(parents, answers, answered, tag, feature, before, after)
    && forall other | other != feature :: Unchanged(before, after, other)
  }

  /** No other tag has this tag's feature. */
  ghost predicate Alone(features: map<string, string>, tag: string)
    requires tag in features
  {
    forall other | other in features && other != tag :: features[other] != features[tag]
  }

  lemma {:induction false} Untouched(parents: Graph, answers: map<string, real>, answered: set<string>,
                                     features: map<string, string>, tags: seq<string>,
                                     trail: seq<map<string, Affinity>>, i: nat, j: nat, feature: string)
    requires IsTrail(parents, answers, answered, features, tags, trail) && i <= j <= |tags|
    requires forall n | i <= n < j :: features[tags[n]] != feature
    ensures Unchanged(trail[i], trail[j], feature)
    decreases j
  {
    hide Inherits;
    if i < j {
      Untouched(parents, answers, answered, features, tags, trail, i, j - 1, feature);
      var n := j - 1;
      assert features[tags[n]] != feature;
      assert Turn(parents, answers, answered, tags[n], features[tags[n]], trail[n], trail[n + 1]);
      assert Unchanged(trail[n], trail[n + 1], feature);
    }
  }

  /** A tag that shares its feature with none inherits from its nearest answers, whatever
      the other tags do. */
  lemma AloneInherits(parents: Graph, answers: map<string, real>, answered: set<string>,
                      features: map<string, string>, tags: seq<string>, trail: seq<map<string, Affinity>>, tag: string)
    requires IsTrail(parents, answers, answered, features, tags, trail)
    requires GoOrder.StrictlyAscending(tags) && tag in tags && tag in features && Alone(features, tag)
    ensures Learned(trail[0], features[tag]).support >= 0.0
    ensures Inherits(parents, answers, answered, tag, features[tag], trail[0], trail[|tags|])
  {
    hide Inherits, GoOrder.Less;
    GoOrder.AscendingIsDistinct(tags);
    var i :| 0 <= i < |tags| && tags[i] == tag;
    var feature := features[tag];
    Untouched(parents, answers, answered, features, tags, trail, 0, i, feature);
    Untouched(parents, answers, answered, features, tags, trail, i + 1, |tags|, feature);
    assert Turn(parents, answers, answered, tag, feature, trail[i], trail[i + 1]);
    InheritsAlike(parents, answers, answered, tag, feature, trail[i], trail[i + 1], trail[0], trail[|tags|]);
  }

  method InheritInTurn(parents: Graph, answers: map<string, real>, answered: set<string>,
                       features: map<string, string>, tags: seq<string>, result: map<string, Affinity>)
    returns (result': map<string, Affinity>, ghost trail: seq<map<string, Affinity>>)
    requires answers.Keys <= answered && forall tag | tag in tags :: tag in features
    requires forall feature :: Learned(result, feature).support >= 0.0
    ensures IsTrail(parents, answers, answered, features, tags, trail)
    ensures trail[0] == result && trail[|tags|] == result'
  {
    hide AreNearest, Blend, Asks, Inherits, Took;
    result' := result;
    trail := [result];
    for i := 0 to |tags|
      invariant |trail| == i + 1 && trail[0] == result && trail[i] == result'
      invariant forall feature :: Learned(result', feature).support >= 0.0
      invariant forall n | 0 <= n < i ::
                Turn(parents, answers, answered, tags[n], features[tags[n]], trail[n], trail[n + 1])
    {
      var tag, feature := tags[i], features[tags[i]];
      var after, sources := InheritOne(parents, answers, answered, tag, feature, result');
      ItInherits(parents, answers, answered, tag, feature, result', after, sources);
      assert Turn(parents, answers, answered, tag, feature, result', after);
      forall other ensures Learned(after, other).support >= 0.0 {
        if other != feature { assert Unchanged(result', after, other); }
      }
      result' := after;
      trail := trail + [after];
    }
  }

  /** inheritTagPreferences: the tags in ascending order, one after the other. */
  method InheritTagPreferences(parents: Graph, answers: map<string, real>, answered: set<string>,
                               features: map<string, string>, result: map<string, Affinity>)
    returns (result': map<string, Affinity>)
    requires answers.Keys <= answered
    requires forall feature :: Learned(result, feature).support >= 0.0
    ensures exists tags, trail ::
              && GoOrder.StrictlyAscending(tags) && (forall tag :: tag in tags <==> tag in features)
              && IsTrail(parents, answers, answered, features, tags, trail)
              && trail[0] == result && trail[|tags|] == result'
    ensures forall tag | tag in features && Alone(features, tag) ::
              Inherits(parents, answers, answered, tag, features[tag], result, result')
    ensures forall feature | feature !in features.Values :: Unchanged(result, result', feature)
  {
    hide Inherits, Turn, GoOrder.StrictlyAscending;
    var tags := GoOrder.SortedKeys(features.Keys);
    ghost var trail;
    result', trail := InheritInTurn(parents, answers, answered, features, tags, result);
    forall tag | tag in features && Alone(features, tag)
      ensures Inherits(parents, answers, answered, tag, features[tag], result, result')
    {
      AloneInherits(parents, answers, answered, features, tags, trail, tag);
    }
    forall feature | feature !in features.Values ensures Unchanged(result, result', feature) {
      Untouched(parents, answers, answered, features, tags, trail, 0, |tags|, feature);
    }
  }

  lemma ItInherits(parents: Graph, answers: map<string, real>, answered: set<string>, tag: string, feature: string,
                   before: map<string, Affinity>, after: map<string, Affinity>, sources: seq<string>)
    requires Learned(before, feature).support >= 0.0
    requires forall t | t in sources :: t in answers
    requires if Asks(tag, answered, parents) then AreNearest(sources, parents, answers, tag) else sources == []
    requires Took(before, after, feature, sources, answers)
    ensures Inherits(parents, answers, answered, tag, feature, before, after)
    ensures Learned(after, feature).support >= 0.0
  {
    hide AreNearest, Asks, Mean, Values, Calibration.Clamp, WeightedMean;
  }

  // ------------------------------------------------------------ where the blend lands

  ghost predicate Between(x: real, a: real, b: real) {
    (a <= x <= b) || (b <= x <= a)
  }

  lemma WeightedMeanIsBetween(a: real, s: real, b: real, t: real)
    requires s >= 0.0 && t > 0.0
    ensures Between(WeightedMean(a, s, b, t), a, b)
  {
    if a <= b {
      Parts(a, b, s, t, a * s + b * t);
      QuotientIsBetween(a * s + b * t, s + t, a, b);
    } else {
      Parts(b, a, t, s, a * s + b * t);
      QuotientIsBetween(a * s + b * t, s + t, b, a);
    }
  }

  lemma Parts(low: real, high: real, s: real, t: real, n: real)
    requires low <= high && s >= 0.0 && t >= 0.0 && n == low * s + high * t
    ensures low * (s + t) <= n <= high * (s + t)
  {
    TimesIsMonotone(s, low, high);
    TimesIsMonotone(t, low, high);
    TimesDistributes(low, s + t, s, t);
    TimesDistributes(high, s + t, s, t);
  }

  lemma QuotientIsBetween(n: real, d: real, low: real, high: real)
    requires d > 0.0 && low * d <= n <= high * d
    ensures low <= n / d <= high
  {
    var q := n / d;
    assert q * d == n;
    assert q < low ==> q * d < low * d;
    assert q > high ==> q * d > high * d;
  }

  lemma {:induction false} SumIsBounded(values: seq<real>)
    requires forall i | 0 <= i < |values| :: -1.0 <= values[i] <= 1.0
    ensures -(|values| as real) <= Sum(values) <= |values| as real
  {
    if values != [] { SumIsBounded(values[..|values| - 1]); }
  }

  /** Answers and learned affinities within -1..1 stay there, the clamp never acts, and
      the result lies between what was learned and what the ancestors say; confidence
      and support only rise. */
  lemma BlendIsBetween(learned: Affinity, sources: seq<string>, answers: map<string, real>)
    requires sources != [] && forall t | t in sources :: t in answers && -1.0 <= answers[t] <= 1.0
    requires learned.support >= 0.0 && -1.0 <= learned.affinity <= 1.0
    ensures var inherited := Mean(Values(sources, answers));
            var r := Blend(learned, inherited, sources);
            && -1.0 <= inherited <= 1.0
            && Between(r.affinity, learned.affinity, inherited) && -1.0 <= r.affinity <= 1.0
            && r.confidence >= learned.confidence && r.confidence >= 0.6 && r.support > learned.support
  {
    hide WeightedMean;
    var values := Values(sources, answers);
    forall i | 0 <= i < |values| ensures -1.0 <= values[i] <= 1.0 { assert sources[i] in sources; }
    SumIsBounded(values);
    QuotientIsBetween(Sum(values), |values| as real, -1.0, 1.0);
    var inherited := Mean(values);
    WeightedMeanIsBetween(learned.affinity, learned.support, inherited, INHERITED_SUPPORT);
  }
}
