/** The walkable performer graph that pagerank runs on: seeded expansion along the
    performer edges, studio and tag bridges, and row normalization. */
module WalkGraph {
  import opened RealSums
  import opened PageRank

  const STUDIO_WEIGHT := 0.3
  const TAG_WEIGHT := 0.15

  datatype Similar = Similar(target: string, similarity: real)

  /** multiHop's loaded tables; `sceneTags` holds the seed's. */
  datatype Tables = Tables(
    affinity: map<string, real>,
    edges: map<string, seq<Similar>>,
    scenePerformers: map<string, seq<string>>,
    performerScenes: map<string, seq<string>>,
    sceneStudios: map<string, string>,
    sceneTags: map<string, seq<string>>)
  {
    function Affinity(performer: string): real {
      if performer in affinity then affinity[performer] else 0.0
    }

    function Edges(performer: string): seq<Similar> {
      if performer in edges then edges[performer] else []
    }

    function Scenes(performer: string): seq<string> {
      if performer in performerScenes then performerScenes[performer] else []
    }

    function Tags(scene: string): seq<string> {
      if scene in sceneTags then sceneTags[scene] else []
    }

    ghost predicate NonNegative() {
      && (forall k | k in affinity :: affinity[k] >= 0.0)
      && (forall k, i | k in edges && 0 <= i < |edges[k]| :: edges[k][i].similarity >= 0.0)
    }

    ghost function Targets(): set<string> {
      set k, i | k in edges && 0 <= i < |edges[k]| :: edges[k][i].target
    }
  }

  // ------------------------------------------------------------ what the graph must hold

  datatype Link = Link(from: string, to: string, weight: real)

  function Row(adjacency: Graph, node: string): map<string, real> {
    if node in adjacency then adjacency[node] else map[]
  }

  /** The graph has an edge for every link and no other, each with the weight of one of
      the links between its ends, and no node without an edge. */
  ghost predicate Holds(adjacency: Graph, links: set<Link>) {
    && (forall u, v | u in adjacency && v in adjacency[u] :: Link(u, v, adjacency[u][v]) in links)
    && (forall l | l in links :: l.from in adjacency && l.to in adjacency[l.from])
    && forall u | u in adjacency :: exists v :: v in adjacency[u]
  }

  ghost function Out(node: string, others: seq<string>, weight: real): set<Link> {
    set i | 0 <= i < |others| :: Link(node, others[i], weight)
  }

  ghost function Back(node: string, others: seq<string>, weight: real): set<Link> {
    set i | 0 <= i < |others| :: Link(others[i], node, weight)
  }

  /** The performer edges of some performers. */
  ghost function EdgeLinks(m: Tables, performers: set<string>): set<Link> {
    set p, i | p in performers && 0 <= i < |m.Edges(p)| :: Link(p, m.Edges(p)[i].target, m.Edges(p)[i].similarity)
  }

  /** Their scenes. */
  ghost function SceneLinks(m: Tables, performers: set<string>): set<Link> {
    set p, i | p in performers && 0 <= i < |m.Scenes(p)| :: Link(p, m.Scenes(p)[i], m.Affinity(p))
  }

  ghost predicate Closed(m: Tables, performers: set<string>) {
    forall p, i | p in performers && 0 <= i < |m.Edges(p)| :: m.Edges(p)[i].target in performers
  }

  /** The performers that the edges lead to from some performers: the least closed set. */
  ghost predicate IsReached(m: Tables, seeds: set<string>, reached: set<string>) {
    && seeds <= reached && Closed(m, reached)
    && forall c: set<string> | seeds <= c && Closed(m, c) :: reached <= c
  }

  /** The performers a walk starts with. */
  ghost function SeedPerformers(m: Tables, seed: string): set<string> {
    if seed in m.scenePerformers then set p | p in m.scenePerformers[seed] else {seed}
  }

  /** Both ways between a scene and some performers, weighed by their affinity. */
  ghost function CastLinks(m: Tables, scene: string, performers: seq<string>): set<Link> {
    (set i | 0 <= i < |performers| :: Link(scene, performers[i], m.Affinity(performers[i])))
    + (set i | 0 <= i < |performers| :: Link(performers[i], scene, m.Affinity(performers[i])))
  }

  /** Between a scene seed and its performers, or a performer seed and its scenes. */
  ghost function SeedLinks(m: Tables, seed: string): set<Link> {
    if seed in m.scenePerformers then
      CastLinks(m, seed, m.scenePerformers[seed])
    else Out(seed, m.Scenes(seed), m.Affinity(seed)) + Back(seed, m.Scenes(seed), m.Affinity(seed))
  }

  /** The links before the bridges: a seed's own, the edges of every performer reached,
      and the scenes of those that are no seed performers. */
  ghost function BaseLinks(m: Tables, seed: string, reached: set<string>): set<Link> {
    SeedLinks(m, seed) + EdgeLinks(m, reached) + SceneLinks(m, reached - SeedPerformers(m, seed))
  }

  function StudioNode(studio: string): string { "studio:" + studio }

  function TagNodes(tags: seq<string>): seq<string> {
    seq(|tags|, i requires 0 <= i < |tags| => "tag:" + tags[i])
  }

  /** The bridges of one node: both ways between a scene and its studio, and between the
      seed scene and its tags. */
  ghost function NodeBridges(m: Tables, seed: string, node: string): set<Link> {
    if node !in m.scenePerformers then {}
    else
      (if node in m.sceneStudios
       then Out(node, [StudioNode(m.sceneStudios[node])], STUDIO_WEIGHT)
         + Back(node, [StudioNode(m.sceneStudios[node])], STUDIO_WEIGHT)
       else {})
      + (if node == seed
         then Out(node, TagNodes(m.Tags(node)), TAG_WEIGHT) + Back(node, TagNodes(m.Tags(node)), TAG_WEIGHT)
         else {})
  }

  ghost function BridgeLinks(m: Tables, seed: string, nodes: set<string>): set<Link> {
    set n, l | n in nodes && l in NodeBridges(m, seed, n) :: l
  }

  /** A row divided by its total, or emptied when that is not positive. */
  ghost predicate IsNormal(edges: map<string, real>, normal: map<string, real>) {
    if Total(edges) > 0.0
    then normal.Keys == edges.Keys && forall k | k in edges :: normal[k] == edges[k] / Total(edges)
    else normal == map[]
  }

  /** Every edge target is a node too, and every row is normalized. */
  ghost predicate IsNormalization(bridged: Graph, graph: Graph) {
    && (forall u :: u in graph <==> u in bridged || exists w :: w in bridged && u in bridged[w])
    && forall u | u in graph :: IsNormal(Row(bridged, u), graph[u])
  }

  /** What graphFor gives: nothing for an unknown seed, else the normalized graph of the
      base links and their bridges. */
  ghost predicate IsGraphFor(m: Tables, seed: string, graph: Graph) {
    if seed in m.scenePerformers || seed in m.affinity
    then exists reached, bridged :: IsGraphOf(m, seed, reached, bridged, graph)
    else graph == map[]
  }

  ghost predicate IsGraphOf(m: Tables, seed: string, reached: set<string>, bridged: Graph, graph: Graph) {
    var base := BaseLinks(m, seed, reached);
    && IsReached(m, SeedPerformers(m, seed), reached)
    && Holds(bridged, base + BridgeLinks(m, seed, set l | l in base :: l.from))
    && IsNormalization(bridged, graph)
  }

  // ------------------------------------------------------------ setEdge

  function SetEdge(adjacency: Graph, from: string, to: string, weight: real): Graph {
    adjacency[from := Row(adjacency, from)[to := weight]]
  }

  lemma SetEdgeHolds(adjacency: Graph, links: set<Link>, from: string, to: string, weight: real)
    requires Holds(adjacency, links)
    ensures Holds(SetEdge(adjacency, from, to, weight), links + {Link(from, to, weight)})
  {
    var after := SetEdge(adjacency, from, to, weight);
    forall u | u in after ensures exists v :: v in after[u] {
      if u == from {
        assert to in after[u];
      } else {
        var v :| v in adjacency[u];
        assert v in after[u];
      }
    }
  }

  /** Edges from a node to others, and back if asked. */
  method LinkAll(adjacency: Graph, node: string, others: seq<string>, weight: real, back: bool, ghost links: set<Link>)
    returns (adjacency': Graph)
    requires Holds(adjacency, links)
    ensures Holds(adjacency', links + Out(node, others, weight) + if back then Back(node, others, weight) else {})
  {
    hide Holds, SetEdge;
    adjacency' := adjacency;
    ghost var held := links;
    assert Out(node, others[..0], weight) == {} && Back(node, others[..0], weight) == {};
    for i := 0 to |others|
      invariant Holds(adjacency', held)
      invariant held == links + Out(node, others[..i], weight) + if back then Back(node, others[..i], weight) else {}
    {
      OneMore(node, others, weight, i);
      SetEdgeHolds(adjacency', held, node, others[i], weight);
      adjacency' := SetEdge(adjacency', node, others[i], weight);
      held := held + {Link(node, others[i], weight)};
      if back {
        SetEdgeHolds(adjacency', held, others[i], node, weight);
        adjacency' := SetEdge(adjacency', others[i], node, weight);
        held := held + {Link(others[i], node, weight)};
      }
    }
    assert others[..|others|] == others;
  }

  lemma OneMore(node: string, others: seq<string>, weight: real, i: nat)
    requires i < |others|
    ensures Out(node, others[..i + 1], weight) == Out(node, others[..i], weight) + {Link(node, others[i], weight)}
    ensures Back(node, others[..i + 1], weight) == Back(node, others[..i], weight) + {Link(others[i], node, weight)}
  {
  }

  // ------------------------------------------------------------ the frontier loop

  /** The first n edges of a performer, and their targets. */
  ghost function FirstEdges(m: Tables, performer: string, n: nat): set<Link>
    requires n <= |m.Edges(performer)|
  {
    set i | 0 <= i < n :: Link(performer, m.Edges(performer)[i].target, m.Edges(performer)[i].similarity)
  }

  ghost function FirstTargets(m: Tables, performer: string, n: nat): set<string>
    requires n <= |m.Edges(performer)|
  {
    set i | 0 <= i < n :: m.Edges(performer)[i].target
  }

  /** One performer's edges: each target gets an edge and, when new, its scenes. */
  method ExpandOne(m: Tables, adjacency: Graph, performer: string, seen: set<string>, frontier: seq<string>,
                   ghost links: set<Link>)
    returns (adjacency': Graph, seen': set<string>, frontier': seq<string>)
    requires Holds(adjacency, links)
    ensures Holds(adjacency', links + EdgeLinks(m, {performer}) + SceneLinks(m, seen' - seen))
    ensures seen' == seen + FirstTargets(m, performer, |m.Edges(performer)|)
    ensures forall x :: x in frontier' <==> x in frontier || x in seen' - seen
    ensures seen' == seen ==> frontier' == frontier
  {
    hide Holds, SetEdge, SceneLinks, EdgeLinks, FirstEdges, FirstTargets, Out;
    adjacency', seen', frontier' := adjacency, seen, frontier;
    var similars := m.Edges(performer);
    NoScenes(m);
    EdgesInTurn(m, performer);
    assert seen - seen == {};
    ghost var held := links;
    for n := 0 to |similars|
      invariant Holds(adjacency', held)
      invariant held == links + FirstEdges(m, performer, n) + SceneLinks(m, seen' - seen)
      invariant seen' == seen + FirstTargets(m, performer, n)
      invariant forall x :: x in frontier' <==> x in frontier || x in seen' - seen
      invariant seen' == seen ==> frontier' == frontier
    {
      var similar := similars[n];
      NextEdge(m, performer, n);
      ghost var edges, found := FirstEdges(m, performer, n), seen' - seen;
      SetEdgeHolds(adjacency', held, performer, similar.target, similar.similarity);
      adjacency' := SetEdge(adjacency', performer, similar.target, similar.similarity);
      ghost var edge := Link(performer, similar.target, similar.similarity);
      held := held + {edge};
      if similar.target in seen' {
        Join(links, edges, {edge}, SceneLinks(m, found), {});
        continue;
      }
      var target := similar.target;
      MoreScenes(m, found, target);
      assert seen' + {target} - seen == found + {target};
      Join(links, edges, {edge}, SceneLinks(m, found), Out(target, m.Scenes(target), m.Affinity(target)));
      seen' := seen' + {target};
      adjacency' := LinkAll(adjacency', target, m.Scenes(target), m.Affinity(target), false, held);
      held := held + Out(target, m.Scenes(target), m.Affinity(target));
      assert held + {} == held;
      frontier' := frontier' + [target];
    }
  }

  lemma Join(a: set<Link>, b: set<Link>, b': set<Link>, c: set<Link>, c': set<Link>)
    ensures a + b + c + b' + c' == a + (b + b') + (c + c')
  {
  }

  lemma EdgesInTurn(m: Tables, performer: string)
    ensures FirstEdges(m, performer, 0) == {} && FirstTargets(m, performer, 0) == {}
    ensures FirstEdges(m, performer, |m.Edges(performer)|) == EdgeLinks(m, {performer})
  {
  }

  lemma NoScenes(m: Tables)
    ensures SceneLinks(m, {}) == {}
  {
  }

  lemma MoreScenes(m: Tables, performers: set<string>, p: string)
    ensures SceneLinks(m, performers + {p}) == SceneLinks(m, performers) + Out(p, m.Scenes(p), m.Affinity(p))
  {
  }

  lemma NextEdge(m: Tables, performer: string, n: nat)
    requires n < |m.Edges(performer)|
    ensures var e := m.Edges(performer)[n];
            && FirstEdges(m, performer, n + 1)
               == FirstEdges(m, performer, n) + {Link(performer, e.target, e.similarity)}
            && FirstTargets(m, performer, n + 1) == FirstTargets(m, performer, n) + {e.target}
  {
  }

  /** The frontier loop: reaches every performer along the edges and links it. */
  method Expand(m: Tables, adjacency: Graph, seeds: seq<string>, ghost links: set<Link>)
    returns (adjacency': Graph, ghost reached: set<string>)
    requires Holds(adjacency, links)
    ensures IsReached(m, (set s | s in seeds), reached)
    ensures Holds(adjacency', links + EdgeLinks(m, reached) + SceneLinks(m, reached - (set s | s in seeds)))
  {
    hide Holds, SceneLinks, EdgeLinks;
    ghost var start := set s | s in seeds;
    adjacency' := adjacency;
    var known := set s | s in seeds;
    var frontier := seeds;
    ghost var expanded: set<string> := {};
    NoLinks(m);
    assert known - start == {} && links + {} + {} == links;
    while frontier != []
      invariant Holds(adjacency', links + EdgeLinks(m, expanded) + SceneLinks(m, known - start))
      invariant start <= known <= start + m.Targets() && expanded <= known
      invariant forall x | x in known :: x in expanded || x in frontier
      invariant forall x | x in frontier :: x in known
      invariant forall p, i | p in expanded && 0 <= i < |m.Edges(p)| :: m.Edges(p)[i].target in known
      invariant forall c: set<string> | start <= c && Closed(m, c) :: known <= c
      decreases start + m.Targets() - known, |frontier|
    {
      var performer := frontier[0];
      ghost var before, waiting := known, frontier;
      frontier := frontier[1..];
      ghost var held := links + EdgeLinks(m, expanded) + SceneLinks(m, known - start);
      adjacency', known, frontier := ExpandOne(m, adjacency', performer, known, frontier, held);
      LinksGrow(m, expanded, performer, before - start, known - before);
      assert (before - start) + (known - before) == known - start;
      assert forall i | 0 <= i < |m.Edges(performer)| :: m.Edges(performer)[i].target in known;
      assert performer in waiting;
      assert waiting == [waiting[0]] + waiting[1..];
      expanded := expanded + {performer};
      assert held + EdgeLinks(m, {performer}) + SceneLinks(m, known - before)
          == links + EdgeLinks(m, expanded) + SceneLinks(m, known - start);
    }
    reached := known;
    assert expanded == known;
  }

  lemma NoLinks(m: Tables)
    ensures EdgeLinks(m, {}) == {} && SceneLinks(m, {}) == {}
  {
  }

  lemma LinksGrow(m: Tables, expanded: set<string>, p: string, a: set<string>, b: set<string>)
    ensures EdgeLinks(m, expanded + {p}) == EdgeLinks(m, expanded) + EdgeLinks(m, {p})
    ensures SceneLinks(m, a + b) == SceneLinks(m, a) + SceneLinks(m, b)
  {
  }

  // ------------------------------------------------------------- finalizeGraph

  /** A scene's studio bridge and, for the seed, its tag bridges. */
  method Bridge(m: Tables, adjacency: Graph, node: string, seed: string, ghost links: set<Link>)
    returns (adjacency': Graph)
    requires Holds(adjacency, links)
    ensures Holds(adjacency', links + NodeBridges(m, seed, node))
  {
    hide Holds, Out, Back;
    adjacency' := adjacency;
    assert links + {} == links;
    if node !in m.scenePerformers { return; }
    ghost var held := links;
    if node in m.sceneStudios {
      var studioNode := StudioNode(m.sceneStudios[node]);
      adjacency' := LinkAll(adjacency', node, [studioNode], STUDIO_WEIGHT, true, held);
      held := held + Out(node, [studioNode], STUDIO_WEIGHT) + Back(node, [studioNode], STUDIO_WEIGHT);
    }
    if node == seed {
      var tagNodes := TagNodes(m.Tags(node));
      adjacency' := LinkAll(adjacency', node, tagNodes, TAG_WEIGHT, true, held);
      held := held + Out(node, tagNodes, TAG_WEIGHT) + Back(node, tagNodes, TAG_WEIGHT);
    }
    assert held == links + NodeBridges(m, seed, node);
  }

  /** finalizeGraph: bridges, then a node for every target, then normalization. */
  method Finalize(m: Tables, adjacency: Graph, seed: string, ghost links: set<Link>)
    returns (graph: Graph, ghost bridged: Graph)
    requires Holds(adjacency, links)
    ensures Holds(bridged, links + BridgeLinks(m, seed, adjacency.Keys))
    ensures IsNormalization(bridged, graph)
  {
    hide Holds, NodeBridges, BridgeLinks, IsNormalization;
    graph := adjacency;
    NoBridges(m, seed);
    var todo := adjacency.Keys;
    ghost var held := links;
    assert adjacency.Keys - todo == {};
    while todo != {}
      invariant todo <= adjacency.Keys
      invariant Holds(graph, held)
      invariant held == links + BridgeLinks(m, seed, adjacency.Keys - todo)
    {
      var node :| node in todo;
      MoreBridges(m, seed, adjacency.Keys - todo, node);
      assert adjacency.Keys - (todo - {node}) == (adjacency.Keys - todo) + {node};
      todo := todo - {node};
      graph := Bridge(m, graph, node, seed, held);
      held := held + NodeBridges(m, seed, node);
    }
    assert adjacency.Keys - todo == adjacency.Keys;
    bridged := graph;
    graph := Complete(graph);
  }

  /** A node for every target, then normalization. */
  method Complete(bridged: Graph) returns (graph: Graph)
    ensures IsNormalization(bridged, graph)
  {
    hide IsNormal;
    var targets := set u, v | u in bridged && v in bridged[u] :: v;
    var missing := targets - bridged.Keys;
    graph := bridged + map v | v in missing :: map[];
    ghost var whole := graph;
    graph := NormalizeRows(graph);
    assert forall u | u in whole :: whole[u] == Row(bridged, u);
  }

  lemma NoBridges(m: Tables, seed: string)
    ensures BridgeLinks(m, seed, {}) == {}
  {
  }

  lemma MoreBridges(m: Tables, seed: string, nodes: set<string>, node: string)
    ensures BridgeLinks(m, seed, nodes + {node}) == BridgeLinks(m, seed, nodes) + NodeBridges(m, seed, node)
  {
  }

  /** normalizeEdges: weights over their total, or no edges when that is not positive. */
  method NormalizeEdges(edges: map<string, real>) returns (normal: map<string, real>)
    ensures IsNormal(edges, normal)
    ensures normal == map[] || Total(normal) == 1.0
  {
    var total := 0.0;
    var todo := edges.Keys;
    while todo != {}
      invariant todo <= edges.Keys
      invariant total + SumOver(edges, todo) == Total(edges)
    {
      var k :| k in todo;
      SumOverTakesOut(edges, todo, k);
      total := total + edges[k];
      todo := todo - {k};
    }
    if total <= 0.0 {
      return map[];
    }
    normal := map k | k in edges :: edges[k] / total;
    ScaledTotal(edges, normal, total, edges.Keys);
    Whole'(total);
  }

  lemma Whole'(total: real)
    requires total > 0.0
    ensures total / total == 1.0
  {
  }

  lemma {:induction false} ScaledTotal(edges: map<string, real>, scaled: map<string, real>, total: real,
                                       targets: set<string>)
    requires targets <= edges.Keys == scaled.Keys && total > 0.0
    requires forall k | k in edges :: scaled[k] == edges[k] / total
    ensures SumOver(scaled, targets) == SumOver(edges, targets) / total
    decreases targets
  {
    if targets != {} {
      var k :| k in targets;
      SumOverTakesOut(edges, targets, k);
      SumOverTakesOut(scaled, targets, k);
      ScaledTotal(edges, scaled, total, targets - {k});
      Quotients(edges[k], SumOver(edges, targets - {k}), total);
    }
  }

  lemma Quotients(a: real, b: real, total: real)
    requires total > 0.0
    ensures a / total + b / total == (a + b) / total
  {
  }

  /** Normalizes every row in place. */
  method NormalizeRows(adjacency: Graph) returns (graph: Graph)
    requires forall u, v | u in adjacency && v in adjacency[u] :: v in adjacency
    ensures graph.Keys == adjacency.Keys && forall u | u in graph :: IsNormal(adjacency[u], graph[u])
  {
    hide IsNormal;
    graph := adjacency;
    var todo := adjacency.Keys;
    while todo != {}
      invariant todo <= adjacency.Keys == graph.Keys
      invariant forall u | u in todo :: graph[u] == adjacency[u]
      invariant forall u | u in graph && u !in todo :: IsNormal(adjacency[u], graph[u])
    {
      var node :| node in todo;
      todo := todo - {node};
      var row := NormalizeEdges(graph[node]);
      graph := graph[node := row];
    }
  }

  lemma QuotientSign(a: real, total: real)
    requires a >= 0.0 && total > 0.0
    ensures a / total >= 0.0
  {
  }

  // ------------------------------------------------------------ graph, graphFor

  /** graph: the seed scene with its performers, expanded and finalized. */
  method SceneGraph(m: Tables, seed: string) returns (graph: Graph)
    requires seed in m.scenePerformers
    ensures IsGraphFor(m, seed, graph)
  {
    hide Holds, EdgeLinks, SceneLinks, IsReached, IsNormalization, BridgeLinks, CastLinks, Out, Back;
    NoCast(m, seed);
    var adjacency: Graph := map[];
    var performers := m.scenePerformers[seed];
    ghost var held: set<Link> := {};
    EmptyHolds();
    assert performers[..0] == [];
    for i := 0 to |performers|
      invariant Holds(adjacency, held)
      invariant held == CastLinks(m, seed, performers[..i])
    {
      OneMoreInCast(m, seed, performers, i);
      adjacency := LinkAll(adjacency, seed, [performers[i]], m.Affinity(performers[i]), true, held);
      ghost var p := performers[i];
      Regroup(held, Out(seed, [p], m.Affinity(p)), Back(seed, [p], m.Affinity(p)));
      held := held + Out(seed, [p], m.Affinity(p)) + Back(seed, [p], m.Affinity(p));
    }
    assert performers[..|performers|] == performers;
    var expanded;
    ghost var reached, bridged;
    expanded, reached := Expand(m, adjacency, performers, held);
    ghost var base := BaseLinks(m, seed, reached);
    assert (set s | s in performers) == SeedPerformers(m, seed);
    NodesOf(expanded, base);
    graph, bridged := Finalize(m, expanded, seed, base);
    assert IsGraphOf(m, seed, reached, bridged, graph);
  }

  lemma Regroup(a: set<Link>, b: set<Link>, c: set<Link>)
    ensures a + b + c == a + (b + c)
  {
  }

  lemma NoCast(m: Tables, scene: string)
    ensures CastLinks(m, scene, []) == {}
  {
  }

  lemma OneMoreInCast(m: Tables, scene: string, performers: seq<string>, i: nat)
    requires i < |performers|
    ensures var p := performers[i];
            CastLinks(m, scene, performers[..i + 1])
            == CastLinks(m, scene, performers[..i]) + Out(scene, [p], m.Affinity(p)) + Back(scene, [p], m.Affinity(p))
  {
    OneLink(scene, performers[i], m.Affinity(performers[i]));
  }

  lemma OneLink(node: string, other: string, weight: real)
    ensures Out(node, [other], weight) == {Link(node, other, weight)}
    ensures Back(node, [other], weight) == {Link(other, node, weight)}
  {
    var others := [other];
    assert others[0] == other;
    assert Link(node, others[0], weight) in Out(node, others, weight);
    assert Link(others[0], node, weight) in Back(node, others, weight);
  }

  lemma EmptyHolds()
    ensures Holds(map[], {})
  {
  }

  lemma NodesOf(adjacency: Graph, links: set<Link>)
    requires Holds(adjacency, links)
    ensures adjacency.Keys == set l | l in links :: l.from
  {
    forall u | u in adjacency ensures exists l :: l in links && l.from == u {
      var v :| v in adjacency[u];
      assert Link(u, v, adjacency[u][v]) in links;
    }
  }

  /** The graph of a performer seed: its scenes both ways, expanded and finalized. */
  method PerformerGraph(m: Tables, seed: string) returns (graph: Graph)
    requires seed !in m.scenePerformers && seed in m.affinity
    ensures IsGraphFor(m, seed, graph)
  {
    hide Holds, EdgeLinks, SceneLinks, IsReached, IsNormalization, BridgeLinks;
    EmptyHolds();
    var adjacency: Graph := LinkAll(map[], seed, m.Scenes(seed), m.affinity[seed], true, {});
    var expanded;
    ghost var reached, bridged;
    assert {} + Out(seed, m.Scenes(seed), m.affinity[seed]) + Back(seed, m.Scenes(seed), m.affinity[seed])
           == SeedLinks(m, seed);
    expanded, reached := Expand(m, adjacency, [seed], SeedLinks(m, seed));
    ghost var base := BaseLinks(m, seed, reached);
    assert (set s | s in [seed]) == SeedPerformers(m, seed);
    NodesOf(expanded, base);
    graph, bridged := Finalize(m, expanded, seed, base);
    assert IsGraphOf(m, seed, reached, bridged, graph);
  }

  /** graphFor: what pagerank is given. */
  method GraphFor(m: Tables, seed: string) returns (graph: Graph)
    ensures IsGraphFor(m, seed, graph)
  {
    if seed in m.scenePerformers {
      graph := SceneGraph(m, seed);
    } else if seed in m.affinity {
      graph := PerformerGraph(m, seed);
    } else {
      graph := map[];
    }
  }

  // ------------------------------------------------------------ what pagerank needs

  /** A seed's graph has every target as a node, rows that are empty or sum to 1, no
      negative weight, and the seed unless it is empty. */
  lemma GraphIsWalkable(m: Tables, seed: string, graph: Graph)
    requires IsGraphFor(m, seed, graph)
    ensures Normalized(graph)
    ensures m.NonNegative() ==> NonNegativeEdges(graph)
    ensures graph != map[] ==> seed in graph
  {
    hide IsGraphOf;
    if seed in m.scenePerformers || seed in m.affinity {
      var reached, bridged :| IsGraphOf(m, seed, reached, bridged, graph);
      RowsAreWalkable(m, seed, reached, bridged, graph);
      SeedIsThere(m, seed, reached, bridged, graph);
    }
  }

  lemma RowsAreWalkable(m: Tables, seed: string, reached: set<string>, bridged: Graph, graph: Graph)
    requires IsGraphOf(m, seed, reached, bridged, graph)
    ensures Normalized(graph)
    ensures m.NonNegative() ==> NonNegativeEdges(graph)
  {
    hide Holds, IsReached, BaseLinks, BridgeLinks, Total;
    forall u | u in graph ensures graph[u] == map[] || Total(graph[u]) == 1.0 { NormalRow(Row(bridged, u), graph[u]); }
    forall u, v | u in graph && v in graph[u] ensures v in graph {
      assert v in Row(bridged, u);
    }
    if m.NonNegative() {
      LinksAreNonNegative(m, seed, reached, bridged);
      forall u, v | u in graph && v in graph[u] ensures graph[u][v] >= 0.0 {
        assert Row(bridged, u)[v] >= 0.0;
        QuotientSign(Row(bridged, u)[v], Total(Row(bridged, u)));
      }
    }
  }

  ghost predicate AllNonNegative(links: set<Link>) {
    forall l | l in links :: l.weight >= 0.0
  }

  lemma LinksAreNonNegative(m: Tables, seed: string, reached: set<string>, bridged: Graph)
    requires m.NonNegative()
    requires var base := BaseLinks(m, seed, reached);
             Holds(bridged, base + BridgeLinks(m, seed, set l | l in base :: l.from))
    ensures NonNegativeEdges(bridged)
  {
    hide BaseLinks, BridgeLinks;
    var base := BaseLinks(m, seed, reached);
    var nodes := set l | l in base :: l.from;
    BaseIsNonNegative(m, seed, reached);
    BridgesAreNonNegative(m, seed, nodes);
    forall u, v | u in bridged && v in bridged[u] ensures bridged[u][v] >= 0.0 {
      assert Link(u, v, bridged[u][v]) in base + BridgeLinks(m, seed, nodes);
    }
  }

  lemma BridgesAreNonNegative(m: Tables, seed: string, nodes: set<string>)
    ensures AllNonNegative(BridgeLinks(m, seed, nodes))
  {
    forall l | l in BridgeLinks(m, seed, nodes) ensures l.weight >= 0.0 {
      var n :| n in nodes && l in NodeBridges(m, seed, n);
    }
  }

  lemma BaseIsNonNegative(m: Tables, seed: string, reached: set<string>)
    requires m.NonNegative()
    ensures AllNonNegative(BaseLinks(m, seed, reached))
  {
    forall l | l in EdgeLinks(m, reached) ensures l.weight >= 0.0 {
      var p, i :| p in reached && 0 <= i < |m.Edges(p)| && l == Link(p, m.Edges(p)[i].target, m.Edges(p)[i].similarity);
    }
  }

  lemma NormalRow(edges: map<string, real>, normal: map<string, real>)
    requires IsNormal(edges, normal)
    ensures normal == map[] || Total(normal) == 1.0
    ensures normal.Keys <= edges.Keys
  {
    if Total(edges) > 0.0 {
      ScaledTotal(edges, normal, Total(edges), edges.Keys);
      Whole'(Total(edges));
    }
  }

  lemma SeedIsThere(m: Tables, seed: string, reached: set<string>, bridged: Graph, graph: Graph)
    requires IsGraphOf(m, seed, reached, bridged, graph)
    ensures graph != map[] ==> seed in graph
  {
    hide BaseLinks, IsReached, NodeBridges;
    SeedHasLink(m, seed, reached);
    assert BaseLinks(m, seed, reached) == {} ==> BridgeLinks(m, seed, {}) == {};
  }

  /** Where there is any link, the seed has one: a seed scene without performers reaches
      nobody, and a performer without scenes and edges nobody but itself. */
  lemma SeedHasLink(m: Tables, seed: string, reached: set<string>)
    requires IsReached(m, SeedPerformers(m, seed), reached)
    ensures BaseLinks(m, seed, reached) == {} || exists l :: l in BaseLinks(m, seed, reached) && l.from == seed
  {
    if seed in m.scenePerformers {
      var ps := m.scenePerformers[seed];
      if ps == [] {
        assert SeedPerformers(m, seed) == {} && Closed(m, {});
        assert reached == {};
      } else {
        assert Link(seed, ps[0], m.Affinity(ps[0])) in BaseLinks(m, seed, reached);
      }
    } else if m.Scenes(seed) != [] {
      assert Link(seed, m.Scenes(seed)[0], m.Affinity(seed)) in BaseLinks(m, seed, reached);
    } else if m.Edges(seed) != [] {
      assert seed in reached;
      assert Link(seed, m.Edges(seed)[0].target, m.Edges(seed)[0].similarity) in EdgeLinks(m, reached);
    } else {
      assert Closed(m, {seed});
      assert reached == {seed};
    }
  }

  // ------------------------------------------------------------------------ walk

  lemma {:induction false} FewNodes(nodes: seq<string>)
    ensures |(set x | x in nodes)| <= |nodes|
  {
    if nodes != [] {
      var n := |nodes| - 1;
      FewNodes(nodes[..n]);
      assert (set x | x in nodes) == (set x | x in nodes[..n]) + {nodes[n]} by {
        assert nodes == nodes[..n] + [nodes[n]];
      }
    }
  }

  /** What walk returns: the scores of a stopped iteration, a probability vector
      within reach of every fixed point of the walk. */
  ghost predicate ReachScores(seed: string, nodes: seq<string>, w: Walk, t: nat, scores: map<string, real>) {
    && Stochastic(w) && |w.rows| == |nodes| >= 2 && nodes[w.seed] == seed
    && scores.Keys == (set x | x in nodes)
    && (forall i | 0 <= i < |nodes| :: scores[nodes[i]] == Iterate(w, t)[i])
    && NonNegative(Iterate(w, t)) && Sum(Iterate(w, t)) == 1.0
    && 1 <= t <= 87 && Stops(w, TOLERANCE, t - 1)
    && StaysNear(w, t)
  }

  /** The iterate at `t` is close to every fixed point of the walk and to every later iterate. */
  ghost predicate StaysNear(w: Walk, t: nat)
    requires |w.rows| > 0
  {
    && (forall y | |y| == |w.rows| && Step(w, y) == y :: Dist(Iterate(w, t), y) <= Reach(|w.rows|))
    && forall u: nat | u >= t :: Dist(Iterate(w, t), Iterate(w, u)) <= Reach(|w.rows|)
  }

  ghost function Reach(n: nat): real {
    0.85 / 0.15 * n as real * 0.000001
  }

  lemma StopsNear(w: Walk, t: nat)
    requires Stochastic(w) && w.damping == DAMPING && |w.rows| >= 2
    requires RunsFor(w, MAX_ITERATIONS, TOLERANCE, t)
    ensures StaysNear(w, t)
  {
    hide Iterate, Dist, Step, Sum, Stops, RunsFor, Stochastic;
    forall y | |y| == |w.rows| && Step(w, y) == y ensures Dist(Iterate(w, t), y) <= Reach(|w.rows|) {
      ResultNearFixedPoint(w, t, y);
    }
    forall u: nat | u >= t ensures Dist(Iterate(w, t), Iterate(w, u)) <= Reach(|w.rows|) {
      ResultNearLaterIterates(w, t, u - t);
    }
  }

  lemma ScoresReach(graph: Graph, seed: string, nodes: seq<string>, w: Walk, t: nat, scores: map<string, real>)
    requires Normalized(graph) && NonNegativeEdges(graph) && seed in graph && |graph| >= 2
    requires Scored(graph, seed, DAMPING, MAX_ITERATIONS, TOLERANCE, scores, nodes, w, t)
    requires scores.Keys == graph.Keys
    ensures ReachScores(seed, nodes, w, t, scores)
  {
    hide Iterate, Dist, Step, Sum, Stops, StaysNear, Normalized, NonNegativeEdges, Stochastic, RunsFor;
    GraphIsStochastic(graph, seed, DAMPING, nodes, w);
    WalkNodes(graph, seed, DAMPING, nodes, w);
    FewNodes(nodes);
    assert |graph| == |graph.Keys|;
    CapIsNeverReached(w, t);
    IteratesAreDistributions(w, t);
    StopsNear(w, t);
  }

  /** walk: nothing for fewer than two nodes, else the personalized scores of the nodes. */
  method WalkFrom(m: Tables, seed: string) returns (scores: map<string, real>)
    ensures exists graph :: IsWalked(m, seed, graph, scores)
  {
    hide IsWalk, RunsFor, Iterate, ReachScores, IsGraphFor, Scored, Normalized, NonNegativeEdges, Tables.NonNegative;
    var graph := GraphFor(m, seed);
    GraphIsWalkable(m, seed, graph);
    if |graph| < 2 {
      scores := map[];
      assert IsWalked(m, seed, graph, scores);
      return;
    }
    scores := PageRank.PageRank(graph, seed, DAMPING, MAX_ITERATIONS, TOLERANCE);
    ghost var nodes, w, t: nat :| Scored(graph, seed, DAMPING, MAX_ITERATIONS, TOLERANCE, scores, nodes, w, t);
    if m.NonNegative() {
      ScoresReach(graph, seed, nodes, w, t, scores);
    }
    assert IsWalked(m, seed, graph, scores);
  }

  /** What walk returns for the seed's graph: the scores that pagerank computes from that
      graph, and for non-negative tables a probability vector within reach. */
  ghost predicate IsWalked(m: Tables, seed: string, graph: Graph, scores: map<string, real>) {
    && IsGraphFor(m, seed, graph)
    && scores.Keys == (if |graph| < 2 then {} else graph.Keys)
    && (|graph| >= 2 ==>
          exists nodes, w, t: nat ::
            && Scored(graph, seed, DAMPING, MAX_ITERATIONS, TOLERANCE, scores, nodes, w, t)
            && (m.NonNegative() ==> ReachScores(seed, nodes, w, t, scores)))
  }
}
