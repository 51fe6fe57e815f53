/** Calls whose marked edge is not drawn as a return edge, with the layouts that they get. */
module ChronologyExamples {
  import opened ApiNodes
  import opened Digraph
  import opened Sequences
  import opened LayoutModel
  import opened BackEdges
  import opened Layout
  import opened LayoutColumns
  import opened Chronology

  // ----- a marked edge inside one column

  /** The calls a -> b, a -> c and c -> b. */
  function SiblingCalls(a: NodeId, b: NodeId, c: NodeId): seq<Edge> {
    [Edge(a, b, 1), Edge(a, c, 1), Edge(c, b, 1)]
  }

  lemma SiblingArcs(a: NodeId, b: NodeId, c: NodeId)
    requires a != b && b != c && a != c
    ensures EdgeArcs(SiblingCalls(a, b, c)) == {(a, b), (a, c), (c, b)}
    ensures Nodes(SiblingCalls(a, b, c)) == {a, b, c}
  {
    var edges := SiblingCalls(a, b, c);
    assert edges[0] in edges && edges[1] in edges && edges[2] in edges;
    assert forall e :: e in edges <==> e == edges[0] || e == edges[1] || e == edges[2];
  }

  /** When the nodes were first seen in the order a, b, c. */
  ghost predicate InOrder3(a: NodeId, b: NodeId, c: NodeId, before: Order<NodeId>) {
    a != b && b != c && a != c && TotalOrder({a, b, c}, before) && before(a, b) && before(b, c)
  }

  lemma SiblingTimes(a: NodeId, b: NodeId, c: NodeId, before: Order<NodeId>)
    requires InOrder3(a, b, c, before)
    ensures before(a, c) && !before(b, a) && !before(c, a) && !before(c, b)
    ensures EarlierArcs({(a, b), (a, c), (c, b)}, before) == {(a, b), (a, c)}
  {
    assert a in {a, b, c} && b in {a, b, c} && c in {a, b, c};
  }

  lemma SiblingLevels(a: NodeId, b: NodeId, c: NodeId)
    requires a != b && b != c && a != c
    ensures Levels({(a, b), (a, c)}, map[a := 0, b := 1, c := 1])
  {
    var level := map[a := 0, b := 1, c := 1];
    assert Supported({(a, b), (a, c)}, level, a);
    assert Supported({(a, b), (a, c)}, level, b) && Supported({(a, b), (a, c)}, level, c) by {
      assert (a, b) in {(a, b), (a, c)} && (a, c) in {(a, b), (a, c)};
    }
  }

  lemma SiblingDepths(a: NodeId, b: NodeId, c: NodeId, before: Order<NodeId>)
    requires InOrder3(a, b, c, before)
    ensures var arcs := EarlierArcs(EdgeArcs(SiblingCalls(a, b, c)), before);
            LongestWalkTo(arcs, b, 1) && LongestWalkTo(arcs, c, 1)
  {
    SiblingArcs(a, b, c);
    SiblingTimes(a, b, c, before);
    SiblingLevels(a, b, c);
    var level: map<NodeId, nat> := map[a := 0, b := 1, c := 1];
    LevelIsLongestWalk({(a, b), (a, c)}, level, b);
    LevelIsLongestWalk({(a, b), (a, c)}, level, c);
  }

  /** Then the edge c -> b runs back in time and is marked, but every layout draws it inside one column. */
  lemma MarkedMayBeSibling(a: NodeId, b: NodeId, c: NodeId, timeline: set<NodeId>, before: Order<NodeId>, g: Graph)
    requires InOrder3(a, b, c, before) && {a, b, c} <= timeline
    requires Correct(SiblingCalls(a, b, c), timeline, before, g)
    ensures (c, b) in g.marked && g.kinds[2] == Sibling
  {
    SiblingArcs(a, b, c);
    SiblingDepths(a, b, c, before);
    KindIsDecidedByTime(SiblingCalls(a, b, c), timeline, before, g, 2, 1, 1);
  }

  /** And there is such a layout. */
  lemma SiblingLayout(a: NodeId, b: NodeId, c: NodeId, timeline: set<NodeId>, before: Order<NodeId>) returns (g: Graph)
    requires InOrder3(a, b, c, before) && {a, b, c} <= timeline
    ensures Correct(SiblingCalls(a, b, c), timeline, before, g) && g.chronological
    ensures g.columns == [[a], [b, c]] && g.kinds == [Forward, Forward, Sibling]
  {
    var layer: map<NodeId, nat> := map[a := 0, b := 1, c := 1];
    var rank: map<NodeId, nat> := map[a := 0, b := 1, c := 2];
    g := Graph(layer, [[a], [b, c]], [Forward, Forward, Sibling], true, {(c, b)}, rank);
    SiblingArcs(a, b, c);
    SiblingLayered(a, b, c, layer);
    SiblingClassified(a, b, c, layer);
    SiblingColumns(a, b, c, layer);
    SiblingInTime(a, b, c, before, rank);
  }

  lemma SiblingLayered(a: NodeId, b: NodeId, c: NodeId, layer: map<NodeId, nat>)
    requires a != b && b != c && a != c && layer == map[a := 0, b := 1, c := 1]
    ensures Layered(SiblingCalls(a, b, c), layer, {(c, b)})
  {
    SiblingArcs(a, b, c);
    SiblingLevels(a, b, c);
    assert {(a, b), (a, c), (c, b)} - {(c, b)} == {(a, b), (a, c)};
    LevelsAreAcyclic({(a, b), (a, c)}, layer);
  }

  lemma SiblingClassified(a: NodeId, b: NodeId, c: NodeId, layer: map<NodeId, nat>)
    requires a != b && b != c && a != c && layer == map[a := 0, b := 1, c := 1]
    ensures Classified(SiblingCalls(a, b, c), layer, [Forward, Forward, Sibling])
  {
  }

  lemma SiblingColumns(a: NodeId, b: NodeId, c: NodeId, layer: map<NodeId, nat>)
    requires a != b && b != c && a != c && layer == map[a := 0, b := 1, c := 1]
    ensures Columns([[a], [b, c]], layer)
  {
  }

  lemma SiblingInTime(a: NodeId, b: NodeId, c: NodeId, before: Order<NodeId>, rank: map<NodeId, nat>)
    requires InOrder3(a, b, c, before) && rank == map[a := 0, b := 1, c := 2]
    ensures MarkedInTime({a, b, c}, before, {(a, b), (a, c), (c, b)}, {(c, b)}, rank)
  {
    SiblingTimes(a, b, c, before);
  }

  lemma LevelsAreAcyclic(arcs: set<Pair>, layer: map<NodeId, nat>)
    requires Levels(arcs, layer) && forall a :: a in arcs ==> a.1 in layer
    ensures Acyclic(arcs)
  {
    var rank: map<NodeId, int> := map v | v in layer :: layer[v];
    forall u, v | (u, v) in arcs ensures u in rank && v in rank && rank[u] < rank[v] {
      assert (u, v).1 in layer;
    }
    RankedIsAcyclic(arcs, rank);
  }

  // ----- a marked edge that is drawn forward

  /** The calls p -> q, q -> v and u -> v. */
  function ForwardCalls(p: NodeId, q: NodeId, v: NodeId, u: NodeId): seq<Edge> {
    [Edge(p, q, 1), Edge(q, v, 1), Edge(u, v, 1)]
  }

  ghost predicate InOrder4(p: NodeId, q: NodeId, v: NodeId, u: NodeId, before: Order<NodeId>) {
    && NoDuplicates([p, q, v, u]) && TotalOrder({p, q, v, u}, before)
    && before(p, q) && before(q, v) && before(v, u)
  }

  lemma ForwardDistinct(p: NodeId, q: NodeId, v: NodeId, u: NodeId)
    requires NoDuplicates([p, q, v, u])
    ensures p != q && p != v && p != u && q != v && q != u && v != u
  {
    var s := [p, q, v, u];
    assert s[0] != s[1] && s[0] != s[2] && s[0] != s[3] && s[1] != s[2] && s[1] != s[3] && s[2] != s[3];
  }

  lemma ForwardArcs(p: NodeId, q: NodeId, v: NodeId, u: NodeId)
    requires NoDuplicates([p, q, v, u])
    ensures EdgeArcs(ForwardCalls(p, q, v, u)) == {(p, q), (q, v), (u, v)}
    ensures Nodes(ForwardCalls(p, q, v, u)) == {p, q, v, u}
  {
    ForwardDistinct(p, q, v, u);
    var edges := ForwardCalls(p, q, v, u);
    assert edges[0] in edges && edges[1] in edges && edges[2] in edges;
    assert forall e :: e in edges <==> e == edges[0] || e == edges[1] || e == edges[2];
  }

  lemma ForwardTimes(p: NodeId, q: NodeId, v: NodeId, u: NodeId, before: Order<NodeId>)
    requires InOrder4(p, q, v, u, before)
    ensures before(p, v) && before(p, u) && before(q, u)
    ensures !before(q, p) && !before(v, p) && !before(u, p) && !before(v, q) && !before(u, q) && !before(u, v)
    ensures EarlierArcs({(p, q), (q, v), (u, v)}, before) == {(p, q), (q, v)}
  {
    var nodes := {p, q, v, u};
    assert p in nodes && q in nodes && v in nodes && u in nodes;
  }

  lemma ForwardLevels(p: NodeId, q: NodeId, v: NodeId, u: NodeId)
    requires NoDuplicates([p, q, v, u])
    ensures Levels({(p, q), (q, v)}, map[p := 0, q := 1, v := 2, u := 0])
  {
    ForwardDistinct(p, q, v, u);
    var arcs, level := {(p, q), (q, v)}, map[p := 0, q := 1, v := 2, u := 0];
    assert Supported(arcs, level, p) && Supported(arcs, level, u);
    assert Supported(arcs, level, q) && Supported(arcs, level, v) by {
      assert (p, q) in arcs && (q, v) in arcs;
    }
  }

  lemma ForwardDepths(p: NodeId, q: NodeId, v: NodeId, u: NodeId, before: Order<NodeId>)
    requires InOrder4(p, q, v, u, before)
    ensures var arcs := EarlierArcs(EdgeArcs(ForwardCalls(p, q, v, u)), before);
            LongestWalkTo(arcs, u, 0) && LongestWalkTo(arcs, v, 2)
  {
    ForwardDistinct(p, q, v, u);
    ForwardArcs(p, q, v, u);
    ForwardTimes(p, q, v, u, before);
    ForwardLevels(p, q, v, u);
    var level: map<NodeId, nat> := map[p := 0, q := 1, v := 2, u := 0];
    LevelIsLongestWalk({(p, q), (q, v)}, level, u);
    LevelIsLongestWalk({(p, q), (q, v)}, level, v);
  }

  /** When the nodes were first seen in the order p, q, v, u, the edge u -> v runs back in time and is marked,
      but every layout draws it two columns forward. */
  lemma MarkedMayBeForward(p: NodeId, q: NodeId, v: NodeId, u: NodeId, timeline: set<NodeId>, before: Order<NodeId>,
                           g: Graph)
    requires InOrder4(p, q, v, u, before) && {p, q, v, u} <= timeline
    requires Correct(ForwardCalls(p, q, v, u), timeline, before, g)
    ensures (u, v) in g.marked && g.kinds[2] == Forward
  {
    ForwardDistinct(p, q, v, u);
    ForwardArcs(p, q, v, u);
    ForwardDepths(p, q, v, u, before);
    KindIsDecidedByTime(ForwardCalls(p, q, v, u), timeline, before, g, 2, 0, 2);
  }

  lemma ForwardLayout(p: NodeId, q: NodeId, v: NodeId, u: NodeId, timeline: set<NodeId>, before: Order<NodeId>)
    returns (g: Graph)
    requires InOrder4(p, q, v, u, before) && {p, q, v, u} <= timeline
    ensures Correct(ForwardCalls(p, q, v, u), timeline, before, g) && g.chronological
    ensures g.columns == [[p, u], [q], [v]] && g.kinds == [Forward, Forward, Forward]
  {
    var layer: map<NodeId, nat> := map[p := 0, q := 1, v := 2, u := 0];
    var rank: map<NodeId, nat> := map[p := 0, q := 1, v := 2, u := 3];
    g := Graph(layer, [[p, u], [q], [v]], [Forward, Forward, Forward], true, {(u, v)}, rank);
    ForwardArcs(p, q, v, u);
    ForwardLayered(p, q, v, u, layer);
    ForwardColumns(p, q, v, u, layer);
    ForwardRanks(p, q, v, u, before, rank);
  }

  lemma ForwardLayered(p: NodeId, q: NodeId, v: NodeId, u: NodeId, layer: map<NodeId, nat>)
    requires NoDuplicates([p, q, v, u]) && layer == map[p := 0, q := 1, v := 2, u := 0]
    ensures Layered(ForwardCalls(p, q, v, u), layer, {(u, v)})
    ensures Classified(ForwardCalls(p, q, v, u), layer, [Forward, Forward, Forward])
  {
    ForwardDistinct(p, q, v, u);
    ForwardArcs(p, q, v, u);
    ForwardLevels(p, q, v, u);
    assert {(p, q), (q, v), (u, v)} - {(u, v)} == {(p, q), (q, v)};
    LevelsAreAcyclic({(p, q), (q, v)}, layer);
  }

  lemma ForwardColumns(p: NodeId, q: NodeId, v: NodeId, u: NodeId, layer: map<NodeId, nat>)
    requires NoDuplicates([p, q, v, u]) && layer == map[p := 0, q := 1, v := 2, u := 0]
    ensures Columns([[p, u], [q], [v]], layer)
  {
    ForwardDistinct(p, q, v, u);
  }

  lemma ForwardRanks(p: NodeId, q: NodeId, v: NodeId, u: NodeId, before: Order<NodeId>, rank: map<NodeId, nat>)
    requires InOrder4(p, q, v, u, before) && rank == map[p := 0, q := 1, v := 2, u := 3]
    ensures MarkedInTime({p, q, v, u}, before, {(p, q), (q, v), (u, v)}, {(u, v)}, rank)
  {
    ForwardDistinct(p, q, v, u);
    ForwardTimes(p, q, v, u, before);
  }
}
