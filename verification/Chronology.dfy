/** How edges are drawn when every node is on the timeline: what decides the shape of a marked edge. */
module Chronology {
  import opened ApiNodes
  import opened Digraph
  import opened LayoutModel
  import opened BackEdges
  import opened Layout

  /** A comparator that leaves no two nodes tied. */
  ghost predicate TotalOrder(nodes: set<NodeId>, before: Order<NodeId>) {
    && WeakOrder(nodes, before)
    && forall u, v :: u in nodes && v in nodes && u != v ==> before(u, v) || before(v, u)
  }

  /** The arcs that run forward in time, by position on the timeline or by its comparator. */
  ghost function ForwardInTime(arcs: set<Pair>, timeRank: map<NodeId, nat>): set<Pair> {
    set a | a in arcs && a.0 in timeRank && a.1 in timeRank && timeRank[a.0] < timeRank[a.1]
  }

  ghost function EarlierArcs(arcs: set<Pair>, before: Order<NodeId>): set<Pair> {
    set a | a in arcs && before(a.0, a.1)
  }

  /** Positions follow a comparator without ties exactly. */
  lemma RankIsTheTimeOrder(edges: seq<Edge>, timeline: set<NodeId>, before: Order<NodeId>, g: Graph)
    requires Correct(edges, timeline, before, g) && g.chronological && TotalOrder(Nodes(edges), before)
    ensures forall u, v :: u in Nodes(edges) && v in Nodes(edges) ==>
              u in g.timeRank && v in g.timeRank && (g.timeRank[u] < g.timeRank[v] <==> before(u, v))
    ensures ForwardInTime(EdgeArcs(edges), g.timeRank) == EarlierArcs(EdgeArcs(edges), before)
  {
    var nodes := Nodes(edges);
    forall u, v | u in nodes && v in nodes
      ensures u in g.timeRank && v in g.timeRank && (g.timeRank[u] < g.timeRank[v] <==> before(u, v))
    {
      assert u == v ==> !before(u, v);
    }
    forall a | a in EdgeArcs(edges) ensures a.0 in nodes && a.1 in nodes {
      ArcsJoinNodes(edges, a);
    }
  }

  lemma ArcsJoinNodes(edges: seq<Edge>, a: Pair)
    requires a in EdgeArcs(edges)
    ensures a.0 in Nodes(edges) && a.1 in Nodes(edges) && a.0 != a.1
  {
  }

  /** What is not marked runs forward in time, so the layers are depths along the arcs forward in time. */
  lemma LayerIsDepthInTime(edges: seq<Edge>, timeline: set<NodeId>, before: Order<NodeId>, g: Graph, v: NodeId)
    requires Correct(edges, timeline, before, g) && g.chronological && v in Nodes(edges)
    ensures v in g.layer && LongestWalkTo(ForwardInTime(EdgeArcs(edges), g.timeRank), v, g.layer[v])
  {
    var arcs := EdgeArcs(edges);
    forall a ensures a in arcs - g.marked <==> a in ForwardInTime(arcs, g.timeRank) {
      if a in arcs {
        ArcsJoinNodes(edges, a);
        assert (a.0, a.1) == a;
      }
    }
    LevelIsLongestWalk(arcs - g.marked, g.layer, v);
    assert arcs - g.marked == ForwardInTime(arcs, g.timeRank);
  }

  /** The shape of an edge between nodes whose longest forward paths have these lengths. */
  function KindByDepth(from: nat, to: nat): EdgeKind {
    if to > from then Forward else if to == from then Sibling else Back
  }

  /** The exact rule: with a full timeline the shape of an edge, marked or not, depends only on how long the
      paths forward in time into its two ends are. */
  lemma KindIsDecidedByDepth(edges: seq<Edge>, timeline: set<NodeId>, before: Order<NodeId>, g: Graph,
                             i: nat, from: nat, to: nat)
    requires Correct(edges, timeline, before, g) && g.chronological && i < |edges| && edges[i].from != edges[i].to
    requires LongestWalkTo(ForwardInTime(EdgeArcs(edges), g.timeRank), edges[i].from, from)
    requires LongestWalkTo(ForwardInTime(EdgeArcs(edges), g.timeRank), edges[i].to, to)
    ensures g.kinds[i] == KindByDepth(from, to)
  {
    var forwards, e := ForwardInTime(EdgeArcs(edges), g.timeRank), edges[i];
    assert e in edges && e.from in Nodes(edges) && e.to in Nodes(edges);
    LayerIsDepthInTime(edges, timeline, before, g, e.from);
    LayerIsDepthInTime(edges, timeline, before, g, e.to);
    LongestIsUnique(forwards, e.from, from, g.layer[e.from]);
    LongestIsUnique(forwards, e.to, to, g.layer[e.to]);
  }

  /** The same rule from the edges and the comparator alone, when the comparator leaves no ties. */
  lemma KindIsDecidedByTime(edges: seq<Edge>, timeline: set<NodeId>, before: Order<NodeId>, g: Graph,
                            i: nat, from: nat, to: nat)
    requires Correct(edges, timeline, before, g) && Nodes(edges) <= timeline && TotalOrder(Nodes(edges), before)
    requires i < |edges| && edges[i].from != edges[i].to
    requires LongestWalkTo(EarlierArcs(EdgeArcs(edges), before), edges[i].from, from)
    requires LongestWalkTo(EarlierArcs(EdgeArcs(edges), before), edges[i].to, to)
    ensures g.kinds[i] == KindByDepth(from, to)
    ensures (edges[i].from, edges[i].to) in g.marked <==> before(edges[i].to, edges[i].from)
  {
    var e := edges[i];
    assert e in edges && e.from in Nodes(edges) && e.to in Nodes(edges);
    RankIsTheTimeOrder(edges, timeline, before, g);
    KindIsDecidedByDepth(edges, timeline, before, g, i, from, to);
    assert (e.from, e.to) in EdgeArcs(edges);
  }

  // ----- when marked edges are drawn back

  /** The longest path into u is shorter than the longest path into v. */
  ghost predicate Shallower(arcs: set<Pair>, u: NodeId, v: NodeId) {
    exists m, n :: LongestWalkTo(arcs, u, m) && LongestWalkTo(arcs, v, n) && m < n
  }

  /** Every arc that runs back in time leads to a node that is less deep in time. */
  ghost predicate BackwardArcsDescend(arcs: set<Pair>, timeRank: map<NodeId, nat>) {
    forall u, v :: (u, v) in arcs && u in timeRank && v in timeRank && timeRank[v] < timeRank[u]
      ==> Shallower(ForwardInTime(arcs, timeRank), v, u)
  }

  ghost predicate MarkedAreBack(edges: seq<Edge>, g: Graph)
    requires |g.kinds| == |edges|
  {
    forall i :: 0 <= i < |edges| && (edges[i].from, edges[i].to) in g.marked ==> g.kinds[i] == Back
  }

  /** All marked edges are drawn as return edges exactly if every arc back in time descends. */
  lemma MarkedAreBackIff(edges: seq<Edge>, timeline: set<NodeId>, before: Order<NodeId>, g: Graph)
    requires Correct(edges, timeline, before, g) && g.chronological
    ensures MarkedAreBack(edges, g) <==> BackwardArcsDescend(EdgeArcs(edges), g.timeRank)
  {
    forall i | 0 <= i < |edges| && (edges[i].from, edges[i].to) in g.marked
      ensures g.kinds[i] == Back
         <==> Shallower(ForwardInTime(EdgeArcs(edges), g.timeRank), edges[i].to, edges[i].from)
    {
      MarkedIsBackIff(edges, timeline, before, g, i);
    }
    if MarkedAreBack(edges, g) {
      forall u, v | (u, v) in EdgeArcs(edges) && u in g.timeRank && v in g.timeRank && g.timeRank[v] < g.timeRank[u]
        ensures Shallower(ForwardInTime(EdgeArcs(edges), g.timeRank), v, u)
      {
        var e :| e in edges && e.from != e.to && (e.from, e.to) == (u, v);
        var i :| 0 <= i < |edges| && edges[i] == e;
        assert (u, v) in g.marked;
      }
    }
    if BackwardArcsDescend(EdgeArcs(edges), g.timeRank) {
      forall i | 0 <= i < |edges| && (edges[i].from, edges[i].to) in g.marked ensures g.kinds[i] == Back {
        ArcsJoinNodes(edges, (edges[i].from, edges[i].to));
      }
    }
  }

  lemma MarkedIsBackIff(edges: seq<Edge>, timeline: set<NodeId>, before: Order<NodeId>, g: Graph, i: nat)
    requires Correct(edges, timeline, before, g) && g.chronological
    requires i < |edges| && (edges[i].from, edges[i].to) in g.marked
    ensures g.kinds[i] == Back
       <==> Shallower(ForwardInTime(EdgeArcs(edges), g.timeRank), edges[i].to, edges[i].from)
  {
    var forwards, e := ForwardInTime(EdgeArcs(edges), g.timeRank), edges[i];
    ArcsJoinNodes(edges, (e.from, e.to));
    LayerIsDepthInTime(edges, timeline, before, g, e.from);
    LayerIsDepthInTime(edges, timeline, before, g, e.to);
    KindIsDecidedByDepth(edges, timeline, before, g, i, g.layer[e.from], g.layer[e.to]);
    if Shallower(forwards, e.to, e.from) {
      var m, n :| LongestWalkTo(forwards, e.to, m) && LongestWalkTo(forwards, e.from, n) && m < n;
      LongestIsUnique(forwards, e.to, m, g.layer[e.to]);
      LongestIsUnique(forwards, e.from, n, g.layer[e.from]);
    }
  }
}
