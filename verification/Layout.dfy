/** The layered layout of a transition graph: which edges are return edges, which column each node
    is drawn in, and which shape each edge gets. */
module Layout {
  import opened ApiNodes
  import opened Digraph
  import opened Sequences
  import opened LayoutModel
  import opened BackEdges
  import opened DepthFirst
  import opened Layers
  import opened LayoutColumns

  /** Every comparator the layout sorts with. They rank by weights, averages and locale collation. */
  datatype Orders = Orders(nodes: Order<NodeId>, links: Order<Link>, time: Order<NodeId>, seeds: Order<NodeId>)

  datatype Graph = Graph(layer: map<NodeId, nat>, columns: seq<seq<NodeId>>, kinds: seq<EdgeKind>,
                         chronological: bool, marked: set<Pair>, timeRank: map<NodeId, nat>)

  ghost function Nodes(edges: seq<Edge>): set<NodeId> {
    (set e | e in edges :: e.from) + (set e | e in edges :: e.to)
  }

  lemma NodesAreEndpoints(edges: seq<Edge>)
    ensures forall n :: n in Nodes(edges) <==> IsNode(edges, n)
  {
  }

  function Kind(layer: map<NodeId, nat>, e: Edge): EdgeKind
    requires e.from in layer && e.to in layer
  {
    if e.from == e.to then Self
    else if layer[e.to] > layer[e.from] then Forward
    else if layer[e.to] == layer[e.from] then Sibling
    else Back
  }

  /** What the layout promises about the arcs it does not mark and about the layers. */
  ghost predicate Layered(edges: seq<Edge>, layer: map<NodeId, nat>, marked: set<Pair>) {
    && layer.Keys == Nodes(edges)
    && marked <= EdgeArcs(edges)
    && Acyclic(EdgeArcs(edges) - marked)
    && Levels(EdgeArcs(edges) - marked, layer)
  }

  /** The position of each node in a list that names it once. */
  method RankByPosition(sorted: seq<NodeId>) returns (rank: map<NodeId, nat>)
    requires NoDuplicates(sorted)
    ensures forall v :: v in rank <==> v in sorted
    ensures forall i :: 0 <= i < |sorted| ==> sorted[i] in rank && rank[sorted[i]] == i
  {
    rank := map[];
    for i := 0 to |sorted|
      invariant forall v :: v in rank <==> v in sorted[..i]
      invariant forall j :: 0 <= j < i ==> sorted[j] in rank && rank[sorted[j]] == j
    {
      TakeOneMore(sorted, i);
      rank := rank[sorted[i] := i];
    }
    TakeAll(sorted);
  }

  /** The node list is in order, and so is every successor list, which holds what the edges put into it. */
  ghost predicate Prepared(edges: seq<Edge>, orders: Orders, ids: seq<NodeId>, succ: Adjacency) {
    && Enumerates(ids, Nodes(edges)) && InOrder(ids, orders.nodes)
    && succ.Keys == Nodes(edges) && Closed(succ) && HoldsLinks(succ, edges)
    && forall n :: n in succ ==> InOrder(succ[n], orders.links)
  }

  /** The sorted successor lists and node list that both branches start from. */
  method Prepare(edges: seq<Edge>, orders: Orders)
    returns (ids: seq<NodeId>, succ: Adjacency, indegree: map<NodeId, nat>)
    ensures Prepared(edges, orders, ids, succ)
    ensures indegree.Keys == Nodes(edges)
    ensures LinkArcs(succ) == EdgeArcs(edges)
    ensures forall n :: n in indegree ==> (indegree[n] == 0 <==> NoArcInto(EdgeArcs(edges), n))
  {
    NodesAreEndpoints(edges);
    var found := CollectNodes(edges);
    ids := SortBy(found, orders.nodes);
    PermutationEnumerates(found, ids, Nodes(edges));
    InOrderAfterSort(found, ids, orders.nodes);
    succ, indegree := CollectLinks(ids, edges);
    succ := SortLinks(ids, succ, orders.links);
  }

  /** The nodes of a list that are not among the seeds, in their order. */
  ghost function Others(ids: seq<NodeId>, seeds: seq<NodeId>): seq<NodeId> {
    if ids == [] then []
    else Others(ids[..|ids|-1], seeds) + if ids[|ids|-1] in seeds then [] else [ids[|ids|-1]]
  }

  lemma {:induction false} OthersAreLeft(ids: seq<NodeId>, seeds: seq<NodeId>)
    ensures forall v :: v in Others(ids, seeds) <==> v in ids && v !in seeds
    decreases |ids|
  {
    if ids != [] {
      OthersAreLeft(ids[..|ids|-1], seeds);
    }
  }

  /** No node of the list comes before x, if the comparator is an order on them. */
  ghost predicate ComesFirst(ids: seq<NodeId>, order: Order<NodeId>, x: NodeId) {
    x in ids && (WeakOrder(Elements(ids), order) ==> forall y :: y in ids ==> !order(y, x))
  }

  ghost predicate HasSource(arcs: set<Pair>, ids: seq<NodeId>) {
    exists v :: v in ids && NoArcInto(arcs, v)
  }

  /** The search begins at the nodes that no arc leads to, in the order of the comparator, or failing those at the
      best ranked node. */
  ghost predicate AreSeeds(arcs: set<Pair>, ids: seq<NodeId>, order: Order<NodeId>, seeds: seq<NodeId>) {
    if HasSource(arcs, ids) then
      && NoDuplicates(seeds) && InOrder(seeds, order)
      && forall v :: v in seeds <==> v in ids && NoArcInto(arcs, v)
    else |seeds| == 1 && ComesFirst(ids, order, seeds[0])
  }

  /** Start list of the search: the seeds and then all the others. */
  method SearchOrder(ids: seq<NodeId>, indegree: map<NodeId, nat>, order: Order<NodeId>, ghost arcs: set<Pair>)
    returns (starts: seq<NodeId>, ghost seeds: seq<NodeId>)
    requires Enumerates(ids, indegree.Keys) && |ids| > 0
    requires forall n :: n in indegree ==> (indegree[n] == 0 <==> NoArcInto(arcs, n))
    ensures forall v :: v in starts <==> v in indegree
    ensures AreSeeds(arcs, ids, order, seeds) && starts == seeds + Others(ids, seeds)
  {
    var sources := [];
    for i := 0 to |ids|
      invariant NoDuplicates(sources)
      invariant forall v :: v in sources <==> v in ids[..i] && NoArcInto(arcs, v)
    {
      TakeOneMore(ids, i);
      FreshHead(ids, i);
      if indegree[ids[i]] == 0 {
        sources := sources + [ids[i]];
      }
    }
    TakeAll(ids);
    var first := SeedList(ids, sources, order, arcs);
    seeds := first;
    starts := first;
    for i := 0 to |ids|
      invariant starts == seeds + Others(ids[..i], seeds)
    {
      assert ids[..i+1][..i] == ids[..i];
      if ids[i] !in first {
        starts := starts + [ids[i]];
      }
    }
    OthersAreLeft(ids, seeds);
  }

  method SeedList(ids: seq<NodeId>, sources: seq<NodeId>, order: Order<NodeId>, ghost arcs: set<Pair>)
    returns (seeds: seq<NodeId>)
    requires NoDuplicates(ids) && |ids| > 0 && NoDuplicates(sources)
    requires forall v :: v in sources <==> v in ids && NoArcInto(arcs, v)
    ensures AreSeeds(arcs, ids, order, seeds) && forall v :: v in seeds ==> v in ids
  {
    seeds := SortBy(sources, order);
    PermutationEnumerates(sources, seeds, Elements(sources));
    InOrderAfterSort(sources, seeds, order);
    if |seeds| == 0 {
      assert !HasSource(arcs, ids) by { assert forall v :: v !in seeds; }
      var all := SortBy(ids, order);
      PermutationEnumerates(ids, all, Elements(ids));
      assert ids[0] in all;
      assert all[0] in all;
      seeds := [all[0]];
    } else {
      assert seeds[0] in sources;
    }
  }

  /** With a full timeline the marked arcs are exactly those that run back in time. */
  ghost predicate MarkedInTime(nodes: set<NodeId>, before: Order<NodeId>, arcs: set<Pair>, marked: set<Pair>,
                               timeRank: map<NodeId, nat>)
  {
    && InTime(nodes, before, timeRank)
    && forall u, v :: (u, v) in arcs && u in timeRank && v in timeRank ==>
         ((u, v) in marked <==> timeRank[v] < timeRank[u])
  }

  /** The search marks only arcs that close a cycle of otherwise unmarked arcs, and it cuts nothing off from the
      nodes that no arc leads to. */
  ghost predicate MarkedBySearch(arcs: set<Pair>, marked: set<Pair>) {
    && (forall u, v :: (u, v) in marked ==> Reaches(arcs - marked, v, u))
    && (Acyclic(arcs) ==> marked == {})
    && (forall v :: FromSource(arcs, arcs, v) ==> FromSource(arcs, arcs - marked, v))
  }

  /** Some node without arcs into it reaches v along the chosen arcs. */
  ghost predicate FromSource(arcs: set<Pair>, chosen: set<Pair>, v: NodeId) {
    exists r :: NoArcInto(arcs, r) && Reaches(chosen, r, v)
  }

  /** The marks of a depth-first search from the seeds and then from all other nodes. */
  ghost predicate SearchedFrom(arcs: set<Pair>, ids: seq<NodeId>, succ: Adjacency, order: Order<NodeId>,
                               seeds: seq<NodeId>, marked: set<Pair>)
  {
    && Enumerates(ids, succ.Keys) && Closed(succ) && AreSeeds(arcs, ids, order, seeds)
    && (forall v :: v in seeds + Others(ids, seeds) ==> v in succ)
    && marked == VisitAll(succ, {}, seeds + Others(ids, seeds)).marks
  }

  lemma SeedsKeepReach(ids: seq<NodeId>, succ: Adjacency, order: Order<NodeId>, seeds: seq<NodeId>,
                       starts: seq<NodeId>, marked: set<Pair>)
    requires Enumerates(ids, succ.Keys) && Closed(succ)
    requires AreSeeds(LinkArcs(succ), ids, order, seeds) && seeds <= starts
    requires KeepsReachFrom(succ, marked, starts, |seeds|)
    ensures forall v :: FromSource(LinkArcs(succ), LinkArcs(succ), v) ==>
              FromSource(LinkArcs(succ), LinkArcs(succ) - marked, v)
  {
    var arcs := LinkArcs(succ);
    forall v | FromSource(arcs, arcs, v) ensures FromSource(arcs, arcs - marked, v) {
      var r :| NoArcInto(arcs, r) && Reaches(arcs, r, v);
      if r == v {
        ArcReaches(arcs - marked, r, v);
      } else {
        var p :| Connects(arcs, p, r, v);
        assert (p[0], p[1]) in arcs;
        assert r in ids && HasSource(arcs, ids);
        assert ReachedFrom(arcs, starts[..|seeds|], v);
        var q :| q in starts[..|seeds|] && Reaches(arcs - marked, q, v);
      }
    }
  }

  /** One of the two branches chooses the marked arcs; either way the rest is acyclic. */
  method ChooseMarked(ids: seq<NodeId>, succ: Adjacency, indegree: map<NodeId, nat>, timeline: set<NodeId>,
                      orders: Orders)
    returns (chronological: bool, marked: set<Pair>, timeRank: map<NodeId, nat>, ghost seeds: seq<NodeId>)
    requires |ids| > 0 && Enumerates(ids, succ.Keys) && indegree.Keys == succ.Keys && Closed(succ)
    requires forall n :: n in indegree ==> (indegree[n] == 0 <==> NoArcInto(LinkArcs(succ), n))
    requires forall u, v :: (u, v) in LinkArcs(succ) ==> u != v
    ensures chronological <==> succ.Keys <= timeline
    ensures marked <= LinkArcs(succ) && Acyclic(LinkArcs(succ) - marked)
    ensures if chronological then MarkedInTime(succ.Keys, orders.time, LinkArcs(succ), marked, timeRank)
            else MarkedBySearch(LinkArcs(succ), marked)
                 && SearchedFrom(LinkArcs(succ), ids, succ, orders.seeds, seeds, marked)
  {
    timeRank, seeds := map[], [];
    chronological := forall i :: 0 <= i < |ids| ==> ids[i] in timeline;
    if chronological {
      var sorted := SortBy(ids, orders.time);
      PermutationEnumerates(ids, sorted, succ.Keys);
      timeRank := RankByPosition(sorted);
      assert timeRank.Keys == succ.Keys;
      assert Elements(ids) == succ.Keys;
      RanksAreInTime(ids, orders.time, sorted, timeRank);
      marked := MarkBackwards(ids, succ, timeRank);
      ForwardInTimeIsAcyclic(succ, timeRank, marked);
      forall e | e in marked ensures e in LinkArcs(succ) { assert (e.0, e.1) in marked; }
    } else {
      var starts;
      starts, seeds := SearchOrder(ids, indegree, orders.seeds, LinkArcs(succ));
      ghost var finished;
      marked, finished := MarkBackEdges(succ, starts);
      SeedsKeepReach(ids, succ, orders.seeds, seeds, starts, marked);
    }
  }

  /** Positions on the timeline: every node has its own, and a node that the timeline's comparator puts
      before another has the smaller one, provided that the comparator orders the nodes at all. */
  ghost predicate InTime(nodes: set<NodeId>, before: Order<NodeId>, timeRank: map<NodeId, nat>) {
    && timeRank.Keys == nodes
    && (forall u, v :: u in timeRank && v in timeRank && u != v ==> timeRank[u] != timeRank[v])
    && (WeakOrder(nodes, before) ==>
          forall u, v :: u in nodes && v in nodes && before(u, v) ==> timeRank[u] < timeRank[v])
  }

  lemma RanksAreInTime(ids: seq<NodeId>, before: Order<NodeId>, sorted: seq<NodeId>, rank: map<NodeId, nat>)
    requires NoDuplicates(sorted) && SortedIfOrdered(ids, sorted, before) && Elements(ids) == rank.Keys
    requires forall v :: v in rank <==> v in sorted
    requires forall i :: 0 <= i < |sorted| ==> sorted[i] in rank && rank[sorted[i]] == i
    ensures InTime(rank.Keys, before, rank)
  {
    forall u, v | u in rank && v in rank && u != v ensures rank[u] != rank[v] {
      var i :| 0 <= i < |sorted| && sorted[i] == u;
      var j :| 0 <= j < |sorted| && sorted[j] == v;
    }
    if WeakOrder(rank.Keys, before) {
      forall u, v | u in rank && v in rank && before(u, v) ensures rank[u] < rank[v] {
        assert sorted[rank[u]] == u by { var i :| 0 <= i < |sorted| && sorted[i] == u; }
        assert sorted[rank[v]] == v by { var j :| 0 <= j < |sorted| && sorted[j] == v; }
      }
    }
  }

  /** The shape that the layers call for. */
  ghost predicate Fits(layer: map<NodeId, nat>, e: Edge, kind: EdgeKind)
    requires e.from in layer && e.to in layer
  {
    match kind
    case Self => e.from == e.to
    case Forward => e.from != e.to && layer[e.from] < layer[e.to]
    case Sibling => e.from != e.to && layer[e.from] == layer[e.to]
    case Back => e.from != e.to && layer[e.to] < layer[e.from]
  }

  ghost predicate Classified(edges: seq<Edge>, layer: map<NodeId, nat>, kinds: seq<EdgeKind>) {
    && |kinds| == |edges|
    && forall i :: 0 <= i < |edges| ==>
         edges[i].from in layer && edges[i].to in layer && Fits(layer, edges[i], kinds[i])
  }

  method ClassifyEdges(edges: seq<Edge>, layer: map<NodeId, nat>) returns (kinds: seq<EdgeKind>)
    requires forall e :: e in edges ==> e.from in layer && e.to in layer
    ensures Classified(edges, layer, kinds)
  {
    kinds := [];
    for i := 0 to |edges|
      invariant |kinds| == i
      invariant forall j :: 0 <= j < i ==> Fits(layer, edges[j], kinds[j])
    {
      kinds := kinds + [Kind(layer, edges[i])];
    }
  }

  // ----- the whole layout

  /** The contract of the layout, for a non-empty edge list. */
  ghost predicate Correct(edges: seq<Edge>, timeline: set<NodeId>, before: Order<NodeId>, g: Graph) {
    && Layered(edges, g.layer, g.marked)
    && Columns(g.columns, g.layer)
    && Classified(edges, g.layer, g.kinds)
    && (g.chronological <==> Nodes(edges) <= timeline)
    && (if g.chronological then MarkedInTime(Nodes(edges), before, EdgeArcs(edges), g.marked, g.timeRank)
        else MarkedBySearch(EdgeArcs(edges), g.marked))
  }

  /** The layout of an edge list. Besides being correct it is the one that the node list, the successor lists and
      the comparators call for: without a full timeline the marks are those of the depth-first search, and in every
      column the rows follow the mean rows of the neighbours to the right. */
  method LayoutGraph(edges: seq<Edge>, timeline: set<NodeId>, orders: Orders)
    returns (g: Graph, ghost ids: seq<NodeId>, ghost succ: Adjacency, ghost seeds: seq<NodeId>, ghost out: Lists)
    ensures edges == [] ==> g == Graph(map[], [], [], false, {}, map[])
    ensures edges != [] ==> Correct(edges, timeline, orders.time, g)
    ensures Prepared(edges, orders, ids, succ)
    ensures edges != [] && !g.chronological ==>
              SearchedFrom(EdgeArcs(edges), ids, succ, orders.seeds, seeds, g.marked)
    ensures edges != [] ==> Forwards(succ, g.marked, out) && Settled(g.columns, g.layer, out, true, orders.nodes)
  {
    var nodes, lists, indegree := Prepare(edges, orders);
    ids, succ, seeds, out := nodes, lists, [], map[];
    if |nodes| == 0 {
      EdgesHaveNodes(edges, nodes);
      g := Graph(map[], [], [], false, {}, map[]);
      return;
    }
    assert edges != [] by { assert nodes[0] in nodes; }
    assert forall u, v :: (u, v) in LinkArcs(lists) ==> u != v by { ArcsJoinDistinctNodes(edges); }
    var chronological, marked, timeRank;
    chronological, marked, timeRank, seeds := ChooseMarked(nodes, lists, indegree, timeline, orders);
    var layer, columns;
    layer, columns, out := Arrange(nodes, lists, marked, orders);
    assert forall e :: e in edges ==> e.from in layer && e.to in layer;
    var kinds := ClassifyEdges(edges, layer);
    g := Graph(layer, columns, kinds, chronological, marked, timeRank);
  }

  /** Layers and ordered columns over the unmarked arcs. */
  method Arrange(ids: seq<NodeId>, succ: Adjacency, marked: set<Pair>, orders: Orders)
    returns (layer: map<NodeId, nat>, columns: seq<seq<NodeId>>, ghost forwards: Lists)
    requires |ids| > 0 && Enumerates(ids, succ.Keys) && Closed(succ)
    requires Acyclic(LinkArcs(succ) - marked)
    ensures layer.Keys == succ.Keys && Levels(LinkArcs(succ) - marked, layer)
    ensures Forwards(succ, marked, forwards) && Settled(columns, layer, forwards, true, orders.nodes)
  {
    var out, into := SplitForward(ids, succ, marked);
    var queue;
    layer, queue := AssignLayers(ids, out, into);
    var count := LayerCount(ids, layer);
    columns := FillColumns(ids, layer, count);
    FilledColumns(LinkArcs(succ) - marked, ids, layer, columns);
    ListsClimb(out, into, layer);
    ghost var stages;
    columns, stages := OrderColumns(columns, layer, out, into, orders.nodes);
    forwards := out;
  }

  /** Out-lists lead to higher layers and in-lists to lower ones. */
  lemma ListsClimb(out: Lists, into: Lists, layer: map<NodeId, nat>)
    requires Mirrored(out, into) && layer.Keys == out.Keys && Levels(ListArcs(out), layer)
    ensures LinksClimb(layer, out, true) && LinksClimb(layer, into, false)
  {
    forall u, v | u in out && v in out[u] ensures v in layer && layer[u] < layer[v] {
      assert (u, v) in ListArcs(out);
    }
    forall v, u | v in into && u in into[v] ensures u in layer && layer[u] < layer[v] {
      assert MirroredAt(out, into, u, v);
      assert u in multiset(into[v]);
      assert v in multiset(out[u]);
      assert (u, v) in ListArcs(out);
    }
  }

  lemma EdgesHaveNodes(edges: seq<Edge>, ids: seq<NodeId>)
    requires Enumerates(ids, Nodes(edges))
    ensures edges != [] ==> ids != []
  {
    if edges != [] {
      assert edges[0] in edges && edges[0].from in ids;
    }
  }

  lemma ArcsJoinDistinctNodes(edges: seq<Edge>)
    ensures forall u, v :: (u, v) in EdgeArcs(edges) ==> u != v
  {
  }

  // ----- what the contract means for the drawing

  /** Each layer is the length of the longest unmarked path into the node. */
  lemma LayersAreLongestPaths(edges: seq<Edge>, timeline: set<NodeId>, before: Order<NodeId>, g: Graph, v: NodeId)
    requires Correct(edges, timeline, before, g) && IsNode(edges, v)
    ensures v in g.layer && LongestWalkTo(EdgeArcs(edges) - g.marked, v, g.layer[v])
  {
    NodesAreEndpoints(edges);
    LevelIsLongestWalk(EdgeArcs(edges) - g.marked, g.layer, v);
  }

  /** In both branches an edge that is not marked is drawn forward. */
  lemma UnmarkedIsForward(edges: seq<Edge>, layer: map<NodeId, nat>, marked: set<Pair>, e: Edge)
    requires Layered(edges, layer, marked) && e in edges
    requires e.from != e.to && (e.from, e.to) !in marked
    ensures e.from in layer && e.to in layer && Kind(layer, e) == Forward
  {
    assert (e.from, e.to) in EdgeArcs(edges) - marked;
  }

  lemma {:induction false} WalkClimbs(arcs: set<Pair>, layer: map<NodeId, nat>, p: seq<NodeId>)
    requires Levels(arcs, layer) && Walk(arcs, p) && p[|p|-1] in layer
    ensures p[0] in layer && layer[p[0]] + |p| - 1 <= layer[p[|p|-1]]
    decreases |p|
  {
    if |p| > 1 {
      assert (p[|p|-2], p[|p|-1]) in arcs;
      WalkClimbs(arcs, layer, p[..|p|-1]);
    }
  }

  lemma MarkedIsBack(edges: seq<Edge>, layer: map<NodeId, nat>, marked: set<Pair>, e: Edge)
    requires Layered(edges, layer, marked) && MarkedBySearch(EdgeArcs(edges), marked)
    requires e in edges && e.from != e.to && (e.from, e.to) in marked
    ensures e.from in layer && e.to in layer && Kind(layer, e) == Back
  {
    var rest := EdgeArcs(edges) - marked;
    assert Reaches(rest, e.to, e.from);
    var p :| Connects(rest, p, e.to, e.from);
    assert e.from in Nodes(edges);
    WalkClimbs(rest, layer, p);
  }

  /** Without a full timeline the drawing decides exactly like the search: an edge between two
      different nodes is drawn back iff it is marked, forward iff it is not, and never as a sibling. */
  lemma SearchedEdgesAreDrawnAsMarked(edges: seq<Edge>, timeline: set<NodeId>, before: Order<NodeId>, g: Graph, i: nat)
    requires Correct(edges, timeline, before, g) && !g.chronological
    requires i < |edges| && edges[i].from != edges[i].to
    ensures g.kinds[i] == if (edges[i].from, edges[i].to) in g.marked then Back else Forward
  {
    if (edges[i].from, edges[i].to) in g.marked {
      MarkedIsBack(edges, g.layer, g.marked, edges[i]);
    } else {
      UnmarkedIsForward(edges, g.layer, g.marked, edges[i]);
    }
  }

  /** In both branches exactly the calls that repeat their API are drawn as loops. */
  lemma RepeatedCallIsSelf(edges: seq<Edge>, timeline: set<NodeId>, before: Order<NodeId>, g: Graph, i: nat)
    requires Correct(edges, timeline, before, g) && i < |edges|
    ensures g.kinds[i] == Self <==> edges[i].from == edges[i].to
  {
    assert Fits(g.layer, edges[i], g.kinds[i]);
  }
}
