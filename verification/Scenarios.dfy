/** Scenario groups: sessions that use the same set of nodes, each with its own graph of totals. */
module Scenarios {
  import opened ApiNodes
  import opened TransitionModel
  import opened Transitions
  import opened Sequences

  /** The state of a scenario group, as a value. */
  datatype Group = Group(totals: Totals, durations: multiset<int>, nodes: map<NodeId, NodeStats>,
                         edges: map<EdgeKey, Tally>)

  datatype Totals = Totals(sessions: nat, requests: nat, transitions: nat, overlaps: nat, ambiguous: nat)

  const EMPTY_GROUP := Group(Totals(0, 0, 0, 0, 0), multiset{}, map[], map[])

  /** The counters of a group. */
  ghost function Measured(g: Group, mu: Measure): int {
    match mu
    case OfEdge(k, c) => Get(g.edges, k, c)
    case OfCut(cut, c) => Flow(g.edges, cut, c)
    case OfNode(n, c) => GetStat(g.nodes, n, c)
    case SessionCount => g.totals.sessions
    case RequestCount => g.totals.requests
    case TransitionCount => g.totals.transitions
    case OverlapCount => g.totals.overlaps
    case AmbiguousCount => g.totals.ambiguous
    case Lasting(us) => g.durations[us]
    case StartSpan => Flow(g.edges, All, GapTime)
  }

  /** A group holds the totals of these sessions. */
  ghost predicate Holds(g: Group, all: map<Identity, Session>, ids: set<Identity>)
    requires ids <= all.Keys
  {
    forall mu {:trigger Measured(g, mu)} :: Measured(g, mu) == Amount(all, ids, mu)
  }

  /** Every request enters a node as the first of a session or over an edge, and leaves it as the last of a
      session or over an edge; all edges together carry one call less per session than there are requests. */
  ghost predicate Conserved(g: Group) {
    && (forall n {:trigger NodeConserved(g, n)} :: NodeConserved(g, n))
    && g.totals.sessions + Flow(g.edges, All, Calls) == g.totals.requests
    && g.totals.transitions == Flow(g.edges, All, Calls)
  }

  ghost predicate NodeConserved(g: Group, n: NodeId) {
    GetStat(g.nodes, n, Visits)
      == GetStat(g.nodes, n, Firsts) + Flow(g.edges, Into(n), Calls)
      == GetStat(g.nodes, n, Lasts) + Flow(g.edges, OutOf(n), Calls)
  }

  /** The nodes after the first i events of a session. */
  ghost predicate NodesAdded(nodes0: map<NodeId, NodeStats>, s: Session, i: nat, nodes: map<NodeId, NodeStats>)
    requires i <= |s|
  {
    forall n, c {:trigger NodeAdded(nodes0, s, i, nodes, n, c)} :: NodeAdded(nodes0, s, i, nodes, n, c)
  }

  ghost predicate NodeAdded(nodes0: map<NodeId, NodeStats>, s: Session, i: nat, nodes: map<NodeId, NodeStats>,
                            n: NodeId, c: NodeCounter)
    requires i <= |s|
  {
    GetStat(nodes, n, c) == GetStat(nodes0, n, c) + VisitsUpTo(s, i, n, c)
  }

  /** The effect of one session on a group. */
  ghost predicate Added(g: Group, s: Session, h: Group) {
    && h.totals.sessions == g.totals.sessions + 1
    && h.totals.requests == g.totals.requests + |s|
    && h.totals.transitions == g.totals.transitions + |s| - 1
    && h.totals.overlaps == g.totals.overlaps + Overlaps(s)
    && h.totals.ambiguous == g.totals.ambiguous + Ambiguous(s)
    && |s| > 0 && h.durations == g.durations + multiset{s[|s|-1].endUS - s[0].startUS}
    && NodesAdded(g.nodes, s, |s|, h.nodes)
    && AddedUpTo(g.edges, s, |s|, h.edges)
  }

  lemma AddedHolds(g: Group, all: map<Identity, Session>, ids: set<Identity>, id: Identity, h: Group)
    requires ids <= all.Keys && id in all && id !in ids
    requires Holds(g, all, ids) && Added(g, all[id], h)
    ensures Holds(h, all, ids + {id})
  {
    forall mu {:trigger Measured(h, mu)} ensures Measured(h, mu) == Amount(all, ids + {id}, mu) {
      AmountNext(all, ids, id, mu);
      assert Measured(g, mu) == Amount(all, ids, mu);
      MeasuredNext(g, all[id], h, mu);
    }
  }

  lemma MeasuredNext(g: Group, s: Session, h: Group, mu: Measure)
    requires Added(g, s, h)
    ensures Measured(h, mu) == Measured(g, mu) + Contribution(s, mu)
  {
    TakeAll(s);
    match mu
    case OfEdge(k, c) => assert EntryAdded(g.edges, s, |s|, h.edges, k, c);
    case OfCut(cut, c) => assert FlowAdded(g.edges, s, |s|, h.edges, cut, c);
    case OfNode(n, c) => assert NodeAdded(g.nodes, s, |s|, h.nodes, n, c);
    case StartSpan =>
      assert FlowAdded(g.edges, s, |s|, h.edges, All, GapTime);
      GapsTelescope(s);
    case _ =>
  }

  /** In a group, the start gaps recorded on all edges add up to the spans of its sessions from their first start
      to their last. */
  lemma GroupGapTime(g: Group, all: map<Identity, Session>, ids: set<Identity>)
    requires ids <= all.Keys && Holds(g, all, ids)
    ensures Flow(g.edges, All, GapTime) == Amount(all, ids, StartSpan)
  {
    assert Measured(g, StartSpan) == Amount(all, ids, StartSpan);
  }

  lemma AddedConserves(g: Group, s: Session, h: Group)
    requires Conserved(g) && Added(g, s, h)
    ensures Conserved(h)
  {
    TakeAll(s);
    forall n {:trigger NodeConserved(h, n)} ensures NodeConserved(h, n) {
      NodeStaysConserved(g, s, h, n);
    }
    assert FlowAdded(g.edges, s, |s|, h.edges, All, Calls);
    SessionFlowAll(s);
  }

  lemma NodeStaysConserved(g: Group, s: Session, h: Group, n: NodeId)
    requires NodeConserved(g, n) && Added(g, s, h)
    ensures NodeConserved(h, n)
  {
    TakeAll(s);
    assert NodeAdded(g.nodes, s, |s|, h.nodes, n, Visits);
    assert NodeAdded(g.nodes, s, |s|, h.nodes, n, Firsts) && NodeAdded(g.nodes, s, |s|, h.nodes, n, Lasts);
    assert FlowAdded(g.edges, s, |s|, h.edges, Into(n), Calls) && FlowAdded(g.edges, s, |s|, h.edges, OutOf(n), Calls);
    RequestsComeIn(s, |s|, n);
    RequestsGoOut(s, |s|, n);
  }

  lemma EmptyGroup(all: map<Identity, Session>)
    ensures Conserved(EMPTY_GROUP) && Holds(EMPTY_GROUP, all, {})
  {
    forall mu {:trigger Measured(EMPTY_GROUP, mu)} ensures Measured(EMPTY_GROUP, mu) == Amount(all, {}, mu) { }
    forall n {:trigger NodeConserved(EMPTY_GROUP, n)} ensures NodeConserved(EMPTY_GROUP, n) {
      assert Flow(map[], Into(n), Calls) == 0 && Flow(map[], OutOf(n), Calls) == 0;
    }
    assert Flow(map[], All, Calls) == 0;
  }

  /** One group while it is being built; sessions are added in place. */
  class ScenarioAggregate {
    const signature: Signature
    var sessions: nat
    var requests: nat
    var transitions: nat
    var overlaps: nat
    var ambiguous: nat
    var durations: multiset<int>
    var nodes: map<NodeId, NodeStats>
    var edges: map<EdgeKey, Tally>

    function View(): Group reads this {
      Group(Totals(sessions, requests, transitions, overlaps, ambiguous), durations, nodes, edges)
    }

    constructor (signature: Signature)
      ensures this.signature == signature && View() == EMPTY_GROUP
    {
      this.signature := signature;
      sessions, requests, transitions, overlaps, ambiguous := 0, 0, 0, 0, 0;
      durations, nodes, edges := multiset{}, map[], map[];
    }

    method AddSession(s: Session)
      modifies this
      ensures |s| == 0 ==> View() == old(View())
      ensures |s| > 0 ==> Added(old(View()), s, View())
    {
      if |s| == 0 {
        return;
      }
      sessions := sessions + 1;
      requests := requests + |s|;
      transitions := transitions + (|s| - 1);
      var newEdges, o, a := AddSequence(edges, s);
      edges := newEdges;
      overlaps := overlaps + o;
      ambiguous := ambiguous + a;
      durations := durations + multiset{s[|s|-1].endUS - s[0].startUS};
      nodes := AddNodes(nodes, s);
    }
  }

  method AddNodes(nodes0: map<NodeId, NodeStats>, s: Session) returns (nodes: map<NodeId, NodeStats>)
    ensures NodesAdded(nodes0, s, |s|, nodes)
  {
    nodes := nodes0;
    var seen: set<NodeId> := {};
    for index := 0 to |s|
      invariant NodesAdded(nodes0, s, index, nodes)
      invariant seen == NodesOf(s[..index])
    {
      var id := s[index].node;
      var node := AddVisit(nodes, s, index, id !in seen);
      NodesOfNext(s, index);
      VisitCounted(nodes0, s, index, nodes, node);
      seen := seen + {id};
      nodes := nodes[id := node];
    }
  }

  /** The entry of an event's node with that event counted. */
  method AddVisit(nodes: map<NodeId, NodeStats>, s: Session, index: nat, unseen: bool) returns (node: NodeStats)
    requires index < |s|
    ensures OneVisitMore(nodes, s, index, unseen, node)
  {
    var id := s[index].node;
    node := if id in nodes then nodes[id] else NO_STATS;
    node := node.(requests := node.requests + 1);
    if unseen {
      node := node.(sessions := node.sessions + 1, offsetSum := node.offsetSum + (s[index].startUS - s[0].startUS));
    }
    if index == 0 {
      node := node.(first := node.first + 1);
    }
    if index == |s| - 1 {
      node := node.(last := node.last + 1);
    }
  }

  ghost predicate OneVisitMore(nodes: map<NodeId, NodeStats>, s: Session, i: nat, unseen: bool, node: NodeStats)
    requires i < |s|
  {
    forall c {:trigger Stat(node, c)} :: Stat(node, c) == GetStat(nodes, s[i].node, c) + VisitAdds(s, i, unseen, c)
  }

  lemma VisitCounted(nodes0: map<NodeId, NodeStats>, s: Session, i: nat, nodes: map<NodeId, NodeStats>, node: NodeStats)
    requires i < |s| && NodesAdded(nodes0, s, i, nodes)
    requires OneVisitMore(nodes, s, i, s[i].node !in NodesOf(s[..i]), node)
    ensures NodesAdded(nodes0, s, i + 1, nodes[s[i].node := node])
  {
    var after := nodes[s[i].node := node];
    forall n, c {:trigger NodeAdded(nodes0, s, i + 1, after, n, c)} ensures NodeAdded(nodes0, s, i + 1, after, n, c) {
      assert NodeAdded(nodes0, s, i, nodes, n, c);
      assert Stat(node, c) == GetStat(nodes, s[i].node, c) + VisitAdds(s, i, s[i].node !in NodesOf(s[..i]), c);
    }
  }

  lemma NodesOfNext(s: Session, i: nat)
    requires i < |s|
    ensures NodesOf(s[..i+1]) == NodesOf(s[..i]) + {s[i].node}
  {
    TakeOneMore(s, i);
  }
}
