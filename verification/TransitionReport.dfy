/** Collecting the events of every session and reporting on them. */
module TransitionReport {
  import opened ApiNodes
  import opened TransitionModel
  import opened Transitions
  import opened Scenarios
  import opened Sequences

  datatype Summary = Summary(requests: nat, sessions: nat, transitions: nat, overlapping: nat, ambiguous: nat,
                             scenarios: ScenarioSummary)

  datatype ScenarioSummary = ScenarioSummary(groups: nat, emitted: nat, sessionsOmitted: nat)

  datatype Scenario = Scenario(signature: Signature, group: Group)

  datatype Report = Report(summary: Summary, edges: map<EdgeKey, Tally>, scenarios: seq<Scenario>)

  // ----- what a report must say

  /** All sessions with their events in order. */
  ghost function InTimeOrder(all: map<Identity, Session>): (r: map<Identity, Session>)
    ensures r.Keys == all.Keys
  {
    map id | id in all :: Sorted(all[id])
  }

  /** The edge table of these sessions. */
  ghost predicate EdgesHold(edges: map<EdgeKey, Tally>, all: map<Identity, Session>, ids: set<Identity>)
    requires ids <= all.Keys
  {
    && (forall k, c {:trigger Get(edges, k, c)} :: Get(edges, k, c) == Amount(all, ids, OfEdge(k, c)))
    && (forall cut, c {:trigger Flow(edges, cut, c)} :: Flow(edges, cut, c) == Amount(all, ids, OfCut(cut, c)))
  }

  /** A group holds the totals of the sessions with its signature, and none of its requests is lost. */
  ghost predicate IsScenario(all: map<Identity, Session>, ids: set<Identity>, signature: Signature, g: Group)
    requires ids <= all.Keys
  {
    Holds(g, all, Members(all, ids, signature)) && Conserved(g)
  }

  /** The list names every group once. */
  ghost predicate Lists(all: map<Identity, Session>, ids: set<Identity>, scenarios: seq<Scenario>)
    requires ids <= all.Keys
  {
    && Distinct(scenarios)
    && SignaturesIn(scenarios) == Signatures(all, ids)
    && (forall i :: 0 <= i < |scenarios| ==> IsScenario(all, ids, scenarios[i].signature, scenarios[i].group))
  }

  ghost predicate Distinct(scenarios: seq<Scenario>) {
    forall i, j :: 0 <= i < j < |scenarios| ==> scenarios[i].signature != scenarios[j].signature
  }

  ghost function SignaturesIn(scenarios: seq<Scenario>): set<Signature> {
    set i | 0 <= i < |scenarios| :: scenarios[i].signature
  }

  /** Larger groups come first: by sessions, then by requests, then by the digest that names the group. */
  predicate Precedes(name: Signature -> int, a: Scenario, b: Scenario) {
    || a.group.totals.sessions > b.group.totals.sessions
    || (a.group.totals.sessions == b.group.totals.sessions
        && (a.group.totals.requests > b.group.totals.requests
            || (a.group.totals.requests == b.group.totals.requests && name(a.signature) < name(b.signature))))
  }

  ghost predicate Ranked(name: Signature -> int, scenarios: seq<Scenario>) {
    forall i, j :: 0 <= i < j < |scenarios| ==> !Precedes(name, scenarios[j], scenarios[i])
  }

  function SessionsIn(scenarios: seq<Scenario>): nat {
    if scenarios == [] then 0 else SessionsIn(scenarios[..|scenarios|-1]) + scenarios[|scenarios|-1].group.totals.sessions
  }

  ghost function OverGroups(scenarios: seq<Scenario>, mu: Measure): int {
    if scenarios == [] then 0
    else OverGroups(scenarios[..|scenarios|-1], mu) + Measured(scenarios[|scenarios|-1].group, mu)
  }

  lemma {:induction false} SessionsAreMeasured(scenarios: seq<Scenario>)
    ensures SessionsIn(scenarios) == OverGroups(scenarios, SessionCount)
  {
    if scenarios != [] {
      SessionsAreMeasured(scenarios[..|scenarios|-1]);
    }
  }

  lemma {:induction false} SessionsInSplit(scenarios: seq<Scenario>, more: seq<Scenario>)
    ensures SessionsIn(scenarios + more) == SessionsIn(scenarios) + SessionsIn(more)
    decreases |more|
  {
    if more == [] {
      assert scenarios + more == scenarios;
    } else {
      SessionsInSplit(scenarios, more[..|more|-1]);
      assert (scenarios + more)[..|scenarios + more|-1] == scenarios + more[..|more|-1];
    }
  }

  /** A list without repetitions adds up the shares of the groups it names. */
  lemma {:induction false} ListSum(all: map<Identity, Session>, ids: set<Identity>, scenarios: seq<Scenario>, mu: Measure)
    requires ids <= all.Keys && Distinct(scenarios) && SignaturesIn(scenarios) <= Signatures(all, ids)
    requires forall i :: 0 <= i < |scenarios| ==> IsScenario(all, ids, scenarios[i].signature, scenarios[i].group)
    ensures OverGroups(scenarios, mu) == SumOver(Shares(all, ids, mu), SignaturesIn(scenarios))
    decreases |scenarios|
  {
    if scenarios != [] {
      var rest, final := scenarios[..|scenarios|-1], scenarios[|scenarios|-1];
      NamesWithoutFinal(scenarios);
      ListSum(all, ids, rest, mu);
      SumWithout(Shares(all, ids, mu), SignaturesIn(scenarios), final.signature);
      assert IsScenario(all, ids, final.signature, final.group);
      assert Measured(final.group, mu) == Share(all, ids, mu, final.signature);
    }
  }

  lemma NamesWithoutFinal(scenarios: seq<Scenario>)
    requires scenarios != [] && Distinct(scenarios)
    ensures scenarios[|scenarios|-1].signature in SignaturesIn(scenarios)
    ensures SignaturesIn(scenarios[..|scenarios|-1]) == SignaturesIn(scenarios) - {scenarios[|scenarios|-1].signature}
    ensures Distinct(scenarios[..|scenarios|-1])
  {
    var rest, final := scenarios[..|scenarios|-1], scenarios[|scenarios|-1];
    forall x | x in SignaturesIn(scenarios) - {final.signature} ensures x in SignaturesIn(rest) {
      var i :| 0 <= i < |scenarios| && scenarios[i].signature == x;
      assert rest[i].signature == x;
    }
    forall x | x in SignaturesIn(rest) ensures x in SignaturesIn(scenarios) {
      var i :| 0 <= i < |rest| && rest[i].signature == x;
      assert scenarios[i].signature == x;
    }
  }

  lemma EverySessionIsListed(all: map<Identity, Session>, scenarios: seq<Scenario>)
    requires Lists(all, all.Keys, scenarios)
    ensures SessionsIn(scenarios) == |all|
  {
    SessionsAreMeasured(scenarios);
    ListSum(all, all.Keys, scenarios, SessionCount);
    GroupsPartition(all, all.Keys, SessionCount);
    SessionsAreCounted(all, all.Keys);
  }

  /** On every edge and for every counter, the groups add up to the edge table of all sessions. */
  lemma GroupsAddUpToEdges(edges: map<EdgeKey, Tally>, all: map<Identity, Session>, scenarios: seq<Scenario>,
                           k: EdgeKey, c: Counter)
    requires EdgesHold(edges, all, all.Keys) && Lists(all, all.Keys, scenarios)
    ensures OverGroups(scenarios, OfEdge(k, c)) == Get(edges, k, c)
  {
    ListSum(all, all.Keys, scenarios, OfEdge(k, c));
    GroupsPartition(all, all.Keys, OfEdge(k, c));
  }

  /** Over all sessions, the recorded start gaps add up to the spans from first start to last, and the groups
      share them out. */
  lemma GapTimeOfAll(edges: map<EdgeKey, Tally>, all: map<Identity, Session>, scenarios: seq<Scenario>)
    requires EdgesHold(edges, all, all.Keys) && Lists(all, all.Keys, scenarios)
    ensures Flow(edges, All, GapTime) == Amount(all, all.Keys, StartSpan) == OverGroups(scenarios, StartSpan)
  {
    GapTimeIsSpan(all, all.Keys);
    ListSum(all, all.Keys, scenarios, StartSpan);
    GroupsPartition(all, all.Keys, StartSpan);
  }

  /** The sessions of a group use the same nodes. */
  lemma {:induction false} MembersVisitAlike(all: map<Identity, Session>, ids: set<Identity>, nodes: set<NodeId>,
                                             n: NodeId)
    requires ids <= all.Keys && forall id :: id in ids ==> forall m :: Uses(all[id], m) <==> m in nodes
    ensures Amount(all, ids, OfNode(n, VisitingSessions)) == if n in nodes then |ids| else 0
    ensures n in nodes ==> Amount(all, ids, OfNode(n, Visits)) >= |ids|
    ensures n !in nodes ==> Amount(all, ids, OfNode(n, Visits)) == 0
    decreases |ids|
  {
    if ids != {} {
      var id :| id in ids;
      MembersVisitAlike(all, ids - {id}, nodes, n);
      AmountNext(all, ids - {id}, id, OfNode(n, VisitingSessions));
      AmountNext(all, ids - {id}, id, OfNode(n, Visits));
      assert ids - {id} + {id} == ids;
      var s := all[id];
      TakeAll(s);
      VisitIsCountedOnce(s, |s|, n);
      VisitsAreOfVisitors(s, |s|, n);
      assert Uses(s, n) <==> n in NodesOf(s);
    }
  }

  /** A listed scenario is named by the nodes that its requests visit, and all its sessions visit each of them. */
  lemma ScenarioIsItsNodes(all: map<Identity, Session>, scenarios: seq<Scenario>, i: nat, n: NodeId)
    requires Lists(all, all.Keys, scenarios) && i < |scenarios|
    ensures var x := scenarios[i];
      && x.group.totals.sessions > 0
      && (n in x.signature.nodes <==> GetStat(x.group.nodes, n, Visits) > 0)
      && GetStat(x.group.nodes, n, VisitingSessions) == if n in x.signature.nodes then x.group.totals.sessions else 0
  {
    var x := scenarios[i];
    assert x.signature in SignaturesIn(scenarios);
    assert IsScenario(all, all.Keys, x.signature, x.group);
    var members := Members(all, all.Keys, x.signature);
    MembersUseTheNodes(all, all.Keys, x.signature);
    MembersVisitAlike(all, members, x.signature.nodes, n);
    SessionsAreCounted(all, members);
    CountersOfNode(all, members, x.group, n);
  }

  lemma MembersUseTheNodes(all: map<Identity, Session>, ids: set<Identity>, signature: Signature)
    requires ids <= all.Keys && signature in Signatures(all, ids)
    ensures |Members(all, ids, signature)| > 0
    ensures forall id :: id in Members(all, ids, signature) ==> forall m :: Uses(all[id], m) <==> m in signature.nodes
  {
    forall id, m | id in Members(all, ids, signature) ensures Uses(all[id], m) <==> m in signature.nodes {
      assert SignatureOf(all[id]) == signature;
    }
    var id :| id in ids && SignatureOf(all[id]) == signature;
    assert id in Members(all, ids, signature);
  }

  lemma CountersOfNode(all: map<Identity, Session>, ids: set<Identity>, g: Group, n: NodeId)
    requires ids <= all.Keys && Holds(g, all, ids)
    ensures g.totals.sessions == Amount(all, ids, SessionCount)
    ensures GetStat(g.nodes, n, Visits) == Amount(all, ids, OfNode(n, Visits))
    ensures GetStat(g.nodes, n, VisitingSessions) == Amount(all, ids, OfNode(n, VisitingSessions))
  {
    assert Measured(g, SessionCount) == Amount(all, ids, SessionCount);
    assert Measured(g, OfNode(n, Visits)) == Amount(all, ids, OfNode(n, Visits));
    assert Measured(g, OfNode(n, VisitingSessions)) == Amount(all, ids, OfNode(n, VisitingSessions));
  }

  /** The ranking by fields: sessions, then requests, then the digest of the name. */
  lemma RankedByFields(name: Signature -> int, scenarios: seq<Scenario>, i: nat, j: nat)
    requires Ranked(name, scenarios) && i < j < |scenarios|
    ensures var a, b := scenarios[i], scenarios[j];
      && a.group.totals.sessions >= b.group.totals.sessions
      && (a.group.totals.sessions == b.group.totals.sessions ==> a.group.totals.requests >= b.group.totals.requests)
      && (a.group.totals.sessions == b.group.totals.sessions && a.group.totals.requests == b.group.totals.requests ==>
            name(a.signature) <= name(b.signature))
  {
    assert !Precedes(name, scenarios[j], scenarios[i]);
  }

  // ----- sorting

  method SortEvents(s: Session) returns (r: Session)
    ensures r == Sorted(s)
  {
    r := [];
    for i := 0 to |s|
      invariant r == Sorted(s[..i])
    {
      assert s[..i+1][..i] == s[..i];
      r := Inserted(r, s[i]);
    }
    assert s[..|s|] == s;
  }

  /** The scenarios with one more put at its rank. */
  method InsertScenario(name: Signature -> int, ranked: seq<Scenario>, x: Scenario) returns (at: nat)
    requires Ranked(name, ranked)
    ensures at <= |ranked| && Ranked(name, ranked[..at] + [x] + ranked[at..])
  {
    at := |ranked|;
    while at > 0 && Precedes(name, x, ranked[at-1])
      invariant at <= |ranked|
      invariant forall i :: at <= i < |ranked| ==> Precedes(name, x, ranked[i])
    {
      at := at - 1;
    }
  }

  lemma InsertedNames(ranked: seq<Scenario>, at: nat, x: Scenario)
    requires at <= |ranked| && Distinct(ranked) && x.signature !in SignaturesIn(ranked)
    ensures var r := ranked[..at] + [x] + ranked[at..];
            Distinct(r) && SignaturesIn(r) == SignaturesIn(ranked) + {x.signature}
  {
    var r := ranked[..at] + [x] + ranked[at..];
    assert r[at].signature in SignaturesIn(r);
    forall i | 0 <= i < |ranked|
      ensures ranked[i].signature in SignaturesIn(ranked) && ranked[i].signature in SignaturesIn(r)
    {
      assert ranked[i] == r[if i < at then i else i + 1];
    }
  }

  // ----- the groups

  /** The table has one object per signature. */
  ghost predicate Keyed(groups: map<Signature, ScenarioAggregate>) {
    forall k :: k in groups ==> groups[k].signature == k
  }

  /** The groups as values. */
  ghost function Views(groups: map<Signature, ScenarioAggregate>): map<Signature, Group>
    reads groups.Values
  {
    map k | k in groups :: groups[k].View()
  }

  ghost predicate GroupsHold(views: map<Signature, Group>, all: map<Identity, Session>, ids: set<Identity>)
    requires ids <= all.Keys
  {
    views.Keys == Signatures(all, ids) && AreScenarios(views, all, ids)
  }

  ghost predicate AreScenarios(views: map<Signature, Group>, all: map<Identity, Session>, ids: set<Identity>)
    requires ids <= all.Keys
  {
    forall k {:trigger views[k]} {:trigger k in views} :: k in views ==> IsScenario(all, ids, k, views[k])
  }

  /** One session was added to the group of its nodes, which may be new. */
  ghost predicate GroupAdded(before: map<Signature, Group>, s: Session, after: map<Signature, Group>) {
    && OthersKept(before, SignatureOf(s), after)
    && Added(if SignatureOf(s) in before then before[SignatureOf(s)] else EMPTY_GROUP, s, after[SignatureOf(s)])
  }

  ghost predicate OthersKept(before: map<Signature, Group>, mine: Signature, after: map<Signature, Group>) {
    && after.Keys == before.Keys + {mine}
    && (forall k :: k in before && k != mine ==> after[k] == before[k])
  }

  lemma ScenarioGrows(all: map<Identity, Session>, ids: set<Identity>, id: Identity, g: Group, h: Group)
    requires ids <= all.Keys && id in all && id !in ids
    requires IsScenario(all, ids, SignatureOf(all[id]), g) && Added(g, all[id], h)
    ensures IsScenario(all, ids + {id}, SignatureOf(all[id]), h)
  {
    var mine := SignatureOf(all[id]);
    MembersNext(all, ids, id, mine);
    AddedHolds(g, all, Members(all, ids, mine), id, h);
    AddedConserves(g, all[id], h);
  }

  lemma ScenarioStays(all: map<Identity, Session>, ids: set<Identity>, id: Identity, signature: Signature, g: Group)
    requires ids <= all.Keys && id in all && id !in ids && signature != SignatureOf(all[id])
    requires IsScenario(all, ids, signature, g)
    ensures IsScenario(all, ids + {id}, signature, g)
  {
    MembersNext(all, ids, id, signature);
  }

  lemma NewScenario(all: map<Identity, Session>, ids: set<Identity>, signature: Signature)
    requires ids <= all.Keys && signature !in Signatures(all, ids)
    ensures IsScenario(all, ids, signature, EMPTY_GROUP)
  {
    EmptyGroup(all);
    NoMembers(all, ids, signature);
  }

  lemma GroupsNext(before: map<Signature, Group>, all: map<Identity, Session>, ids: set<Identity>, id: Identity,
                   after: map<Signature, Group>)
    requires ids <= all.Keys && id in all && id !in ids
    requires GroupsHold(before, all, ids) && GroupAdded(before, all[id], after)
    ensures GroupsHold(after, all, ids + {id})
  {
    SignaturesNext(all, ids, id);
    OwnGroupNext(before, all, ids, id, after);
    OtherGroupsNext(before, all, ids, id, after);
  }

  lemma OwnGroupNext(before: map<Signature, Group>, all: map<Identity, Session>, ids: set<Identity>, id: Identity,
                     after: map<Signature, Group>)
    requires ids <= all.Keys && id in all && id !in ids
    requires GroupsHold(before, all, ids) && GroupAdded(before, all[id], after)
    ensures IsScenario(all, ids + {id}, SignatureOf(all[id]), after[SignatureOf(all[id])])
  {
    var mine := SignatureOf(all[id]);
    if mine in before {
      ScenarioGrows(all, ids, id, before[mine], after[mine]);
    } else {
      NewScenario(all, ids, mine);
      ScenarioGrows(all, ids, id, EMPTY_GROUP, after[mine]);
    }
  }

  lemma OtherGroupsNext(before: map<Signature, Group>, all: map<Identity, Session>, ids: set<Identity>, id: Identity,
                        after: map<Signature, Group>)
    requires ids <= all.Keys && id in all && id !in ids && AreScenarios(before, all, ids)
    requires OthersKept(before, SignatureOf(all[id]), after)
    ensures forall k :: k in after && k != SignatureOf(all[id]) ==> IsScenario(all, ids + {id}, k, after[k])
  {
    forall k | k in after && k != SignatureOf(all[id]) ensures IsScenario(all, ids + {id}, k, after[k]) {
      ScenarioStays(all, ids, id, k, before[k]);
    }
  }

  /** Adds a session to the group of its nodes, which is made when the session is the first of its kind. */
  method AddToGroup(groups0: map<Signature, ScenarioAggregate>, s: Session)
    returns (groups: map<Signature, ScenarioAggregate>)
    requires |s| > 0 && Keyed(groups0)
    modifies groups0.Values
    ensures Keyed(groups) && GroupAdded(old(Views(groups0)), s, Views(groups))
    ensures forall k :: k in groups ==> (k in groups0 && groups[k] == groups0[k]) || fresh(groups[k])
  {
    var signature := SignatureOf(s);
    groups := groups0;
    if signature !in groups {
      var made := new ScenarioAggregate(signature);
      groups := groups[signature := made];
    }
    groups[signature].AddSession(s);
  }

  /** The reports of all groups, in whatever order the table yields them. */
  method ListGroups(groups: map<Signature, ScenarioAggregate>, ghost all: map<Identity, Session>)
    returns (scenarios: seq<Scenario>)
    requires Keyed(groups) && GroupsHold(Views(groups), all, all.Keys)
    ensures Lists(all, all.Keys, scenarios)
  {
    scenarios := [];
    var todo := groups.Keys;
    while todo != {}
      invariant todo <= groups.Keys && Distinct(scenarios) && SignaturesIn(scenarios) == groups.Keys - todo
      invariant forall i :: 0 <= i < |scenarios| ==> IsScenario(all, all.Keys, scenarios[i].signature, scenarios[i].group)
    {
      var k :| k in todo;
      var x := Scenario(k, groups[k].View());
      assert IsScenario(all, all.Keys, k, Views(groups)[k]);
      InsertedNames(scenarios, |scenarios|, x);
      assert scenarios[..|scenarios|] + [x] + scenarios[|scenarios|..] == scenarios + [x];
      scenarios := scenarios + [x];
      todo := todo - {k};
    }
  }

  /** Orders the list by rank. */
  method RankScenarios(name: Signature -> int, ghost all: map<Identity, Session>, scenarios: seq<Scenario>)
    returns (ranked: seq<Scenario>)
    requires Lists(all, all.Keys, scenarios)
    ensures Lists(all, all.Keys, ranked) && Ranked(name, ranked) && |ranked| == |scenarios|
  {
    ranked := [];
    for i := 0 to |scenarios|
      invariant |ranked| == i && Ranked(name, ranked) && Distinct(ranked)
      invariant SignaturesIn(ranked) == SignaturesIn(scenarios[..i])
      invariant forall j :: 0 <= j < |ranked| ==> IsScenario(all, all.Keys, ranked[j].signature, ranked[j].group)
    {
      var x := scenarios[i];
      NamesNext(scenarios, i);
      var at := InsertScenario(name, ranked, x);
      InsertedNames(ranked, at, x);
      ranked := ranked[..at] + [x] + ranked[at..];
    }
    assert scenarios[..|scenarios|] == scenarios;
  }

  lemma NamesNext(scenarios: seq<Scenario>, i: nat)
    requires i < |scenarios| && Distinct(scenarios)
    ensures scenarios[i].signature !in SignaturesIn(scenarios[..i])
    ensures SignaturesIn(scenarios[..i+1]) == SignaturesIn(scenarios[..i]) + {scenarios[i].signature}
  {
    var p := scenarios[..i+1];
    assert p[..|p|-1] == scenarios[..i];
    NamesWithoutFinal(p);
  }

  /** Keeps the leading scenarios and counts the sessions of the others. */
  method Truncate(ranked: seq<Scenario>, maxScenarios: nat) returns (emitted: seq<Scenario>, omitted: nat)
    ensures emitted == if |ranked| > maxScenarios then ranked[..maxScenarios] else ranked
    ensures SessionsIn(emitted) + omitted == SessionsIn(ranked)
  {
    emitted, omitted := ranked, 0;
    if |ranked| > maxScenarios {
      var rest := ranked[maxScenarios..];
      for i := 0 to |rest|
        invariant omitted == SessionsIn(rest[..i])
      {
        assert rest[..i+1][..i] == rest[..i];
        omitted := omitted + rest[i].group.totals.sessions;
      }
      assert rest[..|rest|] == rest;
      emitted := ranked[..maxScenarios];
      SessionsInSplit(emitted, rest);
      assert emitted + rest == ranked;
    }
  }

  // ----- the aggregator

  lemma EdgesNext(edges0: map<EdgeKey, Tally>, all: map<Identity, Session>, ids: set<Identity>, id: Identity,
                  edges: map<EdgeKey, Tally>)
    requires ids <= all.Keys && id in all && id !in ids
    requires EdgesHold(edges0, all, ids) && AddedUpTo(edges0, all[id], |all[id]|, edges)
    ensures EdgesHold(edges, all, ids + {id})
  {
    TakeAll(all[id]);
    forall k, c {:trigger Get(edges, k, c)} ensures Get(edges, k, c) == Amount(all, ids + {id}, OfEdge(k, c)) {
      AmountNext(all, ids, id, OfEdge(k, c));
      assert Get(edges0, k, c) == Amount(all, ids, OfEdge(k, c));
      assert EntryAdded(edges0, all[id], |all[id]|, edges, k, c);
    }
    forall cut, c {:trigger Flow(edges, cut, c)} ensures Flow(edges, cut, c) == Amount(all, ids + {id}, OfCut(cut, c)) {
      AmountNext(all, ids, id, OfCut(cut, c));
      assert Flow(edges0, cut, c) == Amount(all, ids, OfCut(cut, c));
      assert FlowAdded(edges0, all[id], |all[id]|, edges, cut, c);
    }
  }

  /** The sequence counters of the summary. */
  ghost predicate SummaryHolds(summary: Summary, all: map<Identity, Session>, ids: set<Identity>)
    requires ids <= all.Keys
  {
    && summary.transitions == Amount(all, ids, TransitionCount)
    && summary.overlapping == Amount(all, ids, OverlapCount)
    && summary.ambiguous == Amount(all, ids, AmbiguousCount)
  }

  lemma SummaryNext(all: map<Identity, Session>, ids: set<Identity>, id: Identity, was: Summary, now: Summary)
    requires ids <= all.Keys && id in all && id !in ids && |all[id]| > 0
    requires SummaryHolds(was, all, ids)
    requires now.transitions == was.transitions + |all[id]| - 1
    requires now.overlapping == was.overlapping + Overlaps(all[id])
    requires now.ambiguous == was.ambiguous + Ambiguous(all[id])
    ensures SummaryHolds(now, all, ids + {id})
  {
    AmountNext(all, ids, id, TransitionCount);
    AmountNext(all, ids, id, OverlapCount);
    AmountNext(all, ids, id, AmbiguousCount);
  }

  /** Adds a sorted session to the edges of all sessions and to the summary. */
  method AddToEdges(edges0: map<EdgeKey, Tally>, summary0: Summary, events: Session,
                    ghost all: map<Identity, Session>, ghost ids: set<Identity>, ghost id: Identity)
    returns (edges: map<EdgeKey, Tally>, summary: Summary)
    requires ids <= all.Keys && id in all && id !in ids && events == all[id] && |events| > 0
    requires EdgesHold(edges0, all, ids) && SummaryHolds(summary0, all, ids)
    ensures EdgesHold(edges, all, ids + {id})
    ensures SummaryHolds(summary, all, ids + {id})
    ensures summary.requests == summary0.requests && summary.sessions == summary0.sessions
  {
    var overlaps, ambiguous;
    edges, overlaps, ambiguous := AddSequence(edges0, events);
    summary := summary0.(transitions := summary0.transitions + (|events| - 1),
                         overlapping := summary0.overlapping + overlaps,
                         ambiguous := summary0.ambiguous + ambiguous);
    EdgesNext(edges0, all, ids, id, edges);
    SummaryNext(all, ids, id, summary0, summary);
  }

  /** Adds a sorted session to its group. */
  method AddToGroups(groups0: map<Signature, ScenarioAggregate>, events: Session,
                     ghost all: map<Identity, Session>, ghost ids: set<Identity>, ghost id: Identity)
    returns (groups: map<Signature, ScenarioAggregate>)
    requires ids <= all.Keys && id in all && id !in ids && events == all[id] && |events| > 0
    requires Keyed(groups0) && GroupsHold(Views(groups0), all, ids)
    modifies groups0.Values
    ensures Keyed(groups) && GroupsHold(Views(groups), all, ids + {id})
    ensures forall k :: k in groups ==> (k in groups0 && groups[k] == groups0[k]) || fresh(groups[k])
  {
    groups := AddToGroup(groups0, events);
    GroupsNext(old(Views(groups0)), all, ids, id, Views(groups));
  }

  /** all is the table was with every session sorted. */
  ghost predicate AllSorted(was: map<Identity, Session>, all: map<Identity, Session>) {
    all.Keys == was.Keys && (forall id {:trigger OneSorted(was, all, id)} :: id in was ==> OneSorted(was, all, id))
  }

  ghost predicate OneSorted(was: map<Identity, Session>, all: map<Identity, Session>, id: Identity)
    requires id in was && id in all
  {
    all[id] == Sorted(was[id])
  }

  /** Sessions are sorted one by one; the others still have their events in the order of the log. */
  ghost predicate SortedSoFar(sessions: map<Identity, Session>, was: map<Identity, Session>, all: map<Identity, Session>,
                              done: set<Identity>)
    requires all.Keys == was.Keys
  {
    sessions.Keys == was.Keys && (forall id :: id in was ==> sessions[id] == if id in done then all[id] else was[id])
  }

  lemma SortedIsAllSorted(was: map<Identity, Session>)
    ensures AllSorted(was, InTimeOrder(was))
  {
  }

  /** The tables after the sessions in done. */
  ghost predicate Aggregated(all: map<Identity, Session>, done: set<Identity>, edges: map<EdgeKey, Tally>,
                             views: map<Signature, Group>, summary: Summary)
  {
    && done <= all.Keys
    && EdgesHold(edges, all, done) && GroupsHold(views, all, done) && SummaryHolds(summary, all, done)
    && summary.sessions == |all|
  }

  /** The sessions in todo are neither sorted nor aggregated, the others are both. */
  ghost predicate Progress(sessions: map<Identity, Session>, was: map<Identity, Session>, all: map<Identity, Session>,
                           todo: set<Identity>, edges: map<EdgeKey, Tally>, views: map<Signature, Group>,
                           summary: Summary)
  {
    && AllSorted(was, all) && todo <= all.Keys
    && SortedSoFar(sessions, was, all, all.Keys - todo)
    && Aggregated(all, all.Keys - todo, edges, views, summary)
  }

  lemma ProgressAtFirst(was: map<Identity, Session>, all: map<Identity, Session>, views: map<Signature, Group>,
                        summary: Summary)
    requires AllSorted(was, all) && views.Keys == {} && summary.sessions == |was|
    requires summary.transitions == summary.overlapping == summary.ambiguous == 0
    ensures Progress(was, was, all, was.Keys, map[], views, summary)
  {
    assert all.Keys - was.Keys == {};
    SameSize(was.Keys, all.Keys);
  }

  lemma SameSize<K>(a: set<K>, b: set<K>)
    requires a == b
    ensures |a| == |b|
  {
  }

  lemma ProgressAtEnd(sessions: map<Identity, Session>, was: map<Identity, Session>, all: map<Identity, Session>,
                      edges: map<EdgeKey, Tally>, views: map<Signature, Group>, summary: Summary)
    requires Progress(sessions, was, all, {}, edges, views, summary)
    ensures sessions == all
    ensures Aggregated(all, all.Keys, edges, views, summary)
  {
    assert all.Keys - {} == all.Keys;
  }

  lemma InTodo(sessions: map<Identity, Session>, was: map<Identity, Session>, all: map<Identity, Session>,
               todo: set<Identity>,
               edges: map<EdgeKey, Tally>, views: map<Signature, Group>, summary: Summary, id: Identity)
    requires Progress(sessions, was, all, todo, edges, views, summary) && id in todo
    ensures id in was && id in sessions && sessions[id] == was[id]
  {
  }

  lemma SortedNext(sessions: map<Identity, Session>, was: map<Identity, Session>, all: map<Identity, Session>,
                   done: set<Identity>, id: Identity, events: Session)
    requires AllSorted(was, all) && SortedSoFar(sessions, was, all, done)
    requires id in was && id !in done && events == Sorted(sessions[id])
    ensures SortedSoFar(sessions[id := events], was, all, done + {id})
    ensures events == all[id] && |events| == |was[id]|
  {
    SortedIsInOrder(was[id]);
    assert OneSorted(was, all, id);
  }

  lemma OneLess<K>(keys: set<K>, todo: set<K>, x: K)
    requires todo <= keys && x in todo
    ensures (keys - todo) + {x} == keys - (todo - {x})
  {
  }

  lemma RequestsStay(was: map<Identity, Session>)
    ensures Amount(InTimeOrder(was), was.Keys, RequestCount) == Amount(was, was.Keys, RequestCount)
  {
    forall id | id in was ensures |InTimeOrder(was)[id]| == |was[id]| {
      SortedIsInOrder(was[id]);
    }
    AmountAgrees(was, InTimeOrder(was), was.Keys, RequestCount);
  }

  /** All requests are found in the groups again. */
  lemma RequestsAreGrouped(was: map<Identity, Session>, scenarios: seq<Scenario>)
    requires Lists(InTimeOrder(was), was.Keys, scenarios)
    ensures OverGroups(scenarios, RequestCount) == Amount(was, was.Keys, RequestCount)
  {
    ListSum(InTimeOrder(was), was.Keys, scenarios, RequestCount);
    GroupsPartition(InTimeOrder(was), was.Keys, RequestCount);
    RequestsStay(was);
  }

  /** After sorting no edge has seen a negative start gap. */
  lemma {:induction false} GapsAreNonnegative(was: map<Identity, Session>, ids: set<Identity>, k: EdgeKey, us: int)
    requires ids <= was.Keys && us < 0
    ensures Amount(InTimeOrder(was), ids, OfEdge(k, StartGap(us))) == 0
    decreases |ids|
  {
    if ids != {} {
      var id :| id in ids;
      GapsAreNonnegative(was, ids - {id}, k, us);
      AmountNext(InTimeOrder(was), ids - {id}, id, OfEdge(k, StartGap(us)));
      assert ids - {id} + {id} == ids;
      SortedIsInOrder(was[id]);
      NoNegativeGaps(InTimeOrder(was)[id], k, us);
    }
  }

  class Aggregator {
    const maxEvents: nat
    var sessions: map<Identity, Session>
    var ordinal: nat
    var summary: Summary

    /** No session is empty, the number of requests is known and nothing has been reported. */
    ghost predicate Collecting() reads this {
      && (forall id :: id in sessions ==> |sessions[id]| > 0)
      && summary.requests == Amount(sessions, sessions.Keys, RequestCount)
      && summary.sessions == summary.transitions == summary.overlapping == summary.ambiguous == 0
      && summary.scenarios == ScenarioSummary(0, 0, 0)
    }

    constructor (maxEvents: nat)
      ensures Collecting() && this.maxEvents == maxEvents && sessions == map[] && ordinal == 0
    {
      this.maxEvents := maxEvents;
      sessions, ordinal, summary := map[], 0, Summary(0, 0, 0, 0, 0, ScenarioSummary(0, 0, 0));
    }

    /** Keeps one classified event, unless the limit is reached. */
    method Retain(id: Identity, startUS: int, endUS: int, node: NodeId, status: int) returns (ok: bool)
      requires Collecting()
      modifies this
      ensures Collecting()
      ensures ok <==> old(summary.requests) < maxEvents
      ensures !ok ==> sessions == old(sessions) && ordinal == old(ordinal) && summary == old(summary)
      ensures ok ==> ordinal == old(ordinal) + 1 && summary.requests == old(summary.requests) + 1
      ensures ok ==> sessions == old(sessions)[id := (if id in old(sessions) then old(sessions)[id] else [])
                                                     + [Event(startUS, endUS, node, status, ordinal)]]
    {
      ok := summary.requests < maxEvents;
      if ok {
        ordinal := ordinal + 1;
        var events := if id in sessions then sessions[id] else [];
        sessions := sessions[id := events + [Event(startUS, endUS, node, status, ordinal)]];
        summary := summary.(requests := summary.requests + 1);
        SumGrows(Contributions(old(sessions), RequestCount), old(sessions).Keys, Contributions(sessions, RequestCount),
                 id, 1);
        assert sessions.Keys == old(sessions).Keys + {id};
      }
    }

    /** Sorts every session, in whatever order the table yields them, and adds it to the edges of all sessions
        and to its group. */
    method Aggregate() returns (edges: map<EdgeKey, Tally>, groups: map<Signature, ScenarioAggregate>)
      requires Collecting()
      modifies this
      ensures sessions == InTimeOrder(old(sessions)) && summary.requests == old(summary.requests)
      ensures Keyed(groups) && Aggregated(sessions, sessions.Keys, edges, Views(groups), summary)
    {
      summary := summary.(sessions := |sessions|);
      SortedIsAllSorted(sessions);
      sessions, edges, groups, summary := AggregateAll(sessions, summary, InTimeOrder(sessions));
    }

    /** The report on everything collected. ranked lists all groups, of which the report keeps the leading ones. */
    method BuildReport(name: Signature -> int, maxScenarios: nat) returns (report: Report, ghost ranked: seq<Scenario>)
      requires Collecting()
      modifies this
      ensures sessions == InTimeOrder(old(sessions)) && report.summary == summary
      ensures summary.requests == old(summary.requests)
      ensures EdgesHold(report.edges, sessions, sessions.Keys) && SummaryHolds(summary, sessions, sessions.Keys)
      ensures Lists(sessions, sessions.Keys, ranked) && Ranked(name, ranked)
      ensures report.scenarios == if |ranked| > maxScenarios then ranked[..maxScenarios] else ranked
      ensures summary.scenarios.groups == |ranked| && summary.scenarios.emitted == |report.scenarios|
      ensures SessionsIn(report.scenarios) + summary.scenarios.sessionsOmitted == summary.sessions
      ensures OverGroups(ranked, RequestCount) == summary.requests
    {
      var edges, groups := Aggregate();
      var scenarios := ListGroups(groups, sessions);
      scenarios := RankScenarios(name, sessions, scenarios);
      EverySessionIsListed(sessions, scenarios);
      RequestsAreGrouped(old(sessions), scenarios);
      ranked := scenarios;
      var emitted, omitted := Truncate(scenarios, maxScenarios);
      summary := summary.(scenarios := ScenarioSummary(|scenarios|, |emitted|, omitted));
      report := Report(summary, edges, emitted);
    }
  }

  method AggregateAll(was: map<Identity, Session>, summary0: Summary, ghost all: map<Identity, Session>)
    returns (sessions: map<Identity, Session>, edges: map<EdgeKey, Tally>, groups: map<Signature, ScenarioAggregate>,
             summary: Summary)
    requires (forall id :: id in was ==> |was[id]| > 0) && summary0.sessions == |was| && AllSorted(was, all)
    requires summary0.transitions == summary0.overlapping == summary0.ambiguous == 0
    ensures sessions == all && summary.requests == summary0.requests
    ensures Keyed(groups) && Aggregated(all, all.Keys, edges, Views(groups), summary)
  {
    sessions, edges, groups, summary := was, map[], map[], summary0;
    ProgressAtFirst(was, all, Views(groups), summary);
    var todo := sessions.Keys;
    while todo != {}
      invariant Keyed(groups) && Progress(sessions, was, all, todo, edges, Views(groups), summary)
      invariant forall k :: k in groups ==> fresh(groups[k])
      invariant summary.requests == summary0.requests
    {
      var id :| id in todo;
      InTodo(sessions, was, all, todo, edges, Views(groups), summary, id);
      var events := SortEvents(sessions[id]);
      edges, groups, summary := AggregateOne(id, events, sessions, edges, groups, summary, was, all, todo);
      sessions := sessions[id := events];
      todo := todo - {id};
    }
    ProgressAtEnd(sessions, was, all, edges, Views(groups), summary);
  }

  /** Adds a sorted session to the edges of all sessions, to the summary and to its group. */
  method AggregateOne(id: Identity, events: Session, ghost sessions: map<Identity, Session>,
                      edges0: map<EdgeKey, Tally>, groups0: map<Signature, ScenarioAggregate>, summary0: Summary,
                      ghost was: map<Identity, Session>, ghost all: map<Identity, Session>, ghost todo: set<Identity>)
    returns (edges: map<EdgeKey, Tally>, groups: map<Signature, ScenarioAggregate>, summary: Summary)
    requires id in todo && id in was && |was[id]| > 0
    requires Keyed(groups0) && Progress(sessions, was, all, todo, edges0, Views(groups0), summary0)
    requires id in sessions && events == Sorted(sessions[id])
    modifies groups0.Values
    ensures Keyed(groups) && Progress(sessions[id := events], was, all, todo - {id}, edges, Views(groups), summary)
    ensures forall k :: k in groups ==> (k in groups0 && groups[k] == groups0[k]) || fresh(groups[k])
    ensures summary.requests == summary0.requests
  {
    ghost var done := all.Keys - todo;
    OneLess(all.Keys, todo, id);
    SortedNext(sessions, was, all, done, id, events);
    edges, summary := AddToEdges(edges0, summary0, events, all, done, id);
    groups := AddToGroups(groups0, events, all, done, id);
  }
}
