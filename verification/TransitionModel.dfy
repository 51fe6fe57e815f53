/** Consecutive API calls of one session and the totals kept about them. Times are integer microseconds. */
module TransitionModel {
  import opened ApiNodes

  datatype Event = Event(startUS: int, endUS: int, node: NodeId, status: int, ordinal: nat)

  datatype EdgeKey = EdgeKey(from: NodeId, to: NodeId)

  type Session = seq<Event>

  function StatusBucket(status: int): nat {
    var bucket := status / 100;
    if bucket < 1 || bucket > 5 then 0 else bucket
  }

  // ----- totals of an edge

  /** What is counted about one edge. The status counters are multisets of buckets; every start gap is kept. */
  datatype Tally = Tally(count: nat, sessions: nat, order: OrderTally, statuses: StatusTally)

  datatype OrderTally = OrderTally(overlaps: nat, ambiguous: nat, startGaps: seq<int>, idleSum: nat)

  datatype StatusTally = StatusTally(from: multiset<nat>, to: multiset<nat>)

  const ZERO := Tally(0, 0, OrderTally(0, 0, [], 0), StatusTally(multiset{}, multiset{}))

  /** The single numbers inside a tally. */
  datatype Counter =
    | Calls | SessionsUsing | Overlapping | AmbiguousOrder
    | FromStatus(bucket: nat) | ToStatus(bucket: nat) | StartGap(us: int) | GapTime | IdleTime

  ghost function Value(t: Tally, c: Counter): int {
    match c
    case Calls => t.count
    case SessionsUsing => t.sessions
    case Overlapping => t.order.overlaps
    case AmbiguousOrder => t.order.ambiguous
    case FromStatus(b) => t.statuses.from[b]
    case ToStatus(b) => t.statuses.to[b]
    case StartGap(us) => multiset(t.order.startGaps)[us]
    case GapTime => Sum(t.order.startGaps)
    case IdleTime => t.order.idleSum
  }

  ghost function Sum(gaps: seq<int>): int {
    if gaps == [] then 0 else Sum(gaps[..|gaps|-1]) + gaps[|gaps|-1]
  }

  /** What one transition adds to each counter. Only the first of its kind in a session counts the session. */
  ghost function Adds(a: Event, b: Event, first: bool, c: Counter): int {
    match c
    case Calls => 1
    case SessionsUsing => if first then 1 else 0
    case Overlapping => if b.startUS < a.endUS then 1 else 0
    case AmbiguousOrder => if b.startUS == a.startUS then 1 else 0
    case FromStatus(k) => if StatusBucket(a.status) == k then 1 else 0
    case ToStatus(k) => if StatusBucket(b.status) == k then 1 else 0
    case StartGap(us) => if b.startUS - a.startUS == us then 1 else 0
    case GapTime => b.startUS - a.startUS
    case IdleTime => if b.startUS < a.endUS then 0 else b.startUS - a.endUS
  }

  /** A counter of an entry; an absent key has counted nothing. */
  ghost function Get(m: map<EdgeKey, Tally>, k: EdgeKey, c: Counter): int {
    if k in m then Value(m[k], c) else 0
  }

  function KeyAt(s: Session, i: nat): EdgeKey
    requires 0 < i < |s|
  {
    EdgeKey(s[i-1].node, s[i].node)
  }

  /** The edges that a session uses. */
  ghost function SeenKeys(s: Session): set<EdgeKey> {
    set i | 0 < i < |s| :: KeyAt(s, i)
  }

  /** What one session contributes to a counter of an edge. */
  ghost function SessionTally(s: Session, k: EdgeKey, c: Counter): int {
    if |s| <= 1 then 0
    else SessionTally(s[..|s|-1], k, c) + LastAdds(s, k, c)
  }

  ghost function LastAdds(s: Session, k: EdgeKey, c: Counter): int
    requires |s| > 1
  {
    if KeyAt(s, |s|-1) == k then AddsAt(s, |s|-1, c) else 0
  }

  /** What the transition to the event with index i adds to its edge. */
  ghost function AddsAt(s: Session, i: nat, c: Counter): int
    requires 0 < i < |s|
  {
    Adds(s[i-1], s[i], KeyAt(s, i) !in SeenKeys(s[..i]), c)
  }

  /** A session counts once on every edge that it uses. */
  lemma {:induction false} SessionIsCountedOnce(s: Session, k: EdgeKey)
    ensures SessionTally(s, k, SessionsUsing) == if k in SeenKeys(s) then 1 else 0
    decreases |s|
  {
    if |s| > 1 {
      var rest := s[..|s|-1];
      SessionIsCountedOnce(rest, k);
      SeenKeysNext(s);
    }
  }

  /** How many events of a session began before their predecessor ended, and how many began with it. */
  ghost function Overlaps(s: Session): nat {
    if |s| <= 1 then 0 else Overlaps(s[..|s|-1]) + if s[|s|-1].startUS < s[|s|-2].endUS then 1 else 0
  }

  ghost function Ambiguous(s: Session): nat {
    if |s| <= 1 then 0 else Ambiguous(s[..|s|-1]) + if s[|s|-1].startUS == s[|s|-2].startUS then 1 else 0
  }

  // ----- sums over a table

  ghost function SumOver<K(!new)>(m: map<K, int>, keys: set<K>): int
    requires keys <= m.Keys
    decreases |keys|
  {
    if keys == {} then 0
    else
      var k :| k in keys;
      m[k] + SumOver(m, keys - {k})
  }

  lemma {:induction false} SumWithout<K(!new)>(m: map<K, int>, keys: set<K>, x: K)
    requires keys <= m.Keys && x in keys
    ensures SumOver(m, keys) == m[x] + SumOver(m, keys - {x})
    decreases |keys|
  {
    var k :| k in keys && SumOver(m, keys) == m[k] + SumOver(m, keys - {k});
    if k != x {
      SumWithout(m, keys - {k}, x);
      SumWithout(m, keys - {x}, k);
      assert keys - {k} - {x} == keys - {x} - {k};
    }
  }

  lemma {:induction false} SumAgrees<K(!new)>(m: map<K, int>, n: map<K, int>, keys: set<K>)
    requires keys <= m.Keys && keys <= n.Keys
    requires forall k :: k in keys ==> m[k] == n[k]
    ensures SumOver(m, keys) == SumOver(n, keys)
    decreases |keys|
  {
    if keys != {} {
      var k :| k in keys && SumOver(m, keys) == m[k] + SumOver(m, keys - {k});
      SumAgrees(m, n, keys - {k});
      SumWithout(n, keys, k);
    }
  }

  /** When one entry grows by d, so does the sum. An entry that was absent counts as zero. */
  lemma SumGrows<K(!new)>(m: map<K, int>, keys: set<K>, n: map<K, int>, x: K, d: int)
    requires keys <= m.Keys && keys + {x} <= n.Keys
    requires forall k :: k in keys && k != x ==> n[k] == m[k]
    requires n[x] == d + if x in keys then m[x] else 0
    ensures SumOver(n, keys + {x}) == SumOver(m, keys) + d
  {
    SumWithout(n, keys + {x}, x);
    assert keys + {x} - {x} == keys - {x};
    SumAgrees(m, n, keys - {x});
    if x in keys {
      SumWithout(m, keys, x);
    } else {
      assert keys - {x} == keys;
    }
  }

  // ----- flow through a node

  /** A selection of edges: all, those into a node, or those out of it. */
  datatype Cut = All | Into(node: NodeId) | OutOf(node: NodeId)

  predicate Crosses(c: Cut, k: EdgeKey) {
    match c
    case All => true
    case Into(n) => k.to == n
    case OutOf(n) => k.from == n
  }

  ghost function Column(edges: map<EdgeKey, Tally>, c: Counter): map<EdgeKey, int> {
    map k | k in edges :: Value(edges[k], c)
  }

  ghost function Selected(edges: map<EdgeKey, Tally>, cut: Cut): set<EdgeKey> {
    set k | k in edges && Crosses(cut, k)
  }

  /** A counter added up over the selected edges of a table. */
  ghost function Flow(edges: map<EdgeKey, Tally>, cut: Cut, c: Counter): int {
    SumOver(Column(edges, c), Selected(edges, cut))
  }

  /** What the transitions of one session on the selected edges add to a counter. */
  ghost function SessionFlow(s: Session, cut: Cut, c: Counter): int {
    if |s| <= 1 then 0
    else SessionFlow(s[..|s|-1], cut, c) + if Crosses(cut, KeyAt(s, |s|-1)) then AddsAt(s, |s|-1, c) else 0
  }

  /** What an edge gains is gained on every cut that it crosses. */
  lemma FlowAfterCall(edges: map<EdgeKey, Tally>, k: EdgeKey, t: Tally, cut: Cut, c: Counter)
    ensures Flow(edges[k := t], cut, c)
         == Flow(edges, cut, c) + if Crosses(cut, k) then Value(t, c) - Get(edges, k, c) else 0
  {
    var after := edges[k := t];
    if Crosses(cut, k) {
      assert Selected(after, cut) == Selected(edges, cut) + {k};
      SumGrows(Column(edges, c), Selected(edges, cut), Column(after, c), k, Value(t, c) - Get(edges, k, c));
    } else {
      assert Selected(after, cut) == Selected(edges, cut);
      SumAgrees(Column(edges, c), Column(after, c), Selected(edges, cut));
    }
  }

  /** What a session adds to its edges one by one. */
  ghost function Tallies(s: Session, keys: set<EdgeKey>, c: Counter): map<EdgeKey, int> {
    map k | k in keys :: SessionTally(s, k, c)
  }

  /** On an edge that it does not use a session counts nothing. */
  lemma {:induction false} UnusedEdge(s: Session, k: EdgeKey, c: Counter)
    requires k !in SeenKeys(s)
    ensures SessionTally(s, k, c) == 0
    decreases |s|
  {
    if |s| > 1 {
      SeenKeysNext(s);
      UnusedEdge(s[..|s|-1], k, c);
    }
  }

  lemma SeenKeysNext(s: Session)
    requires |s| > 1
    ensures SeenKeys(s) == SeenKeys(s[..|s|-1]) + {KeyAt(s, |s|-1)}
  {
    var rest := s[..|s|-1];
    assert forall j :: 0 < j < |rest| ==> KeyAt(s, j) == KeyAt(rest, j);
  }

  /** The edges that a session uses add up to its flow over all edges. */
  lemma {:induction false} TalliesAddUp(s: Session, c: Counter)
    ensures SumOver(Tallies(s, SeenKeys(s), c), SeenKeys(s)) == SessionFlow(s, All, c)
    decreases |s|
  {
    if |s| > 1 {
      var rest, key := s[..|s|-1], KeyAt(s, |s|-1);
      TalliesAddUp(rest, c);
      SeenKeysNext(s);
      if key !in SeenKeys(rest) {
        UnusedEdge(rest, key, c);
      }
      SumGrows(Tallies(rest, SeenKeys(rest), c), SeenKeys(rest), Tallies(s, SeenKeys(s), c), key, AddsAt(s, |s|-1, c));
    }
  }

  /** The start gaps of a session add up to the time from its first start to its last. */
  lemma {:induction false} GapsTelescope(s: Session)
    requires |s| > 0
    ensures SessionFlow(s, All, GapTime) == s[|s|-1].startUS - s[0].startUS
    decreases |s|
  {
    if |s| > 1 { GapsTelescope(s[..|s|-1]); }
  }

  // ----- totals of a node

  datatype NodeStats = NodeStats(requests: nat, sessions: nat, first: nat, last: nat, offsetSum: int)

  const NO_STATS := NodeStats(0, 0, 0, 0, 0)

  /** The single numbers inside the entry of a node. */
  datatype NodeCounter = Visits | VisitingSessions | Firsts | Lasts | OffsetSum

  ghost function Stat(st: NodeStats, c: NodeCounter): int {
    match c
    case Visits => st.requests
    case VisitingSessions => st.sessions
    case Firsts => st.first
    case Lasts => st.last
    case OffsetSum => st.offsetSum
  }

  ghost function GetStat(m: map<NodeId, NodeStats>, n: NodeId, c: NodeCounter): int {
    if n in m then Stat(m[n], c) else 0
  }

  /** The nodes of a session, which also name its scenario. */
  function NodesOf(s: Session): set<NodeId> {
    set i | 0 <= i < |s| :: s[i].node
  }

  /** What the event with index i contributes to its node; only the first of a session at a node has an offset. */
  ghost function VisitAdds(s: Session, i: nat, unseen: bool, c: NodeCounter): int
    requires i < |s|
  {
    match c
    case Visits => 1
    case VisitingSessions => if unseen then 1 else 0
    case Firsts => if i == 0 then 1 else 0
    case Lasts => if i == |s| - 1 then 1 else 0
    case OffsetSum => if unseen then s[i].startUS - s[0].startUS else 0
  }

  /** What the first i events contribute to a node. */
  ghost function VisitsUpTo(s: Session, i: nat, n: NodeId, c: NodeCounter): int
    requires i <= |s|
  {
    if i == 0 then 0
    else VisitsUpTo(s, i - 1, n, c) + if s[i-1].node == n then VisitAdds(s, i - 1, n !in NodesOf(s[..i-1]), c) else 0
  }

  /** A session counts once at every node that it visits. */
  lemma {:induction false} VisitIsCountedOnce(s: Session, i: nat, n: NodeId)
    requires i <= |s|
    ensures VisitsUpTo(s, i, n, VisitingSessions) == if n in NodesOf(s[..i]) then 1 else 0
    decreases i
  {
    if i > 0 {
      VisitIsCountedOnce(s, i - 1, n);
      assert s[..i] == s[..i-1] + [s[i-1]];
      assert NodesOf(s[..i]) == NodesOf(s[..i-1]) + {s[i-1].node};
    }
  }

  /** The recorded offset of a node is the time from the start of the session to its first visit. */
  lemma {:induction false} OffsetIsOfFirstVisit(s: Session, i: nat, n: NodeId, j: nat)
    requires j < i <= |s| && s[j].node == n && n !in NodesOf(s[..j])
    ensures VisitsUpTo(s, i, n, OffsetSum) == s[j].startUS - s[0].startUS
    decreases i
  {
    if i == j + 1 {
      NoVisitNoOffset(s, j, n);
    } else {
      OffsetIsOfFirstVisit(s, i - 1, n, j);
      assert s[..i-1][j].node == n;
    }
  }

  /** A node is visited at least once for every session that visits it, and not at all otherwise. */
  lemma {:induction false} VisitsAreOfVisitors(s: Session, i: nat, n: NodeId)
    requires i <= |s|
    ensures VisitsUpTo(s, i, n, Visits) >= VisitsUpTo(s, i, n, VisitingSessions) >= 0
    ensures VisitsUpTo(s, i, n, VisitingSessions) == 0 ==> VisitsUpTo(s, i, n, Visits) == 0
    decreases i
  {
    if i > 0 {
      VisitsAreOfVisitors(s, i - 1, n);
      VisitIsCountedOnce(s, i - 1, n);
    }
  }

  lemma {:induction false} NoVisitNoOffset(s: Session, i: nat, n: NodeId)
    requires i <= |s| && n !in NodesOf(s[..i])
    ensures VisitsUpTo(s, i, n, OffsetSum) == 0
    decreases i
  {
    if i > 0 {
      assert s[..i] == s[..i-1] + [s[i-1]];
      assert NodesOf(s[..i]) == NodesOf(s[..i-1]) + {s[i-1].node};
      NoVisitNoOffset(s, i - 1, n);
    }
  }

  /** Every request of a session but its first arrives over an edge. */
  lemma {:induction false} RequestsComeIn(s: Session, i: nat, n: NodeId)
    requires i <= |s|
    ensures VisitsUpTo(s, i, n, Visits) == VisitsUpTo(s, i, n, Firsts) + SessionFlow(s[..i], Into(n), Calls)
    decreases i
  {
    if i > 0 {
      RequestsComeIn(s, i - 1, n);
      assert s[..i][..|s[..i]|-1] == s[..i-1];
    }
  }

  /** Every request of a session but its last leaves over an edge. */
  lemma {:induction false} RequestsGoOut(s: Session, i: nat, n: NodeId)
    requires i <= |s|
    ensures VisitsUpTo(s, i, n, Visits)
         == SessionFlow(s[..i], OutOf(n), Calls) + if i > 0 && s[i-1].node == n then 1 else 0
    ensures VisitsUpTo(s, i, n, Lasts) == if 0 < i == |s| && s[i-1].node == n then 1 else 0
    decreases i
  {
    if i > 0 {
      RequestsGoOut(s, i - 1, n);
      assert s[..i][..|s[..i]|-1] == s[..i-1];
    }
  }

  lemma {:induction false} SessionFlowAll(s: Session)
    ensures SessionFlow(s, All, Calls) == if |s| == 0 then 0 else |s| - 1
    decreases |s|
  {
    if |s| > 1 { SessionFlowAll(s[..|s|-1]); }
  }

  // ----- totals over sessions

  /** The key of a session: a digest of the cookie that names its user. */
  datatype Identity = Identity(digest: string)

  /** Anything that is measured about a session and adds up over sessions. */
  datatype Measure =
    | OfEdge(key: EdgeKey, counter: Counter) | OfCut(cut: Cut, counter: Counter) | OfNode(node: NodeId, stat: NodeCounter)
    | SessionCount | RequestCount | TransitionCount | OverlapCount | AmbiguousCount | Lasting(us: int) | StartSpan

  ghost function Contribution(s: Session, mu: Measure): int {
    match mu
    case OfEdge(k, c) => SessionTally(s, k, c)
    case OfCut(cut, c) => SessionFlow(s, cut, c)
    case OfNode(n, c) => VisitsUpTo(s, |s|, n, c)
    case SessionCount => 1
    case RequestCount => |s|
    case TransitionCount => if |s| == 0 then 0 else |s| - 1
    case OverlapCount => Overlaps(s)
    case AmbiguousCount => Ambiguous(s)
    case Lasting(us) => if |s| > 0 && s[|s|-1].endUS - s[0].startUS == us then 1 else 0
    case StartSpan => if |s| > 0 then s[|s|-1].startUS - s[0].startUS else 0
  }

  ghost function Contributions(all: map<Identity, Session>, mu: Measure): map<Identity, int> {
    map id | id in all :: Contribution(all[id], mu)
  }

  /** What the chosen sessions contribute together. */
  ghost function Amount(all: map<Identity, Session>, ids: set<Identity>, mu: Measure): int
    requires ids <= all.Keys
  {
    SumOver(Contributions(all, mu), ids)
  }

  lemma AmountNext(all: map<Identity, Session>, ids: set<Identity>, id: Identity, mu: Measure)
    requires ids <= all.Keys && id in all && id !in ids
    ensures Amount(all, ids + {id}, mu) == Amount(all, ids, mu) + Contribution(all[id], mu)
  {
    SumWithout(Contributions(all, mu), ids + {id}, id);
    assert ids + {id} - {id} == ids;
  }

  /** Sessions outside the choice do not matter. */
  lemma AmountAgrees(all: map<Identity, Session>, other: map<Identity, Session>, ids: set<Identity>, mu: Measure)
    requires ids <= all.Keys && ids <= other.Keys
    requires forall id :: id in ids ==> Contribution(all[id], mu) == Contribution(other[id], mu)
    ensures Amount(all, ids, mu) == Amount(other, ids, mu)
  {
    SumAgrees(Contributions(all, mu), Contributions(other, mu), ids);
  }

  /** The start gaps of the chosen sessions add up to their spans from first start to last start. */
  lemma GapTimeIsSpan(all: map<Identity, Session>, ids: set<Identity>)
    requires ids <= all.Keys
    ensures Amount(all, ids, OfCut(All, GapTime)) == Amount(all, ids, StartSpan)
  {
    forall id | id in ids ensures Contribution(all[id], OfCut(All, GapTime)) == Contribution(all[id], StartSpan) {
      if |all[id]| > 0 {
        GapsTelescope(all[id]);
      }
    }
    SumAgrees(Contributions(all, OfCut(All, GapTime)), Contributions(all, StartSpan), ids);
  }

  lemma {:induction false} SessionsAreCounted(all: map<Identity, Session>, ids: set<Identity>)
    requires ids <= all.Keys
    ensures Amount(all, ids, SessionCount) == |ids|
    decreases |ids|
  {
    if ids != {} {
      var id :| id in ids;
      SessionsAreCounted(all, ids - {id});
      AmountNext(all, ids - {id}, id, SessionCount);
      assert ids - {id} + {id} == ids;
    }
  }

  // ----- groups of sessions that use the same nodes

  /** The name of a scenario: the nodes that its sessions use. */
  datatype Signature = Signature(nodes: set<NodeId>)

  function SignatureOf(s: Session): Signature {
    Signature(NodesOf(s))
  }

  ghost predicate Uses(s: Session, n: NodeId) {
    exists i :: 0 <= i < |s| && s[i].node == n
  }

  /** Two sessions belong to one scenario exactly when every node occurs in both or in neither. */
  lemma SameScenarioIff(s: Session, t: Session)
    ensures SignatureOf(s) == SignatureOf(t) <==> forall n :: Uses(s, n) <==> Uses(t, n)
  {
    assert forall n :: Uses(s, n) <==> n in SignatureOf(s).nodes;
    assert forall n :: Uses(t, n) <==> n in SignatureOf(t).nodes;
    if forall n :: Uses(s, n) <==> Uses(t, n) {
      assert SignatureOf(s).nodes == SignatureOf(t).nodes;
    }
  }

  ghost function Signatures(all: map<Identity, Session>, ids: set<Identity>): set<Signature>
    requires ids <= all.Keys
  {
    set id | id in ids :: SignatureOf(all[id])
  }

  ghost function Members(all: map<Identity, Session>, ids: set<Identity>, signature: Signature): (r: set<Identity>)
    requires ids <= all.Keys
    ensures r <= ids
  {
    set id | id in ids && SignatureOf(all[id]) == signature
  }

  /** What the members of one group contribute. */
  ghost function Share(all: map<Identity, Session>, ids: set<Identity>, mu: Measure, signature: Signature): int
    requires ids <= all.Keys
  {
    Amount(all, Members(all, ids, signature), mu)
  }

  ghost function Shares(all: map<Identity, Session>, ids: set<Identity>, mu: Measure): map<Signature, int>
    requires ids <= all.Keys
  {
    map signature | signature in Signatures(all, ids) :: Share(all, ids, mu, signature)
  }

  lemma MembersNext(all: map<Identity, Session>, ids: set<Identity>, id: Identity, signature: Signature)
    requires ids <= all.Keys && id in all && id !in ids
    ensures Members(all, ids + {id}, signature)
         == if SignatureOf(all[id]) == signature then Members(all, ids, signature) + {id}
            else Members(all, ids, signature)
  {
  }

  lemma SignaturesNext(all: map<Identity, Session>, ids: set<Identity>, id: Identity)
    requires ids <= all.Keys && id in all
    ensures Signatures(all, ids + {id}) == Signatures(all, ids) + {SignatureOf(all[id])}
  {
  }

  lemma NoMembers(all: map<Identity, Session>, ids: set<Identity>, signature: Signature)
    requires ids <= all.Keys && signature !in Signatures(all, ids)
    ensures Members(all, ids, signature) == {}
  {
    forall id | id in ids ensures SignatureOf(all[id]) != signature {
      assert SignatureOf(all[id]) in Signatures(all, ids);
    }
  }

  /** Grouping loses and repeats nothing: whatever is measured, the groups add up to all sessions. */
  lemma {:induction false} GroupsPartition(all: map<Identity, Session>, ids: set<Identity>, mu: Measure)
    requires ids <= all.Keys
    ensures SumOver(Shares(all, ids, mu), Signatures(all, ids)) == Amount(all, ids, mu)
    decreases |ids|
  {
    if ids != {} {
      var id :| id in ids;
      var rest := ids - {id};
      assert rest + {id} == ids;
      GroupsPartition(all, rest, mu);
      AmountNext(all, rest, id, mu);
      SharesNext(all, rest, id, mu);
    }
  }

  lemma SharesNext(all: map<Identity, Session>, rest: set<Identity>, id: Identity, mu: Measure)
    requires rest <= all.Keys && id in all && id !in rest
    ensures SumOver(Shares(all, rest + {id}, mu), Signatures(all, rest + {id}))
         == SumOver(Shares(all, rest, mu), Signatures(all, rest)) + Contribution(all[id], mu)
  {
    var keys, mine := Signatures(all, rest), SignatureOf(all[id]);
    var was, now := Shares(all, rest, mu), Shares(all, rest + {id}, mu);
    SignaturesNext(all, rest, id);
    forall k | k in keys && k != mine ensures now[k] == was[k] {
      ShareNext(all, rest, id, mu, k);
    }
    ShareNext(all, rest, id, mu, mine);
    SumGrows(was, keys, now, mine, Contribution(all[id], mu));
  }

  /** One more session adds its contribution to the share of its own group. */
  lemma ShareNext(all: map<Identity, Session>, rest: set<Identity>, id: Identity, mu: Measure, signature: Signature)
    requires rest <= all.Keys && id in all && id !in rest
    ensures Share(all, rest + {id}, mu, signature)
         == Share(all, rest, mu, signature) + if SignatureOf(all[id]) == signature then Contribution(all[id], mu) else 0
    ensures signature !in Signatures(all, rest) ==> Share(all, rest, mu, signature) == 0
  {
    MembersNext(all, rest, id, signature);
    if SignatureOf(all[id]) == signature {
      AmountNext(all, Members(all, rest, signature), id, mu);
    }
    if signature !in Signatures(all, rest) {
      NoMembers(all, rest, signature);
    }
  }

  // ----- the order of events

  predicate Before(a: Event, b: Event) {
    || a.startUS < b.startUS
    || (a.startUS == b.startUS && (a.endUS < b.endUS || (a.endUS == b.endUS && a.ordinal < b.ordinal)))
  }

  ghost predicate InOrder(s: Session) {
    forall i, j :: 0 <= i < j < |s| ==> !Before(s[j], s[i])
  }

  /** What the order means: by start, on ties by end, on further ties by place in the log. */
  lemma OrderedByFields(s: Session, i: nat, j: nat)
    requires InOrder(s) && i < j < |s|
    ensures s[i].startUS <= s[j].startUS
    ensures s[i].startUS == s[j].startUS ==> s[i].endUS <= s[j].endUS
    ensures s[i].startUS == s[j].startUS && s[i].endUS == s[j].endUS ==> s[i].ordinal <= s[j].ordinal
  {
  }

  /** A call counts in the bucket of its hundreds from 100 to 599, and anything else in the bucket zero. */
  lemma StatusesByHundreds(a: Event, b: Event, first: bool, k: nat)
    ensures Adds(a, b, first, FromStatus(k)) == if CountsAs(a.status, k) then 1 else 0
    ensures Adds(a, b, first, ToStatus(k)) == if CountsAs(b.status, k) then 1 else 0
  {
  }

  ghost predicate CountsAs(status: int, bucket: nat) {
    if 100 <= status < 600 then 100 * bucket <= status < 100 * bucket + 100 else bucket == 0
  }

  /** No edge of a sorted session records a negative start gap. */
  lemma {:induction false} NoNegativeGaps(s: Session, k: EdgeKey, us: int)
    requires InOrder(s) && us < 0
    ensures SessionTally(s, k, StartGap(us)) == 0
    decreases |s|
  {
    if |s| > 1 {
      NoNegativeGaps(s[..|s|-1], k, us);
      assert !Before(s[|s|-1], s[|s|-2]);
    }
  }

  /** s with an event put in behind everything that does not come after it. */
  function Inserted(s: Session, e: Event): Session {
    if s == [] then [e]
    else if Before(e, s[|s|-1]) then Inserted(s[..|s|-1], e) + [s[|s|-1]]
    else s + [e]
  }

  /** The events in the order of their start, then their end, then their place in the log. */
  function Sorted(s: Session): Session {
    if s == [] then [] else Inserted(Sorted(s[..|s|-1]), s[|s|-1])
  }

  lemma {:induction false} InsertedKeepsOrder(s: Session, e: Event)
    requires InOrder(s)
    ensures multiset(Inserted(s, e)) == multiset(s) + multiset{e}
    ensures InOrder(Inserted(s, e))
  {
    if s != [] && Before(e, s[|s|-1]) {
      var rest, final := s[..|s|-1], s[|s|-1];
      InsertedKeepsOrder(rest, e);
      assert s == rest + [final];
      var r := Inserted(rest, e);
      forall i | 0 <= i < |r| ensures !Before(final, r[i]) {
        assert r[i] in multiset(r);
        assert r[i] == e || r[i] in rest;
      }
    }
  }

  lemma {:induction false} SortedIsInOrder(s: Session)
    ensures InOrder(Sorted(s)) && multiset(Sorted(s)) == multiset(s) && |Sorted(s)| == |s|
  {
    if s != [] {
      SortedIsInOrder(s[..|s|-1]);
      InsertedKeepsOrder(Sorted(s[..|s|-1]), s[|s|-1]);
      assert s == s[..|s|-1] + [s[|s|-1]];
      assert |multiset(Sorted(s))| == |multiset(s)|;
    }
  }
}
