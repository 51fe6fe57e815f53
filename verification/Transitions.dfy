/** Aggregation of sessions into edges, nodes and scenario groups. */
module Transitions {
  import opened TransitionModel
  import opened Sequences

  // ----- one session into a table of edges

  lemma SeenNext(s: Session, i: nat)
    requires 0 < i < |s|
    ensures SeenKeys(s[..i+1]) == SeenKeys(s[..i]) + {KeyAt(s, i)}
  {
    var p, q := s[..i+1], s[..i];
    assert forall j :: 0 < j < i ==> KeyAt(p, j) == KeyAt(q, j);
    assert KeyAt(p, i) == KeyAt(s, i);
  }

  lemma CountsNext(s: Session, i: nat)
    requires 0 < i < |s|
    ensures Overlaps(s[..i+1]) == Overlaps(s[..i]) + if s[i].startUS < s[i-1].endUS then 1 else 0
    ensures Ambiguous(s[..i+1]) == Ambiguous(s[..i]) + if s[i].startUS == s[i-1].startUS then 1 else 0
  {
    assert s[..i+1][..i] == s[..i];
  }

  lemma TallyNext(s: Session, i: nat, k: EdgeKey, c: Counter)
    requires 0 < i < |s|
    ensures SessionTally(s[..i+1], k, c) == SessionTally(s[..i], k, c)
              + if KeyAt(s, i) == k then AddsAt(s, i, c) else 0
  {
    assert s[..i+1][..i] == s[..i];
  }

  lemma FlowNext(s: Session, i: nat, cut: Cut, c: Counter)
    requires 0 < i < |s|
    ensures SessionFlow(s[..i+1], cut, c)
         == SessionFlow(s[..i], cut, c) + if Crosses(cut, KeyAt(s, i)) then AddsAt(s, i, c) else 0
  {
    assert s[..i+1][..i] == s[..i];
  }

  /** A counter of edge k after the first i events of a session. */
  ghost predicate EntryAdded(edges0: map<EdgeKey, Tally>, s: Session, i: nat, edges: map<EdgeKey, Tally>,
                             k: EdgeKey, c: Counter)
    requires i <= |s|
  {
    Get(edges, k, c) == Get(edges0, k, c) + SessionTally(s[..i], k, c)
  }

  /** The flow across a cut after the first i events of a session. */
  ghost predicate FlowAdded(edges0: map<EdgeKey, Tally>, s: Session, i: nat, edges: map<EdgeKey, Tally>, cut: Cut,
                            c: Counter)
    requires i <= |s|
  {
    Flow(edges, cut, c) == Flow(edges0, cut, c) + SessionFlow(s[..i], cut, c)
  }

  /** The table after the first i events of a session. */
  ghost predicate AddedUpTo(edges0: map<EdgeKey, Tally>, s: Session, i: nat, edges: map<EdgeKey, Tally>)
    requires i <= |s|
  {
    && (forall k, c {:trigger EntryAdded(edges0, s, i, edges, k, c)} :: EntryAdded(edges0, s, i, edges, k, c))
    && (forall cut, c {:trigger FlowAdded(edges0, s, i, edges, cut, c)} :: FlowAdded(edges0, s, i, edges, cut, c))
  }

  /** t is an entry with one more transition counted. */
  ghost predicate OneMore(edges: map<EdgeKey, Tally>, k: EdgeKey, a: Event, b: Event, first: bool, t: Tally) {
    forall c {:trigger Value(t, c)} :: Value(t, c) == Get(edges, k, c) + Adds(a, b, first, c)
  }

  lemma AddOne(edges0: map<EdgeKey, Tally>, s: Session, i: nat, edges: map<EdgeKey, Tally>, t: Tally)
    requires 0 < i < |s| && AddedUpTo(edges0, s, i, edges)
    requires OneMore(edges, KeyAt(s, i), s[i-1], s[i], KeyAt(s, i) !in SeenKeys(s[..i]), t)
    ensures AddedUpTo(edges0, s, i + 1, edges[KeyAt(s, i) := t])
  {
    var key := KeyAt(s, i);
    var after := edges[key := t];
    forall k, c {:trigger EntryAdded(edges0, s, i + 1, after, k, c)}
      ensures EntryAdded(edges0, s, i + 1, after, k, c)
    {
      assert EntryAdded(edges0, s, i, edges, k, c);
      TallyNext(s, i, k, c);
      assert Value(t, c) == Get(edges, key, c) + Adds(s[i-1], s[i], key !in SeenKeys(s[..i]), c);
    }
    forall cut, c {:trigger FlowAdded(edges0, s, i + 1, after, cut, c)}
      ensures FlowAdded(edges0, s, i + 1, after, cut, c)
    {
      assert FlowAdded(edges0, s, i, edges, cut, c);
      FlowAfterCall(edges, key, t, cut, c);
      FlowNext(s, i, cut, c);
      assert Value(t, c) == Get(edges, key, c) + Adds(s[i-1], s[i], key !in SeenKeys(s[..i]), c);
    }
  }

  /** The entry of an edge with one more transition. */
  function Bump(was: Tally, a: Event, b: Event, first: bool): Tally {
    var idleUS := b.startUS - a.endUS;
    Tally(was.count + 1, was.sessions + (if first then 1 else 0),
          OrderTally(was.order.overlaps + (if idleUS < 0 then 1 else 0),
                     was.order.ambiguous + (if b.startUS == a.startUS then 1 else 0),
                     was.order.startGaps + [b.startUS - a.startUS],
                     was.order.idleSum + (if idleUS < 0 then 0 else idleUS)),
          StatusTally(was.statuses.from + multiset{StatusBucket(a.status)},
                      was.statuses.to + multiset{StatusBucket(b.status)}))
  }

  lemma BumpAdds(was: Tally, a: Event, b: Event, first: bool, c: Counter)
    ensures Value(Bump(was, a, b, first), c) == Value(was, c) + Adds(a, b, first, c)
  {
    match c
    case FromStatus(k) => assert multiset{StatusBucket(a.status)}[k] == if StatusBucket(a.status) == k then 1 else 0;
    case ToStatus(k) => assert multiset{StatusBucket(b.status)}[k] == if StatusBucket(b.status) == k then 1 else 0;
    case StartGap(us) => assert multiset(was.order.startGaps + [b.startUS - a.startUS])
                             == multiset(was.order.startGaps) + multiset{b.startUS - a.startUS};
    case GapTime =>
      assert (was.order.startGaps + [b.startUS - a.startUS])[..|was.order.startGaps|] == was.order.startGaps;
    case _ =>
  }

  lemma CountedOnce(edges: map<EdgeKey, Tally>, key: EdgeKey, a: Event, b: Event, first: bool, t: Tally)
    requires t == Bump(if key in edges then edges[key] else ZERO, a, b, first)
    ensures OneMore(edges, key, a, b, first, t)
  {
    forall c ensures Value(t, c) == Get(edges, key, c) + Adds(a, b, first, c) {
      BumpAdds(if key in edges then edges[key] else ZERO, a, b, first, c);
      assert Value(ZERO, c) == 0;
    }
  }

  method AddSequence(edges0: map<EdgeKey, Tally>, s: Session)
    returns (edges: map<EdgeKey, Tally>, overlaps: nat, ambiguous: nat)
    ensures AddedUpTo(edges0, s, |s|, edges)
    ensures overlaps == Overlaps(s) && ambiguous == Ambiguous(s)
  {
    edges, overlaps, ambiguous := edges0, 0, 0;
    var seen: set<EdgeKey> := {};
    NothingAdded(edges0, s);
    TakeAll(s);
    if |s| == 0 {
      return;
    }
    for i := 1 to |s|
      invariant AddedUpTo(edges0, s, i, edges)
      invariant seen == SeenKeys(s[..i])
      invariant overlaps == Overlaps(s[..i]) && ambiguous == Ambiguous(s[..i])
    {
      var key := EdgeKey(s[i-1].node, s[i].node);
      var edge := Bump(if key in edges then edges[key] else ZERO, s[i-1], s[i], key !in seen);
      CountedOnce(edges, key, s[i-1], s[i], key !in seen, edge);
      AddOne(edges0, s, i, edges, edge);
      CountsNext(s, i);
      SeenNext(s, i);
      seen := seen + {key};
      edges := edges[key := edge];
      if s[i].startUS - s[i-1].endUS < 0 {
        overlaps := overlaps + 1;
      }
      if s[i].startUS == s[i-1].startUS {
        ambiguous := ambiguous + 1;
      }
    }
  }

  lemma NothingAdded(edges: map<EdgeKey, Tally>, s: Session)
    ensures |s| == 0 ==> AddedUpTo(edges, s, 0, edges)
    ensures |s| > 0 ==> AddedUpTo(edges, s, 1, edges) && SeenKeys(s[..1]) == {}
    ensures |s| > 0 ==> Overlaps(s[..1]) == Ambiguous(s[..1]) == 0
  {
  }
}
