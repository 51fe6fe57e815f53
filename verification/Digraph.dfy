/** Finite directed graphs, given as their sets of arcs, and the facts about walks,
    cycles and levels that the layout and the deployment scheduler share. */
module Digraph {

  /** A non-empty node sequence whose neighbours are joined by arcs. */
  ghost predicate Walk<V(!new)>(arcs: set<(V, V)>, p: seq<V>) {
    |p| > 0 && forall i :: 0 < i < |p| ==> (p[i-1], p[i]) in arcs
  }

  ghost predicate Connects<V(!new)>(arcs: set<(V, V)>, p: seq<V>, a: V, b: V) {
    Walk(arcs, p) && p[0] == a && p[|p|-1] == b
  }

  ghost predicate Reaches<V(!new)>(arcs: set<(V, V)>, a: V, b: V) {
    exists p :: Connects(arcs, p, a, b)
  }

  /** A closed walk with at least one arc; a self-arc is a cycle. */
  ghost predicate OnCycle<V(!new)>(arcs: set<(V, V)>, v: V) {
    exists p :: Connects(arcs, p, v, v) && |p| > 1
  }

  ghost predicate Acyclic<V(!new)>(arcs: set<(V, V)>) {
    forall v :: !OnCycle(arcs, v)
  }

  ghost predicate Ranked<V(!new)>(arcs: set<(V, V)>, rank: map<V, int>) {
    forall a, b :: (a, b) in arcs ==> a in rank && b in rank && rank[a] < rank[b]
  }

  lemma {:induction false} RankGrowsAlongWalk<V(!new)>(arcs: set<(V, V)>, rank: map<V, int>, p: seq<V>)
    requires Ranked(arcs, rank) && Walk(arcs, p) && |p| > 1
    ensures p[0] in rank && p[|p|-1] in rank
    ensures rank[p[0]] + |p| - 1 <= rank[p[|p|-1]]
    decreases |p|
  {
    var q := p[..|p|-1];
    assert (p[|p|-2], p[|p|-1]) in arcs;
    if |q| > 1 {
      RankGrowsAlongWalk(arcs, rank, q);
    }
  }

  lemma RankedIsAcyclic<V(!new)>(arcs: set<(V, V)>, rank: map<V, int>)
    requires Ranked(arcs, rank)
    ensures Acyclic(arcs)
  {
    forall v ensures !OnCycle(arcs, v) {
      if OnCycle(arcs, v) {
        var p :| Connects(arcs, p, v, v) && |p| > 1;
        RankGrowsAlongWalk(arcs, rank, p);
      }
    }
  }

  lemma WalkJoin<V(!new)>(arcs: set<(V, V)>, p: seq<V>, q: seq<V>, a: V, b: V, c: V)
    requires Connects(arcs, p, a, b) && Connects(arcs, q, b, c)
    ensures Connects(arcs, p + q[1..], a, c)
    ensures |p + q[1..]| == |p| + |q| - 1
  {
    var r := p + q[1..];
    forall i | 0 < i < |r| ensures (r[i-1], r[i]) in arcs {
      if i < |p| {
        assert (p[i-1], p[i]) in arcs;
      } else {
        assert (q[i-|p|], q[i-|p|+1]) in arcs;
      }
    }
  }

  lemma ReachesTransitive<V(!new)>(arcs: set<(V, V)>, a: V, b: V, c: V)
    requires Reaches(arcs, a, b) && Reaches(arcs, b, c)
    ensures Reaches(arcs, a, c)
  {
    var p :| Connects(arcs, p, a, b);
    var q :| Connects(arcs, q, b, c);
    WalkJoin(arcs, p, q, a, b, c);
  }

  lemma ArcReaches<V(!new)>(arcs: set<(V, V)>, a: V, b: V)
    requires a == b || (a, b) in arcs
    ensures Reaches(arcs, a, b)
  {
    assert Connects(arcs, if a == b then [a] else [a, b], a, b);
  }

  lemma WalkWithin<V(!new)>(small: set<(V, V)>, big: set<(V, V)>, p: seq<V>)
    requires small <= big && Walk(small, p)
    ensures Walk(big, p)
  {
    forall i | 0 < i < |p| ensures (p[i-1], p[i]) in big {
      assert (p[i-1], p[i]) in small;
    }
  }

  /** An arc that closes a walk puts its end on a cycle. */
  lemma ArcClosesCycle<V(!new)>(arcs: set<(V, V)>, p: seq<V>, a: V, b: V)
    requires Connects(arcs, p, a, b) && (b, a) in arcs
    ensures OnCycle(arcs, a)
  {
    assert Connects(arcs, [b, a], b, a);
    WalkJoin(arcs, p, [b, a], a, b, a);
    assert Connects(arcs, p + [b, a][1..], a, a);
  }

  // ----- levels: the length of the longest walk into a node

  ghost predicate LongestWalkTo<V(!new)>(arcs: set<(V, V)>, v: V, n: nat) {
    && (exists p :: Walk(arcs, p) && p[|p|-1] == v && |p| == n + 1)
    && (forall p :: Walk(arcs, p) && p[|p|-1] == v ==> |p| <= n + 1)
  }

  /** The local rule a level assignment obeys: its domain is closed under predecessors, arcs into
      the domain raise the level, and a positive level has a predecessor exactly one below. */
  ghost predicate Levels<V(!new)>(arcs: set<(V, V)>, level: map<V, nat>) {
    && (forall a, b :: (a, b) in arcs && b in level ==> a in level && level[a] < level[b])
    && (forall b {:trigger Supported(arcs, level, b)} :: b in level ==> Supported(arcs, level, b))
  }

  ghost predicate Supported<V(!new)>(arcs: set<(V, V)>, level: map<V, nat>, b: V)
    requires b in level
  {
    level[b] == 0 || exists a :: (a, b) in arcs && a in level && level[a] + 1 == level[b]
  }

  lemma {:induction false} LevelBoundsWalk<V(!new)>(arcs: set<(V, V)>, level: map<V, nat>, p: seq<V>)
    requires Levels(arcs, level) && Walk(arcs, p) && p[|p|-1] in level
    ensures |p| <= level[p[|p|-1]] + 1
    decreases |p|
  {
    if |p| > 1 {
      assert (p[|p|-2], p[|p|-1]) in arcs;
      LevelBoundsWalk(arcs, level, p[..|p|-1]);
    }
  }

  lemma {:induction false} LevelHasWalk<V(!new)>(arcs: set<(V, V)>, level: map<V, nat>, v: V) returns (p: seq<V>)
    requires Levels(arcs, level) && v in level
    ensures Walk(arcs, p) && p[|p|-1] == v && |p| == level[v] + 1
    decreases level[v]
  {
    if level[v] == 0 {
      p := [v];
    } else {
      assert Supported(arcs, level, v);
      var u :| (u, v) in arcs && u in level && level[u] + 1 == level[v];
      var q := LevelHasWalk(arcs, level, u);
      p := q + [v];
      forall i | 0 < i < |p| ensures (p[i-1], p[i]) in arcs {
        if i < |q| { assert (q[i-1], q[i]) in arcs; }
      }
    }
  }

  /** The local rule determines the level: it is the longest walk length. */
  lemma LevelIsLongestWalk<V(!new)>(arcs: set<(V, V)>, level: map<V, nat>, v: V)
    requires Levels(arcs, level) && v in level
    ensures LongestWalkTo(arcs, v, level[v])
  {
    var w := LevelHasWalk(arcs, level, v);
    forall p | Walk(arcs, p) && p[|p|-1] == v ensures |p| <= level[v] + 1 {
      LevelBoundsWalk(arcs, level, p);
    }
  }

  lemma LongestIsUnique<V(!new)>(arcs: set<(V, V)>, v: V, m: nat, n: nat)
    requires LongestWalkTo(arcs, v, m) && LongestWalkTo(arcs, v, n)
    ensures m == n
  {
  }

  // ----- a finite set in which everything has a predecessor contains a cycle

  ghost predicate FedFrom<V(!new)>(arcs: set<(V, V)>, s: set<V>, b: V) {
    exists a :: a in s && (a, b) in arcs
  }

  ghost predicate NoSource<V(!new)>(arcs: set<(V, V)>, s: set<V>) {
    forall b {:trigger FedFrom(arcs, s, b)} :: b in s ==> FedFrom(arcs, s, b)
  }

  lemma {:induction false} Pigeonhole<V>(p: seq<V>, s: set<V>) returns (i: nat, j: nat)
    requires forall k :: 0 <= k < |p| ==> p[k] in s
    requires |p| > |s|
    ensures i < j < |p| && p[i] == p[j]
    decreases |p|
  {
    var x := p[0];
    if k :| 0 < k < |p| && p[k] == x {
      i, j := 0, k;
    } else {
      var i', j' := Pigeonhole(p[1..], s - {x});
      i, j := i' + 1, j' + 1;
    }
  }

  lemma {:induction false} BackwardWalk<V(!new)>(arcs: set<(V, V)>, s: set<V>, v: V, n: nat) returns (p: seq<V>)
    requires v in s && n > 0 && NoSource(arcs, s)
    ensures Walk(arcs, p) && |p| == n
    ensures forall k :: 0 <= k < |p| ==> p[k] in s
    decreases n
  {
    if n == 1 {
      p := [v];
    } else {
      var q := BackwardWalk(arcs, s, v, n - 1);
      assert q[0] in s && FedFrom(arcs, s, q[0]);
      var a :| a in s && (a, q[0]) in arcs;
      p := [a] + q;
      forall i | 0 < i < |p| ensures (p[i-1], p[i]) in arcs {
        if i > 1 { assert (q[i-2], q[i-1]) in arcs; }
      }
    }
  }

  lemma NoSourceMeansCycle<V(!new)>(arcs: set<(V, V)>, s: set<V>) returns (v: V)
    requires s != {} && NoSource(arcs, s)
    ensures v in s && OnCycle(arcs, v)
  {
    var x :| x in s;
    var p := BackwardWalk(arcs, s, x, |s| + 1);
    var i, j := Pigeonhole(p, s);
    v := p[i];
    var c := p[i..j+1];
    forall k | 0 < k < |c| ensures (c[k-1], c[k]) in arcs {
      assert (p[i+k-1], p[i+k]) in arcs;
    }
    assert Connects(arcs, c, v, v);
  }
}
