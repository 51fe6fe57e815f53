/** Data model of the layered transition graph: nodes, edges, adjacency and sorting. */
module LayoutModel {
  import opened ApiNodes
  import opened Sequences

  datatype Edge = Edge(from: NodeId, to: NodeId, transitions: nat)

  /** One entry of a node's successor list. */
  datatype Link = Link(to: NodeId, transitions: nat)

  datatype EdgeKind = Forward | Sibling | Back | Self

  type Adjacency = map<NodeId, seq<Link>>
  type Order<!T> = (T, T) -> bool

  /** A list that names each element of a set exactly once. */
  ghost predicate Enumerates<T(!new)>(s: seq<T>, elements: set<T>) {
    NoDuplicates(s) && forall x :: x in s <==> x in elements
  }

  ghost predicate IsNode(edges: seq<Edge>, n: NodeId) {
    exists e :: e in edges && (e.from == n || e.to == n)
  }

  /** The arcs of the drawn graph; calls that repeat the same API are not arcs. */
  ghost function EdgeArcs(edges: seq<Edge>): set<(NodeId, NodeId)> {
    set e | e in edges && e.from != e.to :: (e.from, e.to)
  }

  ghost function LinkArcs(succ: Adjacency): set<(NodeId, NodeId)> {
    set u, l | u in succ && l in succ[u] :: (u, l.to)
  }

  /** What the edges put into the list of a node, with repetitions. */
  ghost function LinksFrom(edges: seq<Edge>, n: NodeId): multiset<Link> {
    if edges == [] then multiset{}
    else
      var e := edges[|edges|-1];
      LinksFrom(edges[..|edges|-1], n)
      + if e.from == n && e.to != n then multiset{Link(e.to, e.transitions)} else multiset{}
  }

  ghost predicate HoldsLinks(succ: Adjacency, edges: seq<Edge>) {
    forall n :: n in succ ==> multiset(succ[n]) == LinksFrom(edges, n)
  }

  /** Every link leads to a node that has its own successor list. */
  ghost predicate Closed(succ: Adjacency) {
    forall u, l :: u in succ && l in succ[u] ==> l.to in succ
  }

  /** What a comparator owes the sort on these elements: two of them are never each before the other, and
      elements in between are ranked with them. Elements may be tied. */
  ghost predicate WeakOrder<T(!new)>(xs: set<T>, before: Order<T>) {
    && (forall x, y :: x in xs && y in xs && before(x, y) ==> !before(y, x))
    && (forall x, y, z :: x in xs && y in xs && z in xs && before(x, z) ==> before(x, y) || before(y, z))
  }

  ghost function Elements<T>(xs: seq<T>): set<T> {
    set x | x in xs
  }

  ghost predicate SortedBy<T>(ys: seq<T>, before: Order<T>) {
    forall i, j :: 0 <= i < j < |ys| ==> !before(ys[j], ys[i])
  }

  /** Sorted, if the comparator is an order on xs. */
  ghost predicate SortedIfOrdered<T(!new)>(xs: seq<T>, ys: seq<T>, before: Order<T>) {
    WeakOrder(Elements(xs), before) ==> SortedBy(ys, before)
  }

  /** In order, if the comparator is one on the elements of the list. */
  ghost predicate InOrder<T(!new)>(ys: seq<T>, before: Order<T>) {
    SortedIfOrdered(ys, ys, before)
  }

  lemma InOrderAfterSort<T(!new)>(xs: seq<T>, ys: seq<T>, before: Order<T>)
    requires multiset(xs) == multiset(ys) && SortedIfOrdered(xs, ys, before)
    ensures InOrder(ys, before)
  {
    SameElements(xs, ys);
    assert Elements(xs) == Elements(ys);
  }

  /** An insertion sort. Whatever the comparator does the list is permuted, and a comparator that is an
      order on the elements gets them in that order. */
  method SortBy<T(!new)>(xs: seq<T>, before: Order<T>) returns (ys: seq<T>)
    ensures multiset(ys) == multiset(xs)
    ensures SortedIfOrdered(xs, ys, before)
  {
    ys := [];
    for i := 0 to |xs|
      invariant multiset(ys) == multiset(xs[..i])
      invariant SortedIfOrdered(xs, ys, before)
    {
      var k := PlaceOf(ys, xs[i], before);
      assert ys == ys[..k] + ys[k..];
      assert xs[..i+1] == xs[..i] + [xs[i]];
      SameElements(xs[..i], ys);
      InsertionIsSorted(xs, before, ys, k, xs[i]);
      ys := ys[..k] + [xs[i]] + ys[k..];
    }
    assert xs == xs[..|xs|];
  }

  /** The place behind everything that x does not come before, looking back from the end. */
  method PlaceOf<T>(ys: seq<T>, x: T, before: Order<T>) returns (k: nat)
    ensures k <= |ys|
    ensures k > 0 ==> !before(x, ys[k-1])
    ensures k < |ys| ==> before(x, ys[k])
  {
    k := |ys|;
    while k > 0 && before(x, ys[k-1])
      invariant k <= |ys|
      invariant k < |ys| ==> before(x, ys[k])
    {
      k := k - 1;
    }
  }

  lemma InsertionIsSorted<T(!new)>(xs: seq<T>, before: Order<T>, ys: seq<T>, k: nat, x: T)
    requires SortedIfOrdered(xs, ys, before) && k <= |ys|
    requires x in xs && forall y :: y in ys ==> y in xs
    requires k > 0 ==> !before(x, ys[k-1])
    requires k < |ys| ==> before(x, ys[k])
    ensures SortedIfOrdered(xs, ys[..k] + [x] + ys[k..], before)
  {
    if WeakOrder(Elements(xs), before) {
      forall i | 0 <= i < k ensures !before(x, ys[i]) {
        assert ys[i] in xs && ys[k-1] in xs;
      }
      forall i | k <= i < |ys| ensures !before(ys[i], x) {
        assert ys[i] in xs && ys[k] in xs;
      }
    }
  }

  lemma SameElements<T>(xs: seq<T>, ys: seq<T>)
    requires multiset(xs) == multiset(ys)
    ensures forall x :: x in xs <==> x in ys
  {
    forall x ensures x in xs <==> x in ys {
      assert x in multiset(xs) <==> x in multiset(ys);
    }
  }

  lemma {:induction false} OnceMeansNoDuplicates<T>(s: seq<T>)
    requires forall x :: x in s ==> multiset(s)[x] == 1
    ensures NoDuplicates(s)
  {
    forall i, j | 0 <= i < j < |s| ensures s[i] != s[j] {
      assert s == s[..j] + [s[j]] + s[j+1..];
      assert multiset(s) == multiset(s[..j]) + multiset{s[j]} + multiset(s[j+1..]);
      assert s[i] in multiset(s[..j]) by { assert s[..j][i] == s[i]; }
      assert multiset(s)[s[i]] == 1 by { assert s[i] in s; }
    }
  }

  lemma {:induction false} NoDuplicatesMeansOnce<T>(s: seq<T>, x: T)
    requires NoDuplicates(s)
    ensures multiset(s)[x] == if x in s then 1 else 0
    decreases |s|
  {
    if |s| > 0 {
      var t := s[..|s|-1];
      assert s == t + [s[|s|-1]];
      NoDuplicatesMeansOnce(t, x);
    }
  }

  /** Sorting a list keeps it an enumeration of the same set. */
  lemma PermutationEnumerates<T(!new)>(xs: seq<T>, ys: seq<T>, elements: set<T>)
    requires Enumerates(xs, elements) && multiset(xs) == multiset(ys)
    ensures Enumerates(ys, elements)
  {
    SameElements(xs, ys);
    forall x | x in ys ensures multiset(ys)[x] == 1 {
      NoDuplicatesMeansOnce(xs, x);
    }
    OnceMeansNoDuplicates(ys);
  }

  /** The nodes of the edge list in order of first appearance. */
  method CollectNodes(edges: seq<Edge>) returns (ids: seq<NodeId>)
    ensures NoDuplicates(ids)
    ensures forall n :: n in ids <==> IsNode(edges, n)
  {
    ids := [];
    for i := 0 to |edges|
      invariant NoDuplicates(ids)
      invariant forall n :: n in ids <==> IsNode(edges[..i], n)
    {
      var e := edges[i];
      assert edges[..i+1] == edges[..i] + [e];
      assert forall n :: IsNode(edges[..i+1], n) <==> IsNode(edges[..i], n) || n == e.from || n == e.to by {
        NodesOfExtension(edges[..i], e);
      }
      if e.from !in ids { ids := ids + [e.from]; }
      if e.to !in ids { ids := ids + [e.to]; }
    }
    assert edges == edges[..|edges|];
  }

  lemma NodesOfExtension(es: seq<Edge>, e: Edge)
    ensures forall n :: IsNode(es + [e], n) <==> IsNode(es, n) || n == e.from || n == e.to
  {
    forall n ensures IsNode(es + [e], n) <==> IsNode(es, n) || n == e.from || n == e.to {
      if IsNode(es, n) {
        var d :| d in es && (d.from == n || d.to == n);
        assert d in es + [e];
      }
      if n == e.from || n == e.to {
        assert (es + [e])[|es|] == e;
      }
    }
  }

  ghost predicate NoArcInto(arcs: set<(NodeId, NodeId)>, n: NodeId) {
    forall u :: (u, n) !in arcs
  }

  /** The successor lists hold exactly these arcs, and an in-degree is zero exactly without an arc in. */
  ghost predicate Represents(succ: Adjacency, indegree: map<NodeId, nat>, arcs: set<(NodeId, NodeId)>) {
    && LinkArcs(succ) == arcs
    && forall n :: n in indegree ==> (indegree[n] == 0 <==> NoArcInto(arcs, n))
  }

  /** Successor lists and in-degrees; a call that repeats the same API contributes to neither. */
  method CollectLinks(ids: seq<NodeId>, edges: seq<Edge>) returns (succ: Adjacency, indegree: map<NodeId, nat>)
    requires forall n :: n in ids <==> IsNode(edges, n)
    ensures forall n :: (n in succ <==> n in ids) && (n in indegree <==> n in ids)
    ensures Closed(succ)
    ensures Represents(succ, indegree, EdgeArcs(edges)) && HoldsLinks(succ, edges)
  {
    succ := map n | n in ids :: [];
    indegree := map n | n in ids :: 0;
    NoLinks(succ, indegree);
    ghost var nodes := succ.Keys;
    assert edges[..0] == [];
    for i := 0 to |edges|
      invariant succ.Keys == nodes && indegree.Keys == nodes
      invariant Represents(succ, indegree, EdgeArcs(edges[..i])) && HoldsLinks(succ, edges[..i])
    {
      assert edges[i].from in nodes && edges[i].to in nodes by {
        assert IsNode(edges, edges[i].from) && IsNode(edges, edges[i].to);
      }
      LinksNext(succ, edges, i);
      succ, indegree := AddEdge(succ, indegree, edges, i);
    }
    assert edges == edges[..|edges|];
    LinksAreClosed(edges, succ);
  }

  /** The lists with one more edge. */
  ghost function WithLink(succ: Adjacency, e: Edge): Adjacency
    requires e.from in succ
  {
    if e.from == e.to then succ else succ[e.from := succ[e.from] + [Link(e.to, e.transitions)]]
  }

  method AddEdge(succ0: Adjacency, indegree0: map<NodeId, nat>, edges: seq<Edge>, i: nat)
    returns (succ: Adjacency, indegree: map<NodeId, nat>)
    requires i < |edges| && edges[i].from in succ0 && edges[i].to in indegree0
    requires Represents(succ0, indegree0, EdgeArcs(edges[..i]))
    ensures succ.Keys == succ0.Keys && indegree.Keys == indegree0.Keys
    ensures Represents(succ, indegree, EdgeArcs(edges[..i+1]))
    ensures succ == WithLink(succ0, edges[i])
  {
    var e := edges[i];
    succ, indegree := succ0, indegree0;
    ArcsOfPrefix(edges, i);
    if e.from != e.to {
      AddedLink(succ, indegree, EdgeArcs(edges[..i]), e.from, Link(e.to, e.transitions));
      succ := succ[e.from := succ[e.from] + [Link(e.to, e.transitions)]];
      indegree := indegree[e.to := indegree[e.to] + 1];
    }
  }

  lemma LinksNext(succ: Adjacency, edges: seq<Edge>, i: nat)
    requires i < |edges| && edges[i].from in succ && HoldsLinks(succ, edges[..i])
    ensures HoldsLinks(WithLink(succ, edges[i]), edges[..i+1])
  {
    assert edges[..i+1][..i] == edges[..i];
  }

  lemma NoLinks(succ: Adjacency, indegree: map<NodeId, nat>)
    requires forall n :: n in succ ==> succ[n] == []
    requires forall n :: n in indegree ==> indegree[n] == 0
    ensures Represents(succ, indegree, EdgeArcs([]))
  {
  }

  lemma AddedLink(succ: Adjacency, indegree: map<NodeId, nat>, arcs: set<(NodeId, NodeId)>, u: NodeId, l: Link)
    requires Represents(succ, indegree, arcs) && u in succ && l.to in indegree
    ensures Represents(succ[u := succ[u] + [l]], indegree[l.to := indegree[l.to] + 1], arcs + {(u, l.to)})
  {
    AddedLinkArc(succ, u, l);
    AddedArcInto(arcs, u, l.to);
  }

  lemma ArcsOfPrefix(edges: seq<Edge>, i: nat)
    requires i < |edges|
    ensures EdgeArcs(edges[..i+1])
         == EdgeArcs(edges[..i]) + if edges[i].from != edges[i].to then {(edges[i].from, edges[i].to)} else {}
  {
    assert edges[..i+1] == edges[..i] + [edges[i]];
  }

  lemma AddedArcInto(arcs: set<(NodeId, NodeId)>, u: NodeId, v: NodeId)
    ensures forall n :: NoArcInto(arcs + {(u, v)}, n) <==> n != v && NoArcInto(arcs, n)
  {
    assert (u, v) in arcs + {(u, v)};
    forall n | NoArcInto(arcs + {(u, v)}, n) ensures NoArcInto(arcs, n) {
      forall w ensures (w, n) !in arcs { assert (w, n) !in arcs + {(u, v)}; }
    }
  }

  lemma LinksAreClosed(edges: seq<Edge>, succ: Adjacency)
    requires LinkArcs(succ) == EdgeArcs(edges)
    requires forall n :: n in succ <==> IsNode(edges, n)
    ensures Closed(succ)
  {
    forall u, l | u in succ && l in succ[u] ensures l.to in succ {
      assert (u, l.to) in LinkArcs(succ);
      var e :| e in edges && e.from != e.to && (u, l.to) == (e.from, e.to);
      assert IsNode(edges, l.to);
    }
  }

  lemma AddedLinkArc(succ: Adjacency, u: NodeId, l: Link)
    requires u in succ
    ensures LinkArcs(succ[u := succ[u] + [l]]) == LinkArcs(succ) + {(u, l.to)}
  {
    var after := succ[u := succ[u] + [l]];
    forall a, b ensures (a, b) in LinkArcs(after) <==> (a, b) in LinkArcs(succ) || (a, b) == (u, l.to) {
      if (a, b) in LinkArcs(after) {
        var m: Link :| m in after[a] && m.to == b;
      }
      if (a, b) in LinkArcs(succ) {
        var m: Link :| m in succ[a] && m.to == b;
        assert m in after[a];
      }
      if (a, b) == (u, l.to) {
        assert l in after[u];
      }
    }
  }

  /** Sorts every successor list in place of itself. */
  method SortLinks(ids: seq<NodeId>, succ0: Adjacency, order: Order<Link>) returns (succ: Adjacency)
    requires forall n :: n in ids <==> n in succ0
    ensures succ.Keys == succ0.Keys
    ensures LinkArcs(succ) == LinkArcs(succ0)
    ensures Closed(succ0) ==> Closed(succ)
    ensures forall n :: n in succ ==> multiset(succ[n]) == multiset(succ0[n]) && InOrder(succ[n], order)
  {
    succ := succ0;
    for i := 0 to |ids|
      invariant succ.Keys == succ0.Keys
      invariant forall n :: n in succ ==> multiset(succ[n]) == multiset(succ0[n])
      invariant forall n :: n in ids[..i] ==> InOrder(succ[n], order)
    {
      var sorted := SortBy(succ[ids[i]], order);
      InOrderAfterSort(succ[ids[i]], sorted, order);
      TakeOneMore(ids, i);
      succ := succ[ids[i] := sorted];
    }
    TakeAll(ids);
    forall n | n in succ ensures forall l :: l in succ[n] <==> l in succ0[n] {
      SameElements(succ[n], succ0[n]);
    }
  }
}
