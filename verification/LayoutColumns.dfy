/** The columns of the layout: one per layer, with their rows ordered by barycentre passes. */
module LayoutColumns {
  import opened ApiNodes
  import opened Digraph
  import opened Sequences
  import opened LayoutModel
  import opened Layers

  const ORDER_PASSES: nat := 6

  /** Every node stands in the column of its layer, exactly once, and no column is empty. */
  ghost predicate Columns(columns: seq<seq<NodeId>>, layer: map<NodeId, nat>) {
    && (forall v :: v in layer ==> layer[v] < |columns| && v in columns[layer[v]])
    && (forall l, v :: 0 <= l < |columns| && v in columns[l] ==> v in layer && layer[v] == l)
    && (forall l :: 0 <= l < |columns| ==> columns[l] != [] && NoDuplicates(columns[l]))
  }

  method LayerCount(ids: seq<NodeId>, layer: map<NodeId, nat>) returns (count: nat)
    requires Enumerates(ids, layer.Keys) && |ids| > 0
    ensures forall v :: v in layer ==> layer[v] < count
    ensures exists v :: v in layer && layer[v] + 1 == count
  {
    count := layer[ids[0]] + 1;
    for i := 1 to |ids|
      invariant forall j :: 0 <= j < i ==> layer[ids[j]] < count
      invariant exists v :: v in layer && layer[v] + 1 == count
    {
      if layer[ids[i]] >= count {
        count := layer[ids[i]] + 1;
      }
    }
  }

  /** The nodes of one layer, in the order of the node list. */
  ghost function InLayer(ids: seq<NodeId>, layer: map<NodeId, nat>, l: nat): seq<NodeId>
    requires forall v :: v in ids ==> v in layer
  {
    if ids == [] then []
    else InLayer(ids[..|ids|-1], layer, l) + if layer[ids[|ids|-1]] == l then [ids[|ids|-1]] else []
  }

  lemma {:induction false} LayerIsListed(ids: seq<NodeId>, layer: map<NodeId, nat>, l: nat)
    requires NoDuplicates(ids) && forall v :: v in ids ==> v in layer
    ensures NoDuplicates(InLayer(ids, layer, l))
    ensures forall v :: v in InLayer(ids, layer, l) <==> v in ids && layer[v] == l
    decreases |ids|
  {
    if ids != [] {
      LayerIsListed(ids[..|ids|-1], layer, l);
    }
  }

  method FillColumns(ids: seq<NodeId>, layer: map<NodeId, nat>, count: nat) returns (columns: seq<seq<NodeId>>)
    requires Enumerates(ids, layer.Keys)
    requires forall v :: v in layer ==> layer[v] < count
    ensures |columns| == count
    ensures forall l :: 0 <= l < count ==> columns[l] == InLayer(ids, layer, l)
  {
    columns := seq(count, _ => []);
    for i := 0 to |ids|
      invariant |columns| == count
      invariant forall l :: 0 <= l < count ==> columns[l] == InLayer(ids[..i], layer, l)
    {
      assert ids[..i+1][..i] == ids[..i];
      var l := layer[ids[i]];
      columns := columns[l := columns[l] + [ids[i]]];
    }
    TakeAll(ids);
  }

  /** Below an occupied layer every layer is occupied. */
  lemma {:induction false} NoGap(arcs: set<Pair>, layer: map<NodeId, nat>, v: NodeId, l: nat) returns (u: NodeId)
    requires Levels(arcs, layer) && v in layer && l <= layer[v]
    ensures u in layer && layer[u] == l
    decreases layer[v]
  {
    if l == layer[v] {
      u := v;
    } else {
      assert Supported(arcs, layer, v);
      var a :| (a, v) in arcs && a in layer && layer[a] + 1 == layer[v];
      u := NoGap(arcs, layer, a, l);
    }
  }

  lemma FilledColumns(arcs: set<Pair>, ids: seq<NodeId>, layer: map<NodeId, nat>, columns: seq<seq<NodeId>>)
    requires Levels(arcs, layer) && Enumerates(ids, layer.Keys)
    requires exists v :: v in layer && layer[v] + 1 == |columns|
    requires forall v :: v in layer ==> layer[v] < |columns|
    requires forall l :: 0 <= l < |columns| ==> columns[l] == InLayer(ids, layer, l)
    ensures Columns(columns, layer)
  {
    var top :| top in layer && layer[top] + 1 == |columns|;
    forall l | 0 <= l < |columns|
      ensures NoDuplicates(columns[l]) && forall v :: v in columns[l] <==> v in layer && layer[v] == l
    {
      LayerIsListed(ids, layer, l);
    }
    forall l | 0 <= l < |columns| ensures columns[l] != [] {
      var u := NoGap(arcs, layer, top, l);
      assert u in columns[l];
    }
  }

  lemma SortKeepsColumns(columns: seq<seq<NodeId>>, layer: map<NodeId, nat>, l: nat, sorted: seq<NodeId>)
    requires Columns(columns, layer) && l < |columns| && multiset(sorted) == multiset(columns[l])
    ensures Columns(columns[l := sorted], layer)
  {
    SameElements(columns[l], sorted);
    PermutationEnumerates(columns[l], sorted, set v | v in columns[l]);
    assert sorted != [] by { assert columns[l][0] in sorted; }
  }

  // ----- rows

  /** Every node of the list stands in the column of its layer. */
  ghost predicate Placed(columns: seq<seq<NodeId>>, layer: map<NodeId, nat>, linked: seq<NodeId>) {
    forall v :: v in linked ==> v in layer && layer[v] < |columns| && v in columns[layer[v]]
  }

  /** The row of a node in its column. */
  function Row(columns: seq<seq<NodeId>>, layer: map<NodeId, nat>, v: NodeId): (r: nat)
    requires v in layer && layer[v] < |columns| && v in columns[layer[v]]
    ensures r < |columns[layer[v]]| && columns[layer[v]][r] == v
  {
    IndexIn(columns[layer[v]], v)
  }

  ghost function RowSum(columns: seq<seq<NodeId>>, layer: map<NodeId, nat>, linked: seq<NodeId>): nat
    requires Placed(columns, layer, linked)
  {
    if linked == [] then 0
    else RowSum(columns, layer, linked[..|linked|-1]) + Row(columns, layer, linked[|linked|-1])
  }

  /** The mean row of the linked nodes. */
  ghost function MeanRow(columns: seq<seq<NodeId>>, layer: map<NodeId, nat>, linked: seq<NodeId>): real
    requires Placed(columns, layer, linked) && linked != []
  {
    RowSum(columns, layer, linked) as real / |linked| as real
  }

  lemma {:induction false} SameRows(columns: seq<seq<NodeId>>, other: seq<seq<NodeId>>, layer: map<NodeId, nat>,
                                    linked: seq<NodeId>)
    requires Placed(columns, layer, linked) && |other| == |columns|
    requires forall v :: v in linked ==> other[layer[v]] == columns[layer[v]]
    ensures Placed(other, layer, linked) && RowSum(other, layer, linked) == RowSum(columns, layer, linked)
    decreases |linked|
  {
    if linked != [] {
      SameRows(columns, other, layer, linked[..|linked|-1]);
    }
  }

  /** Nodes are linked to nodes of other layers only: of higher ones, or of lower ones. */
  ghost predicate LinksClimb(layer: map<NodeId, nat>, lists: Lists, up: bool) {
    && lists.Keys == layer.Keys
    && forall u, v :: u in lists && v in lists[u] ==>
         v in layer && if up then layer[u] < layer[v] else layer[v] < layer[u]
  }

  /** Every node has a list, and what it names stands in the columns. */
  ghost predicate Linked(columns: seq<seq<NodeId>>, layer: map<NodeId, nat>, lists: Lists) {
    && Columns(columns, layer) && lists.Keys == layer.Keys
    && forall v :: v in lists ==> Placed(columns, layer, lists[v])
  }

  lemma ClimbingIsLinked(columns: seq<seq<NodeId>>, layer: map<NodeId, nat>, lists: Lists, up: bool)
    requires Columns(columns, layer) && LinksClimb(layer, lists, up)
    ensures Linked(columns, layer, lists)
  {
  }

  /** The barycentre of a node: the mean row of its neighbours in other columns, or its own row without any. */
  ghost predicate IsBarycenter(columns: seq<seq<NodeId>>, layer: map<NodeId, nat>, linked: seq<NodeId>, row: nat, x: real)
    requires Placed(columns, layer, linked)
  {
    x == if linked == [] then row as real else MeanRow(columns, layer, linked)
  }

  method Barycenter(columns: seq<seq<NodeId>>, layer: map<NodeId, nat>, neighbours: seq<NodeId>, li: nat, row: nat)
    returns (x: real)
    requires Placed(columns, layer, neighbours)
    requires forall v :: v in neighbours ==> layer[v] != li
    ensures IsBarycenter(columns, layer, neighbours, row, x)
  {
    var sum, count := 0, 0;
    for i := 0 to |neighbours|
      invariant count == i
      invariant sum == RowSum(columns, layer, neighbours[..i])
    {
      assert neighbours[..i+1][..i] == neighbours[..i];
      if layer[neighbours[i]] != li {
        sum := sum + Row(columns, layer, neighbours[i]);
        count := count + 1;
      }
    }
    TakeAll(neighbours);
    x := if count > 0 then sum as real / count as real else row as real;
  }

  /** The comparator of a column: by barycentre, and on ties as the node list is ordered. */
  predicate Above(center: map<NodeId, real>, tie: Order<NodeId>, a: NodeId, b: NodeId) {
    a in center && b in center && (center[a] < center[b] || (center[a] == center[b] && tie(a, b)))
  }

  function ByCenter(center: map<NodeId, real>, tie: Order<NodeId>): Order<NodeId> {
    (a, b) => Above(center, tie, a, b)
  }

  ghost predicate Descends(sorted: seq<NodeId>, center: map<NodeId, real>, tie: Order<NodeId>) {
    forall i, j :: 0 <= i < j < |sorted| ==> !Above(center, tie, sorted[j], sorted[i])
  }

  ghost predicate IsCenters(columns: seq<seq<NodeId>>, layer: map<NodeId, nat>, lists: Lists, li: nat,
                            center: map<NodeId, real>)
    requires Linked(columns, layer, lists) && li < |columns|
  {
    && center.Keys == Elements(columns[li])
    && forall i :: 0 <= i < |columns[li]| ==>
         IsBarycenter(columns, layer, lists[columns[li][i]], i, center[columns[li][i]])
  }

  method Centers(columns: seq<seq<NodeId>>, layer: map<NodeId, nat>, lists: Lists, ghost up: bool, li: nat)
    returns (center: map<NodeId, real>)
    requires Linked(columns, layer, lists) && LinksClimb(layer, lists, up) && li < |columns|
    ensures IsCenters(columns, layer, lists, li, center)
  {
    var column := columns[li];
    center := map[];
    for i := 0 to |column|
      invariant center.Keys == Elements(column[..i])
      invariant forall j :: 0 <= j < i ==> IsBarycenter(columns, layer, lists[column[j]], j, center[column[j]])
    {
      var x := Barycenter(columns, layer, lists[column[i]], li, i);
      TakeOneMore(column, i);
      center := center[column[i] := x];
    }
    TakeAll(column);
  }

  /** The rows of one column follow the mean rows of what its nodes are linked to, as far as they are linked. */
  ghost predicate InRowOrder(columns: seq<seq<NodeId>>, layer: map<NodeId, nat>, lists: Lists, tie: Order<NodeId>, l: nat)
    requires Linked(columns, layer, lists) && l < |columns|
  {
    WeakOrder(layer.Keys, tie) ==>
      forall i, j :: 0 <= i < j < |columns[l]| ==> NotAbove(columns, layer, lists, tie, columns[l][j], columns[l][i])
  }

  /** By its links, v need not stand above u. */
  ghost predicate NotAbove(columns: seq<seq<NodeId>>, layer: map<NodeId, nat>, lists: Lists, tie: Order<NodeId>,
                           v: NodeId, u: NodeId)
    requires Linked(columns, layer, lists) && u in lists && v in lists
  {
    lists[u] != [] && lists[v] != [] ==>
      var m, n := MeanRow(columns, layer, lists[u]), MeanRow(columns, layer, lists[v]);
      m < n || (m == n && !tie(v, u))
  }

  lemma CentersAreOrdered(nodes: set<NodeId>, column: seq<NodeId>, sorted: seq<NodeId>, center: map<NodeId, real>,
                          tie: Order<NodeId>)
    requires WeakOrder(nodes, tie) && Elements(column) <= nodes && center.Keys == Elements(column)
    requires SortedIfOrdered(column, sorted, ByCenter(center, tie))
    ensures Descends(sorted, center, tie)
  {
    assert WeakOrder(Elements(column), ByCenter(center, tie));
  }

  /** The sorted column has its rows in order; its neighbours are elsewhere and keep theirs. */
  lemma SortedIsInRowOrder(columns: seq<seq<NodeId>>, layer: map<NodeId, nat>, lists: Lists, up: bool,
                           tie: Order<NodeId>, li: nat, center: map<NodeId, real>, after: seq<seq<NodeId>>)
    requires Linked(columns, layer, lists) && LinksClimb(layer, lists, up) && li < |columns|
    requires IsCenters(columns, layer, lists, li, center)
    requires Linked(after, layer, lists) && |after| == |columns| && after == columns[li := after[li]]
    requires WeakOrder(layer.Keys, tie) ==> Descends(after[li], center, tie)
    ensures InRowOrder(after, layer, lists, tie, li)
  {
    if WeakOrder(layer.Keys, tie) {
      forall i, j | 0 <= i < j < |after[li]|
        ensures NotAbove(after, layer, lists, tie, after[li][j], after[li][i])
      {
        SortedPair(columns, layer, lists, up, tie, li, center, after, after[li][i], after[li][j]);
      }
    }
  }

  lemma SortedPair(columns: seq<seq<NodeId>>, layer: map<NodeId, nat>, lists: Lists, up: bool, tie: Order<NodeId>,
                   li: nat, center: map<NodeId, real>, after: seq<seq<NodeId>>, u: NodeId, v: NodeId)
    requires Linked(columns, layer, lists) && LinksClimb(layer, lists, up) && li < |columns|
    requires IsCenters(columns, layer, lists, li, center)
    requires Linked(after, layer, lists) && |after| == |columns| && after == columns[li := after[li]]
    requires u in after[li] && v in after[li] && !Above(center, tie, v, u)
    ensures NotAbove(after, layer, lists, tie, v, u)
  {
    if lists[u] != [] && lists[v] != [] {
      CenterStays(columns, layer, lists, up, li, center, after, u);
      CenterStays(columns, layer, lists, up, li, center, after, v);
    }
  }

  lemma CenterStays(columns: seq<seq<NodeId>>, layer: map<NodeId, nat>, lists: Lists, up: bool, li: nat,
                    center: map<NodeId, real>, after: seq<seq<NodeId>>, u: NodeId)
    requires Linked(columns, layer, lists) && LinksClimb(layer, lists, up) && li < |columns|
    requires IsCenters(columns, layer, lists, li, center)
    requires Linked(after, layer, lists) && |after| == |columns| && after == columns[li := after[li]]
    requires u in after[li] && lists[u] != []
    ensures u in center && center[u] == MeanRow(after, layer, lists[u])
  {
    assert layer[u] == li && u in columns[li];
    var i :| 0 <= i < |columns[li]| && columns[li][i] == u;
    SameRows(columns, after, layer, lists[u]);
  }

  /** Sorting a column leaves the row order of those alone whose links lead away from it. */
  lemma SortKeepsRowOrder(columns: seq<seq<NodeId>>, layer: map<NodeId, nat>, lists: Lists, up: bool,
                          tie: Order<NodeId>, li: nat, sorted: seq<NodeId>, l: nat)
    requires Linked(columns, layer, lists) && LinksClimb(layer, lists, up) && li < |columns| && l < |columns|
    requires if up then li < l else l < li
    requires Linked(columns[li := sorted], layer, lists)
    requires InRowOrder(columns, layer, lists, tie, l)
    ensures InRowOrder(columns[li := sorted], layer, lists, tie, l)
  {
    var after := columns[li := sorted];
    if WeakOrder(layer.Keys, tie) {
      forall i, j | 0 <= i < j < |after[l]| ensures NotAbove(after, layer, lists, tie, after[l][j], after[l][i]) {
        var u, v := columns[l][i], columns[l][j];
        assert u in columns[l] && v in columns[l];
        assert NotAbove(columns, layer, lists, tie, v, u);
        SameRows(columns, after, layer, lists[u]);
        SameRows(columns, after, layer, lists[v]);
      }
    }
  }

  /** Sorts one column by the barycentres of its nodes. */
  method SortColumn(columns0: seq<seq<NodeId>>, layer: map<NodeId, nat>, lists: Lists, ghost up: bool,
                    tie: Order<NodeId>, li: nat)
    returns (columns: seq<seq<NodeId>>)
    requires Columns(columns0, layer) && LinksClimb(layer, lists, up) && li < |columns0|
    ensures Linked(columns, layer, lists) && |columns| == |columns0|
    ensures InRowOrder(columns, layer, lists, tie, li)
    ensures columns == columns0[li := columns[li]]
  {
    ClimbingIsLinked(columns0, layer, lists, up);
    var center := Centers(columns0, layer, lists, up, li);
    var sorted := SortBy(columns0[li], ByCenter(center, tie));
    SortKeepsColumns(columns0, layer, li, sorted);
    ClimbingIsLinked(columns0[li := sorted], layer, lists, up);
    if WeakOrder(layer.Keys, tie) {
      CentersAreOrdered(layer.Keys, columns0[li], sorted, center, tie);
    }
    columns := columns0[li := sorted];
    SortedIsInRowOrder(columns0, layer, lists, up, tie, li, center, columns);
  }

  /** The columns with these indexes have their rows in order. */
  ghost predicate RowsInOrder(columns: seq<seq<NodeId>>, layer: map<NodeId, nat>, lists: Lists, up: bool,
                              tie: Order<NodeId>, lo: nat, hi: nat)
    requires Columns(columns, layer) && LinksClimb(layer, lists, up)
  {
    ClimbingIsLinked(columns, layer, lists, up);
    forall k {:trigger InRowOrder(columns, layer, lists, tie, k)} :: lo <= k < hi && k < |columns| ==>
      InRowOrder(columns, layer, lists, tie, k)
  }

  /** One more column, next to those in order and on the side that their links lead away from. */
  lemma RowsInOrderNext(columns: seq<seq<NodeId>>, layer: map<NodeId, nat>, lists: Lists, up: bool,
                        tie: Order<NodeId>, li: nat, lo: nat, hi: nat, after: seq<seq<NodeId>>)
    requires Columns(columns, layer) && LinksClimb(layer, lists, up) && li < |columns|
    requires (if up then lo == li + 1 else hi == li) && RowsInOrder(columns, layer, lists, up, tie, lo, hi)
    requires Linked(after, layer, lists) && |after| == |columns| && after == columns[li := after[li]]
    requires InRowOrder(after, layer, lists, tie, li)
    ensures RowsInOrder(after, layer, lists, up, tie, if up then li else lo, if up then hi else li + 1)
  {
    ClimbingIsLinked(columns, layer, lists, up);
    forall k | 0 <= k < |after| && (if up then li <= k < hi else lo <= k <= li)
      ensures InRowOrder(after, layer, lists, tie, k)
    {
      if k != li {
        SortKeepsRowOrder(columns, layer, lists, up, tie, li, after[li], k);
      }
    }
  }

  /** All columns have their rows in the order of the neighbours that the lists name. */
  ghost predicate Settled(columns: seq<seq<NodeId>>, layer: map<NodeId, nat>, lists: Lists, up: bool,
                          tie: Order<NodeId>)
  {
    && Columns(columns, layer) && LinksClimb(layer, lists, up)
    && RowsInOrder(columns, layer, lists, up, tie, 0, |columns|)
  }

  /** A pass to the right leaves every column in the order of its neighbours to the left. */
  method PassRight(columns0: seq<seq<NodeId>>, layer: map<NodeId, nat>, into: Lists, tie: Order<NodeId>)
    returns (columns: seq<seq<NodeId>>)
    requires Columns(columns0, layer) && LinksClimb(layer, into, false)
    ensures |columns| == |columns0| && Columns(columns, layer) && Settled(columns, layer, into, false, tie)
  {
    columns := columns0;
    for li := 0 to |columns0|
      invariant Columns(columns, layer) && |columns| == |columns0|
      invariant RowsInOrder(columns, layer, into, false, tie, 0, li)
    {
      ghost var before := columns;
      columns := SortColumn(columns, layer, into, false, tie, li);
      RowsInOrderNext(before, layer, into, false, tie, li, 0, li, columns);
    }
  }

  /** A pass to the left leaves every column in the order of its neighbours to the right. */
  method PassLeft(columns0: seq<seq<NodeId>>, layer: map<NodeId, nat>, out: Lists, tie: Order<NodeId>)
    returns (columns: seq<seq<NodeId>>)
    requires Columns(columns0, layer) && LinksClimb(layer, out, true)
    ensures |columns| == |columns0| && Columns(columns, layer) && Settled(columns, layer, out, true, tie)
  {
    columns := columns0;
    for li := |columns0| downto 0
      invariant Columns(columns, layer) && |columns| == |columns0|
      invariant RowsInOrder(columns, layer, out, true, tie, li, |columns|)
    {
      ghost var before := columns;
      columns := SortColumn(columns, layer, out, true, tie, li);
      RowsInOrderNext(before, layer, out, true, tie, li, li + 1, |columns|, columns);
    }
  }

  method PassTo(columns0: seq<seq<NodeId>>, layer: map<NodeId, nat>, out: Lists, into: Lists, tie: Order<NodeId>,
                left: bool)
    returns (columns: seq<seq<NodeId>>)
    requires Columns(columns0, layer) && LinksClimb(layer, out, true) && LinksClimb(layer, into, false)
    ensures Columns(columns, layer) && SettledBy(columns, layer, out, into, tie, left)
  {
    if left {
      columns := PassLeft(columns0, layer, out, tie);
    } else {
      columns := PassRight(columns0, layer, into, tie);
    }
  }

  /** The columns after each pass: to the right and to the left in turn. */
  ghost predicate Passes(stages: seq<seq<seq<NodeId>>>, layer: map<NodeId, nat>, out: Lists, into: Lists,
                         tie: Order<NodeId>)
  {
    forall k {:trigger PassDone(stages, layer, out, into, tie, k)} :: 0 < k < |stages| ==>
      PassDone(stages, layer, out, into, tie, k)
  }

  ghost predicate SettledBy(columns: seq<seq<NodeId>>, layer: map<NodeId, nat>, out: Lists, into: Lists,
                            tie: Order<NodeId>, left: bool)
  {
    if left then Settled(columns, layer, out, true, tie) else Settled(columns, layer, into, false, tie)
  }

  ghost predicate PassDone(stages: seq<seq<seq<NodeId>>>, layer: map<NodeId, nat>, out: Lists, into: Lists,
                           tie: Order<NodeId>, k: nat)
    requires 0 < k < |stages|
  {
    SettledBy(stages[k], layer, out, into, tie, k % 2 == 0)
  }

  lemma PassesNext(stages: seq<seq<seq<NodeId>>>, layer: map<NodeId, nat>, out: Lists, into: Lists, tie: Order<NodeId>,
                   columns: seq<seq<NodeId>>, left: bool)
    requires |stages| > 0 && Passes(stages, layer, out, into, tie)
    requires left == (|stages| % 2 == 0) && SettledBy(columns, layer, out, into, tie, left)
    ensures Passes(stages + [columns], layer, out, into, tie)
  {
    var longer := stages + [columns];
    forall k | 0 < k < |longer| ensures PassDone(longer, layer, out, into, tie, k) {
      if k < |stages| {
        assert PassDone(stages, layer, out, into, tie, k);
      }
    }
  }

  lemma LastPass(stages: seq<seq<seq<NodeId>>>, layer: map<NodeId, nat>, out: Lists, into: Lists, tie: Order<NodeId>)
    requires |stages| == 7 && Passes(stages, layer, out, into, tie)
    ensures Settled(stages[6], layer, out, true, tie)
  {
    assert PassDone(stages, layer, out, into, tie, 6);
  }

  method OnePass(columns0: seq<seq<NodeId>>, layer: map<NodeId, nat>, out: Lists, into: Lists, tie: Order<NodeId>,
                 pass: nat, ghost stages0: seq<seq<seq<NodeId>>>)
    returns (columns: seq<seq<NodeId>>, ghost stages: seq<seq<seq<NodeId>>>)
    requires Columns(columns0, layer) && LinksClimb(layer, out, true) && LinksClimb(layer, into, false)
    requires |stages0| == pass + 1 && Passes(stages0, layer, out, into, tie)
    ensures Columns(columns, layer) && stages == stages0 + [columns] && Passes(stages, layer, out, into, tie)
  {
    var left := pass % 2 != 0;
    columns := PassTo(columns0, layer, out, into, tie, left);
    PassesNext(stages0, layer, out, into, tie, columns, left);
    stages := stages0 + [columns];
  }

  /** The six barycentre passes sort each column in turn, alternately left to right by the neighbours to the left and
      right to left by those to the right. */
  method OrderColumns(columns0: seq<seq<NodeId>>, layer: map<NodeId, nat>, out: Lists, into: Lists, tie: Order<NodeId>)
    returns (columns: seq<seq<NodeId>>, ghost stages: seq<seq<seq<NodeId>>>)
    requires Columns(columns0, layer) && LinksClimb(layer, out, true) && LinksClimb(layer, into, false)
    ensures |stages| == 7 && stages[0] == columns0 && stages[6] == columns && Passes(stages, layer, out, into, tie)
    ensures Settled(columns, layer, out, true, tie)
  {
    columns, stages := columns0, [columns0];
    for pass := 0 to ORDER_PASSES
      invariant Columns(columns, layer)
      invariant |stages| == pass + 1 && stages[0] == columns0 && stages[pass] == columns
      invariant Passes(stages, layer, out, into, tie)
    {
      columns, stages := OnePass(columns, layer, out, into, tie, pass, stages);
    }
    LastPass(stages, layer, out, into, tie);
  }
}
