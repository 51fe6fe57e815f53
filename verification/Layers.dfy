/** Kahn's queue over the unmarked arcs: every node is dequeued once and its layer is the length of
    the longest unmarked path into it. Parallel calls keep their multiplicity in the lists. */
module Layers {
  import opened ApiNodes
  import opened Digraph
  import opened LayoutModel
  import opened Sequences

  type Pair = (NodeId, NodeId)
  type Lists = map<NodeId, seq<NodeId>>

  ghost function ListArcs(out: Lists): set<Pair> {
    set u, v | u in out && v in out[u] :: (u, v)
  }

  /** The out-lists and in-lists hold the same arcs with the same multiplicities. */
  ghost predicate Mirrored(out: Lists, into: Lists) {
    && out.Keys == into.Keys
    && (forall u, v :: u in out && v in out[u] ==> v in out)
    && (forall u, v :: u in into && v in into[u] ==> v in into)
    && (forall u, v {:trigger MirroredAt(out, into, u, v)} :: u in out && v in into ==> MirroredAt(out, into, u, v))
  }

  ghost predicate MirroredAt(out: Lists, into: Lists, u: NodeId, v: NodeId)
    requires u in out && v in into
  {
    multiset(out[u])[v] == multiset(into[v])[u]
  }

  /** How many entries of a predecessor list are not in `done` yet. */
  ghost function Remaining(into: seq<NodeId>, done: set<NodeId>): nat {
    if into == [] then 0 else (if into[0] in done then 0 else 1) + Remaining(into[1..], done)
  }

  lemma {:induction false} RemainingAfter(into: seq<NodeId>, done: set<NodeId>, x: NodeId)
    requires x !in done
    ensures Remaining(into, done) == Remaining(into, done + {x}) + multiset(into)[x]
    decreases |into|
  {
    if into != [] {
      assert into == [into[0]] + into[1..];
      RemainingAfter(into[1..], done, x);
    }
  }

  lemma {:induction false} RemainingZero(into: seq<NodeId>, done: set<NodeId>)
    ensures Remaining(into, done) == 0 <==> forall u :: u in into ==> u in done
    decreases |into|
  {
    if into != [] {
      assert into == [into[0]] + into[1..];
      RemainingZero(into[1..], done);
    }
  }

  // ----- splitting off the unmarked arcs

  /** Appends one unmarked arc to both lists. */
  lemma AppendKeepsMirror(out: Lists, into: Lists, u: NodeId, v: NodeId)
    requires Mirrored(out, into) && u in out && v in out
    ensures Mirrored(out[u := out[u] + [v]], into[v := into[v] + [u]])
    ensures ListArcs(out[u := out[u] + [v]]) == ListArcs(out) + {(u, v)}
  {
    var out', into' := out[u := out[u] + [v]], into[v := into[v] + [u]];
    forall a, b | a in out' && b in into' ensures MirroredAt(out', into', a, b) {
      assert MirroredAt(out, into, a, b);
    }
    forall a, b ensures (a, b) in ListArcs(out') <==> (a, b) in ListArcs(out) || (a, b) == (u, v) {
    }
  }

  /** The list of one node has grown at its end. */
  ghost predicate Extended(before: Lists, u: NodeId, added: seq<NodeId>, after: Lists) {
    && after.Keys == before.Keys && u in before
    && after[u] == before[u] + added
    && forall w :: w in before && w != u ==> after[w] == before[w]
  }

  method AppendArc(u: NodeId, v: NodeId, out0: Lists, into0: Lists) returns (out: Lists, into: Lists)
    requires Mirrored(out0, into0) && u in out0 && v in out0
    ensures Mirrored(out, into) && out.Keys == out0.Keys
    ensures ListArcs(out) == ListArcs(out0) + {(u, v)}
    ensures Extended(out0, u, [v], out)
  {
    AppendKeepsMirror(out0, into0, u, v);
    out := out0[u := out0[u] + [v]];
    into := into0[v := into0[v] + [u]];
  }

  ghost function Unmarked(u: NodeId, links: seq<Link>, back: set<Pair>): set<Pair> {
    set l | l in links && (u, l.to) !in back :: (u, l.to)
  }

  ghost function UnmarkedFrom(us: seq<NodeId>, succ: Adjacency, back: set<Pair>): set<Pair> {
    set u, l | u in us && u in succ && l in succ[u] && (u, l.to) !in back :: (u, l.to)
  }

  /** The ends of the unmarked links of one node, in their order. */
  ghost function Targets(u: NodeId, links: seq<Link>, back: set<Pair>): seq<NodeId> {
    if links == [] then []
    else
      var final := links[|links|-1].to;
      Targets(u, links[..|links|-1], back) + if (u, final) in back then [] else [final]
  }

  ghost predicate Forwards(succ: Adjacency, back: set<Pair>, out: Lists) {
    out.Keys == succ.Keys && forall u :: u in succ ==> out[u] == Targets(u, succ[u], back)
  }

  /** Copies the successor lists, leaving out the marked arcs, together with the mirrored lists. */
  method SplitForward(ids: seq<NodeId>, succ: Adjacency, back: set<Pair>) returns (out: Lists, into: Lists)
    requires Enumerates(ids, succ.Keys)
    requires Closed(succ)
    ensures Mirrored(out, into) && out.Keys == succ.Keys
    ensures ListArcs(out) == LinkArcs(succ) - back
    ensures Forwards(succ, back, out)
  {
    out := map v | v in ids :: [];
    into := map v | v in ids :: [];
    NothingSplit(ids, succ, back, out, into);
    for i := 0 to |ids|
      invariant Mirrored(out, into) && SplitUpTo(ids, i, succ, back, out)
    {
      ghost var before := out;
      LinksAreNodes(succ, ids[i]);
      out, into := CopyUnmarked(ids[i], succ[ids[i]], back, out, into);
      SplitNext(ids, i, succ, back, before, out);
    }
    SplitAll(ids, succ, back, out);
  }

  lemma NothingSplit(ids: seq<NodeId>, succ: Adjacency, back: set<Pair>, out: Lists, into: Lists)
    requires Enumerates(ids, succ.Keys) && out == into && out == (map v | v in ids :: [])
    ensures Mirrored(out, into) && SplitUpTo(ids, 0, succ, back, out)
  {
    assert ids[..0] == [];
    assert ListArcs(out) == {} && UnmarkedFrom([], succ, back) == {};
  }

  lemma SplitAll(ids: seq<NodeId>, succ: Adjacency, back: set<Pair>, out: Lists)
    requires Enumerates(ids, succ.Keys) && SplitUpTo(ids, |ids|, succ, back, out)
    ensures ListArcs(out) == LinkArcs(succ) - back && Forwards(succ, back, out)
  {
    ForwardsAll(ids, succ, back, out);
    UnmarkedFromAll(ids, succ, back);
  }

  /** The out-lists after the first i nodes. */
  ghost predicate SplitUpTo(ids: seq<NodeId>, i: nat, succ: Adjacency, back: set<Pair>, out: Lists)
    requires i <= |ids|
  {
    ListArcs(out) == UnmarkedFrom(ids[..i], succ, back) && ForwardsUpTo(ids, i, succ, back, out)
  }

  lemma SplitNext(ids: seq<NodeId>, i: nat, succ: Adjacency, back: set<Pair>, before: Lists, after: Lists)
    requires Enumerates(ids, succ.Keys) && i < |ids| && SplitUpTo(ids, i, succ, back, before)
    requires Extended(before, ids[i], Targets(ids[i], succ[ids[i]], back), after)
    requires ListArcs(after) == ListArcs(before) + Unmarked(ids[i], succ[ids[i]], back)
    ensures SplitUpTo(ids, i + 1, succ, back, after)
  {
    UnmarkedFromNext(ids, i, succ, back);
    ForwardsNext(ids, i, succ, back, before, after);
  }

  lemma UnmarkedFromAll(ids: seq<NodeId>, succ: Adjacency, back: set<Pair>)
    requires Enumerates(ids, succ.Keys)
    ensures UnmarkedFrom(ids[..|ids|], succ, back) == LinkArcs(succ) - back
  {
    TakeAll(ids);
  }

  lemma LinksAreNodes(succ: Adjacency, u: NodeId)
    requires Closed(succ) && u in succ
    ensures forall j :: 0 <= j < |succ[u]| ==> succ[u][j].to in succ
  {
    forall j | 0 <= j < |succ[u]| ensures succ[u][j].to in succ {
      assert succ[u][j] in succ[u];
    }
  }

  /** The lists of the first i nodes are complete and the others are empty. */
  ghost predicate ForwardsUpTo(ids: seq<NodeId>, i: nat, succ: Adjacency, back: set<Pair>, out: Lists) {
    && out.Keys == succ.Keys
    && (forall j :: 0 <= j < |ids| && ids[j] in succ ==>
          out[ids[j]] == if j < i then Targets(ids[j], succ[ids[j]], back) else [])
  }

  lemma ForwardsNext(ids: seq<NodeId>, i: nat, succ: Adjacency, back: set<Pair>, before: Lists, after: Lists)
    requires Enumerates(ids, succ.Keys) && i < |ids| && ForwardsUpTo(ids, i, succ, back, before)
    requires Extended(before, ids[i], Targets(ids[i], succ[ids[i]], back), after)
    ensures ForwardsUpTo(ids, i + 1, succ, back, after)
  {
    forall j | 0 <= j < |ids| && ids[j] in succ
      ensures after[ids[j]] == if j < i + 1 then Targets(ids[j], succ[ids[j]], back) else []
    {
      if j == i {
        assert before[ids[i]] == [];
      } else {
        assert ids[j] != ids[i];
      }
    }
  }

  lemma ForwardsAll(ids: seq<NodeId>, succ: Adjacency, back: set<Pair>, out: Lists)
    requires Enumerates(ids, succ.Keys) && ForwardsUpTo(ids, |ids|, succ, back, out)
    ensures Forwards(succ, back, out)
  {
    forall u | u in succ ensures out[u] == Targets(u, succ[u], back) {
      var j :| 0 <= j < |ids| && ids[j] == u;
    }
  }

  lemma UnmarkedFromNext(ids: seq<NodeId>, i: nat, succ: Adjacency, back: set<Pair>)
    requires i < |ids| && ids[i] in succ
    ensures UnmarkedFrom(ids[..i+1], succ, back)
         == UnmarkedFrom(ids[..i], succ, back) + Unmarked(ids[i], succ[ids[i]], back)
  {
    assert ids[..i+1] == ids[..i] + [ids[i]];
  }

  lemma ExtendedNext(out0: Lists, u: NodeId, links: seq<Link>, j: nat, back: set<Pair>, before: Lists, after: Lists)
    requires j < |links| && Extended(out0, u, Targets(u, links[..j], back), before)
    requires if (u, links[j].to) in back then after == before else Extended(before, u, [links[j].to], after)
    ensures Extended(out0, u, Targets(u, links[..j+1], back), after)
  {
    assert links[..j+1][..j] == links[..j];
  }

  method CopyUnmarked(u: NodeId, links: seq<Link>, back: set<Pair>, out0: Lists, into0: Lists)
    returns (out: Lists, into: Lists)
    requires u in out0 && forall j :: 0 <= j < |links| ==> links[j].to in out0
    requires Mirrored(out0, into0)
    ensures Mirrored(out, into) && out.Keys == out0.Keys
    ensures ListArcs(out) == ListArcs(out0) + Unmarked(u, links, back)
    ensures Extended(out0, u, Targets(u, links, back), out)
  {
    out, into := out0, into0;
    ghost var copied: set<Pair> := {};
    for j := 0 to |links|
      invariant Mirrored(out, into) && out.Keys == out0.Keys
      invariant copied == Unmarked(u, links[..j], back)
      invariant ListArcs(out) == ListArcs(out0) + copied
      invariant Extended(out0, u, Targets(u, links[..j], back), out)
    {
      ghost var before := out;
      UnmarkedNext(u, links, j, back);
      if (u, links[j].to) !in back {
        out, into := AppendArc(u, links[j].to, out, into);
        copied := copied + {(u, links[j].to)};
      }
      ExtendedNext(out0, u, links, j, back, before, out);
    }
    assert links[..|links|] == links;
  }

  lemma UnmarkedNext(u: NodeId, links: seq<Link>, j: nat, back: set<Pair>)
    requires j < |links|
    ensures Unmarked(u, links[..j+1], back)
         == Unmarked(u, links[..j], back) + if (u, links[j].to) in back then {} else {(u, links[j].to)}
  {
    assert links[..j+1] == links[..j] + [links[j]];
  }

  // ----- Kahn's queue

  /** The state of the queue while node `id` hands its layer on: `done` are the dequeued nodes before
      it, `handed` the part of its out-list already treated. */
  datatype Queue = Queue(layer: map<NodeId, nat>, pending: map<NodeId, int>, queue: seq<NodeId>,
                         done: set<NodeId>, id: NodeId, handed: seq<NodeId>)

  /** Between two nodes, when nothing is being handed over, it does not matter which node is named. */
  ghost function Idle(layer: map<NodeId, nat>, pending: map<NodeId, int>, queue: seq<NodeId>, done: set<NodeId>): Queue {
    Queue(layer, pending, queue, done, NodeId("", ""), [])
  }

  /** u has already handed its layer to v. */
  ghost predicate Handed(out: Lists, q: Queue, u: NodeId, v: NodeId) {
    u in out && v in out[u] && (u in q.done || (u == q.id && v in q.handed))
  }

  ghost predicate Counts(into: Lists, q: Queue) {
    && q.layer.Keys == q.pending.Keys == into.Keys
    && (forall v :: v in into ==> q.pending[v] + multiset(q.handed)[v] == Remaining(into[v], q.done))
    && (forall v :: v in into ==> (v in q.queue <==> q.pending[v] == 0))
    && (forall v :: v in q.queue ==> v in into)
    && NoDuplicates(q.queue)
  }

  ghost predicate LayersSoFar(out: Lists, q: Queue) {
    && q.layer.Keys == out.Keys
    && (forall u, v :: u in out && v in out[u] ==> v in out)
    && (forall u, v :: Handed(out, q, u, v) ==> q.layer[u] < q.layer[v])
    && (forall v {:trigger Justified(out, q, v)} :: v in out ==> Justified(out, q, v))
    && (forall u :: u in q.done ==> u in q.queue)
  }

  /** A positive layer comes from a node exactly one layer below that handed it on. */
  ghost predicate Justified(out: Lists, q: Queue, v: NodeId)
    requires q.layer.Keys == out.Keys && v in out
  {
    q.layer[v] == 0 || exists u :: Handed(out, q, u, v) && q.layer[u] + 1 == q.layer[v]
  }

  ghost predicate QueueInvariant(out: Lists, into: Lists, q: Queue) {
    Counts(into, q) && LayersSoFar(out, q)
  }

  ghost function HandOver(q: Queue, next: NodeId): Queue
    requires q.id in q.layer && next in q.layer && next in q.pending
  {
    var l := if q.layer[next] < q.layer[q.id] + 1 then q.layer[q.id] + 1 else q.layer[next];
    var left := q.pending[next] - 1;
    q.(layer := q.layer[next := l], pending := q.pending[next := left],
       queue := if left == 0 then q.queue + [next] else q.queue, handed := q.handed + [next])
  }

  lemma HandOverKeepsCounts(into: Lists, q: Queue, next: NodeId)
    requires Counts(into, q) && q.id in into && next in into && q.pending[next] > 0
    ensures Counts(into, HandOver(q, next))
  {
    var r := HandOver(q, next);
    assert multiset(r.handed) == multiset(q.handed) + multiset{next};
    assert next !in q.queue;
    forall v | v in into ensures r.pending[v] + multiset(r.handed)[v] == Remaining(into[v], r.done) {
      assert q.pending[v] + multiset(q.handed)[v] == Remaining(into[v], q.done);
    }
    forall v | v in into ensures v in r.queue <==> r.pending[v] == 0 {
      assert v in q.queue <==> q.pending[v] == 0;
    }
  }

  lemma HandOverKeepsLayers(out: Lists, into: Lists, q: Queue, next: NodeId)
    requires QueueInvariant(out, into, q) && q.id in out && next in out[q.id] && next in into
    requires q.pending[next] > 0 && q.id in q.queue && out.Keys == into.Keys
    ensures LayersSoFar(out, HandOver(q, next))
  {
    var r := HandOver(q, next);
    assert next !in q.queue;
    forall u, v | Handed(out, r, u, v) ensures r.layer[u] < r.layer[v] {
      assert u in q.queue;
      assert Handed(out, q, u, v) || (u == q.id && v == next);
    }
    forall v | v in out ensures Justified(out, r, v) {
      assert Justified(out, q, v);
      if v == next && q.layer[next] < q.layer[q.id] + 1 {
        assert Handed(out, r, q.id, v);
      } else if q.layer[v] > 0 {
        var u :| Handed(out, q, u, v) && q.layer[u] + 1 == q.layer[v];
        assert Handed(out, r, u, v) && u in q.queue;
      }
    }
  }

  /** Node `q.id` has handed its layer to all of its out-list; node `id` takes its place. */
  ghost function NextNode(q: Queue, id: NodeId): Queue {
    q.(done := q.done + {q.id}, id := id, handed := [])
  }

  lemma IdleAtAnyNode(out: Lists, into: Lists, q: Queue, id: NodeId)
    requires QueueInvariant(out, into, q) && q.handed == []
    ensures QueueInvariant(out, into, q.(id := id))
  {
    var r := q.(id := id);
    forall u, v ensures Handed(out, r, u, v) <==> Handed(out, q, u, v) { }
    forall v | v in out ensures Justified(out, r, v) {
      assert Justified(out, q, v);
    }
  }

  lemma NextNodeKeepsCounts(out: Lists, into: Lists, q: Queue, id: NodeId)
    requires Counts(into, q) && Mirrored(out, into)
    requires q.id in out && q.handed == out[q.id] && q.id !in q.done
    ensures Counts(into, NextNode(q, id))
  {
    var r := NextNode(q, id);
    forall v | v in into ensures r.pending[v] + multiset(r.handed)[v] == Remaining(into[v], r.done) {
      RemainingAfter(into[v], q.done, q.id);
      assert MirroredAt(out, into, q.id, v);
    }
  }

  lemma NextNodeKeepsLayers(out: Lists, q: Queue, id: NodeId)
    requires LayersSoFar(out, q)
    requires q.id in out && q.handed == out[q.id] && q.id in q.queue
    ensures LayersSoFar(out, NextNode(q, id))
  {
    var r := NextNode(q, id);
    forall u, v ensures Handed(out, r, u, v) <==> Handed(out, q, u, v) { }
    forall v | v in out ensures Justified(out, r, v) {
      assert Justified(out, q, v);
    }
  }

  /** Every pending count is still the length of the whole in-list: nothing was handed over yet. */
  lemma StartOfQueue(out: Lists, into: Lists, layer: map<NodeId, nat>, pending: map<NodeId, int>, queue: seq<NodeId>)
    requires Mirrored(out, into) && layer.Keys == pending.Keys == into.Keys
    requires forall v :: v in into ==> layer[v] == 0 && pending[v] == |into[v]|
    requires NoDuplicates(queue)
    requires forall v :: v in queue <==> v in into && pending[v] == 0
    ensures QueueInvariant(out, into, Idle(layer, pending, queue, {}))
  {
    forall v | v in into ensures Remaining(into[v], {}) == |into[v]| {
      RemainingNone(into[v]);
    }
  }

  lemma {:induction false} RemainingNone(into: seq<NodeId>)
    ensures Remaining(into, {}) == |into|
    decreases |into|
  {
    if into != [] { RemainingNone(into[1..]); }
  }

  lemma LeftOverPredecessor(out: Lists, into: Lists, q: Queue, v: NodeId) returns (u: NodeId)
    requires Counts(into, q) && Mirrored(out, into) && q.handed == []
    requires v in into && v !in q.queue
    ensures u in out && v in out[u] && u !in q.done
  {
    RemainingZero(into[v], q.done);
    u :| u in into[v] && u !in q.done;
    assert MirroredAt(out, into, u, v);
    assert u in multiset(into[v]);
    assert v in multiset(out[u]);
  }

  /** When the queue is used up every node went through it, because a node left over would have a
      predecessor that is left over as well, and so on round a cycle. */
  lemma QueueComplete(out: Lists, into: Lists, q: Queue)
    requires Counts(into, q) && Mirrored(out, into) && q.handed == []
    requires forall v :: v in q.queue <==> v in q.done
    requires Acyclic(ListArcs(out))
    ensures forall v :: v in into ==> v in q.queue
  {
    var left := set v | v in into && v !in q.queue;
    if left != {} {
      forall v | v in left ensures FedFrom(ListArcs(out), left, v) {
        var u := LeftOverPredecessor(out, into, q, v);
        assert (u, v) in ListArcs(out) && u in left;
      }
      var v := NoSourceMeansCycle(ListArcs(out), left);
      assert false;
    }
    forall v | v in into ensures v in q.queue { assert v !in left; }
  }

  lemma FinalLayers(out: Lists, q: Queue)
    requires LayersSoFar(out, q) && q.handed == []
    requires forall v :: v in out ==> v in q.done
    ensures Levels(ListArcs(out), q.layer)
  {
    forall a, b | (a, b) in ListArcs(out) && b in q.layer ensures a in q.layer && q.layer[a] < q.layer[b] {
      assert Handed(out, q, a, b);
    }
    forall b | b in q.layer ensures Supported(ListArcs(out), q.layer, b) {
      assert Justified(out, q, b);
      if q.layer[b] > 0 {
        var u :| Handed(out, q, u, b) && q.layer[u] + 1 == q.layer[b];
        assert (u, b) in ListArcs(out);
      }
    }
  }

  /** One dequeued node hands its layer to all its successors. */
  method HandLayer(out: Lists, into: Lists, id: NodeId, layer0: map<NodeId, nat>, pending0: map<NodeId, int>,
                   queue0: seq<NodeId>, ghost done: set<NodeId>)
    returns (layer: map<NodeId, nat>, pending: map<NodeId, int>, queue: seq<NodeId>)
    requires Mirrored(out, into) && id in out && id in queue0 && id !in done
    requires QueueInvariant(out, into, Idle(layer0, pending0, queue0, done))
    ensures QueueInvariant(out, into, Idle(layer, pending, queue, done + {id}))
    ensures queue0 <= queue
  {
    layer, pending, queue := layer0, pending0, queue0;
    ghost var q := Queue(layer, pending, queue, done, id, []);
    IdleAtAnyNode(out, into, Idle(layer, pending, queue, done), id);
    for j := 0 to |out[id]|
      invariant QueueInvariant(out, into, q)
      invariant q == Queue(layer, pending, queue, done, id, out[id][..j])
      invariant queue0 <= queue
    {
      assert out[id][j] in out[id];
      StillPending(out, into, q, j);
      layer, pending, queue := HandOne(q, id, out[id][j], layer, pending, queue);
      HandOverKeepsCounts(into, q, out[id][j]);
      HandOverKeepsLayers(out, into, q, out[id][j]);
      q := HandOver(q, out[id][j]);
      TakeOneMore(out[id], j);
    }
    TakeAll(out[id]);
    NextNodeKeepsCounts(out, into, q, NodeId("", ""));
    NextNodeKeepsLayers(out, q, NodeId("", ""));
  }

  /** Node q.id hands its layer to one successor. */
  method HandOne(ghost q: Queue, id: NodeId, next: NodeId,
                 layer0: map<NodeId, nat>, pending0: map<NodeId, int>, queue0: seq<NodeId>)
    returns (layer: map<NodeId, nat>, pending: map<NodeId, int>, queue: seq<NodeId>)
    requires q.layer == layer0 && q.pending == pending0 && q.queue == queue0
    requires q.id == id && id in layer0 && next in layer0 && next in pending0
    ensures HandOver(q, next) == q.(layer := layer, pending := pending, queue := queue, handed := q.handed + [next])
    ensures queue0 <= queue
  {
    layer, pending, queue := layer0, pending0, queue0;
    if layer[next] < layer[id] + 1 {
      layer := layer[next := layer[id] + 1];
    }
    var left := pending[next] - 1;
    pending := pending[next := left];
    if left == 0 {
      queue := queue + [next];
    }
  }

  lemma StillPending(out: Lists, into: Lists, q: Queue, j: nat)
    requires Counts(into, q) && Mirrored(out, into) && q.id in out && q.id !in q.done
    requires j < |out[q.id]| && q.handed == out[q.id][..j]
    ensures out[q.id][j] in into && q.pending[out[q.id][j]] > 0
  {
    var next := out[q.id][j];
    assert next in out[q.id];
    RemainingAfter(into[next], q.done, q.id);
    assert MirroredAt(out, into, q.id, next);
    SplitAt(out[q.id], j);
  }

  lemma SplitAt(s: seq<NodeId>, j: nat)
    requires j < |s|
    ensures multiset(s)[s[j]] > multiset(s[..j])[s[j]]
  {
    assert s == s[..j] + [s[j]] + s[j+1..];
    assert multiset(s) == multiset(s[..j]) + multiset{s[j]} + multiset(s[j+1..]);
  }

  /** Kahn's algorithm over acyclic forward lists: the queue ends up listing every node exactly once
      and each layer is the length of the longest forward path into the node. */
  method AssignLayers(ids: seq<NodeId>, out: Lists, into: Lists)
    returns (layer: map<NodeId, nat>, queue: seq<NodeId>)
    requires Enumerates(ids, out.Keys) && Mirrored(out, into) && Acyclic(ListArcs(out))
    ensures Enumerates(queue, out.Keys)
    ensures layer.Keys == out.Keys && Levels(ListArcs(out), layer)
  {
    layer := map v | v in ids :: 0;
    var pending: map<NodeId, int> := map v | v in ids :: |into[v]|;
    queue := Sources(ids, pending);
    ghost var done: set<NodeId> := {};
    StartOfQueue(out, into, layer, pending, queue);
    var head := 0;
    while head < |queue|
      invariant head <= |queue|
      invariant forall v :: v in done <==> v in queue[..head]
      invariant QueueInvariant(out, into, Idle(layer, pending, queue, done))
      decreases out.Keys - done
    {
      var id := queue[head];
      NextHead(queue, queue, head, done);
      assert id in out.Keys;
      ghost var queue0 := queue;
      layer, pending, queue := HandLayer(out, into, id, layer, pending, queue, done);
      NextHead(queue0, queue, head, done);
      done := done + {id};
      head := head + 1;
    }
    TakeAll(queue);
    QueueComplete(out, into, Idle(layer, pending, queue, done));
    FinalLayers(out, Idle(layer, pending, queue, done));
  }

  /** The head of the queue is new, and stays the next dequeued node however the queue grows. */
  lemma NextHead(before: seq<NodeId>, after: seq<NodeId>, head: nat, done: set<NodeId>)
    requires NoDuplicates(before) && head < |before| && before <= after
    requires forall v :: v in done <==> v in before[..head]
    ensures before[head] !in done
    ensures forall v :: v in done + {before[head]} <==> v in after[..head+1]
  {
    FreshHead(before, head);
    TakeOneMore(before, head);
    TakeOfPrefix(before, after, head + 1);
  }

  lemma FreshHead(queue: seq<NodeId>, head: nat)
    requires NoDuplicates(queue) && head < |queue|
    ensures queue[head] !in queue[..head]
  {
  }

  /** The nodes without a pending predecessor, in the given order. */
  method Sources(ids: seq<NodeId>, pending: map<NodeId, int>) returns (queue: seq<NodeId>)
    requires Enumerates(ids, pending.Keys)
    ensures NoDuplicates(queue)
    ensures forall v :: v in queue <==> v in pending && pending[v] == 0
  {
    queue := [];
    for i := 0 to |ids|
      invariant NoDuplicates(queue)
      invariant forall v :: v in queue <==> v in ids[..i] && pending[v] == 0
    {
      assert ids[..i+1] == ids[..i] + [ids[i]];
      assert ids[i] !in ids[..i];
      if pending[ids[i]] == 0 {
        queue := queue + [ids[i]];
      }
    }
    assert ids[..|ids|] == ids;
  }
}
