/** The two ways the layout chooses return edges: an explicit-stack depth-first search, and the
    chronological comparison of positions on an observed timeline. */
module BackEdges {
  import opened ApiNodes
  import opened DepthFirst
  import opened Digraph
  import opened LayoutModel
  import opened Sequences

  const GREY: nat := 1
  const BLACK: nat := 2

  /** A stack frame: a node and the index of its next unexamined successor. */
  datatype Frame = Frame(id: NodeId, index: nat)

  type Pair = (NodeId, NodeId)

  ghost function Ids(stack: seq<Frame>): seq<NodeId> {
    seq(|stack|, i requires 0 <= i < |stack| => stack[i].id)
  }

  /** The search state. `finished` lists the black nodes in finishing order and `tree` holds the arcs
      through which nodes were discovered; both are bookkeeping for the proof only. */
  datatype Search = Search(color: map<NodeId, nat>, stack: seq<Frame>, back: set<Pair>,
                           finished: seq<NodeId>, tree: set<Pair>)

  ghost predicate White(s: Search, v: NodeId) { v !in s.color }
  ghost predicate Grey(s: Search, v: NodeId) { v in s.color && s.color[v] == GREY }
  ghost predicate Black(s: Search, v: NodeId) { v in s.color && s.color[v] == BLACK }

  /** Grey nodes are exactly the nodes on the stack, black ones exactly the finished ones. */
  ghost predicate ColorsAgree(succ: Adjacency, s: Search) {
    && (forall v :: v in s.color ==> v in succ && (s.color[v] == GREY || s.color[v] == BLACK))
    && (forall v :: Grey(s, v) <==> v in Ids(s.stack))
    && (forall v :: Black(s, v) <==> v in s.finished)
    && NoDuplicates(Ids(s.stack)) && NoDuplicates(s.finished)
  }

  /** What may be said of a successor that frame i has already examined. */
  ghost predicate Examined(s: Search, i: nat, w: NodeId)
    requires i < |s.stack|
  {
    || (s.stack[i].id, w) in s.back
    || w in s.finished
    || (i + 1 < |s.stack| && w == s.stack[i+1].id)
  }

  ghost predicate FramesExamined(succ: Adjacency, s: Search) {
    forall i :: 0 <= i < |s.stack| ==>
      && s.stack[i].id in succ
      && s.stack[i].index <= |succ[s.stack[i].id]|
      && forall j :: 0 <= j < s.stack[i].index ==> Examined(s, i, succ[s.stack[i].id][j].to)
  }

  /** Every arc out of a finished node is marked or leads to a node that finished earlier. */
  ghost predicate FinishOrder(succ: Adjacency, finished: seq<NodeId>, back: set<Pair>) {
    forall i :: 0 <= i < |finished| ==>
      && finished[i] in succ
      && forall j :: 0 <= j < |succ[finished[i]]| ==>
           (finished[i], succ[finished[i]][j].to) in back || succ[finished[i]][j].to in finished[..i]
  }

  ghost predicate StackLinked(s: Search) {
    forall i :: 0 < i < |s.stack| ==> (s.stack[i-1].id, s.stack[i].id) in s.tree
  }

  /** Discovery arcs are never marked, link neighbouring stack frames, and a grey node was discovered
      from the frame right below it. */
  ghost predicate TreeShape(succ: Adjacency, s: Search) {
    && s.tree <= LinkArcs(succ) && s.tree !! s.back
    && StackLinked(s)
    && (forall a, b :: (a, b) in s.tree ==> !White(s, b))
    && (forall a, i :: 0 <= i < |s.stack| && (a, s.stack[i].id) in s.tree ==> i > 0 && a == s.stack[i-1].id)
  }

  /** Every marked arc returns to a node from which discovery arcs lead to its source. */
  ghost predicate MarksReturn(succ: Adjacency, s: Search) {
    forall u, v :: (u, v) in s.back ==> (u, v) in LinkArcs(succ) && !White(s, v) && Reaches(s.tree, v, u)
  }

  ghost predicate Invariant(succ: Adjacency, s: Search) {
    ColorsAgree(succ, s) && FramesExamined(succ, s) && FinishOrder(succ, s.finished, s.back)
    && TreeShape(succ, s) && MarksReturn(succ, s)
  }

  // ----- the four things one turn of the search can do

  ghost function Discover(s: Search, v: NodeId, from: set<Pair>): Search {
    s.(color := s.color[v := GREY], stack := s.stack + [Frame(v, 0)], tree := s.tree + from)
  }

  ghost function Advance(s: Search): Search
    requires |s.stack| > 0
  {
    var top := s.stack[|s.stack|-1];
    s.(stack := s.stack[|s.stack|-1 := Frame(top.id, top.index + 1)])
  }

  ghost function Mark(s: Search, v: NodeId): Search
    requires |s.stack| > 0
  {
    s.(back := s.back + {(s.stack[|s.stack|-1].id, v)})
  }

  ghost function Finish(s: Search): Search
    requires |s.stack| > 0
  {
    var top := s.stack[|s.stack|-1];
    s.(color := s.color[top.id := BLACK], stack := s.stack[..|s.stack|-1], finished := s.finished + [top.id])
  }

  lemma StartKeepsInvariant(succ: Adjacency, s: Search, v: NodeId)
    requires Invariant(succ, s) && s.stack == [] && v in succ && White(s, v)
    ensures Invariant(succ, Discover(s, v, {}))
  {
    var t := Discover(s, v, {});
    assert t.tree == s.tree;
    PushKeepsColors(succ, s, v, {});
  }

  lemma PushKeepsColors(succ: Adjacency, s: Search, v: NodeId, from: set<Pair>)
    requires ColorsAgree(succ, s) && v in succ && White(s, v)
    ensures ColorsAgree(succ, Discover(s, v, from))
  {
    var t := Discover(s, v, from);
    assert Ids(t.stack) == Ids(s.stack) + [v];
    assert !Grey(s, v) && !Black(s, v);
    assert v !in Ids(s.stack);
    forall w ensures Grey(t, w) <==> w in Ids(t.stack) {
      assert Grey(t, w) <==> Grey(s, w) || w == v;
    }
    forall w ensures Black(t, w) <==> w in t.finished {
      assert Black(t, w) <==> Black(s, w);
    }
  }

  lemma FinishKeepsColors(succ: Adjacency, s: Search)
    requires ColorsAgree(succ, s) && |s.stack| > 0
    ensures ColorsAgree(succ, Finish(s))
  {
    var t := Finish(s);
    var n := |s.stack| - 1;
    var top := s.stack[n].id;
    assert Ids(s.stack) == Ids(t.stack) + [top];
    assert Ids(s.stack)[n] == top;
    assert top !in Ids(t.stack) by {
      forall i | 0 <= i < n ensures Ids(t.stack)[i] != top {
        assert Ids(s.stack)[i] != Ids(s.stack)[n];
      }
    }
    assert NoDuplicates(Ids(t.stack)) by {
      forall i, j | 0 <= i < j < n ensures Ids(t.stack)[i] != Ids(t.stack)[j] {
        assert Ids(s.stack)[i] != Ids(s.stack)[j];
      }
    }
    assert Grey(s, top) && !Black(s, top);
    forall v ensures Grey(t, v) <==> v in Ids(t.stack) {
      assert Grey(t, v) <==> Grey(s, v) && v != top;
    }
    forall v ensures Black(t, v) <==> v in t.finished {
      assert Black(t, v) <==> Black(s, v) || v == top;
    }
  }

  lemma FinishKeepsFrames(succ: Adjacency, s: Search)
    requires FramesExamined(succ, s) && FinishOrder(succ, s.finished, s.back) && |s.stack| > 0
    requires s.stack[|s.stack|-1].id in succ && s.stack[|s.stack|-1].index == |succ[s.stack[|s.stack|-1].id]|
    ensures FramesExamined(succ, Finish(s)) && FinishOrder(succ, Finish(s).finished, s.back)
  {
    var t := Finish(s);
    var top := s.stack[|s.stack|-1].id;
    forall i, j | 0 <= i < |t.stack| && 0 <= j < t.stack[i].index
      ensures Examined(t, i, succ[t.stack[i].id][j].to)
    {
      assert Examined(s, i, succ[s.stack[i].id][j].to);
    }
    forall j | 0 <= j < |succ[top]| ensures (top, succ[top][j].to) in t.back || succ[top][j].to in s.finished {
      assert Examined(s, |s.stack|-1, succ[top][j].to);
    }
    assert t.finished[..|s.finished|] == s.finished;
    forall i | 0 <= i < |s.finished| ensures t.finished[..i] == s.finished[..i] {
    }
  }

  lemma FinishKeepsInvariant(succ: Adjacency, s: Search)
    requires Invariant(succ, s) && |s.stack| > 0
    requires s.stack[|s.stack|-1].id in succ && s.stack[|s.stack|-1].index == |succ[s.stack[|s.stack|-1].id]|
    ensures Invariant(succ, Finish(s))
  {
    FinishKeepsColors(succ, s);
    FinishKeepsFrames(succ, s);
  }

  /** Examining a successor that is already finished, or whose arc is marked, only moves the index on. */
  lemma AdvanceKeepsInvariant(succ: Adjacency, s: Search)
    requires Invariant(succ, s) && |s.stack| > 0
    requires var top := s.stack[|s.stack|-1];
             && top.id in succ && top.index < |succ[top.id]|
             && Examined(s, |s.stack|-1, succ[top.id][top.index].to)
    ensures Invariant(succ, Advance(s))
  {
    var t := Advance(s);
    assert Ids(t.stack) == Ids(s.stack);
    forall v ensures (Grey(t, v) <==> Grey(s, v)) && (Black(t, v) <==> Black(s, v)) { }
    forall i, j | 0 <= i < |t.stack| && 0 <= j < t.stack[i].index
      ensures Examined(t, i, succ[t.stack[i].id][j].to)
    {
      assert Examined(s, i, succ[s.stack[i].id][j].to);
    }
  }

  /** A grey node is on the stack, so discovery arcs lead from it to the top. */
  lemma GreyReachesTop(succ: Adjacency, s: Search, v: NodeId) returns (k: nat)
    requires ColorsAgree(succ, s) && StackLinked(s) && |s.stack| > 0 && Grey(s, v)
    ensures k < |s.stack| && s.stack[k].id == v
    ensures Reaches(s.tree, v, s.stack[|s.stack|-1].id)
  {
    k := PlaceOnStack(s.stack, v);
    StackIsWalk(s.tree, s.stack, k);
  }

  lemma PlaceOnStack(stack: seq<Frame>, v: NodeId) returns (k: nat)
    requires v in Ids(stack)
    ensures k < |stack| && stack[k].id == v
  {
    k :| 0 <= k < |stack| && Ids(stack)[k] == v;
  }

  lemma StackIsWalk(tree: set<Pair>, stack: seq<Frame>, k: nat)
    requires k < |stack|
    requires forall i :: 0 < i < |stack| ==> (stack[i-1].id, stack[i].id) in tree
    ensures Reaches(tree, stack[k].id, stack[|stack|-1].id)
  {
    var p := Ids(stack)[k..];
    forall i | 0 < i < |p| ensures (p[i-1], p[i]) in tree {
      assert (stack[k+i-1].id, stack[k+i].id) in tree;
    }
    assert Connects(tree, p, stack[k].id, stack[|stack|-1].id);
  }

  lemma MarkKeepsColors(succ: Adjacency, s: Search, v: NodeId)
    requires ColorsAgree(succ, s) && |s.stack| > 0
    ensures ColorsAgree(succ, Mark(s, v))
  {
    var t := Mark(s, v);
    forall w ensures (Grey(t, w) <==> Grey(s, w)) && (Black(t, w) <==> Black(s, w)) { }
  }

  lemma MarkKeepsFrames(succ: Adjacency, s: Search, v: NodeId)
    requires FramesExamined(succ, s) && FinishOrder(succ, s.finished, s.back) && |s.stack| > 0
    ensures FramesExamined(succ, Mark(s, v)) && FinishOrder(succ, s.finished, Mark(s, v).back)
  {
    var t := Mark(s, v);
    forall i, j | 0 <= i < |t.stack| && 0 <= j < t.stack[i].index
      ensures Examined(t, i, succ[t.stack[i].id][j].to)
    {
      assert Examined(s, i, succ[s.stack[i].id][j].to);
    }
  }

  /** Marking the arc from the top to a grey node. */
  lemma MarkKeepsInvariant(succ: Adjacency, s: Search, v: NodeId)
    requires Invariant(succ, s) && |s.stack| > 0 && Grey(s, v)
    requires (s.stack[|s.stack|-1].id, v) in LinkArcs(succ)
    ensures Invariant(succ, Mark(s, v))
  {
    var top := s.stack[|s.stack|-1].id;
    var k := GreyReachesTop(succ, s, v);
    MarkKeepsColors(succ, s, v);
    MarkKeepsFrames(succ, s, v);
    assert (top, v) !in s.tree by {
      if k > 0 { assert Ids(s.stack)[k-1] != Ids(s.stack)[|s.stack|-1]; }
    }
  }

  /** Discovering a white successor of the top. */
  lemma PushKeepsInvariant(succ: Adjacency, s: Search)
    requires Invariant(succ, s) && |s.stack| > 0
    requires var top := s.stack[|s.stack|-1];
             && top.id in succ && top.index < |succ[top.id]| && White(s, succ[top.id][top.index].to)
    requires Closed(succ)
    ensures var top := s.stack[|s.stack|-1];
            var v := succ[top.id][top.index].to;
            Invariant(succ, Discover(Advance(s), v, {(top.id, v)}))
  {
    var top := s.stack[|s.stack|-1];
    var v := succ[top.id][top.index].to;
    var m := Advance(s);
    var t := Discover(m, v, {(top.id, v)});
    assert Ids(m.stack) == Ids(s.stack);
    assert ColorsAgree(succ, m) by {
      forall w ensures (Grey(m, w) <==> Grey(s, w)) && (Black(m, w) <==> Black(s, w)) { }
    }
    PushKeepsColors(succ, m, v, {(top.id, v)});
    PushKeepsFrames(succ, s);
    PushKeepsTree(succ, s);
    forall a, b | (a, b) in t.back
      ensures (a, b) in LinkArcs(succ) && !White(t, b) && Reaches(t.tree, b, a)
    {
      assert (a, b) in s.back && Reaches(s.tree, b, a);
      var p :| Connects(s.tree, p, b, a);
      WalkWithin(s.tree, t.tree, p);
      assert Connects(t.tree, p, b, a);
    }
  }

  lemma PushKeepsFrames(succ: Adjacency, s: Search)
    requires FramesExamined(succ, s) && |s.stack| > 0 && Closed(succ)
    requires var top := s.stack[|s.stack|-1]; top.id in succ && top.index < |succ[top.id]|
    ensures var top := s.stack[|s.stack|-1];
            var v := succ[top.id][top.index].to;
            FramesExamined(succ, Discover(Advance(s), v, {(top.id, v)}))
  {
    var n := |s.stack| - 1;
    var top := s.stack[n];
    assert succ[top.id][top.index] in succ[top.id];
    var v := succ[top.id][top.index].to;
    var t := Discover(Advance(s), v, {(top.id, v)});
    forall i, j | 0 <= i < |t.stack| && 0 <= j < t.stack[i].index
      ensures Examined(t, i, succ[t.stack[i].id][j].to)
    {
      if i < n || j < top.index {
        assert Examined(s, i, succ[s.stack[i].id][j].to);
      }
    }
  }

  lemma PushKeepsTree(succ: Adjacency, s: Search)
    requires ColorsAgree(succ, s) && TreeShape(succ, s) && MarksReturn(succ, s) && |s.stack| > 0
    requires var top := s.stack[|s.stack|-1];
             && top.id in succ && top.index < |succ[top.id]| && White(s, succ[top.id][top.index].to)
    ensures var top := s.stack[|s.stack|-1];
            var v := succ[top.id][top.index].to;
            TreeShape(succ, Discover(Advance(s), v, {(top.id, v)}))
  {
    var n := |s.stack| - 1;
    var top := s.stack[n];
    assert succ[top.id][top.index] in succ[top.id];
    var v := succ[top.id][top.index].to;
    var t := Discover(Advance(s), v, {(top.id, v)});
    assert (top.id, v) in LinkArcs(succ) && (top.id, v) !in s.back;
    assert t.tree <= LinkArcs(succ) && t.tree !! t.back;
    forall i | 0 <= i <= n ensures t.stack[i].id == s.stack[i].id && Grey(s, s.stack[i].id) {
      assert Ids(s.stack)[i] in Ids(s.stack);
    }
    assert forall a :: (a, v) !in s.tree;
    forall a, b | (a, b) in t.tree ensures !White(t, b) { }
    forall i | 0 < i < |t.stack| ensures (t.stack[i-1].id, t.stack[i].id) in t.tree {
      if i <= n { assert (s.stack[i-1].id, s.stack[i].id) in s.tree; }
    }
    forall a, i | 0 <= i < |t.stack| && (a, t.stack[i].id) in t.tree ensures i > 0 && a == t.stack[i-1].id {
      if i <= n { assert (a, s.stack[i].id) in s.tree; }
    }
  }

  // ----- one turn of the search

  /** The top frame names a node with a successor list, and its index is within that list. */
  ghost predicate TopValid(succ: Adjacency, s: Search) {
    && |s.stack| > 0
    && s.stack[|s.stack|-1].id in succ && s.stack[|s.stack|-1].index <= |succ[s.stack[|s.stack|-1].id]|
  }

  /** One turn of the search loop. */
  ghost function TurnOf(succ: Adjacency, s: Search): Search
    requires TopValid(succ, s)
  {
    var top := s.stack[|s.stack|-1];
    if top.index == |succ[top.id]| then Finish(s)
    else
      var next := succ[top.id][top.index].to;
      if Grey(s, next) then Advance(Mark(s, next))
      else if Black(s, next) then Advance(s)
      else Discover(Advance(s), next, {(top.id, next)})
  }

  /** A turn coloured a node, or popped a frame, or moved the top frame's index on. */
  ghost predicate Progress(s: Search, t: Search) {
    || s.color.Keys < t.color.Keys
    || (s.color.Keys == t.color.Keys && |t.stack| < |s.stack|)
    || (s.color.Keys == t.color.Keys && |t.stack| == |s.stack| > 0
        && t.stack[|t.stack|-1].id == s.stack[|s.stack|-1].id
        && t.stack[|t.stack|-1].index == s.stack[|s.stack|-1].index + 1)
  }

  lemma TurnKeepsInvariant(succ: Adjacency, s: Search)
    requires Closed(succ) && TopValid(succ, s) && Invariant(succ, s)
    ensures Invariant(succ, TurnOf(succ, s))
  {
    var top := s.stack[|s.stack|-1];
    if top.index == |succ[top.id]| {
      FinishKeepsInvariant(succ, s);
    } else {
      var next := succ[top.id][top.index].to;
      assert succ[top.id][top.index] in succ[top.id];
      if Grey(s, next) {
        MarkKeepsInvariant(succ, s, next);
        AdvanceKeepsInvariant(succ, Mark(s, next));
      } else if Black(s, next) {
        AdvanceKeepsInvariant(succ, s);
      } else {
        assert White(s, next);
        PushKeepsInvariant(succ, s);
      }
    }
  }

  lemma TurnProgresses(succ: Adjacency, s: Search)
    requires TopValid(succ, s) && ColorsAgree(succ, s)
    ensures Progress(s, TurnOf(succ, s))
  {
    var top := s.stack[|s.stack|-1];
    GreyTop(succ, s);
    if top.index < |succ[top.id]| {
      var next := succ[top.id][top.index].to;
      assert White(s, next) ==> next in TurnOf(succ, s).color.Keys - s.color.Keys;
    }
  }

  /** One turn of the search loop, on a non-empty stack. */
  method Turn(succ: Adjacency, color0: map<NodeId, nat>, stack0: seq<Frame>, back0: set<Pair>, ghost s: Search)
    returns (color: map<NodeId, nat>, stack: seq<Frame>, back: set<Pair>)
    requires TopValid(succ, s)
    requires s.color == color0 && s.stack == stack0 && s.back == back0
    requires forall v :: v in color0 ==> color0[v] == GREY || color0[v] == BLACK
    ensures var t := TurnOf(succ, s); t.color == color && t.stack == stack && t.back == back
  {
    color, stack, back := color0, stack0, back0;
    var frame := stack[|stack|-1];
    var neighbours := succ[frame.id];
    if frame.index >= |neighbours| {
      color := color[frame.id := BLACK];
      stack := stack[..|stack|-1];
      return;
    }
    var next := neighbours[frame.index].to;
    stack := stack[|stack|-1 := Frame(frame.id, frame.index + 1)];
    var state := if next in color then color[next] else 0;
    if state == GREY {
      back := back + {(frame.id, next)};
      return;
    }
    if state == BLACK {
      return;
    }
    color := color[next := GREY];
    stack := stack + [Frame(next, 0)];
  }

  /** How many successors of the top frame are still to be examined. */
  ghost function Unexamined(succ: Adjacency, stack: seq<Frame>): int {
    if |stack| > 0 && stack[|stack|-1].id in succ
    then |succ[stack[|stack|-1].id]| - stack[|stack|-1].index else 0
  }

  lemma ProgressShrinks(succ: Adjacency, s: Search, t: Search)
    requires Invariant(succ, s) && Invariant(succ, t) && Progress(s, t)
    ensures
      || succ.Keys - t.color.Keys < succ.Keys - s.color.Keys
      || (t.color.Keys == s.color.Keys && |t.stack| < |s.stack|)
      || (t.color.Keys == s.color.Keys && |t.stack| == |s.stack|
          && 0 <= Unexamined(succ, t.stack) < Unexamined(succ, s.stack))
  {
    if s.color.Keys < t.color.Keys {
      assert t.color.Keys <= succ.Keys;
      var v :| v in t.color.Keys && v !in s.color.Keys;
      assert v in succ.Keys - s.color.Keys;
    }
  }

  lemma GreyTop(succ: Adjacency, s: Search)
    requires ColorsAgree(succ, s) && |s.stack| > 0
    ensures Grey(s, s.stack[|s.stack|-1].id)
  {
    assert Ids(s.stack)[|s.stack|-1] in Ids(s.stack);
  }

  // ----- the stack against the recursion

  ghost predicate ValidFrame(succ: Adjacency, f: Frame) {
    f.id in succ && f.index <= |succ[f.id]|
  }

  ghost predicate ValidStack(succ: Adjacency, stack: seq<Frame>) {
    forall i :: 0 <= i < |stack| ==> ValidFrame(succ, stack[i])
  }

  ghost function OnStack(stack: seq<Frame>): set<NodeId> {
    set i | 0 <= i < |stack| :: stack[i].id
  }

  /** What the recursive search still does when it is inside all the visits on the stack. */
  ghost function Unwind(succ: Adjacency, visited: set<NodeId>, stack: seq<Frame>): Outcome
    requires Closed(succ) && ValidStack(succ, stack)
    decreases |stack|
  {
    if stack == [] then Outcome(visited, {})
    else
      var top := stack[|stack|-1];
      assert ValidFrame(succ, top);
      var own := Visit(succ, visited, OnStack(stack), top.id, top.index);
      var rest := Unwind(succ, own.visited, stack[..|stack|-1]);
      Outcome(rest.visited, own.marks + rest.marks)
  }

  lemma FramesAreValid(succ: Adjacency, s: Search)
    requires FramesExamined(succ, s)
    ensures ValidStack(succ, s.stack)
  {
  }

  lemma GreyIsOnStack(succ: Adjacency, s: Search, v: NodeId)
    requires ColorsAgree(succ, s)
    ensures Grey(s, v) <==> v in OnStack(s.stack)
  {
    if Grey(s, v) {
      var i :| 0 <= i < |s.stack| && Ids(s.stack)[i] == v;
    }
    if v in OnStack(s.stack) {
      var i :| 0 <= i < |s.stack| && s.stack[i].id == v;
      assert Ids(s.stack)[i] == v;
    }
  }

  /** The search goes on to the same nodes and marks from both states. */
  ghost predicate SameOutcome(succ: Adjacency, s: Search, t: Search)
    requires Closed(succ)
  {
    && ValidStack(succ, s.stack) && ValidStack(succ, t.stack)
    && var before, after := Unwind(succ, s.color.Keys, s.stack), Unwind(succ, t.color.Keys, t.stack);
    before.visited == after.visited && s.back + before.marks == t.back + after.marks
  }

  /** The outcome inside a visit is that of the visit and then that of the frames below. */
  lemma TopIsVisited(succ: Adjacency, visited: set<NodeId>, stack: seq<Frame>, own: Outcome)
    requires Closed(succ) && |stack| > 0 && ValidStack(succ, stack) && ValidFrame(succ, stack[|stack|-1])
    requires own == Visit(succ, visited, OnStack(stack), stack[|stack|-1].id, stack[|stack|-1].index)
    ensures var rest := Unwind(succ, own.visited, stack[..|stack|-1]);
            Unwind(succ, visited, stack) == Outcome(rest.visited, own.marks + rest.marks)
  {
  }

  /** The stack with the index of its top moved on. */
  ghost function Moved(stack: seq<Frame>): seq<Frame>
    requires |stack| > 0
  {
    stack[|stack|-1 := Frame(stack[|stack|-1].id, stack[|stack|-1].index + 1)]
  }

  lemma MovedStack(stack: seq<Frame>)
    requires |stack| > 0
    ensures OnStack(Moved(stack)) == OnStack(stack)
    ensures Moved(stack)[..|stack|-1] == stack[..|stack|-1]
  {
    assert forall i :: 0 <= i < |stack| ==> Moved(stack)[i].id == stack[i].id;
  }

  lemma MovedIsValid(succ: Adjacency, stack: seq<Frame>)
    requires |stack| > 0 && ValidStack(succ, stack) && stack[|stack|-1].index < |succ[stack[|stack|-1].id]|
    ensures ValidStack(succ, Moved(stack)) && ValidFrame(succ, stack[|stack|-1])
    ensures ValidFrame(succ, Moved(stack)[|stack|-1])
  {
  }

  /** The successor v that the top of the stack examines next. */
  ghost predicate Examines(succ: Adjacency, stack: seq<Frame>, v: NodeId) {
    && |stack| > 0 && ValidStack(succ, stack) && stack[|stack|-1].id in succ
    && stack[|stack|-1].index < |succ[stack[|stack|-1].id]|
    && v == succ[stack[|stack|-1].id][stack[|stack|-1].index].to
  }

  lemma MarkUnwinds(succ: Adjacency, visited: set<NodeId>, stack: seq<Frame>, v: NodeId)
    requires Closed(succ) && Examines(succ, stack, v) && v in OnStack(stack)
    ensures ValidStack(succ, Moved(stack))
    ensures var before, after := Unwind(succ, visited, stack), Unwind(succ, visited, Moved(stack));
            before.visited == after.visited && before.marks == {(stack[|stack|-1].id, v)} + after.marks
  {
    MovedIsValid(succ, stack);
    MovedStack(stack);
    var top, path := stack[|stack|-1], OnStack(stack);
    var rest := Visit(succ, visited, path, top.id, top.index + 1);
    TopIsVisited(succ, visited, stack, Outcome(rest.visited, {(top.id, v)} + rest.marks));
    TopIsVisited(succ, visited, Moved(stack), rest);
    UnionsAssociate({(top.id, v)}, rest.marks, Unwind(succ, rest.visited, stack[..|stack|-1]).marks);
  }

  lemma UnionsAssociate(a: set<Pair>, b: set<Pair>, c: set<Pair>)
    ensures a + (b + c) == (a + b) + c
  {
  }

  lemma SkipUnwinds(succ: Adjacency, visited: set<NodeId>, stack: seq<Frame>, v: NodeId)
    requires Closed(succ) && Examines(succ, stack, v) && v !in OnStack(stack) && v in visited
    ensures ValidStack(succ, Moved(stack)) && Unwind(succ, visited, stack) == Unwind(succ, visited, Moved(stack))
  {
    MovedIsValid(succ, stack);
    MovedStack(stack);
    var top, path := stack[|stack|-1], OnStack(stack);
    var rest := Visit(succ, visited, path, top.id, top.index + 1);
    TopIsVisited(succ, visited, stack, rest);
    TopIsVisited(succ, visited, Moved(stack), rest);
  }

  lemma DiscoverUnwinds(succ: Adjacency, visited: set<NodeId>, stack: seq<Frame>, v: NodeId)
    requires Closed(succ) && Examines(succ, stack, v) && v !in OnStack(stack) && v !in visited && v in succ
    ensures ValidStack(succ, Moved(stack) + [Frame(v, 0)])
    ensures var before, after := Unwind(succ, visited, stack), Unwind(succ, visited + {v}, Moved(stack) + [Frame(v, 0)]);
            before.visited == after.visited && before.marks == after.marks
  {
    MovedIsValid(succ, stack);
    MovedStack(stack);
    PushedStack(Moved(stack), v);
    var top, path := stack[|stack|-1], OnStack(stack);
    var below := Visit(succ, visited + {v}, path + {v}, v, 0);
    var rest := Visit(succ, below.visited, path, top.id, top.index + 1);
    TopIsVisited(succ, visited, stack, Outcome(rest.visited, below.marks + rest.marks));
    TopIsVisited(succ, below.visited, Moved(stack), rest);
    TopIsVisited(succ, visited + {v}, Moved(stack) + [Frame(v, 0)], below);
    UnionsAssociate(below.marks, rest.marks, Unwind(succ, rest.visited, stack[..|stack|-1]).marks);
  }

  lemma FinishUnwinds(succ: Adjacency, visited: set<NodeId>, stack: seq<Frame>)
    requires Closed(succ) && |stack| > 0 && ValidStack(succ, stack) && ValidFrame(succ, stack[|stack|-1])
    requires stack[|stack|-1].index == |succ[stack[|stack|-1].id]|
    ensures var before, after := Unwind(succ, visited, stack), Unwind(succ, visited, stack[..|stack|-1]);
            before.visited == after.visited && before.marks == after.marks
  {
    TopIsVisited(succ, visited, stack, Outcome(visited, {}));
    var rest := Unwind(succ, visited, stack[..|stack|-1]);
    assert {} + rest.marks == rest.marks;
  }

  lemma PushedStack(stack: seq<Frame>, v: NodeId)
    ensures OnStack(stack + [Frame(v, 0)]) == OnStack(stack) + {v}
    ensures (stack + [Frame(v, 0)])[..|stack|] == stack
  {
    var longer := stack + [Frame(v, 0)];
    assert longer[|stack|].id == v;
    assert forall i :: 0 <= i < |stack| ==> longer[i] == stack[i];
  }

  lemma TurnUnwinds(succ: Adjacency, s: Search)
    requires Closed(succ) && TopValid(succ, s) && Invariant(succ, s)
    ensures SameOutcome(succ, s, TurnOf(succ, s))
  {
    var top, t := s.stack[|s.stack|-1], TurnOf(succ, s);
    FramesAreValid(succ, s);
    if top.index == |succ[top.id]| {
      GreyTop(succ, s);
      assert t.color.Keys == s.color.Keys;
      FinishUnwinds(succ, s.color.Keys, s.stack);
    } else {
      ExaminationUnwinds(succ, s, succ[top.id][top.index].to);
    }
  }

  lemma ExaminationUnwinds(succ: Adjacency, s: Search, v: NodeId)
    requires Closed(succ) && TopValid(succ, s) && ColorsAgree(succ, s) && Examines(succ, s.stack, v)
    ensures SameOutcome(succ, s, TurnOf(succ, s))
  {
    GreyIsOnStack(succ, s, v);
    if White(s, v) {
      EntryUnwinds(succ, s, TurnOf(succ, s), v);
    } else if Grey(s, v) {
      ReturnUnwinds(succ, s, TurnOf(succ, s), v);
    } else {
      SkipUnwinds(succ, s.color.Keys, s.stack, v);
    }
  }

  lemma EntryUnwinds(succ: Adjacency, s: Search, t: Search, v: NodeId)
    requires Closed(succ) && Examines(succ, s.stack, v) && v !in s.color && v !in OnStack(s.stack)
    requires t.stack == Moved(s.stack) + [Frame(v, 0)] && t.color == s.color[v := GREY] && t.back == s.back
    ensures SameOutcome(succ, s, t)
  {
    var top := s.stack[|s.stack|-1];
    assert succ[top.id][top.index] in succ[top.id];
    assert t.color.Keys == s.color.Keys + {v};
    DiscoverUnwinds(succ, s.color.Keys, s.stack, v);
  }

  lemma ReturnUnwinds(succ: Adjacency, s: Search, t: Search, v: NodeId)
    requires Closed(succ) && Examines(succ, s.stack, v) && v in OnStack(s.stack)
    requires t.stack == Moved(s.stack) && t.color == s.color && t.back == s.back + {(s.stack[|s.stack|-1].id, v)}
    ensures SameOutcome(succ, s, t)
  {
    var top := s.stack[|s.stack|-1];
    MarkUnwinds(succ, s.color.Keys, s.stack, v);
    UnionsAssociate(s.back, {(top.id, v)}, Unwind(succ, s.color.Keys, Moved(s.stack)).marks);
  }

  lemma StackIsUnwound(succ: Adjacency, s: Search, t: Search, start: NodeId)
    requires Closed(succ) && start in succ
    requires s.stack == [Frame(start, 0)] && t.stack == [] && SameOutcome(succ, s, t)
    ensures var own := Visit(succ, s.color.Keys, {start}, start, 0);
            t.color.Keys == own.visited && t.back == s.back + own.marks
  {
    StartUnwinds(succ, s, start);
    assert t.back + {} == t.back;
  }

  lemma StartUnwinds(succ: Adjacency, s: Search, start: NodeId)
    requires Closed(succ) && start in succ && s.stack == [Frame(start, 0)]
    ensures Unwind(succ, s.color.Keys, s.stack) == Visit(succ, s.color.Keys, {start}, start, 0)
  {
    assert s.stack[0] == Frame(start, 0) && OnStack(s.stack) == {start};
    assert s.stack[..0] == [];
  }

  /** Every coloured node is reached from one of these nodes by discovery arcs. */
  ghost predicate DiscoveredFrom(s: Search, roots: seq<NodeId>) {
    forall v :: v in s.color ==> ReachedFrom(s.tree, roots, v)
  }

  ghost predicate ReachedFrom(arcs: set<Pair>, roots: seq<NodeId>, v: NodeId) {
    exists r :: r in roots && Reaches(arcs, r, v)
  }

  lemma ReachesWithin(small: set<Pair>, big: set<Pair>, a: NodeId, b: NodeId)
    requires small <= big && Reaches(small, a, b)
    ensures Reaches(big, a, b)
  {
    var p :| Connects(small, p, a, b);
    WalkWithin(small, big, p);
    assert Connects(big, p, a, b);
  }

  lemma StartIsDiscovered(s: Search, roots: seq<NodeId>, v: NodeId)
    requires DiscoveredFrom(s, roots)
    ensures DiscoveredFrom(Discover(s, v, {}), roots + [v])
  {
    var t := Discover(s, v, {});
    assert t.tree == s.tree;
    forall w | w in t.color ensures ReachedFrom(t.tree, roots + [v], w) {
      if w == v {
        ArcReaches(t.tree, v, v);
      } else {
        var r :| r in roots && Reaches(s.tree, r, w);
        assert r in roots + [v];
      }
    }
  }

  lemma TurnDiscovers(succ: Adjacency, s: Search, roots: seq<NodeId>)
    requires TopValid(succ, s) && ColorsAgree(succ, s) && DiscoveredFrom(s, roots)
    ensures DiscoveredFrom(TurnOf(succ, s), roots)
  {
    var t, top := TurnOf(succ, s), s.stack[|s.stack|-1];
    GreyTop(succ, s);
    forall w | w in t.color ensures ReachedFrom(t.tree, roots, w) {
      var from := if w in s.color then w else top.id;
      var r :| r in roots && Reaches(s.tree, r, from);
      ReachesWithin(s.tree, t.tree, r, from);
      if w !in s.color {
        ArcReaches(t.tree, top.id, w);
        ReachesTransitive(t.tree, r, top.id, w);
      }
    }
  }

  /** One turn in the middle of a search that began in s1. */
  lemma TurnGoesOn(succ: Adjacency, s1: Search, s: Search, roots: seq<NodeId>)
    requires Closed(succ) && TopValid(succ, s) && Invariant(succ, s)
    requires SameOutcome(succ, s1, s) && DiscoveredFrom(s, roots)
    ensures var t := TurnOf(succ, s);
      && Invariant(succ, t) && SameOutcome(succ, s1, t) && DiscoveredFrom(t, roots)
      && s.tree <= t.tree && s.color.Keys <= t.color.Keys
      && (|| succ.Keys - t.color.Keys < succ.Keys - s.color.Keys
          || (t.color.Keys == s.color.Keys && |t.stack| < |s.stack|)
          || (t.color.Keys == s.color.Keys && |t.stack| == |s.stack|
              && 0 <= Unexamined(succ, t.stack) < Unexamined(succ, s.stack)))
  {
    TurnKeepsInvariant(succ, s);
    TurnProgresses(succ, s);
    ProgressShrinks(succ, s, TurnOf(succ, s));
    TurnUnwinds(succ, s);
    TurnDiscovers(succ, s, roots);
  }

  // ----- the search itself

  /** Runs the stack from one uncoloured start node until it is empty again. */
  method Explore(succ: Adjacency, start: NodeId, color0: map<NodeId, nat>, back0: set<Pair>, ghost s0: Search,
                 ghost roots: seq<NodeId>)
    returns (color: map<NodeId, nat>, back: set<Pair>, ghost s: Search)
    requires Closed(succ) && start in succ && start !in color0
    requires Invariant(succ, s0) && s0.color == color0 && s0.stack == [] && s0.back == back0
    requires DiscoveredFrom(s0, roots)
    ensures Invariant(succ, s) && s.color == color && s.stack == [] && s.back == back
    ensures color0.Keys <= color.Keys && start in color
    ensures var own := Visit(succ, color0.Keys + {start}, {start}, start, 0);
            color.Keys == own.visited && back == back0 + own.marks
    ensures DiscoveredFrom(s, roots + [start]) && s0.tree <= s.tree
  {
    StartKeepsInvariant(succ, s0, start);
    StartIsDiscovered(s0, roots, start);
    s := Discover(s0, start, {});
    ghost var s1 := s;
    assert s1.color.Keys == color0.Keys + {start};
    color, back := color0[start := GREY], back0;
    var stack := [Frame(start, 0)];
    while |stack| > 0
      invariant Invariant(succ, s) && s.color == color && s.stack == stack && s.back == back
      invariant color0.Keys <= color.Keys && start in color
      invariant SameOutcome(succ, s1, s)
      invariant DiscoveredFrom(s, roots + [start]) && s0.tree <= s.tree
      decreases succ.Keys - color.Keys, |stack|, Unexamined(succ, stack)
    {
      assert TopValid(succ, s);
      color, stack, back := Turn(succ, color, stack, back, s);
      TurnGoesOn(succ, s1, s, roots + [start]);
      s := TurnOf(succ, s);
    }
    StackIsUnwound(succ, s1, s, start);
  }

  /** The finishing order as a rank: a later finisher ranks lower. */
  ghost function FinishRank(finished: seq<NodeId>): map<NodeId, int>
    requires NoDuplicates(finished)
  {
    map v | v in finished :: var i: int := IndexIn(finished, v); -i
  }

  lemma FinishOrderRanks(succ: Adjacency, finished: seq<NodeId>, back: set<Pair>)
    requires FinishOrder(succ, finished, back)
    requires Enumerates(finished, succ.Keys)
    ensures Ranked(LinkArcs(succ) - back, FinishRank(finished))
  {
    forall a, b | (a, b) in LinkArcs(succ) - back
      ensures a in finished && b in finished && IndexIn(finished, b) < IndexIn(finished, a)
    {
      var l: Link :| l in succ[a] && l.to == b;
      var i := IndexIn(finished, a);
      var j :| 0 <= j < |succ[a]| && succ[a][j] == l;
      assert succ[finished[i]][j].to in finished[..i];
      var k :| 0 <= k < i && finished[k] == b;
      assert finished[k] == finished[IndexIn(finished, b)];
    }
  }

  /** Whatever can be reached from these nodes can be reached from them without the marked arcs. */
  ghost predicate KeepsReach(arcs: set<Pair>, back: set<Pair>, roots: seq<NodeId>) {
    forall v :: ReachedFrom(arcs, roots, v) ==> ReachedFrom(arcs - back, roots, v)
  }

  /** Discovery arcs lead to everything that these nodes reach. */
  ghost predicate Covers(succ: Adjacency, s: Search, roots: seq<NodeId>) {
    forall v :: ReachedFrom(LinkArcs(succ), roots, v) ==> ReachedFrom(s.tree, roots, v)
  }

  ghost predicate CoversFrom(succ: Adjacency, s: Search, starts: seq<NodeId>, k: nat)
    requires k <= |starts|
  {
    Covers(succ, s, starts[..k])
  }

  ghost predicate KeepsReachFrom(succ: Adjacency, back: set<Pair>, starts: seq<NodeId>, k: nat)
    requires k <= |starts|
  {
    KeepsReach(LinkArcs(succ), back, starts[..k])
  }

  /** The recursive search is still to visit the starts from index i on. */
  ghost predicate LeftToVisit(succ: Adjacency, visited: set<NodeId>, back: set<Pair>, starts: seq<NodeId>, i: nat)
    requires Closed(succ) && (forall v :: v in starts ==> v in succ) && i <= |starts|
  {
    back + VisitAll(succ, visited, starts[i..]).marks == VisitAll(succ, {}, starts).marks
  }

  lemma NextStart(starts: seq<NodeId>, i: nat)
    requires i < |starts|
    ensures starts[i..][0] == starts[i] && starts[i..][1..] == starts[i+1..] && starts[..i+1] == starts[..i] + [starts[i]]
  {
  }

  lemma RootsGrow(s: Search, starts: seq<NodeId>, i: nat)
    requires i < |starts| && DiscoveredFrom(s, starts[..i])
    ensures DiscoveredFrom(s, starts[..i+1])
  {
    forall w | w in s.color ensures ReachedFrom(s.tree, starts[..i+1], w) {
      var r :| r in starts[..i] && Reaches(s.tree, r, w);
      assert r in starts[..i+1];
    }
  }

  lemma CoversStay(succ: Adjacency, s: Search, t: Search, roots: seq<NodeId>)
    requires s.tree <= t.tree && Covers(succ, s, roots)
    ensures Covers(succ, t, roots)
  {
    forall v | ReachedFrom(LinkArcs(succ), roots, v) ensures ReachedFrom(t.tree, roots, v) {
      var r :| r in roots && Reaches(s.tree, r, v);
      ReachesWithin(s.tree, t.tree, r, v);
    }
  }

  /** With an empty stack the coloured nodes are closed under arcs. */
  lemma {:induction false} ColoredStayColored(succ: Adjacency, s: Search, p: seq<NodeId>)
    requires Invariant(succ, s) && s.stack == [] && Walk(LinkArcs(succ), p) && p[0] in s.color
    ensures p[|p|-1] in s.color
    decreases |p|
  {
    if |p| > 1 {
      var u, v := p[|p|-2], p[|p|-1];
      ColoredStayColored(succ, s, p[..|p|-1]);
      assert (u, v) in LinkArcs(succ);
      assert Ids(s.stack) == [];
      assert Black(s, u) by { assert !Grey(s, u); }
      var i := IndexIn(s.finished, u);
      var l: Link :| l in succ[u] && l.to == v;
      var j :| 0 <= j < |succ[u]| && succ[u][j] == l;
      assert (u, succ[u][j].to) in s.back || succ[u][j].to in s.finished[..i];
      if v in s.finished {
        assert Black(s, v);
      }
    }
  }

  lemma StartsAreCovered(succ: Adjacency, s: Search, roots: seq<NodeId>)
    requires Invariant(succ, s) && s.stack == []
    requires DiscoveredFrom(s, roots) && forall v :: v in roots ==> v in s.color
    ensures Covers(succ, s, roots)
  {
    forall v | ReachedFrom(LinkArcs(succ), roots, v) ensures ReachedFrom(s.tree, roots, v) {
      var r :| r in roots && Reaches(LinkArcs(succ), r, v);
      var p :| Connects(LinkArcs(succ), p, r, v);
      ColoredStayColored(succ, s, p);
    }
  }

  lemma CoversMeansReach(succ: Adjacency, s: Search, roots: seq<NodeId>)
    requires TreeShape(succ, s) && Covers(succ, s, roots)
    ensures KeepsReach(LinkArcs(succ), s.back, roots)
  {
    forall v | ReachedFrom(LinkArcs(succ), roots, v) ensures ReachedFrom(LinkArcs(succ) - s.back, roots, v) {
      var r :| r in roots && Reaches(s.tree, r, v);
      ReachesWithin(s.tree, LinkArcs(succ) - s.back, r, v);
    }
  }

  /** Depth-first marking of return edges, from any start list that covers the nodes: every node is
      finished exactly once, the unmarked arcs are acyclic, and each marked arc (u, v) has unmarked
      arcs leading back from v to u. So nothing is marked in a graph that was acyclic already. The marks are
      those of the recursive search, and from any number of leading starts everything stays within reach. */
  method MarkBackEdges(succ: Adjacency, starts: seq<NodeId>)
    returns (back: set<Pair>, ghost finished: seq<NodeId>)
    requires Closed(succ)
    requires forall v :: v in starts <==> v in succ
    ensures back <= LinkArcs(succ)
    ensures Enumerates(finished, succ.Keys) && FinishOrder(succ, finished, back)
    ensures Acyclic(LinkArcs(succ) - back)
    ensures forall u, v :: (u, v) in back ==> Reaches(LinkArcs(succ) - back, v, u)
    ensures Acyclic(LinkArcs(succ)) ==> back == {}
    ensures back == VisitAll(succ, {}, starts).marks
    ensures forall k {:trigger KeepsReachFrom(succ, back, starts, k)} :: 0 <= k <= |starts| ==>
              KeepsReachFrom(succ, back, starts, k)
  {
    var color: map<NodeId, nat> := map[];
    back := {};
    ghost var s := Search(color, [], back, [], {});
    NothingVisited(succ, starts, s);
    for i := 0 to |starts|
      invariant VisitedUpTo(succ, starts, i, s) && s.color == color && s.back == back
    {
      ghost var s0 := s;
      if starts[i] !in color {
        color, back, s := Explore(succ, starts[i], color, back, s, starts[..i]);
        StartIsVisited(succ, starts, i, s0, s);
      } else {
        StartIsSkipped(succ, starts, i, s);
      }
    }
    finished := s.finished;
    SearchComplete(succ, s);
    AllVisited(succ, starts, s);
  }

  /** The search after the first i starts. */
  ghost predicate VisitedUpTo(succ: Adjacency, starts: seq<NodeId>, i: nat, s: Search)
    requires Closed(succ) && (forall v :: v in starts ==> v in succ) && i <= |starts|
  {
    && Invariant(succ, s) && s.stack == []
    && StartsVisited(succ, starts, i, s)
    && LeftToVisit(succ, s.color.Keys, s.back, starts, i)
  }

  ghost predicate StartsVisited(succ: Adjacency, starts: seq<NodeId>, i: nat, s: Search)
    requires i <= |starts|
  {
    && (forall j :: 0 <= j < i ==> starts[j] in s.color)
    && DiscoveredFrom(s, starts[..i])
    && (forall k {:trigger CoversFrom(succ, s, starts, k)} :: 0 <= k <= i ==> CoversFrom(succ, s, starts, k))
  }

  lemma StartsVisitedNext(succ: Adjacency, starts: seq<NodeId>, i: nat, s: Search, t: Search)
    requires i < |starts| && StartsVisited(succ, starts, i, s) && s.tree <= t.tree && s.color.Keys <= t.color.Keys
    requires Invariant(succ, t) && t.stack == [] && starts[i] in t.color && DiscoveredFrom(t, starts[..i+1])
    ensures StartsVisited(succ, starts, i + 1, t)
  {
    forall j | 0 <= j <= i ensures starts[j] in t.color {
      assert j < i ==> starts[j] in s.color;
    }
    StartsAreCovered(succ, t, starts[..i+1]);
    forall k | 0 <= k <= i + 1 ensures CoversFrom(succ, t, starts, k) {
      if k <= i {
        assert CoversFrom(succ, s, starts, k);
        CoversStay(succ, s, t, starts[..k]);
      }
    }
  }

  lemma NothingVisited(succ: Adjacency, starts: seq<NodeId>, s: Search)
    requires Closed(succ) && forall v :: v in starts ==> v in succ
    requires s == Search(map[], [], {}, [], {})
    ensures VisitedUpTo(succ, starts, 0, s)
  {
    assert s.color.Keys == {} && starts[0..] == starts && starts[..0] == [];
    assert Ids(s.stack) == [];
  }

  lemma StillVisited(succ: Adjacency, starts: seq<NodeId>, i: nat, s: Search)
    requires i < |starts| && Invariant(succ, s) && s.stack == []
    requires StartsVisited(succ, starts, i, s) && starts[i] in s.color
    ensures StartsVisited(succ, starts, i + 1, s)
  {
    RootsGrow(s, starts, i);
    StartsVisitedNext(succ, starts, i, s, s);
  }

  lemma StartIsSkipped(succ: Adjacency, starts: seq<NodeId>, i: nat, s: Search)
    requires Closed(succ) && (forall v :: v in starts ==> v in succ) && i < |starts|
    requires VisitedUpTo(succ, starts, i, s) && starts[i] in s.color
    ensures VisitedUpTo(succ, starts, i + 1, s)
  {
    StillVisited(succ, starts, i, s);
    VisitIsSkipped(succ, starts, i, s);
  }

  lemma VisitIsSkipped(succ: Adjacency, starts: seq<NodeId>, i: nat, s: Search)
    requires Closed(succ) && (forall v :: v in starts ==> v in succ) && i < |starts|
    requires LeftToVisit(succ, s.color.Keys, s.back, starts, i) && starts[i] in s.color
    ensures LeftToVisit(succ, s.color.Keys, s.back, starts, i + 1)
  {
    NextStart(starts, i);
  }

  lemma StartIsVisited(succ: Adjacency, starts: seq<NodeId>, i: nat, s: Search, t: Search)
    requires Closed(succ) && (forall v :: v in starts ==> v in succ) && i < |starts|
    requires VisitedUpTo(succ, starts, i, s) && starts[i] !in s.color
    requires Invariant(succ, t) && t.stack == [] && s.color.Keys <= t.color.Keys && starts[i] in t.color
    requires var own := Visit(succ, s.color.Keys + {starts[i]}, {starts[i]}, starts[i], 0);
             t.color.Keys == own.visited && t.back == s.back + own.marks
    requires DiscoveredFrom(t, starts[..i] + [starts[i]]) && s.tree <= t.tree
    ensures VisitedUpTo(succ, starts, i + 1, t)
  {
    NextStart(starts, i);
    StartsVisitedNext(succ, starts, i, s, t);
    VisitIsDone(succ, starts, i, s, t);
  }

  lemma VisitIsDone(succ: Adjacency, starts: seq<NodeId>, i: nat, s: Search, t: Search)
    requires Closed(succ) && (forall v :: v in starts ==> v in succ) && i < |starts|
    requires LeftToVisit(succ, s.color.Keys, s.back, starts, i) && starts[i] !in s.color
    requires var own := Visit(succ, s.color.Keys + {starts[i]}, {starts[i]}, starts[i], 0);
             t.color.Keys == own.visited && t.back == s.back + own.marks
    ensures LeftToVisit(succ, t.color.Keys, t.back, starts, i + 1)
  {
    NextStart(starts, i);
  }

  lemma NothingLeftToVisit(succ: Adjacency, starts: seq<NodeId>, s: Search)
    requires Closed(succ) && forall v :: v in starts ==> v in succ
    requires LeftToVisit(succ, s.color.Keys, s.back, starts, |starts|)
    ensures s.back == VisitAll(succ, {}, starts).marks
  {
    assert starts[|starts|..] == [] && s.back + {} == s.back;
  }

  lemma AllVisited(succ: Adjacency, starts: seq<NodeId>, s: Search)
    requires Closed(succ) && (forall v :: v in starts ==> v in succ) && VisitedUpTo(succ, starts, |starts|, s)
    ensures s.back == VisitAll(succ, {}, starts).marks
    ensures forall k {:trigger KeepsReachFrom(succ, s.back, starts, k)} :: 0 <= k <= |starts| ==>
              KeepsReachFrom(succ, s.back, starts, k)
  {
    NothingLeftToVisit(succ, starts, s);
    forall k | 0 <= k <= |starts| ensures KeepsReachFrom(succ, s.back, starts, k) {
      assert CoversFrom(succ, s, starts, k);
      CoversMeansReach(succ, s, starts[..k]);
    }
  }

  lemma SearchComplete(succ: Adjacency, s: Search)
    requires Invariant(succ, s) && s.stack == []
    requires forall v :: v in succ ==> v in s.color
    ensures s.back <= LinkArcs(succ)
    ensures Enumerates(s.finished, succ.Keys)
    ensures Acyclic(LinkArcs(succ) - s.back)
    ensures forall u, v :: (u, v) in s.back ==> Reaches(LinkArcs(succ) - s.back, v, u)
    ensures Acyclic(LinkArcs(succ)) ==> s.back == {}
  {
    assert Ids(s.stack) == [];
    forall v ensures v in s.finished <==> v in succ.Keys {
      assert !Grey(s, v);
      assert Black(s, v) <==> v in s.finished;
    }
    FinishOrderRanks(succ, s.finished, s.back);
    RankedIsAcyclic(LinkArcs(succ) - s.back, FinishRank(s.finished));
    forall u, v | (u, v) in s.back
      ensures (u, v) in LinkArcs(succ) && Reaches(LinkArcs(succ) - s.back, v, u) && OnCycle(LinkArcs(succ), v)
    {
      var p :| Connects(s.tree, p, v, u);
      WalkWithin(s.tree, LinkArcs(succ) - s.back, p);
      assert Connects(LinkArcs(succ) - s.back, p, v, u);
      WalkWithin(s.tree, LinkArcs(succ), p);
      ArcClosesCycle(LinkArcs(succ), p, v, u);
    }
    forall e | e in s.back ensures e in LinkArcs(succ) {
      assert (e.0, e.1) in s.back;
    }
  }

  // ----- the chronological branch

  /** With a complete timeline, an arc is marked exactly when it runs to an earlier position. */
  method MarkBackwards(ids: seq<NodeId>, succ: Adjacency, timeRank: map<NodeId, nat>) returns (back: set<Pair>)
    requires forall v :: v in ids <==> v in succ
    requires Closed(succ) && timeRank.Keys == succ.Keys
    ensures forall u, v :: (u, v) in back <==> (u, v) in LinkArcs(succ) && timeRank[v] < timeRank[u]
  {
    back := {};
    for i := 0 to |ids|
      invariant forall u, v :: (u, v) in back <==>
        u in ids[..i] && (u, v) in LinkArcs(succ) && timeRank[v] < timeRank[u]
    {
      var u := ids[i];
      var added := BackwardLinks(u, succ, timeRank);
      assert ids[..i+1] == ids[..i] + [u];
      back := back + added;
    }
    assert ids[..|ids|] == ids;
  }

  method BackwardLinks(u: NodeId, succ: Adjacency, timeRank: map<NodeId, nat>) returns (back: set<Pair>)
    requires u in succ && Closed(succ) && timeRank.Keys == succ.Keys
    ensures forall a, v :: (a, v) in back <==> a == u && (u, v) in LinkArcs(succ) && timeRank[v] < timeRank[u]
  {
    back := {};
    for j := 0 to |succ[u]|
      invariant forall a, v :: (a, v) in back <==>
        a == u && exists k :: 0 <= k < j && succ[u][k].to == v && v in timeRank && timeRank[v] < timeRank[u]
    {
      assert succ[u][j] in succ[u];
      var to := succ[u][j].to;
      if timeRank[to] < timeRank[u] {
        back := back + {(u, to)};
      }
    }
    forall v | (u, v) in LinkArcs(succ) ensures exists k :: 0 <= k < |succ[u]| && succ[u][k].to == v {
      var l: Link :| l in succ[u] && l.to == v;
      var k :| 0 <= k < |succ[u]| && succ[u][k] == l;
    }
  }

  /** Positions in a total order separate nodes, so the unmarked arcs run strictly forward in time. */
  lemma ForwardInTimeIsAcyclic(succ: Adjacency, timeRank: map<NodeId, nat>, back: set<Pair>)
    requires Closed(succ) && timeRank.Keys == succ.Keys
    requires forall u, v :: u in timeRank && v in timeRank && u != v ==> timeRank[u] != timeRank[v]
    requires forall u, v :: (u, v) in LinkArcs(succ) ==> u != v
    requires forall u, v :: (u, v) in back <==> (u, v) in LinkArcs(succ) && timeRank[v] < timeRank[u]
    ensures Acyclic(LinkArcs(succ) - back)
  {
    var rank: map<NodeId, int> := map v | v in timeRank :: timeRank[v];
    RankedIsAcyclic(LinkArcs(succ) - back, rank);
  }
}
