/** The textbook depth-first search, by recursion over the successor lists, as a reference for the search that
    runs on an explicit stack. */
module DepthFirst {
  import opened ApiNodes
  import opened LayoutModel

  datatype Outcome = Outcome(visited: set<NodeId>, marks: set<(NodeId, NodeId)>)

  /** Visits what is left of node v, from its successor with index i on. An arc to a node on the path that is
      being visited is marked, and a node visited before is not entered again. */
  ghost function Visit(succ: Adjacency, visited: set<NodeId>, path: set<NodeId>, v: NodeId, i: nat): (r: Outcome)
    requires Closed(succ) && v in succ && i <= |succ[v]|
    ensures visited <= r.visited
    decreases succ.Keys - visited, |succ[v]| - i
  {
    if i == |succ[v]| then Outcome(visited, {})
    else
      assert succ[v][i] in succ[v];
      var w := succ[v][i].to;
      if w in path then
        var rest := Visit(succ, visited, path, v, i + 1);
        Outcome(rest.visited, {(v, w)} + rest.marks)
      else if w in visited then Visit(succ, visited, path, v, i + 1)
      else
        var below := Visit(succ, visited + {w}, path + {w}, w, 0);
        var rest := Visit(succ, below.visited, path, v, i + 1);
        Outcome(rest.visited, below.marks + rest.marks)
  }

  /** Visits the start nodes in turn, leaving out those that have been visited. */
  ghost function VisitAll(succ: Adjacency, visited: set<NodeId>, starts: seq<NodeId>): Outcome
    requires Closed(succ) && forall v :: v in starts ==> v in succ
    decreases |starts|
  {
    if starts == [] then Outcome(visited, {})
    else if starts[0] in visited then VisitAll(succ, visited, starts[1..])
    else
      var first := Visit(succ, visited + {starts[0]}, {starts[0]}, starts[0], 0);
      var rest := VisitAll(succ, first.visited, starts[1..]);
      Outcome(rest.visited, first.marks + rest.marks)
  }
}
