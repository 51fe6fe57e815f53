/** Deployment plans: which deployment needs which, and when a plan is accepted. */
module DeployPlan {
  import opened Digraph
  import opened Options
  import opened Sequences

  datatype Name = Name(text: string)

  /** A plan maps each of its deployments to the deployments it needs first. */
  type Plan = map<Name, seq<Name>>

  /** The arcs run from a needed deployment to the one that needs it. */
  ghost function NeedArcs(p: Plan): set<(Name, Name)> {
    set n, d | n in p && d in p[n] :: (d, n)
  }

  ghost predicate ClosedPlan(p: Plan) {
    forall n, d :: n in p && d in p[n] ==> d in p
  }

  /** What loading a configuration guarantees about each of its plans. */
  ghost predicate AcceptedPlan(p: Plan, deployments: set<Name>) {
    && p.Keys != {} && p.Keys <= deployments
    && ClosedPlan(p)
    && Acyclic(NeedArcs(p))
  }

  /** Every name that occurs in a plan, whether or not it has an entry of its own. */
  ghost function AllNames(p: Plan): set<Name> {
    p.Keys + set n, d | n in p && d in p[n] :: d
  }

  /** The map lookup of the original: a missing entry needs nothing. */
  function Needs(p: Plan, n: Name): seq<Name> {
    if n in p then p[n] else []
  }

  const VISITING: nat := 1
  const VISITED: nat := 2

  /** The states of the recursive search. `trail` lists the names being visited, innermost first, and
      `finished` the visited ones in finishing order: whatever a finished name needs finished before. */
  ghost predicate SearchState(p: Plan, states: map<Name, nat>, trail: seq<Name>, finished: seq<Name>) {
    && (forall n :: n in states ==> n in AllNames(p) && (states[n] == VISITING || states[n] == VISITED))
    && (forall n :: n in trail <==> n in states && states[n] == VISITING)
    && (forall n :: n in finished <==> n in states && states[n] == VISITED)
    && (trail == [] || Walk(NeedArcs(p), trail))
    && NeedsFirst(p, finished)
  }

  ghost predicate NeedsFirst(p: Plan, finished: seq<Name>) {
    forall i, d :: 0 <= i < |finished| && d in Needs(p, finished[i]) ==> d in finished[..i]
  }

  lemma EnterKeepsState(p: Plan, states: map<Name, nat>, trail: seq<Name>, finished: seq<Name>, name: Name)
    requires SearchState(p, states, trail, finished)
    requires name in AllNames(p) && name !in states
    requires trail == [] || (name, trail[0]) in NeedArcs(p)
    ensures SearchState(p, states[name := VISITING], [name] + trail, finished)
  {
    var t := [name] + trail;
    forall i | 0 < i < |t| ensures (t[i-1], t[i]) in NeedArcs(p) {
      if i > 1 { assert (trail[i-2], trail[i-1]) in NeedArcs(p); }
    }
  }

  lemma LeaveKeepsState(p: Plan, states: map<Name, nat>, trail: seq<Name>, finished: seq<Name>, name: Name)
    requires SearchState(p, states, [name] + trail, finished)
    requires name !in trail && forall d :: d in Needs(p, name) ==> d in finished
    ensures SearchState(p, states[name := VISITED], trail, finished + [name])
  {
    WalkTail(NeedArcs(p), name, trail);
    NeedsFirstGrows(p, finished, name);
    assert forall n :: n in [name] + trail <==> n == name || n in trail;
  }

  lemma WalkTail(arcs: set<(Name, Name)>, name: Name, trail: seq<Name>)
    requires Walk(arcs, [name] + trail)
    ensures trail == [] || Walk(arcs, trail)
  {
    var t := [name] + trail;
    forall i | 0 < i < |trail| ensures (trail[i-1], trail[i]) in arcs {
      assert (t[i], t[i+1]) in arcs;
    }
  }

  lemma NeedsFirstGrows(p: Plan, finished: seq<Name>, name: Name)
    requires NeedsFirst(p, finished) && forall d :: d in Needs(p, name) ==> d in finished
    ensures NeedsFirst(p, finished + [name])
  {
    var f := finished + [name];
    forall i, d | 0 <= i < |f| && d in Needs(p, f[i]) ensures d in f[..i] {
      if i < |finished| { assert f[..i] == finished[..i]; } else { assert f[..i] == finished; }
    }
  }

  /** Meeting a name that is being visited closes a cycle through it. */
  lemma RevisitClosesCycle(p: Plan, trail: seq<Name>, name: Name)
    requires trail != [] && Walk(NeedArcs(p), trail) && name in trail && (name, trail[0]) in NeedArcs(p)
    ensures OnCycle(NeedArcs(p), name)
  {
    var k :| 0 <= k < |trail| && trail[k] == name;
    var c := [name] + trail[..k+1];
    forall i | 0 < i < |c| ensures (c[i-1], c[i]) in NeedArcs(p) {
      if i > 1 { assert (trail[i-2], trail[i-1]) in NeedArcs(p); }
    }
    assert Connects(NeedArcs(p), c, name, name);
  }

  /** The depth-first validator; its state map is written during the recursion. */
  class Validator {
    var states: map<Name, nat>
    ghost var finished: seq<Name>

    constructor ()
      ensures states == map[] && finished == []
    {
      states := map[];
      finished := [];
    }

    method Visit(p: Plan, name: Name, ghost trail: seq<Name>) returns (err: Option<Name>)
      requires SearchState(p, states, trail, finished)
      requires name in AllNames(p)
      requires trail == [] || (name, trail[0]) in NeedArcs(p)
      modifies this
      ensures err.None? ==> SearchState(p, states, trail, finished) && name in finished
      ensures err.None? ==> old(finished) <= finished && old(states.Keys) <= states.Keys
      ensures err.Some? ==> OnCycle(NeedArcs(p), err.value)
      decreases AllNames(p) - states.Keys
    {
      var state := if name in states then states[name] else 0;
      if state == VISITING {
        RevisitClosesCycle(p, trail, name);
        return Some(name);
      }
      if state == VISITED {
        return None;
      }
      EnterKeepsState(p, states, trail, finished, name);
      states := states[name := VISITING];
      assert name in AllNames(p) - old(states.Keys);
      var needs := Needs(p, name);
      for i := 0 to |needs|
        invariant SearchState(p, states, [name] + trail, finished)
        invariant old(finished) <= finished && old(states.Keys) + {name} <= states.Keys
        invariant forall j :: 0 <= j < i ==> needs[j] in finished
      {
        assert needs[i] in p[name] && (needs[i], name) in NeedArcs(p);
        var e := Visit(p, needs[i], [name] + trail);
        if e.Some? {
          return e;
        }
      }
      LeaveKeepsState(p, states, trail, finished, name);
      states := states[name := VISITED];
      finished := finished + [name];
      err := None;
    }
  }

  lemma FinishedIsAcyclic(p: Plan, finished: seq<Name>)
    requires NeedsFirst(p, finished)
    requires forall n :: n in p ==> n in finished
    ensures Acyclic(NeedArcs(p))
  {
    var rank: map<Name, int> := map n | n in finished :: var i: int := IndexIn(finished, n); i;
    forall d, n | (d, n) in NeedArcs(p) ensures d in rank && n in rank && rank[d] < rank[n] {
      var i := IndexIn(finished, n);
      assert d in Needs(p, finished[i]);
      var k :| 0 <= k < i && finished[k] == d;
      assert finished[..i][k] == d;
      FirstIndexIsLeast(finished, d, k);
    }
    RankedIsAcyclic(NeedArcs(p), rank);
  }

  lemma FirstIndexIsLeast(s: seq<Name>, x: Name, k: nat)
    requires k < |s| && s[k] == x
    ensures IndexIn(s, x) <= k
  {
    var i := IndexIn(s, x);
    assert forall j :: 0 <= j < i ==> s[..i][j] == s[j];
  }

  /** The validator accepts exactly the plans without a cycle, whatever order the names come in, and
      the deployment it reports really lies on one. */
  method ValidatePlanAcyclic(p: Plan) returns (err: Option<Name>)
    ensures err.None? <==> Acyclic(NeedArcs(p))
    ensures err.Some? ==> OnCycle(NeedArcs(p), err.value)
  {
    var validator := new Validator();
    var todo := p.Keys;
    while todo != {}
      invariant SearchState(p, validator.states, [], validator.finished)
      invariant todo <= p.Keys
      invariant forall n :: n in p && n !in todo ==> n in validator.finished
      decreases todo
    {
      var name :| name in todo;
      var e := validator.Visit(p, name, []);
      if e.Some? {
        return e;
      }
      todo := todo - {name};
    }
    FinishedIsAcyclic(p, validator.finished);
    err := None;
  }

  datatype LoadError = Empty | UnknownDeployment(name: Name) | UnknownNeed(name: Name, need: Name) | Cyclic(name: Name)

  /** The plan checks of loading a configuration. A plan passes exactly when it is accepted, and an
      error names a real defect. */
  method CheckPlan(p: Plan, deployments: set<Name>) returns (err: Option<LoadError>)
    ensures err.None? <==> AcceptedPlan(p, deployments)
    ensures err.Some? ==> match err.value
      case Empty => p.Keys == {}
      case UnknownDeployment(n) => n in p && n !in deployments
      case UnknownNeed(n, d) => n in p && d in p[n] && d !in p
      case Cyclic(n) => OnCycle(NeedArcs(p), n)
  {
    if p.Keys == {} {
      return Some(Empty);
    }
    var todo := p.Keys;
    while todo != {}
      invariant todo <= p.Keys
      invariant forall n :: n in p && n !in todo ==> n in deployments && forall d :: d in p[n] ==> d in p
      decreases todo
    {
      var name :| name in todo;
      if name !in deployments {
        return Some(UnknownDeployment(name));
      }
      for i := 0 to |p[name]|
        invariant forall j :: 0 <= j < i ==> p[name][j] in p
      {
        if p[name][i] !in p {
          return Some(UnknownNeed(name, p[name][i]));
        }
      }
      todo := todo - {name};
    }
    var e := ValidatePlanAcyclic(p);
    err := if e.Some? then Some(Cyclic(e.value)) else None;
  }
}
