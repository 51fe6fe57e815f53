/** Reading a deployment declaration that includes others: the include graph is unfolded depth first
    and the file read last decides each name. */
module ConfigInclude {
  import DeployPlan
  import opened Digraph

  /** An absolute file path. */
  datatype Path = Path(text: string)

  type Name = DeployPlan.Name

  /** The body of a deployment or of a plan; its contents play no part in merging. */
  datatype Definition = Definition(body: string)

  datatype Config = Config(deployments: map<Name, Definition>, plans: map<Name, Definition>)

  datatype File = File(includes: seq<Path>, own: Config)

  /** The readable files; reading any other path fails. */
  type Files = map<Path, File>

  datatype Reading = Read(config: Config) | CycleAt(path: Path) | Unreadable(path: Path)

  ghost function IncludeArcs(files: Files): set<(Path, Path)> {
    set f, i | f in files && i in files[f].includes :: (f, i)
  }

  // ----- the unfolding of an include graph

  /** The tree of files that an include declaration stands for; a file included twice occurs twice. */
  datatype Tree = Node(file: Path, children: seq<Tree>)

  ghost predicate Unfolds(files: Files, t: Tree) {
    && t.file in files
    && |t.children| == |files[t.file].includes|
    && forall i :: 0 <= i < |t.children| ==>
         t.children[i].file == files[t.file].includes[i] && Unfolds(files, t.children[i])
  }

  /** The files of a tree, each after everything it includes. */
  ghost function PostOrder(t: Tree): seq<Path> {
    ForestOrder(t.children) + [t.file]
  }

  ghost function ForestOrder(ts: seq<Tree>): seq<Path> {
    if ts == [] then [] else ForestOrder(ts[..|ts|-1]) + PostOrder(ts[|ts|-1])
  }

  ghost function Height(t: Tree): nat {
    ForestHeight(t.children)
  }

  /** One more than the greatest height, zero for no tree at all. */
  ghost function ForestHeight(ts: seq<Tree>): nat {
    if ts == [] then 0
    else
      var h := ForestHeight(ts[..|ts|-1]);
      if Height(ts[|ts|-1]) + 1 > h then Height(ts[|ts|-1]) + 1 else h
  }

  lemma {:induction false} ChildIsLower(ts: seq<Tree>, i: nat)
    requires i < |ts|
    ensures Height(ts[i]) < ForestHeight(ts)
    decreases |ts|
  {
    if i < |ts| - 1 {
      assert ts[..|ts|-1][i] == ts[i];
      ChildIsLower(ts[..|ts|-1], i);
    }
  }

  /** A file has at most one unfolding. */
  lemma {:induction false} UnfoldingIsUnique(files: Files, s: Tree, t: Tree)
    requires Unfolds(files, s) && Unfolds(files, t) && s.file == t.file
    ensures s == t
    decreases s
  {
    forall i | 0 <= i < |s.children| ensures s.children[i] == t.children[i] {
      UnfoldingIsUnique(files, s.children[i], t.children[i]);
    }
    assert s.children == t.children;
  }

  /** A walk along includes leads to a subtree, lower by the length of the walk. */
  lemma {:induction false} SubtreeAlong(files: Files, t: Tree, p: seq<Path>) returns (s: Tree)
    requires Unfolds(files, t) && Walk(IncludeArcs(files), p) && p[0] == t.file
    ensures Unfolds(files, s) && s.file == p[|p|-1] && Height(s) + |p| - 1 <= Height(t)
    decreases |p|
  {
    if |p| == 1 {
      s := t;
    } else {
      assert (p[0], p[1]) in IncludeArcs(files);
      var i :| 0 <= i < |files[t.file].includes| && files[t.file].includes[i] == p[1];
      ChildIsLower(t.children, i);
      var q := p[1..];
      assert Walk(IncludeArcs(files), q) by {
        forall k | 0 < k < |q| ensures (q[k-1], q[k]) in IncludeArcs(files) {
          assert (p[k], p[k+1]) in IncludeArcs(files);
        }
      }
      s := SubtreeAlong(files, t.children[i], q);
    }
  }

  /** Everything reachable is readable and no include cycle is reachable. */
  ghost predicate Loadable(files: Files, root: Path) {
    forall x :: Reaches(IncludeArcs(files), root, x) ==> x in files && !OnCycle(IncludeArcs(files), x)
  }

  lemma UnfoldingIsLoadable(files: Files, t: Tree)
    requires Unfolds(files, t)
    ensures Loadable(files, t.file)
  {
    forall x | Reaches(IncludeArcs(files), t.file, x) ensures x in files && !OnCycle(IncludeArcs(files), x) {
      var p :| Connects(IncludeArcs(files), p, t.file, x);
      var s := SubtreeAlong(files, t, p);
      if OnCycle(IncludeArcs(files), x) {
        var c :| Connects(IncludeArcs(files), c, x, x) && |c| > 1;
        var u := SubtreeAlong(files, s, c);
        UnfoldingIsUnique(files, s, u);
        assert false;
      }
    }
  }

  // ----- which definition wins

  /** Position i holds the last file of the list that defines n. */
  ghost predicate LastDefiner(defs: seq<map<Name, Definition>>, i: int, n: Name) {
    0 <= i < |defs| && n in defs[i] && forall j :: i < j < |defs| ==> n !in defs[j]
  }

  /** Exactly the defined names are bound, each to its last definition. */
  ghost predicate LastWins(defs: seq<map<Name, Definition>>, bound: map<Name, Definition>) {
    && (forall n :: n in bound ==> exists i :: LastDefiner(defs, i, n))
    && (forall i, n :: LastDefiner(defs, i, n) ==> n in bound && bound[n] == defs[i][n])
  }

  ghost function DeploymentDefs(files: Files, order: seq<Path>): seq<map<Name, Definition>>
    requires forall i :: 0 <= i < |order| ==> order[i] in files
  {
    seq(|order|, i requires 0 <= i < |order| => files[order[i]].own.deployments)
  }

  ghost function PlanDefs(files: Files, order: seq<Path>): seq<map<Name, Definition>>
    requires forall i :: 0 <= i < |order| ==> order[i] in files
  {
    seq(|order|, i requires 0 <= i < |order| => files[order[i]].own.plans)
  }

  /** The merged declaration of a list of files. */
  ghost predicate Merges(files: Files, order: seq<Path>, config: Config) {
    && (forall i :: 0 <= i < |order| ==> order[i] in files)
    && LastWins(DeploymentDefs(files, order), config.deployments)
    && LastWins(PlanDefs(files, order), config.plans)
  }

  lemma LaterFilesWin(a: seq<map<Name, Definition>>, x: map<Name, Definition>,
                      b: seq<map<Name, Definition>>, y: map<Name, Definition>)
    requires LastWins(a, x) && LastWins(b, y)
    ensures LastWins(a + b, x + y)
  {
    var d := a + b;
    forall n | n in x + y ensures exists i :: LastDefiner(d, i, n) {
      if n in y {
        var i :| LastDefiner(b, i, n);
        assert LastDefiner(d, |a| + i, n) by { DefinerShift(a, b, i, n); }
      } else {
        var i :| LastDefiner(a, i, n);
        NotDefined(b, y, n);
        assert LastDefiner(d, i, n);
      }
    }
    forall i, n | LastDefiner(d, i, n) ensures n in x + y && (x + y)[n] == d[i][n] {
      if i < |a| {
        NotLater(a, b, y, i, n);
        assert LastDefiner(a, i, n) by {
          forall j | i < j < |a| ensures n !in a[j] { assert n !in d[j]; }
        }
      } else {
        assert LastDefiner(b, i - |a|, n) by {
          forall j | i - |a| < j < |b| ensures n !in b[j] { assert n !in d[|a| + j]; }
        }
      }
    }
  }

  lemma DefinerShift(a: seq<map<Name, Definition>>, b: seq<map<Name, Definition>>, i: int, n: Name)
    requires LastDefiner(b, i, n)
    ensures LastDefiner(a + b, |a| + i, n)
  {
  }

  lemma NotLater(a: seq<map<Name, Definition>>, b: seq<map<Name, Definition>>, y: map<Name, Definition>, i: int, n: Name)
    requires LastWins(b, y) && LastDefiner(a + b, i, n) && i < |a|
    ensures n !in y
  {
    assert forall j :: 0 <= j < |b| ==> b[j] == (a + b)[|a| + j];
    assert forall j :: 0 <= j < |b| ==> n !in b[j];
  }

  lemma NotDefined(b: seq<map<Name, Definition>>, y: map<Name, Definition>, n: Name)
    requires LastWins(b, y) && n !in y
    ensures forall j :: 0 <= j < |b| ==> n !in b[j]
  {
    assert forall i :: !LastDefiner(b, i, n);
    if j :| 0 <= j < |b| && n in b[j] {
      var k := LastOccurrence(b, n);
    }
  }

  lemma {:induction false} LastOccurrence(b: seq<map<Name, Definition>>, n: Name) returns (k: nat)
    requires exists j :: 0 <= j < |b| && n in b[j]
    ensures LastDefiner(b, k, n)
    decreases |b|
  {
    if n in b[|b|-1] {
      k := |b| - 1;
    } else {
      var c := b[..|b|-1];
      var j :| 0 <= j < |b| && n in b[j];
      assert c[j] == b[j];
      k := LastOccurrence(c, n);
    }
  }

  lemma MergesJoin(files: Files, o1: seq<Path>, c1: Config, o2: seq<Path>, c2: Config)
    requires Merges(files, o1, c1) && Merges(files, o2, c2)
    ensures Merges(files, o1 + o2, Config(c1.deployments + c2.deployments, c1.plans + c2.plans))
  {
    LaterFilesWin(DeploymentDefs(files, o1), c1.deployments, DeploymentDefs(files, o2), c2.deployments);
    LaterFilesWin(PlanDefs(files, o1), c1.plans, PlanDefs(files, o2), c2.plans);
    assert DeploymentDefs(files, o1 + o2) == DeploymentDefs(files, o1) + DeploymentDefs(files, o2);
    assert PlanDefs(files, o1 + o2) == PlanDefs(files, o1) + PlanDefs(files, o2);
  }

  lemma OwnFileMerges(files: Files, f: Path)
    requires f in files
    ensures Merges(files, [f], files[f].own)
  {
    assert forall n :: n in files[f].own.deployments ==> LastDefiner(DeploymentDefs(files, [f]), 0, n);
    assert forall n :: n in files[f].own.plans ==> LastDefiner(PlanDefs(files, [f]), 0, n);
  }

  /** Copies every entry of src over dst, in any order. */
  method MergeMap(dst: map<Name, Definition>, src: map<Name, Definition>) returns (r: map<Name, Definition>)
    ensures r == dst + src
  {
    r := dst;
    var todo := src.Keys;
    while todo != {}
      invariant todo <= src.Keys
      invariant r.Keys == dst.Keys + (src.Keys - todo)
      invariant forall n :: n in r ==> r[n] == if n in src && n !in todo then src[n] else dst[n]
      decreases todo
    {
      var n :| n in todo;
      r := r[n := src[n]];
      todo := todo - {n};
    }
  }

  // ----- reading

  /** Reads a file below its including ancestors, outermost first. */
  method ReadBelow(files: Files, filename: Path, ancestors: seq<Path>) returns (r: Reading, ghost t: Tree)
    requires Walk(IncludeArcs(files), ancestors + [filename])
    ensures r.Read? ==> Unfolds(files, t) && t.file == filename && Merges(files, PostOrder(t), r.config)
    ensures r.CycleAt? ==>
      Reaches(IncludeArcs(files), (ancestors + [filename])[0], r.path) && OnCycle(IncludeArcs(files), r.path)
    ensures r.Unreadable? ==> Reaches(IncludeArcs(files), (ancestors + [filename])[0], r.path) && r.path !in files
    decreases files.Keys - (set a | a in ancestors)
  {
    t := Node(filename, []);
    ghost var here := ancestors + [filename];
    assert Connects(IncludeArcs(files), here, here[0], filename);
    if filename in ancestors {
      AncestorClosesCycle(files, ancestors, filename);
      return CycleAt(filename), t;
    }
    if filename !in files {
      return Unreadable(filename), t;
    }
    var includes := files[filename].includes;
    var merged := Config(map[], map[]);
    ghost var children: seq<Tree> := [];
    for i := 0 to |includes|
      invariant |children| == i
      invariant forall k :: 0 <= k < i ==> children[k].file == includes[k] && Unfolds(files, children[k])
      invariant Merges(files, ForestOrder(children), merged)
    {
      StepBelow(files, ancestors, filename, i);
      var included, child := ReadBelow(files, includes[i], ancestors + [filename]);
      if !included.Read? {
        return included, t;
      }
      MergesJoin(files, ForestOrder(children), merged, PostOrder(child), included.config);
      var deployments := MergeMap(merged.deployments, included.config.deployments);
      var plans := MergeMap(merged.plans, included.config.plans);
      merged := Config(deployments, plans);
      assert (children + [child])[..i] == children;
      children := children + [child];
    }
    OwnFileMerges(files, filename);
    MergesJoin(files, ForestOrder(children), merged, [filename], files[filename].own);
    var deployments := MergeMap(merged.deployments, files[filename].own.deployments);
    var plans := MergeMap(merged.plans, files[filename].own.plans);
    r := Read(Config(deployments, plans));
    t := Node(filename, children);
  }

  lemma StepBelow(files: Files, ancestors: seq<Path>, filename: Path, i: nat)
    requires filename in files && i < |files[filename].includes| && filename !in ancestors
    requires Walk(IncludeArcs(files), ancestors + [filename])
    ensures Walk(IncludeArcs(files), ancestors + [filename] + [files[filename].includes[i]])
    ensures (ancestors + [filename] + [files[filename].includes[i]])[0] == (ancestors + [filename])[0]
    ensures files.Keys - (set a | a in ancestors + [filename]) < files.Keys - (set a | a in ancestors)
  {
    var w := ancestors + [filename];
    var v := w + [files[filename].includes[i]];
    forall k | 0 < k < |v| ensures (v[k-1], v[k]) in IncludeArcs(files) {
      if k < |w| { assert (w[k-1], w[k]) in IncludeArcs(files); }
    }
    assert filename in files.Keys - (set a | a in ancestors);
    assert filename in w;
    assert forall a :: a in ancestors ==> a in w;
  }

  lemma AncestorClosesCycle(files: Files, ancestors: seq<Path>, filename: Path)
    requires filename in ancestors && Walk(IncludeArcs(files), ancestors + [filename])
    ensures OnCycle(IncludeArcs(files), filename)
  {
    var w := ancestors + [filename];
    var k :| 0 <= k < |ancestors| && ancestors[k] == filename;
    var c := w[k..];
    forall j | 0 < j < |c| ensures (c[j-1], c[j]) in IncludeArcs(files) {
      assert (w[k+j-1], w[k+j]) in IncludeArcs(files);
    }
    assert Connects(IncludeArcs(files), c, filename, filename);
  }

  /** Reading succeeds exactly when every file it can reach is readable and lies on no include cycle.
      Then each name is bound to its last definition in the post-order of the unfolding, so the including
      file wins and a file reached along two paths counts at both places. */
  method ReadConfig(files: Files, root: Path) returns (r: Reading, ghost t: Tree)
    ensures r.Read? <==> Loadable(files, root)
    ensures r.Read? ==> Unfolds(files, t) && t.file == root && Merges(files, PostOrder(t), r.config)
    ensures r.CycleAt? ==> Reaches(IncludeArcs(files), root, r.path) && OnCycle(IncludeArcs(files), r.path)
    ensures r.Unreadable? ==> Reaches(IncludeArcs(files), root, r.path) && r.path !in files
  {
    r, t := ReadBelow(files, root, []);
    if r.Read? {
      UnfoldingIsLoadable(files, t);
    }
  }

  /** The declaration's own deployments and plans always win over included ones of the same name. */
  lemma IncludingFileWins(files: Files, t: Tree, config: Config, n: Name)
    requires Unfolds(files, t) && Merges(files, PostOrder(t), config)
    ensures n in files[t.file].own.deployments ==>
              n in config.deployments && config.deployments[n] == files[t.file].own.deployments[n]
    ensures n in files[t.file].own.plans ==>
              n in config.plans && config.plans[n] == files[t.file].own.plans[n]
  {
    var order := PostOrder(t);
    assert order[|order|-1] == t.file;
    if n in files[t.file].own.deployments {
      assert LastDefiner(DeploymentDefs(files, order), |order| - 1, n);
    }
    if n in files[t.file].own.plans {
      assert LastDefiner(PlanDefs(files, order), |order| - 1, n);
    }
  }
}
