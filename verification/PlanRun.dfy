/** Running an accepted plan: rounds of ready deployments, with the dependents of failures skipped. */
module PlanRun {
  import opened Digraph
  import opened Options
  import opened Sequences
  import opened DeployPlan

  /** The outcome of every activation job: `fails(n, j)` says whether job j of deployment n fails. Every
      job runs at most once, so an arbitrary oracle stands for arbitrary outcomes. */
  datatype Jobs = Jobs(count: map<Name, nat>, fails: (Name, nat) -> bool)

  function JobCount(jobs: Jobs, n: Name): nat {
    if n in jobs.count then jobs.count[n] else 0
  }

  /** One of the jobs that are listed for a deployment, with a failing outcome. */
  ghost predicate IsFailingJob(jobs: Jobs, n: Name, j: int) {
    n in jobs.count && 0 <= j < jobs.count[n] && jobs.fails(n, j)
  }

  ghost predicate JobsFail(jobs: Jobs, n: Name) {
    exists j :: IsFailingJob(jobs, n, j)
  }

  /** Neither the deployment nor anything it transitively needs has a failing job. */
  ghost predicate Healthy(p: Plan, jobs: Jobs, n: Name) {
    forall m :: Reaches(NeedArcs(p), m, n) ==> !JobsFail(jobs, m)
  }

  datatype RunError =
    | UploadFailed
    | Skipped(name: Name, blockedBy: seq<Name>)
    | JobFailed(name: Name, job: nat)
    | NoProgress

  /** The scheduler's three sets, the rounds it has run, and the round in which each deployment ran. */
  datatype Run = Run(pending: set<Name>, succeeded: set<Name>, failed: set<Name>,
                     waves: seq<seq<Name>>, ranIn: map<Name, nat>)

  ghost predicate NeedsMet(p: Plan, succeeded: set<Name>, n: Name) {
    forall d :: d in Needs(p, n) ==> d in succeeded
  }

  ghost predicate HasFailedNeed(p: Plan, failed: set<Name>, n: Name) {
    exists d :: d in Needs(p, n) && d in failed
  }

  /** Some need of n ran in the round before round k. */
  ghost predicate NeedRanBefore(p: Plan, ranIn: map<Name, nat>, n: Name, k: nat) {
    exists d :: d in Needs(p, n) && d in ranIn && ranIn[d] + 1 == k
  }

  ghost predicate Partition(p: Plan, r: Run) {
    && r.pending + r.succeeded + r.failed == p.Keys
    && r.pending !! r.succeeded && r.pending !! r.failed && r.succeeded !! r.failed
    && r.succeeded <= r.ranIn.Keys && r.ranIn.Keys <= r.succeeded + r.failed
  }

  /** Whoever ran did so after everything it needs had succeeded in earlier rounds, and as soon as that
      was the case. */
  ghost predicate RanInTime(p: Plan, succeeded: set<Name>, ranIn: map<Name, nat>, rounds: nat) {
    && (forall n :: n in ranIn ==> ranIn[n] < rounds)
    && RanAfterAllNeeds(p, succeeded, ranIn)
    && RanAtOnce(p, ranIn)
  }

  ghost predicate RanAfterAllNeeds(p: Plan, succeeded: set<Name>, ranIn: map<Name, nat>) {
    forall n, d :: n in ranIn && d in Needs(p, n) ==> d in succeeded && d in ranIn && ranIn[d] < ranIn[n]
  }

  ghost predicate RanAtOnce(p: Plan, ranIn: map<Name, nat>) {
    forall n {:trigger NeedRanBefore(p, ranIn, n, ranIn[n])} :: n in ranIn ==>
      ranIn[n] == 0 || NeedRanBefore(p, ranIn, n, ranIn[n])
  }

  /** Success means healthy, failure means unhealthy, and whoever failed without running has a failed need. */
  ghost predicate Outcomes(p: Plan, jobs: Jobs, succeeded: set<Name>, failed: set<Name>, ran: set<Name>) {
    && (forall n :: n in succeeded ==> Healthy(p, jobs, n))
    && AllUnhealthy(p, jobs, failed)
    && SkippedForFailure(p, failed, ran)
  }

  ghost predicate AllUnhealthy(p: Plan, jobs: Jobs, failed: set<Name>) {
    forall n :: n in failed ==> !Healthy(p, jobs, n)
  }

  ghost predicate SkippedForFailure(p: Plan, failed: set<Name>, ran: set<Name>) {
    forall n {:trigger HasFailedNeed(p, failed, n)} :: n in failed && n !in ran ==> HasFailedNeed(p, failed, n)
  }

  ghost predicate WavesMatch(waves: seq<seq<Name>>, ranIn: map<Name, nat>) {
    && (forall i, n :: 0 <= i < |waves| ==> (n in waves[i] <==> n in ranIn && ranIn[n] == i))
    && (forall i :: 0 <= i < |waves| ==> NoDuplicates(waves[i]))
  }

  /** A pending deployment whose needs are all met became ready in the round just run. */
  ghost predicate JustReady(p: Plan, pending: set<Name>, succeeded: set<Name>, ranIn: map<Name, nat>, rounds: nat) {
    forall n {:trigger NeedRanBefore(p, ranIn, n, rounds)} :: n in pending && NeedsMet(p, succeeded, n) ==>
      rounds == 0 || NeedRanBefore(p, ranIn, n, rounds)
  }

  ghost predicate RunInvariant(p: Plan, jobs: Jobs, r: Run) {
    && Partition(p, r)
    && RanInTime(p, r.succeeded, r.ranIn, |r.waves|)
    && Outcomes(p, jobs, r.succeeded, r.failed, r.ranIn.Keys)
    && WavesMatch(r.waves, r.ranIn)
    && JustReady(p, r.pending, r.succeeded, r.ranIn, |r.waves|)
  }

  // ----- health along the needs

  lemma HealthyStep(p: Plan, jobs: Jobs, n: Name)
    requires n in p && !JobsFail(jobs, n)
    requires forall d :: d in Needs(p, n) ==> Healthy(p, jobs, d)
    ensures Healthy(p, jobs, n)
  {
    forall m | Reaches(NeedArcs(p), m, n) ensures !JobsFail(jobs, m) {
      var w :| Connects(NeedArcs(p), w, m, n);
      if |w| > 1 {
        var d := w[|w|-2];
        assert (d, w[|w|-1]) in NeedArcs(p);
        assert Connects(NeedArcs(p), w[..|w|-1], m, d);
        assert Reaches(NeedArcs(p), m, d) && Healthy(p, jobs, d);
      }
    }
  }

  lemma UnhealthyNeed(p: Plan, jobs: Jobs, n: Name, d: Name)
    requires n in p && d in Needs(p, n) && !Healthy(p, jobs, d)
    ensures !Healthy(p, jobs, n)
  {
    var m :| Reaches(NeedArcs(p), m, d) && JobsFail(jobs, m);
    ArcReaches(NeedArcs(p), d, n);
    ReachesTransitive(NeedArcs(p), m, d, n);
  }

  lemma UnhealthyJobs(p: Plan, jobs: Jobs, n: Name)
    requires JobsFail(jobs, n)
    ensures !Healthy(p, jobs, n)
  {
    ArcReaches(NeedArcs(p), n, n);
  }

  // ----- the steps of a round

  ghost function Block(r: Run, n: Name): Run {
    r.(pending := r.pending - {n}, failed := r.failed + {n})
  }

  lemma BlockKeepsInvariant(p: Plan, jobs: Jobs, r: Run, n: Name)
    requires RunInvariant(p, jobs, r) && n in r.pending && HasFailedNeed(p, r.failed, n)
    ensures RunInvariant(p, jobs, Block(r, n))
  {
    BlockKeepsPartition(p, r, n);
    BlockKeepsOutcomes(p, jobs, r, n);
    BlockKeepsReadiness(p, r, n);
  }

  lemma BlockKeepsPartition(p: Plan, r: Run, n: Name)
    requires Partition(p, r) && n in r.pending
    ensures Partition(p, Block(r, n))
  {
  }

  lemma BlockKeepsReadiness(p: Plan, r: Run, n: Name)
    requires JustReady(p, r.pending, r.succeeded, r.ranIn, |r.waves|)
    ensures JustReady(p, r.pending - {n}, r.succeeded, r.ranIn, |r.waves|)
  {
  }

  lemma BlockKeepsOutcomes(p: Plan, jobs: Jobs, r: Run, n: Name)
    requires Partition(p, r) && n in r.pending && HasFailedNeed(p, r.failed, n)
    requires Outcomes(p, jobs, r.succeeded, r.failed, r.ranIn.Keys)
    ensures Outcomes(p, jobs, r.succeeded, r.failed + {n}, r.ranIn.Keys)
  {
    BlockedIsUnhealthy(p, jobs, r.failed, n);
    MoreFailuresSkip(p, r.failed, r.failed + {n}, r.ranIn.Keys);
  }

  lemma BlockedIsUnhealthy(p: Plan, jobs: Jobs, failed: set<Name>, n: Name)
    requires n in p && AllUnhealthy(p, jobs, failed) && HasFailedNeed(p, failed, n)
    ensures AllUnhealthy(p, jobs, failed + {n})
  {
    var d :| d in Needs(p, n) && d in failed;
    UnhealthyNeed(p, jobs, n, d);
  }

  lemma MoreFailuresSkip(p: Plan, failed: set<Name>, more: set<Name>, ran: set<Name>)
    requires SkippedForFailure(p, failed, ran) && failed <= more
    requires forall n :: n in more && n !in failed && n !in ran ==> HasFailedNeed(p, failed, n)
    ensures SkippedForFailure(p, more, ran)
  {
    forall m | m in more && m !in ran ensures HasFailedNeed(p, more, m) {
      assert HasFailedNeed(p, failed, m);
      var d :| d in Needs(p, m) && d in failed;
    }
  }

  /** All jobs of the ready deployments run; `bad` are those with a failing job. */
  function RunWave(r: Run, ready: seq<Name>, bad: set<Name>): Run {
    var names := set n | n in ready;
    Run(r.pending - names, r.succeeded + (names - bad), r.failed + (names * bad), r.waves + [ready],
        map n | n in r.ranIn.Keys + names :: if n in names then |r.waves| else r.ranIn[n])
  }

  /** The ready deployments are exactly the pending ones whose needs are all met. */
  ghost predicate Ready(p: Plan, r: Run, ready: seq<Name>) {
    NoDuplicates(ready) && forall n :: n in ready <==> n in r.pending && NeedsMet(p, r.succeeded, n)
  }

  lemma WaveKeepsPartition(p: Plan, r: Run, ready: seq<Name>, bad: set<Name>)
    requires Partition(p, r) && Ready(p, r, ready)
    ensures Partition(p, RunWave(r, ready, bad))
  {
  }

  lemma WaveKeepsTimes(p: Plan, r: Run, ready: seq<Name>, bad: set<Name>)
    requires Partition(p, r) && Ready(p, r, ready)
    requires RanInTime(p, r.succeeded, r.ranIn, |r.waves|)
    requires JustReady(p, r.pending, r.succeeded, r.ranIn, |r.waves|)
    ensures var t := RunWave(r, ready, bad); RanInTime(p, t.succeeded, t.ranIn, |t.waves|)
  {
    WaveKeepsNeeds(p, r, ready, bad);
    WaveRunsAtOnce(p, r, ready, bad);
  }

  lemma WaveKeepsNeeds(p: Plan, r: Run, ready: seq<Name>, bad: set<Name>)
    requires Partition(p, r) && Ready(p, r, ready) && RanInTime(p, r.succeeded, r.ranIn, |r.waves|)
    ensures var t := RunWave(r, ready, bad); RanAfterAllNeeds(p, t.succeeded, t.ranIn)
  {
    var t := RunWave(r, ready, bad);
    forall n, d | n in t.ranIn && d in Needs(p, n)
      ensures d in t.succeeded && d in t.ranIn && t.ranIn[d] < t.ranIn[n]
    {
      NeedsRanEarlier(p, r, ready, n, d);
    }
  }

  lemma WaveRunsAtOnce(p: Plan, r: Run, ready: seq<Name>, bad: set<Name>)
    requires Partition(p, r) && Ready(p, r, ready)
    requires RanInTime(p, r.succeeded, r.ranIn, |r.waves|)
    requires JustReady(p, r.pending, r.succeeded, r.ranIn, |r.waves|)
    ensures RanAtOnce(p, RunWave(r, ready, bad).ranIn)
  {
    var t := RunWave(r, ready, bad);
    forall n | n in t.ranIn ensures t.ranIn[n] == 0 || NeedRanBefore(p, t.ranIn, n, t.ranIn[n]) {
      RanBeforeStays(p, r, ready, bad, n);
    }
  }

  lemma NeedsRanEarlier(p: Plan, r: Run, ready: seq<Name>, n: Name, d: Name)
    requires Partition(p, r) && Ready(p, r, ready)
    requires RanInTime(p, r.succeeded, r.ranIn, |r.waves|)
    requires (n in r.ranIn || n in ready) && d in Needs(p, n)
    ensures d in r.succeeded && d in r.ranIn && d !in ready && r.ranIn[d] < |r.waves|
    ensures n in r.ranIn ==> r.ranIn[d] < r.ranIn[n]
  {
    assert n in ready ==> NeedsMet(p, r.succeeded, n);
  }

  lemma RanBeforeStays(p: Plan, r: Run, ready: seq<Name>, bad: set<Name>, n: Name)
    requires Partition(p, r) && Ready(p, r, ready)
    requires RanInTime(p, r.succeeded, r.ranIn, |r.waves|)
    requires JustReady(p, r.pending, r.succeeded, r.ranIn, |r.waves|)
    requires n in RunWave(r, ready, bad).ranIn
    ensures var t := RunWave(r, ready, bad); t.ranIn[n] == 0 || NeedRanBefore(p, t.ranIn, n, t.ranIn[n])
  {
    var t := RunWave(r, ready, bad);
    if n in ready {
      assert NeedsMet(p, r.succeeded, n);
      assert t.ranIn[n] == |r.waves|;
      assert t.ranIn[n] == 0 || NeedRanBefore(p, r.ranIn, n, |r.waves|);
    } else {
      assert t.ranIn[n] == r.ranIn[n];
      assert t.ranIn[n] == 0 || NeedRanBefore(p, r.ranIn, n, r.ranIn[n]);
    }
    if t.ranIn[n] > 0 {
      var d :| d in Needs(p, n) && d in r.ranIn && r.ranIn[d] + 1 == t.ranIn[n];
      assert d !in ready && t.ranIn[d] == r.ranIn[d];
    }
  }

  lemma WaveKeepsOutcomes(p: Plan, jobs: Jobs, r: Run, ready: seq<Name>, bad: set<Name>)
    requires Partition(p, r) && Ready(p, r, ready)
    requires Outcomes(p, jobs, r.succeeded, r.failed, r.ranIn.Keys)
    requires forall n :: n in bad <==> n in ready && JobsFail(jobs, n)
    ensures var t := RunWave(r, ready, bad); Outcomes(p, jobs, t.succeeded, t.failed, t.ranIn.Keys)
  {
    var t := RunWave(r, ready, bad);
    forall n | n in ready && n !in bad ensures Healthy(p, jobs, n) {
      assert NeedsMet(p, r.succeeded, n);
      HealthyStep(p, jobs, n);
    }
    forall n | n in ready && n in bad ensures !Healthy(p, jobs, n) {
      UnhealthyJobs(p, jobs, n);
    }
    assert SkippedForFailure(p, r.failed, t.ranIn.Keys);
    MoreFailuresSkip(p, r.failed, t.failed, t.ranIn.Keys);
  }

  lemma WaveKeepsWaves(p: Plan, r: Run, ready: seq<Name>, bad: set<Name>)
    requires Partition(p, r) && Ready(p, r, ready)
    requires WavesMatch(r.waves, r.ranIn) && RanInTime(p, r.succeeded, r.ranIn, |r.waves|)
    ensures var t := RunWave(r, ready, bad); WavesMatch(t.waves, t.ranIn)
  {
    var t := RunWave(r, ready, bad);
    forall i, n | 0 <= i < |t.waves| ensures n in t.waves[i] <==> n in t.ranIn && t.ranIn[n] == i {
      if i < |r.waves| {
        assert n in r.waves[i] <==> n in r.ranIn && r.ranIn[n] == i;
        assert n in ready ==> n in r.pending;
      }
    }
  }

  lemma WaveKeepsReadiness(p: Plan, r: Run, ready: seq<Name>, bad: set<Name>)
    requires Partition(p, r) && Ready(p, r, ready)
    ensures var t := RunWave(r, ready, bad); JustReady(p, t.pending, t.succeeded, t.ranIn, |t.waves|)
  {
    var t := RunWave(r, ready, bad);
    forall n | n in t.pending && NeedsMet(p, t.succeeded, n) ensures NeedRanBefore(p, t.ranIn, n, |t.waves|) {
      assert !NeedsMet(p, r.succeeded, n);
      var d :| d in Needs(p, n) && d !in r.succeeded;
      assert d in t.succeeded && d in t.ranIn && t.ranIn[d] + 1 == |t.waves|;
    }
  }

  lemma WaveKeepsInvariant(p: Plan, jobs: Jobs, r: Run, ready: seq<Name>, bad: set<Name>)
    requires RunInvariant(p, jobs, r) && Ready(p, r, ready)
    requires forall n :: n in bad <==> n in ready && JobsFail(jobs, n)
    ensures RunInvariant(p, jobs, RunWave(r, ready, bad))
  {
    WaveKeepsPartition(p, r, ready, bad);
    WaveKeepsTimes(p, r, ready, bad);
    WaveKeepsOutcomes(p, jobs, r, ready, bad);
    WaveKeepsWaves(p, r, ready, bad);
    WaveKeepsReadiness(p, r, ready, bad);
  }

  /** Nobody pending is blocked by a failure and nobody is ready. */
  ghost predicate Stuck(p: Plan, r: Run) {
    r.pending != {} && forall n :: n in r.pending ==> !HasFailedNeed(p, r.failed, n) && !NeedsMet(p, r.succeeded, n)
  }

  /** An accepted plan never gets stuck: a pending deployment that is neither blocked nor ready needs
      another pending one, and so on round a cycle. */
  lemma AcceptedNeverStuck(p: Plan, r: Run)
    requires Partition(p, r) && Stuck(p, r) && ClosedPlan(p)
    ensures !Acyclic(NeedArcs(p))
  {
    forall n | n in r.pending ensures FedFrom(NeedArcs(p), r.pending, n) {
      var d :| d in Needs(p, n) && d !in r.succeeded;
      assert d in r.pending && (d, n) in NeedArcs(p);
    }
    var v := NoSourceMeansCycle(NeedArcs(p), r.pending);
  }

  // ----- the scheduler

  /** The deployments an error list speaks of; a stalled plan or a failed upload speaks of none. */
  ghost function ErrorNames(errs: seq<RunError>): set<Name> {
    set e | e in errs && (e.Skipped? || e.JobFailed?) :: e.name
  }

  lemma ErrorNamesJoin(a: seq<RunError>, b: seq<RunError>)
    ensures ErrorNames(a + b) == ErrorNames(a) + ErrorNames(b)
  {
  }

  /** A skipped deployment is blocked by needs that failed; a failed job is a job that ran and fails. */
  ghost predicate TrueError(p: Plan, jobs: Jobs, failed: set<Name>, ran: set<Name>, e: RunError) {
    match e
    case Skipped(n, blockedBy) => |blockedBy| > 0 && forall d :: d in blockedBy ==> d in Needs(p, n) && d in failed
    case JobFailed(n, j) => n in ran && IsFailingJob(jobs, n, j)
    case _ => false
  }

  ghost predicate AllTrue(p: Plan, jobs: Jobs, failed: set<Name>, ran: set<Name>, errs: seq<RunError>) {
    forall e {:trigger TrueError(p, jobs, failed, ran, e)} :: e in errs ==> TrueError(p, jobs, failed, ran, e)
  }

  /** Every failing job of a deployment that ran is reported. */
  ghost predicate AllReported(jobs: Jobs, ran: set<Name>, errs: seq<RunError>) {
    forall n, j :: n in ran && IsFailingJob(jobs, n, j) ==> JobFailed(n, j) in errs
  }

  lemma ErrorsStayTrue(p: Plan, jobs: Jobs, failed: set<Name>, ran: set<Name>, moreFailed: set<Name>, moreRan: set<Name>,
                       errs: seq<RunError>, more: seq<RunError>)
    requires AllTrue(p, jobs, failed, ran, errs) && failed <= moreFailed && ran <= moreRan
    requires AllTrue(p, jobs, moreFailed, moreRan, more)
    ensures AllTrue(p, jobs, moreFailed, moreRan, errs + more)
  {
    forall e {:trigger TrueError(p, jobs, moreFailed, moreRan, e)} | e in errs + more
      ensures TrueError(p, jobs, moreFailed, moreRan, e)
    {
      assert e in errs ==> TrueError(p, jobs, failed, ran, e);
    }
  }

  lemma SkipIsTrue(p: Plan, jobs: Jobs, failed: set<Name>, ran: set<Name>, n: Name, blockedBy: seq<Name>,
                   errs: seq<RunError>)
    requires AllTrue(p, jobs, failed, ran, errs) && |blockedBy| > 0
    requires forall d :: d in blockedBy ==> d in Needs(p, n) && d in failed
    ensures AllTrue(p, jobs, failed + {n}, ran, errs + [Skipped(n, blockedBy)])
  {
    var e := Skipped(n, blockedBy);
    assert TrueError(p, jobs, failed + {n}, ran, e);
    ErrorsStayTrue(p, jobs, failed, ran, failed + {n}, ran, errs, [e]);
  }

  ghost predicate Lists(names: seq<Name>, p: Plan) {
    NoDuplicates(names) && forall n :: n in names <==> n in p
  }

  /** The names of a list that are in a set, in their order. */
  ghost function Among(names: seq<Name>, chosen: set<Name>): seq<Name> {
    if names == [] then []
    else Among(names[..|names|-1], chosen) + if names[|names|-1] in chosen then [names[|names|-1]] else []
  }

  method FailedNeeds(needs: seq<Name>, failed: set<Name>) returns (blockedBy: seq<Name>)
    ensures forall d :: d in blockedBy <==> d in needs && d in failed
    ensures blockedBy == Among(needs, failed)
  {
    blockedBy := [];
    for i := 0 to |needs|
      invariant forall d :: d in blockedBy <==> d in needs[..i] && d in failed
      invariant blockedBy == Among(needs[..i], failed)
    {
      TakeOneMore(needs, i);
      assert needs[..i+1][..i] == needs[..i];
      if needs[i] in failed {
        blockedBy := blockedBy + [needs[i]];
      }
    }
    TakeAll(needs);
  }

  /** The pending and the failed deployments after the blocked ones of a list have been skipped one by one: a
      deployment that is skipped can block later ones. */
  ghost function AfterSkips(p: Plan, names: seq<Name>, pending: set<Name>, failed: set<Name>): (set<Name>, set<Name>) {
    if names == [] then (pending, failed)
    else
      var n, before := names[|names|-1], AfterSkips(p, names[..|names|-1], pending, failed);
      if n in before.0 && HasFailedNeed(p, before.1, n) then (before.0 - {n}, before.1 + {n}) else before
  }

  lemma SkipsNext(p: Plan, names: seq<Name>, i: nat, pending0: set<Name>, failed0: set<Name>, pending: set<Name>,
                  failed: set<Name>)
    requires i < |names| && (pending, failed) == AfterSkips(p, names[..i], pending0, failed0)
    ensures AfterSkips(p, names[..i+1], pending0, failed0)
         == if names[i] in pending && HasFailedNeed(p, failed, names[i]) then (pending - {names[i]}, failed + {names[i]})
            else (pending, failed)
  {
    assert names[..i+1][..i] == names[..i];
  }

  /** The first i names have been looked at. */
  ghost predicate SkippedUpTo(p: Plan, names: seq<Name>, i: nat, jobs: Jobs, r: Run, t: Run, errs: seq<RunError>)
    requires i <= |names|
  {
    && RunInvariant(p, jobs, t)
    && t == r.(pending := t.pending, failed := t.failed) && t.pending <= r.pending
    && (t.pending, t.failed) == AfterSkips(p, names[..i], r.pending, r.failed)
    && t.failed == r.failed + ErrorNames(errs)
    && AllTrue(p, jobs, t.failed, r.ranIn.Keys, errs)
    && (errs == [] ==> t == r && NoneSkippable(p, t, names[..i]))
    && (errs != [] ==> t.pending < r.pending)
  }

  ghost predicate NoneSkippable(p: Plan, t: Run, names: seq<Name>) {
    forall n :: n in names && n in t.pending ==> !HasFailedNeed(p, t.failed, n)
  }

  lemma OneSkipped(p: Plan, names: seq<Name>, i: nat, jobs: Jobs, r: Run, t: Run, errs: seq<RunError>,
                   blockedBy: seq<Name>)
    requires i < |names| && SkippedUpTo(p, names, i, jobs, r, t, errs)
    requires names[i] in t.pending && names[i] in p && |blockedBy| > 0
    requires forall d :: d in blockedBy <==> d in Needs(p, names[i]) && d in t.failed
    ensures SkippedUpTo(p, names, i + 1, jobs, r, Block(t, names[i]), errs + [Skipped(names[i], blockedBy)])
  {
    var n := names[i];
    SkipsNext(p, names, i, r.pending, r.failed, t.pending, t.failed);
    NoneBlocked(p, t.failed, n, blockedBy);
    BlockedStep(p, jobs, t, n, blockedBy);
    SkipIsTrue(p, jobs, t.failed, r.ranIn.Keys, n, blockedBy, errs);
    ErrorNamesJoin(errs, [Skipped(n, blockedBy)]);
  }

  lemma OneKept(p: Plan, names: seq<Name>, i: nat, jobs: Jobs, r: Run, t: Run, errs: seq<RunError>)
    requires i < |names| && SkippedUpTo(p, names, i, jobs, r, t, errs)
    requires !(names[i] in t.pending && HasFailedNeed(p, t.failed, names[i]))
    ensures SkippedUpTo(p, names, i + 1, jobs, r, t, errs)
  {
    TakeOneMore(names, i);
    SkipsNext(p, names, i, r.pending, r.failed, t.pending, t.failed);
  }

  /** Skips every pending deployment with a failed need, in name order; a deployment skipped here can
      block later ones in the same pass. */
  method SkipBlocked(p: Plan, names: seq<Name>, ghost jobs: Jobs, ghost r: Run, pending0: set<Name>, failed0: set<Name>)
    returns (pending: set<Name>, failed: set<Name>, errs: seq<RunError>, ghost t: Run)
    requires Lists(names, p) && RunInvariant(p, jobs, r)
    requires r.pending == pending0 && r.failed == failed0
    ensures RunInvariant(p, jobs, t)
    ensures t == r.(pending := pending, failed := failed) && pending <= pending0
    ensures (pending, failed) == AfterSkips(p, names, pending0, failed0)
    ensures failed == failed0 + ErrorNames(errs)
    ensures AllTrue(p, jobs, failed, r.ranIn.Keys, errs)
    ensures errs == [] ==> pending == pending0 && forall n :: n in pending ==> !HasFailedNeed(p, failed, n)
    ensures errs != [] ==> pending < pending0
  {
    pending, failed, errs, t := pending0, failed0, [], r;
    for i := 0 to |names|
      invariant SkippedUpTo(p, names, i, jobs, r, t, errs)
      invariant pending == t.pending && failed == t.failed
    {
      var n := names[i];
      ghost var kept := true;
      if n in pending {
        var blockedBy := FailedNeeds(Needs(p, n), failed);
        NoneBlocked(p, failed, n, blockedBy);
        if |blockedBy| != 0 {
          OneSkipped(p, names, i, jobs, r, t, errs, blockedBy);
          t, kept := Block(t, n), false;
          pending, failed := pending - {n}, failed + {n};
          errs := errs + [Skipped(n, blockedBy)];
        }
      }
      if kept { OneKept(p, names, i, jobs, r, t, errs); }
    }
    TakeAll(names);
  }

  lemma BlockedStep(p: Plan, jobs: Jobs, r: Run, n: Name, blockedBy: seq<Name>)
    requires RunInvariant(p, jobs, r) && n in r.pending && n in p && |blockedBy| > 0
    requires forall d :: d in blockedBy ==> d in Needs(p, n) && d in r.failed
    ensures RunInvariant(p, jobs, Block(r, n))
    ensures ErrorNames([Skipped(n, blockedBy)]) == {n}
  {
    assert blockedBy[0] in blockedBy && HasFailedNeed(p, r.failed, n);
    BlockKeepsInvariant(p, jobs, r, n);
    assert Skipped(n, blockedBy) in [Skipped(n, blockedBy)];
  }

  lemma NoneBlocked(p: Plan, failed: set<Name>, n: Name, blockedBy: seq<Name>)
    requires forall d :: d in blockedBy <==> d in Needs(p, n) && d in failed
    ensures |blockedBy| == 0 <==> !HasFailedNeed(p, failed, n)
  {
    if |blockedBy| != 0 {
      assert blockedBy[0] in blockedBy;
    }
  }

  method AllSucceeded(needs: seq<Name>, succeeded: set<Name>) returns (all: bool)
    ensures all <==> forall d :: d in needs ==> d in succeeded
  {
    all := true;
    for i := 0 to |needs|
      invariant all && forall j :: 0 <= j < i ==> needs[j] in succeeded
    {
      if needs[i] !in succeeded {
        return false;
      }
    }
  }

  method CollectReady(p: Plan, names: seq<Name>, pending: set<Name>, succeeded: set<Name>) returns (ready: seq<Name>)
    requires NoDuplicates(names) && forall n :: n in pending ==> n in names
    ensures NoDuplicates(ready)
    ensures forall n :: n in ready <==> n in pending && NeedsMet(p, succeeded, n)
    ensures ready == Among(names, set n | n in pending && NeedsMet(p, succeeded, n))
  {
    ghost var chosen := set n | n in pending && NeedsMet(p, succeeded, n);
    ready := [];
    for i := 0 to |names|
      invariant NoDuplicates(ready)
      invariant forall n :: n in ready <==> n in names[..i] && n in pending && NeedsMet(p, succeeded, n)
      invariant ready == Among(names[..i], chosen)
    {
      TakeOneMore(names, i);
      assert names[..i+1][..i] == names[..i];
      assert names[i] !in names[..i];
      if names[i] in pending {
        var all := AllSucceeded(Needs(p, names[i]), succeeded);
        if all {
          ready := ready + [names[i]];
        }
      }
    }
    TakeAll(names);
  }

  /** Runs every job of every ready deployment and reports each failing one. */
  method RunJobs(jobs: Jobs, ready: seq<Name>) returns (bad: set<Name>, errs: seq<RunError>)
    ensures forall n :: n in bad <==> n in ready && JobsFail(jobs, n)
    ensures forall e :: e in errs <==>
      e.JobFailed? && e.name in ready && IsFailingJob(jobs, e.name, e.job)
  {
    bad, errs := {}, [];
    for i := 0 to |ready|
      invariant forall n :: n in bad <==> n in ready[..i] && JobsFail(jobs, n)
      invariant forall e :: e in errs <==>
        e.JobFailed? && e.name in ready[..i] && IsFailingJob(jobs, e.name, e.job)
    {
      TakeOneMore(ready, i);
      var failures := RunDeployment(jobs, ready[i]);
      if |failures| > 0 {
        bad := bad + {ready[i]};
      }
      errs := errs + failures;
    }
    TakeAll(ready);
  }

  method RunDeployment(jobs: Jobs, n: Name) returns (errs: seq<RunError>)
    ensures forall e :: e in errs <==> e.JobFailed? && e.name == n && IsFailingJob(jobs, n, e.job)
    ensures errs == [] <==> !JobsFail(jobs, n)
  {
    errs := [];
    for j := 0 to JobCount(jobs, n)
      invariant errs == [] <==> forall k :: 0 <= k < j ==> !IsFailingJob(jobs, n, k)
      invariant forall e :: e in errs <==> e.JobFailed? && e.name == n && e.job < j && IsFailingJob(jobs, n, e.job)
    {
      if jobs.fails(n, j) {
        errs := errs + [JobFailed(n, j)];
      }
    }
  }

  lemma JobErrorsNameTheBad(jobs: Jobs, ready: seq<Name>, bad: set<Name>, errs: seq<RunError>)
    requires forall n :: n in bad <==> n in ready && JobsFail(jobs, n)
    requires forall e :: e in errs <==>
      e.JobFailed? && e.name in ready && IsFailingJob(jobs, e.name, e.job)
    ensures ErrorNames(errs) == bad
  {
    forall n | n in bad ensures n in ErrorNames(errs) {
      var j :| IsFailingJob(jobs, n, j);
      assert JobFailed(n, j) in errs;
    }
  }

  /** Moves the deployments of a wave out of the pending set. */
  method RecordWave(r0: Run, ready: seq<Name>, bad: set<Name>) returns (r: Run)
    ensures r == RunWave(r0, ready, bad)
  {
    var pending, succeeded, failed, ranIn := r0.pending, r0.succeeded, r0.failed, r0.ranIn;
    ghost var done: set<Name> := {};
    for i := 0 to |ready|
      invariant done == set n | n in ready[..i]
      invariant pending == r0.pending - done
      invariant failed == r0.failed + done * bad && succeeded == r0.succeeded + (done - bad)
      invariant ranIn.Keys == r0.ranIn.Keys + done
      invariant forall n :: n in ranIn ==> ranIn[n] == if n in done then |r0.waves| else r0.ranIn[n]
    {
      TakeOneMore(ready, i);
      var n := ready[i];
      pending := pending - {n};
      if n in bad {
        failed := failed + {n};
      } else {
        succeeded := succeeded + {n};
      }
      ranIn := ranIn[n := |r0.waves|];
      done := done + {n};
    }
    TakeAll(ready);
    r := Run(pending, succeeded, failed, r0.waves + [ready], ranIn);
  }

  /** What a finished plan looks like: nothing is pending, and the errors name exactly the failures. */
  ghost predicate Finished(p: Plan, jobs: Jobs, r: Run, errs: seq<RunError>) {
    && RunInvariant(p, jobs, r) && r.pending == {}
    && ErrorsMatch(p, jobs, r, errs)
  }

  /** The errors name exactly the failed deployments, they are true, and no failing job is missing. */
  ghost predicate ErrorsMatch(p: Plan, jobs: Jobs, r: Run, errs: seq<RunError>) {
    && ErrorNames(errs) == r.failed
    && AllTrue(p, jobs, r.failed, r.ranIn.Keys, errs) && AllReported(jobs, r.ranIn.Keys, errs)
  }

  lemma FailuresMatch(p: Plan, jobs: Jobs, r0: Run, errs0: seq<RunError>, ready: seq<Name>, bad: set<Name>,
                      failures: seq<RunError>)
    requires ErrorsMatch(p, jobs, r0, errs0)
    requires forall n :: n in bad <==> n in ready && JobsFail(jobs, n)
    requires forall e :: e in failures <==>
      e.JobFailed? && e.name in ready && IsFailingJob(jobs, e.name, e.job)
    ensures ErrorsMatch(p, jobs, RunWave(r0, ready, bad), errs0 + failures)
  {
    var r := RunWave(r0, ready, bad);
    JobErrorsNameTheBad(jobs, ready, bad, failures);
    ErrorNamesJoin(errs0, failures);
    assert r.failed == r0.failed + bad by { assert forall n :: n in bad ==> n in ready; }
    forall e {:trigger TrueError(p, jobs, r.failed, r.ranIn.Keys, e)} | e in failures
      ensures TrueError(p, jobs, r.failed, r.ranIn.Keys, e) { }
    ErrorsStayTrue(p, jobs, r0.failed, r0.ranIn.Keys, r.failed, r.ranIn.Keys, errs0, failures);
    forall n, j | n in r.ranIn && IsFailingJob(jobs, n, j)
      ensures JobFailed(n, j) in errs0 + failures
    {
      assert n in r0.ranIn ==> JobFailed(n, j) in errs0;
      assert n in ready ==> JobFailed(n, j) in failures;
    }
  }

  lemma ErrorsNameDeployments(p: Plan, jobs: Jobs, r: Run, errs: seq<RunError>)
    requires ErrorsMatch(p, jobs, r, errs)
    ensures forall e :: e in errs ==> e.Skipped? || e.JobFailed?
  {
    forall e | e in errs ensures e.Skipped? || e.JobFailed? {
      assert TrueError(p, jobs, r.failed, r.ranIn.Keys, e);
    }
  }

  /** One iteration of the scheduling loop. */
  method Round(p: Plan, names: seq<Name>, jobs: Jobs, r0: Run, errs0: seq<RunError>)
    returns (r: Run, errs: seq<RunError>, stuck: bool)
    requires Lists(names, p) && RunInvariant(p, jobs, r0) && r0.pending != {} && ErrorsMatch(p, jobs, r0, errs0)
    ensures RunInvariant(p, jobs, r) && ErrorsMatch(p, jobs, r, errs)
    ensures stuck ==> Stuck(p, r)
    ensures !stuck ==> r.pending < r0.pending
  {
    ghost var t;
    var pending, failed, skips;
    pending, failed, skips, t := SkipBlocked(p, names, jobs, r0, r0.pending, r0.failed);
    r := r0.(pending := pending, failed := failed);
    ErrorNamesJoin(errs0, skips);
    ErrorsStayTrue(p, jobs, r0.failed, r0.ranIn.Keys, failed, r0.ranIn.Keys, errs0, skips);
    errs := errs0 + skips;
    assert forall n :: n in pending ==> n in names by { assert pending <= p.Keys; }
    var ready := CollectReady(p, names, pending, r.succeeded);
    if |ready| == 0 {
      stuck := |skips| == 0;
      if !stuck {
        WaveKeepsInvariant(p, jobs, r, [], {});
        FailuresMatch(p, jobs, r, errs, [], {}, []);
        assert errs + [] == errs;
        r := RecordWave(r, [], {});
      }
      return;
    }
    r, errs := Wave(p, jobs, r, errs, ready);
    stuck := false;
  }

  /** The part of an iteration that runs the ready deployments. */
  method Wave(p: Plan, jobs: Jobs, r0: Run, errs0: seq<RunError>, ready: seq<Name>)
    returns (r: Run, errs: seq<RunError>)
    requires RunInvariant(p, jobs, r0) && ErrorsMatch(p, jobs, r0, errs0) && Ready(p, r0, ready) && |ready| > 0
    ensures RunInvariant(p, jobs, r) && ErrorsMatch(p, jobs, r, errs) && r.pending < r0.pending
  {
    var bad, failures := RunJobs(jobs, ready);
    WaveKeepsInvariant(p, jobs, r0, ready, bad);
    FailuresMatch(p, jobs, r0, errs0, ready, bad, failures);
    r := RecordWave(r0, ready, bad);
    errs := errs0 + failures;
    assert ready[0] in ready && ready[0] !in r.pending;
  }

  lemma StartOfRun(p: Plan, jobs: Jobs)
    ensures RunInvariant(p, jobs, Run(p.Keys, {}, {}, [], map[]))
  {
  }

  /** Applies a plan whose deployments are listed by `names`. A closed plan without a cycle never stalls
      and ends with nothing pending; a plan that does stall says so. */
  method ApplyPlan(p: Plan, names: seq<Name>, jobs: Jobs, uploadsOk: bool) returns (r: Run, errs: seq<RunError>)
    requires Lists(names, p)
    ensures !uploadsOk ==> errs == [UploadFailed] && r == Run(p.Keys, {}, {}, [], map[])
    ensures uploadsOk ==> RunInvariant(p, jobs, r) && (NoProgress in errs <==> Stuck(p, r))
    ensures uploadsOk && ClosedPlan(p) && Acyclic(NeedArcs(p)) ==> Finished(p, jobs, r, errs)
  {
    r, errs := Run(p.Keys, {}, {}, [], map[]), [];
    if !uploadsOk {
      return r, [UploadFailed];
    }
    StartOfRun(p, jobs);
    while r.pending != {}
      invariant RunInvariant(p, jobs, r) && ErrorsMatch(p, jobs, r, errs)
      decreases r.pending
    {
      var stuck;
      r, errs, stuck := Round(p, names, jobs, r, errs);
      if stuck {
        assert ClosedPlan(p) ==> !Acyclic(NeedArcs(p)) by { if ClosedPlan(p) { AcceptedNeverStuck(p, r); } }
        return r, errs + [NoProgress];
      }
    }
    ErrorsNameDeployments(p, jobs, r, errs);
  }

  // ----- what a finished plan means

  /** The deployments that succeed are exactly those that neither fail nor need a failing one, and no error
      is reported iff that is all of them. */
  lemma SucceededIsHealthy(p: Plan, jobs: Jobs, r: Run, errs: seq<RunError>)
    requires Finished(p, jobs, r, errs)
    ensures forall n :: n in r.succeeded <==> n in p && Healthy(p, jobs, n)
    ensures errs == [] <==> forall n :: n in p ==> Healthy(p, jobs, n)
  {
    forall n ensures n in r.succeeded <==> n in p && Healthy(p, jobs, n) {
      assert n in p <==> n in r.succeeded || n in r.failed;
    }
    if errs != [] {
      ErrorsNameDeployments(p, jobs, r, errs);
      assert errs[0] in errs;
      assert errs[0].name in r.failed;
    }
  }

  /** Everything a deployment transitively needs succeeded in an earlier round than its own. */
  lemma {:induction false} RanAfterNeeds(p: Plan, jobs: Jobs, r: Run, w: seq<Name>)
    requires RunInvariant(p, jobs, r) && Walk(NeedArcs(p), w) && |w| > 1 && w[|w|-1] in r.ranIn
    ensures w[0] in r.succeeded && w[0] in r.ranIn && r.ranIn[w[0]] < r.ranIn[w[|w|-1]]
    decreases |w|
  {
    var d := w[|w|-2];
    assert (d, w[|w|-1]) in NeedArcs(p);
    if |w| > 2 {
      RanAfterNeeds(p, jobs, r, w[..|w|-1]);
    }
  }

  /** A deployment runs iff everything it needs is healthy. */
  lemma RunsIffNeedsAreHealthy(p: Plan, jobs: Jobs, r: Run, errs: seq<RunError>, n: Name)
    requires Finished(p, jobs, r, errs) && n in p
    ensures n in r.ranIn <==> forall d :: d in p[n] ==> Healthy(p, jobs, d)
  {
    if n !in r.ranIn {
      assert n in r.failed;
      assert HasFailedNeed(p, r.failed, n);
    }
  }

  /** A deployment that runs does so in the round given by the length of its longest chain of needs, and in
      no other. */
  lemma RunsAtItsDepth(p: Plan, jobs: Jobs, r: Run, errs: seq<RunError>, n: Name)
    requires Finished(p, jobs, r, errs) && n in p && n in r.ranIn
    ensures LongestWalkTo(NeedArcs(p), n, r.ranIn[n])
    ensures r.ranIn[n] < |r.waves| && forall i :: 0 <= i < |r.waves| ==> (n in r.waves[i] <==> i == r.ranIn[n])
  {
    RanAtDepth(p, r, n);
  }

  lemma RanAtDepth(p: Plan, r: Run, n: Name)
    requires RanInTime(p, r.succeeded, r.ranIn, |r.waves|) && n in r.ranIn
    ensures LongestWalkTo(NeedArcs(p), n, r.ranIn[n])
  {
    RoundsAreLevels(p, r.succeeded, r.ranIn, |r.waves|);
    LevelIsLongestWalk(NeedArcs(p), r.ranIn, n);
  }

  lemma RoundsAreLevels(p: Plan, succeeded: set<Name>, ranIn: map<Name, nat>, rounds: nat)
    requires RanInTime(p, succeeded, ranIn, rounds)
    ensures Levels(NeedArcs(p), ranIn)
  {
    forall b {:trigger Supported(NeedArcs(p), ranIn, b)} | b in ranIn ensures Supported(NeedArcs(p), ranIn, b) {
      RoundIsSupported(p, ranIn, b);
    }
    forall a, b | (a, b) in NeedArcs(p) && b in ranIn ensures a in ranIn && ranIn[a] < ranIn[b] {
      assert a in Needs(p, b);
    }
  }

  lemma RoundIsSupported(p: Plan, ranIn: map<Name, nat>, b: Name)
    requires b in ranIn && (ranIn[b] == 0 || NeedRanBefore(p, ranIn, b, ranIn[b]))
    ensures Supported(NeedArcs(p), ranIn, b)
  {
    if ranIn[b] > 0 {
      var d :| d in Needs(p, b) && d in ranIn && ranIn[d] + 1 == ranIn[b];
      assert (d, b) in NeedArcs(p);
    }
  }

  /** The outcome is a function of the plan and the job results: it does not depend on the order in
      which the deployments are listed. */
  lemma OrderDoesNotMatter(p: Plan, jobs: Jobs, r1: Run, errs1: seq<RunError>, r2: Run, errs2: seq<RunError>)
    requires Finished(p, jobs, r1, errs1) && Finished(p, jobs, r2, errs2)
    ensures r1.succeeded == r2.succeeded && r1.failed == r2.failed && r1.ranIn == r2.ranIn
    ensures errs1 == [] <==> errs2 == []
  {
    SucceededIsHealthy(p, jobs, r1, errs1);
    SucceededIsHealthy(p, jobs, r2, errs2);
    FailedAreTheRest(p, r1);
    FailedAreTheRest(p, r2);
    assert r1.succeeded == r2.succeeded;
    forall n ensures n in r1.ranIn <==> n in r2.ranIn
             ensures n in r1.ranIn ==> r1.ranIn[n] == r2.ranIn[n]
    {
      if n in p {
        SameRound(p, jobs, r1, errs1, r2, errs2, n);
      }
    }
  }

  lemma FailedAreTheRest(p: Plan, r: Run)
    requires Partition(p, r) && r.pending == {}
    ensures r.failed == p.Keys - r.succeeded && r.ranIn.Keys <= p.Keys
  {
  }

  lemma SameRound(p: Plan, jobs: Jobs, r1: Run, errs1: seq<RunError>, r2: Run, errs2: seq<RunError>, n: Name)
    requires Finished(p, jobs, r1, errs1) && Finished(p, jobs, r2, errs2) && n in p
    ensures n in r1.ranIn <==> n in r2.ranIn
    ensures n in r1.ranIn ==> r1.ranIn[n] == r2.ranIn[n]
  {
    RunsIffNeedsAreHealthy(p, jobs, r1, errs1, n);
    RunsIffNeedsAreHealthy(p, jobs, r2, errs2, n);
    if n in r1.ranIn {
      RanAtDepth(p, r1, n);
      RanAtDepth(p, r2, n);
      LongestIsUnique(NeedArcs(p), n, r1.ranIn[n], r2.ranIn[n]);
    }
  }

  /** Loading and running together: a plan that passes the load checks runs to completion. */
  method LoadAndApply(p: Plan, deployments: set<Name>, names: seq<Name>, jobs: Jobs, uploadsOk: bool)
    returns (rejected: Option<LoadError>, r: Run, errs: seq<RunError>)
    requires Lists(names, p)
    ensures rejected.Some? <==> !AcceptedPlan(p, deployments)
    ensures rejected.Some? ==> r.waves == []
    ensures rejected.None? && uploadsOk ==> Finished(p, jobs, r, errs)
  {
    r, errs := Run(p.Keys, {}, {}, [], map[]), [];
    rejected := CheckPlan(p, deployments);
    if rejected.None? {
      r, errs := ApplyPlan(p, names, jobs, uploadsOk);
    }
  }
}
