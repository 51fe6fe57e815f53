/** The ownership protocol of profile captures: any number of capture handlers and stop requests share
    one try-lock per kind, the table of owning runs and the table of stop channels. Each handler runs as
    a sequence of atomic steps, and the steps of different requests interleave arbitrarily. */
module ProfileCapture {

  datatype Kind = Cpu | Fgprof | Snapshots

  /** A capture request. It also names the stop channel that its handler creates. */
  type RequestId = nat

  /** Where a capture handler is. `Done(true)` ended a capture, `Done(false)` a failed start. */
  datatype Phase =
    | Arrived | Rejected | Locked | StartFailed | Started | Published | Woken | Exported | Cleared | Done(captured: bool)

  datatype Handler = Handler(kind: Kind, runId: string, phase: Phase)

  /** Why a published capture stops waiting. */
  datatype Cause = TimerFired | StopSignalled | ClientGone

  /** The state shared by all handlers of one server. */
  datatype Shared = Shared(sampling: map<Kind, RequestId>, active: map<Kind, string>,
                           stopRequests: map<Kind, RequestId>, closes: multiset<RequestId>)

  /** `starts` and `stops` record every successful profiler start and every call of its stop function. */
  datatype State = State(shared: Shared, handlers: map<RequestId, Handler>,
                         starts: multiset<RequestId>, stops: multiset<RequestId>)

  datatype Step =
    | Arrive(id: RequestId, kind: Kind, runId: string, secondsOk: bool)
    | TryLock(id: RequestId)
    | Start(id: RequestId, ok: bool)
    | Publish(id: RequestId)
    | Wake(id: RequestId, cause: Cause)
    | Export(id: RequestId)
    | Clear(id: RequestId)
    | Unlock(id: RequestId)
    | Stop(stopKind: Kind, stopRun: string)

  /** The owner shown for a capture without a run. */
  function Owner(runId: string): (owner: string)
    ensures owner != ""
  {
    if runId == "" then "manual" else runId
  }

  // ----- the critical sections on the shared state

  function Locking(sh: Shared, k: Kind, id: RequestId): Shared {
    if k in sh.sampling then sh else sh.(sampling := sh.sampling[k := id])
  }

  function Publishing(sh: Shared, k: Kind, id: RequestId, runId: string): Shared {
    sh.(active := sh.active[k := Owner(runId)], stopRequests := sh.stopRequests[k := id])
  }

  function Clearing(sh: Shared, k: Kind): Shared {
    sh.(active := sh.active[k := ""], stopRequests := sh.stopRequests - {k})
  }

  function Unlocking(sh: Shared, k: Kind): Shared {
    sh.(sampling := sh.sampling - {k})
  }

  /** A stop is refused when it names no run or another run than the owning one. */
  predicate StopRefused(sh: Shared, k: Kind, runId: string) {
    runId == "" || (k in sh.active && sh.active[k] != "" && sh.active[k] != runId)
  }

  function Stopping(sh: Shared, k: Kind, runId: string): Shared {
    if StopRefused(sh, k, runId) || k !in sh.stopRequests then sh
    else sh.(closes := sh.closes + multiset{sh.stopRequests[k]}, stopRequests := sh.stopRequests - {k})
  }

  /** The shared tables as the handlers update them. */
  class Tables {
    var sampling: map<Kind, RequestId>
    var active: map<Kind, string>
    var stopRequests: map<Kind, RequestId>
    ghost var closes: multiset<RequestId>

    ghost function View(): Shared reads this {
      Shared(sampling, active, stopRequests, closes)
    }

    constructor ()
      ensures View() == InitialShared()
    {
      sampling := map[];
      active := map[Cpu := "", Fgprof := "", Snapshots := ""];
      stopRequests := map[];
      closes := multiset{};
    }

    method LockSampling(k: Kind, id: RequestId) returns (ok: bool)
      modifies this
      ensures View() == Locking(old(View()), k, id)
      ensures ok <==> k !in old(sampling)
    {
      ok := k !in sampling;
      if ok {
        sampling := sampling[k := id];
      }
    }

    method PublishOwner(k: Kind, id: RequestId, runId: string)
      modifies this
      ensures View() == Publishing(old(View()), k, id, runId)
    {
      active := active[k := runId];
      if active[k] == "" {
        active := active[k := "manual"];
      }
      stopRequests := stopRequests[k := id];
    }

    method ClearOwner(k: Kind)
      modifies this
      ensures View() == Clearing(old(View()), k)
    {
      active := active[k := ""];
      stopRequests := stopRequests - {k};
    }

    method UnlockSampling(k: Kind)
      modifies this
      ensures View() == Unlocking(old(View()), k)
    {
      sampling := sampling - {k};
    }

    method StopRequest(k: Kind, runId: string) returns (accepted: bool)
      modifies this
      ensures View() == Stopping(old(View()), k, runId)
      ensures accepted <==> !StopRefused(old(View()), k, runId)
    {
      if runId == "" {
        return false;
      }
      if k in active && active[k] != "" && active[k] != runId {
        return false;
      }
      if k in stopRequests {
        closes := closes + multiset{stopRequests[k]};
        stopRequests := stopRequests - {k};
      }
      accepted := true;
    }
  }

  // ----- the state machine

  function InitialShared(): Shared {
    Shared(map[], map[Cpu := "", Fgprof := "", Snapshots := ""], map[], multiset{})
  }

  function Initial(): State {
    State(InitialShared(), map[], multiset{}, multiset{})
  }

  predicate In(s: State, id: RequestId, phase: Phase) {
    id in s.handlers && s.handlers[id].phase == phase
  }

  predicate Enabled(s: State, step: Step) {
    match step
    case Arrive(id, _, _, _) => id !in s.handlers
    case TryLock(id) => In(s, id, Arrived)
    case Start(id, _) => In(s, id, Locked)
    case Publish(id) => In(s, id, Started)
    case Wake(id, cause) => In(s, id, Published) && (cause == StopSignalled ==> id in s.shared.closes)
    case Export(id) => In(s, id, Woken)
    case Clear(id) => In(s, id, Exported)
    case Unlock(id) => In(s, id, Cleared) || In(s, id, StartFailed)
    case Stop(_, _) => true
  }

  function MoveTo(s: State, id: RequestId, phase: Phase): State
    requires id in s.handlers
  {
    s.(handlers := s.handlers[id := s.handlers[id].(phase := phase)])
  }

  function Apply(s: State, step: Step): State
    requires Enabled(s, step)
  {
    match step
    case Arrive(id, k, runId, ok) =>
      s.(handlers := s.handlers[id := Handler(k, runId, if ok then Arrived else Rejected)])
    case TryLock(id) =>
      var k := s.handlers[id].kind;
      MoveTo(s, id, if k in s.shared.sampling then Rejected else Locked).(shared := Locking(s.shared, k, id))
    case Start(id, ok) =>
      if ok then MoveTo(s, id, Started).(starts := s.starts + multiset{id}) else MoveTo(s, id, StartFailed)
    case Publish(id) =>
      MoveTo(s, id, Published).(shared := Publishing(s.shared, s.handlers[id].kind, id, s.handlers[id].runId))
    case Wake(id, _) => MoveTo(s, id, Woken)
    case Export(id) => MoveTo(s, id, Exported).(stops := s.stops + multiset{id})
    case Clear(id) => MoveTo(s, id, Cleared).(shared := Clearing(s.shared, s.handlers[id].kind))
    case Unlock(id) =>
      MoveTo(s, id, Done(s.handlers[id].phase == Cleared)).(shared := Unlocking(s.shared, s.handlers[id].kind))
    case Stop(k, runId) => s.(shared := Stopping(s.shared, k, runId))
  }

  /** A run: a sequence of states, each obtained from the one before by some enabled step. */
  ghost predicate IsRun(run: seq<State>, steps: seq<Step>) {
    && |run| == |steps| + 1 && run[0] == Initial()
    && forall i {:trigger StepAt(run, steps, i)} :: 0 <= i < |steps| ==> StepAt(run, steps, i)
  }

  ghost predicate StepAt(run: seq<State>, steps: seq<Step>, i: nat)
    requires i + 1 < |run| && i < |steps|
  {
    Enabled(run[i], steps[i]) && run[i+1] == Apply(run[i], steps[i])
  }

  // ----- the invariant

  predicate Holds(p: Phase) {
    p.Locked? || p.StartFailed? || p.Started? || Owns(p) || p.Cleared?
  }

  /** From publishing until clearing, which includes the export of the profile. */
  predicate Owns(p: Phase) {
    p.Published? || p.Woken? || p.Exported?
  }

  predicate HasStarted(p: Phase) {
    p.Started? || Owns(p) || p.Cleared? || p == Done(true)
  }

  predicate HasStopped(p: Phase) {
    p.Exported? || p.Cleared? || p == Done(true)
  }

  ghost predicate HandlerOk(s: State, id: RequestId)
    requires id in s.handlers
  {
    var h := s.handlers[id];
    && (Holds(h.phase) <==> h.kind in s.shared.sampling && s.shared.sampling[h.kind] == id)
    && s.starts[id] == (if HasStarted(h.phase) then 1 else 0)
    && s.stops[id] == (if HasStopped(h.phase) then 1 else 0)
    && s.shared.closes[id] <= 1
    && (s.shared.closes[id] == 1 ==> Owns(h.phase) || h.phase == Cleared || h.phase == Done(true))
    && (Owns(h.phase) ==>
          h.kind in s.shared.active && s.shared.active[h.kind] == Owner(h.runId)
          && (s.shared.closes[id] == 0 <==> h.kind in s.shared.stopRequests))
  }

  ghost predicate KindOk(s: State, k: Kind) {
    && k in s.shared.active
    && (k in s.shared.sampling ==>
          s.shared.sampling[k] in s.handlers && s.handlers[s.shared.sampling[k]].kind == k)
    && (k in s.shared.stopRequests || s.shared.active[k] != "" ==>
          k in s.shared.sampling && s.shared.sampling[k] in s.handlers && Owns(s.handlers[s.shared.sampling[k]].phase))
    && (k in s.shared.stopRequests ==> s.shared.stopRequests[k] == s.shared.sampling[k])
  }

  ghost predicate Invariant(s: State) {
    && (forall id :: id in s.handlers ==> HandlerOk(s, id))
    && (forall k :: KindOk(s, k))
    && (forall id :: id !in s.handlers ==> s.starts[id] == 0 && s.stops[id] == 0 && s.shared.closes[id] == 0)
  }

  lemma InitialInvariant()
    ensures Invariant(Initial())
  {
    forall k ensures KindOk(Initial(), k) {
      match k case Cpu => case Fgprof => case Snapshots =>
    }
  }

  /** What the invariant says about the handler that takes a step and about its kind. */
  ghost predicate ActorOk(s: State, id: RequestId) {
    id in s.handlers && HandlerOk(s, id) && KindOk(s, s.handlers[id].kind)
  }

  lemma ActorStepOk(s: State, step: Step)
    requires !step.Stop? && !step.Arrive? && Enabled(s, step) && ActorOk(s, step.id)
    ensures ActorOk(Apply(s, step), step.id)
  {
    match step
    case TryLock(id) =>
    case Start(id, ok) =>
    case Publish(id) =>
    case Wake(id, _) =>
    case Export(id) =>
    case Clear(id) =>
    case Unlock(id) =>
  }

  /** A step of one handler leaves every other handler as it was. */
  lemma OtherHandlerOk(s: State, step: Step, other: RequestId)
    requires !step.Stop? && !step.Arrive? && Enabled(s, step) && ActorOk(s, step.id)
    requires other in s.handlers && other != step.id && HandlerOk(s, other)
    ensures HandlerOk(Apply(s, step), other)
  {
    match step
    case TryLock(id) =>
    case Start(id, ok) =>
    case Publish(id) =>
    case Wake(id, _) =>
    case Export(id) =>
    case Clear(id) =>
    case Unlock(id) =>
  }

  /** A step of one handler leaves every other kind as it was. */
  lemma OtherKindOk(s: State, step: Step, k: Kind)
    requires !step.Stop? && !step.Arrive? && Enabled(s, step) && ActorOk(s, step.id)
    requires k != s.handlers[step.id].kind && KindOk(s, k)
    ensures KindOk(Apply(s, step), k)
  {
    match step
    case TryLock(id) =>
    case Start(id, ok) =>
    case Publish(id) =>
    case Wake(id, _) =>
    case Export(id) =>
    case Clear(id) =>
    case Unlock(id) =>
  }

  lemma StopHandlerOk(s: State, step: Step, id: RequestId)
    requires step.Stop? && id in s.handlers && HandlerOk(s, id) && KindOk(s, step.stopKind)
    ensures HandlerOk(Apply(s, step), id)
  {
  }

  lemma StopKindOk(s: State, step: Step, k: Kind)
    requires step.Stop? && KindOk(s, k)
    ensures KindOk(Apply(s, step), k)
  {
  }

  lemma StepKeepsInvariant(s: State, step: Step)
    requires Invariant(s) && Enabled(s, step)
    ensures Invariant(Apply(s, step))
  {
    match step {
      case Stop(k, _) => StopKeepsInvariant(s, step);
      case Arrive(_, _, _, _) => ArrivalKeepsInvariant(s, step);
      case _ => HandlerStepKeepsInvariant(s, step);
    }
  }

  lemma StopKeepsInvariant(s: State, step: Step)
    requires Invariant(s) && step.Stop?
    ensures Invariant(Apply(s, step))
  {
    var t := Apply(s, step);
    assert KindOk(s, step.stopKind);
    forall id | id in t.handlers ensures HandlerOk(t, id) { StopHandlerOk(s, step, id); }
    forall k ensures KindOk(t, k) { StopKindOk(s, step, k); }
  }

  lemma ArrivalKeepsInvariant(s: State, step: Step)
    requires Invariant(s) && step.Arrive? && Enabled(s, step)
    ensures Invariant(Apply(s, step))
  {
    var t := Apply(s, step);
    forall id | id in t.handlers ensures HandlerOk(t, id) {
      if id == step.id { assert KindOk(s, step.kind); } else { assert HandlerOk(s, id); }
    }
    forall k ensures KindOk(t, k) { assert KindOk(s, k); }
  }

  lemma HandlerStepKeepsInvariant(s: State, step: Step)
    requires Invariant(s) && !step.Stop? && !step.Arrive? && Enabled(s, step)
    ensures Invariant(Apply(s, step))
  {
    var t := Apply(s, step);
    assert ActorOk(s, step.id);
    ActorStepOk(s, step);
    StepFrame(s, step);
    forall id | id in t.handlers ensures HandlerOk(t, id) {
      if id != step.id { OtherHandlerOk(s, step, id); }
    }
    forall k ensures KindOk(t, k) {
      if k != s.handlers[step.id].kind { OtherKindOk(s, step, k); }
    }
  }

  lemma StepFrame(s: State, step: Step)
    requires !step.Stop? && !step.Arrive? && Enabled(s, step)
    ensures var t := Apply(s, step);
      && t.handlers.Keys == s.handlers.Keys && t.handlers[step.id].kind == s.handlers[step.id].kind
      && forall id :: id !in s.handlers ==>
           t.starts[id] == s.starts[id] && t.stops[id] == s.stops[id] && t.shared.closes[id] == s.shared.closes[id]
  {
  }

  /** Every state of every run satisfies the invariant. */
  lemma {:induction false} InvariantHolds(run: seq<State>, steps: seq<Step>, i: nat)
    requires IsRun(run, steps) && i < |run|
    ensures Invariant(run[i])
    decreases i
  {
    if i == 0 {
      InitialInvariant();
    } else {
      InvariantHolds(run, steps, i - 1);
      assert StepAt(run, steps, i - 1);
      StepKeepsInvariant(run[i-1], steps[i-1]);
    }
  }

  // ----- what the invariant says about captures and stops

  lemma OneSamplerPerKind(s: State, a: RequestId, b: RequestId)
    requires Invariant(s) && a in s.handlers && b in s.handlers
    requires Holds(s.handlers[a].phase) && Holds(s.handlers[b].phase)
    requires s.handlers[a].kind == s.handlers[b].kind
    ensures a == b
  {
    assert HandlerOk(s, a) && HandlerOk(s, b);
  }

  /** A capture gets the lock of its kind exactly when no capture of that kind holds it, whatever the other kinds
      are doing, and is rejected otherwise. That is when the try-lock on the tables succeeds. */
  lemma LockedIffKindIsFree(s: State, id: RequestId)
    requires Invariant(s) && Enabled(s, TryLock(id))
    ensures var k, t := s.handlers[id].kind, Apply(s, TryLock(id));
      && (In(t, id, Locked) <==> k !in s.shared.sampling)
      && (In(t, id, Locked) <==>
            forall other :: other in s.handlers && s.handlers[other].kind == k ==> !Holds(s.handlers[other].phase))
      && (In(t, id, Locked) || In(t, id, Rejected))
  {
    var k := s.handlers[id].kind;
    assert KindOk(s, k);
    if k in s.shared.sampling {
      assert HandlerOk(s, s.shared.sampling[k]);
    }
    forall other | other in s.handlers && s.handlers[other].kind == k && Holds(s.handlers[other].phase)
      ensures k in s.shared.sampling
    {
      assert HandlerOk(s, other);
    }
  }

  /** A capture of this kind that has published its ownership and not yet cleared it. */
  ghost predicate Publishes(s: State, k: Kind, id: RequestId) {
    id in s.handlers && s.handlers[id].kind == k && Owns(s.handlers[id].phase)
  }

  /** The status of a kind shows an owner exactly while a capture is published, and shows that capture's. */
  lemma StatusShowsThePublishedCapture(s: State, k: Kind)
    requires Invariant(s)
    ensures k in s.shared.active
    ensures s.shared.active[k] != "" <==> exists id :: Publishes(s, k, id)
    ensures forall id :: Publishes(s, k, id) ==>
      s.shared.active[k] == Owner(s.handlers[id].runId) && k in s.shared.sampling && s.shared.sampling[k] == id
  {
    assert KindOk(s, k);
    if s.shared.active[k] != "" {
      assert Publishes(s, k, s.shared.sampling[k]);
    }
    forall id | Publishes(s, k, id)
      ensures s.shared.active[k] == Owner(s.handlers[id].runId) && k in s.shared.sampling && s.shared.sampling[k] == id
    {
      assert HandlerOk(s, id);
    }
  }

  /** A stop channel is on offer exactly for a published capture that nobody has stopped yet. */
  lemma StopChannelIsOpen(s: State, k: Kind, id: RequestId)
    requires Invariant(s)
    ensures k in s.shared.stopRequests && s.shared.stopRequests[k] == id
       <==> Publishes(s, k, id) && s.shared.closes[id] == 0
  {
    assert KindOk(s, k);
    if Publishes(s, k, id) {
      assert HandlerOk(s, id);
    }
    if k in s.shared.stopRequests {
      assert HandlerOk(s, s.shared.sampling[k]);
    }
  }

  /** A stop changes at most one channel: the still open one of the published capture of that kind, and
      only if that capture belongs to the named run. No other channel is touched, none is closed twice. */
  lemma StopClosesOnlyItsOwnRun(s: State, k: Kind, runId: string, id: RequestId)
    requires Invariant(s)
    ensures var after := Apply(s, Stop(k, runId)).shared.closes;
      if Publishes(s, k, id) && Owner(s.handlers[id].runId) == runId && s.shared.closes[id] == 0
      then after[id] == 1
      else after[id] == s.shared.closes[id]
  {
    StopChannelIsOpen(s, k, id);
    StatusShowsThePublishedCapture(s, k);
    if k in s.shared.stopRequests {
      StopChannelIsOpen(s, k, s.shared.stopRequests[k]);
    }
  }

  /** A stop of a published capture is accepted exactly when it names the owner, and once accepted the
      capture's channel is closed, whether or not an earlier stop had closed it. */
  lemma AcceptedStopIsDelivered(s: State, k: Kind, runId: string, id: RequestId)
    requires Invariant(s) && Publishes(s, k, id)
    ensures !StopRefused(s.shared, k, runId) <==> runId == Owner(s.handlers[id].runId)
    ensures !StopRefused(s.shared, k, runId) ==> Apply(s, Stop(k, runId)).shared.closes[id] == 1
  {
    StatusShowsThePublishedCapture(s, k);
    StopClosesOnlyItsOwnRun(s, k, runId, id);
    assert HandlerOk(s, id);
  }

  /** A stop that names a run while no capture is published is accepted and changes nothing. */
  lemma EarlyStopIsLost(s: State, k: Kind, runId: string)
    requires Invariant(s) && runId != "" && forall id :: !Publishes(s, k, id)
    ensures !StopRefused(s.shared, k, runId) && Apply(s, Stop(k, runId)) == s
  {
    StatusShowsThePublishedCapture(s, k);
    if k in s.shared.stopRequests {
      StopChannelIsOpen(s, k, s.shared.stopRequests[k]);
    }
  }

  /** The exact condition: an accepted stop reaches the capture that holds the kind iff that capture has published
      its ownership. A capture that is starting, or has started and not published, is missed. */
  lemma AcceptedStopReachesIff(s: State, k: Kind, runId: string, id: RequestId)
    requires Invariant(s) && id in s.handlers && s.handlers[id].kind == k
    requires Holds(s.handlers[id].phase) && !s.handlers[id].phase.Cleared?
    requires !StopRefused(s.shared, k, runId)
    ensures Apply(s, Stop(k, runId)).shared.closes[id] == 1 <==> Publishes(s, k, id)
  {
    if Publishes(s, k, id) {
      AcceptedStopIsDelivered(s, k, runId, id);
    } else {
      StopClosesOnlyItsOwnRun(s, k, runId, id);
      assert HandlerOk(s, id);
    }
  }

  /** A run goes on with any enabled step. */
  lemma OneMoreStep(run: seq<State>, steps: seq<Step>, step: Step, next: State)
    returns (longer: seq<State>, more: seq<Step>)
    requires IsRun(run, steps) && Enabled(run[|steps|], step) && next == Apply(run[|steps|], step)
    ensures longer == run + [next] && more == steps + [step] && IsRun(longer, more)
  {
    longer, more := run + [next], steps + [step];
    forall i | 0 <= i < |more| ensures StepAt(longer, more, i) {
      if i < |steps| { assert StepAt(run, steps, i); }
    }
  }

  /** A new capture of a free kind can start its profiler. */
  lemma FreeKindIsStarted(s: State, k: Kind, id: RequestId, runId: string) returns (s1: State, s2: State, s3: State)
    requires id !in s.handlers && k !in s.shared.sampling
    ensures Enabled(s, Arrive(id, k, runId, true)) && s1 == Apply(s, Arrive(id, k, runId, true))
    ensures Enabled(s1, TryLock(id)) && s2 == Apply(s1, TryLock(id))
    ensures Enabled(s2, Start(id, true)) && s3 == Apply(s2, Start(id, true))
    ensures s3.handlers == s.handlers[id := Handler(k, runId, Started)]
    ensures s3.shared == s.shared.(sampling := s.shared.sampling[k := id])
  {
    s1 := Apply(s, Arrive(id, k, runId, true));
    s2 := Apply(s1, TryLock(id));
    s3 := Apply(s2, Start(id, true));
  }

  /** A stop of the owner's run changes nothing while no channel of the kind is on offer. */
  lemma StopWithoutChannel(s: State, k: Kind, runId: string)
    requires runId != "" && k in s.shared.active && s.shared.active[k] == "" && k !in s.shared.stopRequests
    ensures !StopRefused(s.shared, k, runId) && Apply(s, Stop(k, runId)) == s
  {
  }

  lemma StartsInARun(run: seq<State>, steps: seq<Step>, k: Kind, id: RequestId, runId: string)
    returns (longer: seq<State>, more: seq<Step>)
    requires IsRun(run, steps)
    requires id !in run[|steps|].handlers && k !in run[|steps|].shared.sampling
    ensures IsRun(longer, more) && |more| == |steps| + 3
    ensures longer[|more|].handlers == run[|steps|].handlers[id := Handler(k, runId, Started)]
    ensures var sh := run[|steps|].shared; longer[|more|].shared == sh.(sampling := sh.sampling[k := id])
  {
    var s1, s2, s3 := FreeKindIsStarted(run[|steps|], k, id, runId);
    longer, more := OneMoreStep(run, steps, Arrive(id, k, runId, true), s1);
    longer, more := OneMoreStep(longer, more, TryLock(id), s2);
    longer, more := OneMoreStep(longer, more, Start(id, true), s3);
  }

  /** Such a miss happens in a run: a capture of any run starts its profiler, the stop for that run is accepted
      without any effect, and the capture is then published with its channel open. */
  lemma StopCanBeLost(k: Kind, id: RequestId, runId: string) returns (run: seq<State>, steps: seq<Step>)
    requires runId != ""
    ensures IsRun(run, steps) && |steps| == 5 && steps[3..] == [Stop(k, runId), Publish(id)]
    ensures id in run[3].handlers && run[3].handlers[id] == Handler(k, runId, Started)
    ensures !StopRefused(run[3].shared, k, runId) && run[4] == run[3]
    ensures Publishes(run[5], k, id) && run[5].shared.closes[id] == 0
  {
    run, steps := StartsInARun([Initial()], [], k, id, runId);
    var started := run[3];
    StopWithoutChannel(started, k, runId);
    run, steps := OneMoreStep(run, steps, Stop(k, runId), started);
    run, steps := OneMoreStep(run, steps, Publish(id), Apply(started, Publish(id)));
  }

  /** Captures of two kinds run side by side: a run in which both are published. */
  lemma KindsRunTogether(j: Kind, k: Kind, a: RequestId, b: RequestId, runId: string)
    returns (run: seq<State>, steps: seq<Step>)
    requires j != k && a != b
    ensures IsRun(run, steps) && |steps| == 8
    ensures Publishes(run[8], j, a) && Publishes(run[8], k, b)
  {
    run, steps := StartsInARun([Initial()], [], j, a, runId);
    run, steps := OneMoreStep(run, steps, Publish(a), Apply(run[3], Publish(a)));
    run, steps := StartsInARun(run, steps, k, b, runId);
    run, steps := OneMoreStep(run, steps, Publish(b), Apply(run[7], Publish(b)));
  }

  lemma OwnerIsShown(s: State, id: RequestId)
    requires Invariant(s) && id in s.handlers && Owns(s.handlers[id].phase)
    ensures var k := s.handlers[id].kind; k in s.shared.active && s.shared.active[k] == Owner(s.handlers[id].runId)
  {
    assert HandlerOk(s, id) && KindOk(s, s.handlers[id].kind);
  }

  lemma OwnerStays(s: State, step: Step, id: RequestId)
    requires Invariant(s) && Enabled(s, step) && id in s.handlers && Owns(s.handlers[id].phase)
    requires step != Clear(id)
    ensures Publishes(Apply(s, step), s.handlers[id].kind, id)
    ensures Apply(s, step).handlers[id].runId == s.handlers[id].runId
  {
    assert HandlerOk(s, id);
  }

  /** Ownership lasts from publishing until the capture's own clearing step, hence through the export; no
      other request can end it or rename it. */
  lemma OwnershipLastsThroughExport(s: State, step: Step, id: RequestId)
    requires Invariant(s) && Enabled(s, step) && id in s.handlers && Owns(s.handlers[id].phase)
    requires step != Clear(id)
    ensures var t := Apply(s, step); var k := s.handlers[id].kind;
      && Publishes(t, k, id) && t.handlers[id].runId == s.handlers[id].runId
      && k in t.shared.active && t.shared.active[k] == s.shared.active[k] == Owner(s.handlers[id].runId)
  {
    StepKeepsInvariant(s, step);
    OwnerStays(s, step, id);
    OwnerIsShown(s, id);
    OwnerIsShown(Apply(s, step), id);
  }

  /** When a capture cleans up, the channel it deletes is its own or already gone. */
  lemma CleanupDeletesOnlyItsOwnChannel(s: State, id: RequestId, k: Kind)
    requires Invariant(s) && Enabled(s, Clear(id))
    ensures k in s.shared.stopRequests && k !in Apply(s, Clear(id)).shared.stopRequests ==>
              s.shared.stopRequests[k] == id && s.handlers[id].kind == k
  {
    assert HandlerOk(s, id) && KindOk(s, s.handlers[id].kind);
  }

  /** Every successful start is stopped exactly once by the time its handler is through, and never before
      the capture is over; a request that never started a profiler stops none. */
  lemma EveryStartIsStoppedOnce(s: State, id: RequestId)
    requires Invariant(s)
    ensures s.stops[id] <= s.starts[id] <= 1
    ensures id in s.handlers && s.handlers[id].phase.Done? ==>
      s.starts[id] == s.stops[id] == if s.handlers[id].phase.captured then 1 else 0
    ensures id in s.handlers && (s.handlers[id].phase.Published? || s.handlers[id].phase.Woken?) ==>
      s.starts[id] == 1 && s.stops[id] == 0
  {
    if id in s.handlers {
      assert HandlerOk(s, id);
    }
  }

  // ----- whole runs

  /** The step closes the stop channel of this request. */
  ghost predicate ClosesChannel(s: State, step: Step, id: RequestId) {
    && step.Stop? && !StopRefused(s.shared, step.stopKind, step.stopRun)
    && step.stopKind in s.shared.stopRequests && s.shared.stopRequests[step.stopKind] == id
  }

  ghost function CloseCount(run: seq<State>, steps: seq<Step>, id: RequestId, n: nat): nat
    requires |run| == |steps| + 1 && n <= |steps|
  {
    if n == 0 then 0
    else CloseCount(run, steps, id, n - 1) + if ClosesChannel(run[n-1], steps[n-1], id) then 1 else 0
  }

  lemma {:induction false} ClosesAreCounted(run: seq<State>, steps: seq<Step>, id: RequestId, n: nat)
    requires IsRun(run, steps) && n <= |steps|
    ensures CloseCount(run, steps, id, n) == run[n].shared.closes[id]
    decreases n
  {
    if n > 0 {
      ClosesAreCounted(run, steps, id, n - 1);
      assert StepAt(run, steps, n - 1);
    }
  }

  /** Over a whole run no stop channel is closed twice, and only a published capture's is closed at all. */
  lemma NoChannelIsClosedTwice(run: seq<State>, steps: seq<Step>, id: RequestId)
    requires IsRun(run, steps)
    ensures CloseCount(run, steps, id, |steps|) <= 1
    ensures forall i :: 0 <= i < |steps| && ClosesChannel(run[i], steps[i], id) ==>
      Publishes(run[i], steps[i].stopKind, id) && Owner(run[i].handlers[id].runId) == steps[i].stopRun
  {
    InvariantHolds(run, steps, |steps|);
    ClosesAreCounted(run, steps, id, |steps|);
    if id in run[|steps|].handlers { assert HandlerOk(run[|steps|], id); }
    forall i | 0 <= i < |steps| && ClosesChannel(run[i], steps[i], id)
      ensures Publishes(run[i], steps[i].stopKind, id) && Owner(run[i].handlers[id].runId) == steps[i].stopRun
    {
      InvariantHolds(run, steps, i);
      StopChannelIsOpen(run[i], steps[i].stopKind, id);
      StatusShowsThePublishedCapture(run[i], steps[i].stopKind);
    }
  }

  lemma {:induction false} SomeStopCloses(run: seq<State>, steps: seq<Step>, id: RequestId, n: nat) returns (i: nat)
    requires |run| == |steps| + 1 && n <= |steps| && CloseCount(run, steps, id, n) > 0
    ensures i < n && ClosesChannel(run[i], steps[i], id)
    decreases n
  {
    if ClosesChannel(run[n-1], steps[n-1], id) {
      i := n - 1;
    } else {
      i := SomeStopCloses(run, steps, id, n - 1);
    }
  }

  /** A capture that is woken by a stop was stopped earlier in the run, while it was published, by a request that
      named its owner. */
  lemma WokenByItsOwnStop(run: seq<State>, steps: seq<Step>, i: nat, id: RequestId) returns (j: nat)
    requires IsRun(run, steps) && i < |steps| && steps[i] == Wake(id, StopSignalled)
    ensures j < i && ClosesChannel(run[j], steps[j], id)
    ensures Publishes(run[j], steps[j].stopKind, id) && steps[j].stopRun == Owner(run[j].handlers[id].runId)
  {
    assert StepAt(run, steps, i);
    ClosesAreCounted(run, steps, id, i);
    j := SomeStopCloses(run, steps, id, i);
    NoChannelIsClosedTwice(run, steps, id);
  }

  /** How many steps a handler has at most before it. */
  function StepsLeft(p: Phase): nat {
    match p
    case Arrived => 7
    case Locked => 6
    case Started => 5
    case Published => 4
    case Woken => 3
    case Exported => 2
    case Cleared => 1
    case StartFailed => 1
    case Rejected => 0
    case Done(_) => 0
  }

  /** Every step of a handler brings it nearer to its end, and no step of another moves it. */
  lemma StepsAreUsedUp(s: State, step: Step, id: RequestId)
    requires Enabled(s, step) && id in s.handlers
    ensures var h := Apply(s, step).handlers;
      && id in h && h[id].kind == s.handlers[id].kind && h[id].runId == s.handlers[id].runId
      && if !step.Stop? && step.id == id then StepsLeft(h[id].phase) < StepsLeft(s.handlers[id].phase)
         else h[id] == s.handlers[id]
  {
  }

  predicate Finished(p: Phase) {
    p.Rejected? || p.Done?
  }

  /** A handler that is through stays as it is. */
  lemma {:induction false} FinishedStays(run: seq<State>, steps: seq<Step>, i: nat, j: nat, id: RequestId)
    requires IsRun(run, steps) && i <= j < |run| && id in run[i].handlers && Finished(run[i].handlers[id].phase)
    ensures id in run[j].handlers && run[j].handlers[id] == run[i].handlers[id]
    decreases j
  {
    if i < j {
      FinishedStays(run, steps, i, j - 1, id);
      FinishedInStep(run, steps, j - 1, id);
    }
  }

  lemma FinishedInStep(run: seq<State>, steps: seq<Step>, i: nat, id: RequestId)
    requires IsRun(run, steps) && i < |steps| && id in run[i].handlers && Finished(run[i].handlers[id].phase)
    ensures id in run[i+1].handlers && run[i+1].handlers[id] == run[i].handlers[id]
  {
    assert StepAt(run, steps, i);
    StepsAreUsedUp(run[i], steps[i], id);
  }

  /** A request whose seconds are refused is rejected for good, any other is admitted to the try-lock. */
  lemma RefusedSecondsNeverHold(run: seq<State>, steps: seq<Step>, i: nat, j: nat)
    requires IsRun(run, steps) && i < |steps| && steps[i].Arrive? && i < j < |run|
    ensures var step := steps[i];
      && step.id in run[i+1].handlers
      && run[i+1].handlers[step.id] == Handler(step.kind, step.runId, if step.secondsOk then Arrived else Rejected)
      && (!step.secondsOk ==> In(run[j], step.id, Rejected))
  {
    assert StepAt(run, steps, i);
    if !steps[i].secondsOk {
      FinishedStays(run, steps, i + 1, j, steps[i].id);
    }
  }

  lemma {:induction false} WokenByAWake(run: seq<State>, steps: seq<Step>, i: nat, id: RequestId) returns (j: nat)
    requires IsRun(run, steps) && i < |run| && In(run[i], id, Woken)
    ensures j < i && steps[j].Wake? && steps[j].id == id
    decreases i
  {
    j := i - 1;
    assert StepAt(run, steps, j);
    if !(steps[j].Wake? && steps[j].id == id) {
      j := WokenByAWake(run, steps, i - 1, id);
    }
  }

  /** A profiler is stopped only after the wait of its capture has ended. */
  lemma StoppedAfterTheWait(run: seq<State>, steps: seq<Step>, i: nat, id: RequestId) returns (j: nat)
    requires IsRun(run, steps) && i < |steps| && steps[i] == Export(id)
    ensures j < i && steps[j].Wake? && steps[j].id == id
  {
    assert StepAt(run, steps, i);
    j := WokenByAWake(run, steps, i, id);
  }

  // ----- no capture is ever stuck

  /** These steps lead from s to t. */
  ghost predicate LeadTo(s: State, steps: seq<Step>, t: State)
    decreases |steps|
  {
    if steps == [] then t == s
    else Enabled(s, steps[0]) && LeadTo(Apply(s, steps[0]), steps[1..], t)
  }

  /** The step with which an unfinished handler can always go on. */
  function NextStep(p: Phase, id: RequestId): Step
    requires !Finished(p)
  {
    match p
    case Arrived => TryLock(id)
    case Locked => Start(id, true)
    case Started => Publish(id)
    case Published => Wake(id, TimerFired)
    case Woken => Export(id)
    case Exported => Clear(id)
    case Cleared => Unlock(id)
    case StartFailed => Unlock(id)
  }

  /** From every state a handler can get through by its own steps alone, at most seven, while the others stand
      still. It then holds no lock, and each profiler that it started is stopped. */
  lemma {:induction false} EveryCaptureCanFinish(s: State, id: RequestId) returns (steps: seq<Step>, t: State)
    requires Invariant(s) && id in s.handlers
    ensures LeadTo(s, steps, t) && |steps| <= StepsLeft(s.handlers[id].phase)
    ensures forall step :: step in steps ==> !step.Stop? && !step.Arrive? && step.id == id
    ensures Invariant(t) && t.handlers.Keys == s.handlers.Keys
    ensures forall other :: other in s.handlers && other != id ==> t.handlers[other] == s.handlers[other]
    ensures Finished(t.handlers[id].phase) && t.starts[id] == t.stops[id]
    ensures forall k :: k in t.shared.sampling ==> t.shared.sampling[k] != id
    decreases StepsLeft(s.handlers[id].phase)
  {
    if Finished(s.handlers[id].phase) {
      steps, t := [], s;
      FinishedHoldsNothing(s, id);
    } else {
      var step := NextStep(s.handlers[id].phase, id);
      var after := Apply(s, step);
      StepKeepsInvariant(s, step);
      StepsAreUsedUp(s, step, id);
      var rest;
      rest, t := EveryCaptureCanFinish(after, id);
      steps := [step] + rest;
      assert steps[1..] == rest;
      forall other | other in s.handlers && other != id ensures t.handlers[other] == s.handlers[other] {
        StepsAreUsedUp(s, step, other);
      }
      StepFrame(s, step);
    }
  }

  lemma FinishedHoldsNothing(s: State, id: RequestId)
    requires Invariant(s) && id in s.handlers && Finished(s.handlers[id].phase)
    ensures s.starts[id] == s.stops[id]
    ensures forall k :: k in s.shared.sampling ==> s.shared.sampling[k] != id
  {
    assert HandlerOk(s, id);
    forall k | k in s.shared.sampling ensures s.shared.sampling[k] != id {
      assert KindOk(s, k);
    }
  }

  /** A start can fail in every state in which it can succeed; two steps later the kind is free again. */
  lemma FailedStartFreesTheKind(s: State, id: RequestId) returns (t: State)
    requires Invariant(s) && In(s, id, Locked)
    ensures LeadTo(s, [Start(id, false), Unlock(id)], t)
    ensures In(t, id, Done(false)) && t.starts == s.starts && t.stops == s.stops
    ensures s.handlers[id].kind !in t.shared.sampling
  {
    var failed := Apply(s, Start(id, false));
    t := Apply(failed, Unlock(id));
    var steps := [Start(id, false), Unlock(id)];
    assert steps[1..] == [Unlock(id)] && steps[1..][1..] == [];
    assert LeadTo(t, [], t);
    assert LeadTo(failed, steps[1..], t);
  }
}
