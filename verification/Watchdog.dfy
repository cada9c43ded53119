/**
 The deployment block of MCPServerReconciler.Reconcile and its watchdog: from setting the phase
 to Pending, through applying the resources and reading the Deployment, to the ten-minute
 timeout and the gateway condition.  The watchdog has no timer of its own: it rests on
 SetCondition not moving the transition time of Progressing while the status stays True.
 */
module Watchdog {
  import opened Clock
  import opened Conditions
  import opened Wrappers

  datatype Kind = Ready | Progressing | Applied | GatewayReady | RegistryFetched | Rendered | IstioConfigured

  datatype Phase = Unset | Pending | Running | Failed | Terminating

  datatype DeploymentCondition = DeploymentCondition(kind: string, status: Status, reason: string)

  datatype Deployment = Deployment(desired: Option<int>, replicas: int, ready: int, available: int, updated: int,
                                   generation: int, observedGeneration: int,
                                   conditions: seq<DeploymentCondition>)
  {
    function Desired(): int {
      desired.GetOr(1)
    }
  }

  const TEN_MINUTES := 600_000_000_000

  /** One reconcile: three readings of the clock, the outcome of applying the resources, the
      Deployment if it could be read, the gateway switch, whether the API server would store the
      status, and, if the watch-fed client lags behind, after which pass the status read was stored. */
  datatype Env = Env(start: int, settle: int, check: int, applied: bool, deployment: Option<Deployment>,
                     gatewayEnabled: bool, stored: bool, version: Option<nat>)

  datatype Snapshot = Snapshot(phase: Phase, replicas: int, ready: int, available: int,
                               conditions: seq<Condition<Kind>>)
  {
    function Set(kind: Kind, status: Status, reason: string, now: int): Snapshot {
      this.(conditions := WithCondition(conditions, kind, status, reason, "", now))
    }

    predicate Is(kind: Kind, status: Status) {
      var c := Find(conditions, kind);
      c.Some? && c.value.status == status
    }
  }

  predicate RollingCondition(c: DeploymentCondition) {
    && c.kind == "Progressing" && c.status == True
    && (c.reason == "ReplicaSetUpdated" || c.reason == "NewReplicaSetCreated")
  }

  predicate RollingUpdate(d: Deployment) {
    || (exists i :: 0 <= i < |d.conditions| && RollingCondition(d.conditions[i]))
    || d.replicas > d.Desired()
    || 0 < d.updated < d.Desired()
    || (d.replicas > d.ready && d.updated > 0)
    || d.generation > d.observedGeneration
  }

  /** All replicas are up and nothing is being rolled out. */
  predicate Stable(d: Deployment) {
    !RollingUpdate(d) && d.ready == d.Desired() && d.ready > 0
  }

  /** The reconcile leaves phase Pending for the watchdog to look at. */
  predicate LeavesPending(e: Env) {
    e.applied &&
    (e.deployment.None? ||
     var d := e.deployment.value;
     !RollingUpdate(d) && !Stable(d) && (d.replicas == 0 || !(0 < d.ready < d.Desired())))
  }

  function Starting(s: Snapshot, e: Env): Snapshot {
    s.(phase := Pending).Set(Progressing, True, "DeploymentInProgress", e.start)
  }

  function Observed(s: Snapshot, e: Env): Snapshot {
    if e.deployment.None? then s.Set(Ready, False, "DeploymentStatusCheckFailed", e.settle)
    else
      var d, t := e.deployment.value, e.settle;
      var s := s.(replicas := d.replicas, ready := d.ready, available := d.available);
      if RollingUpdate(d) then
        s.(phase := Running).Set(Progressing, True, "RollingUpdate", t).Set(Ready, False, "RollingUpdate", t)
      else if Stable(d) then
        s.(phase := Running).Set(Ready, True, "DeploymentReady", t).Set(Progressing, False, "DeploymentComplete", t)
      else if d.replicas == 0 then
        s.(phase := Pending).Set(Progressing, True, "DeploymentScaling", t).Set(Ready, False, "DeploymentScaling", t)
      else if 0 < d.ready < d.Desired() then
        s.(phase := Running).Set(Progressing, True, "DeploymentPartiallyReady", t)
         .Set(Ready, False, "DeploymentPartiallyReady", t)
      else
        s.(phase := Pending).Set(Progressing, True, "DeploymentPending", t).Set(Ready, False, "DeploymentPending", t)
  }

  predicate TimedOut(s: Snapshot, now: int) {
    s.phase == Pending && s.Is(Progressing, True) &&
    now - Find(s.conditions, Progressing).value.since > TEN_MINUTES
  }

  function Watched(s: Snapshot, e: Env): Snapshot {
    if TimedOut(s, e.check)
    then s.(phase := Failed).Set(Ready, False, "DeploymentTimeout", e.check)
          .Set(Progressing, False, "DeploymentTimeout", e.check)
    else s
  }

  function GatewayChecked(s: Snapshot, e: Env): Snapshot {
    if !e.gatewayEnabled then s.Set(GatewayReady, True, "GatewayDisabled", e.check)
    else if s.ready > 0 then s.Set(GatewayReady, True, "GatewayReady", e.check)
    else s.Set(GatewayReady, False, "GatewayNotReady", e.check)
  }

  /** The status before the watchdog looks at it. */
  function Deployed(s: Snapshot, e: Env): Snapshot {
    Observed(Starting(s, e).Set(Applied, True, "Applied", e.settle), e)
  }

  /** The status at the end of the block. */
  function Block(s: Snapshot, e: Env): Snapshot {
    if !e.applied then Starting(s, e).(phase := Failed).Set(Applied, False, "ApplyFailed", e.settle)
    else GatewayChecked(Watched(Deployed(s, e), e), e)
  }

  predicate Fires(s: Snapshot, e: Env) {
    e.applied && TimedOut(Deployed(s, e), e.check)
  }

  method IsDeploymentRollingUpdate(d: Deployment) returns (rolling: bool)
    ensures rolling == RollingUpdate(d)
  {
    var desired := 1;
    if d.desired.Some? {
      desired := d.desired.value;
    }
    for i := 0 to |d.conditions|
      invariant forall j :: 0 <= j < i ==> !RollingCondition(d.conditions[j])
    {
      var c := d.conditions[i];
      if c.kind == "Progressing" {
        if c.status == True && (c.reason == "ReplicaSetUpdated" || c.reason == "NewReplicaSetCreated") {
          assert RollingCondition(d.conditions[i]);
          return true;
        }
      }
    }
    if d.replicas > desired {
      return true;
    }
    if d.updated < desired && d.updated > 0 {
      return true;
    }
    if d.replicas > d.ready && d.updated > 0 {
      return true;
    }
    rolling := d.generation > d.observedGeneration;
  }

  class MCPServer {
    var phase: Phase
    var replicas: int
    var ready: int
    var available: int
    const slice: Resource<Kind>

    ghost function View(): Snapshot
      reads this, slice
    {
      Snapshot(phase, replicas, ready, available, slice.conditions)
    }

    constructor (s: Snapshot)
      ensures View() == s && fresh(slice)
    {
      phase, replicas, ready, available := s.phase, s.replicas, s.ready, s.available;
      slice := new Resource<Kind>(s.conditions);
    }

    method Set(kind: Kind, status: Status, reason: string, now: int)
      modifies slice
      ensures View() == old(View()).Set(kind, status, reason, now)
    {
      slice.SetCondition(kind, status, reason, "", now);
    }

    method ObserveDeployment(e: Env)
      modifies this, slice
      ensures View() == Observed(old(View()), e)
    {
      var t := e.settle;
      if e.deployment.None? {
        Set(Ready, False, "DeploymentStatusCheckFailed", t);
        return;
      }
      var d := e.deployment.value;
      replicas, ready, available := d.replicas, d.ready, d.available;
      var rolling := IsDeploymentRollingUpdate(d);
      var desired := d.desired.GetOr(1);
      if rolling {
        phase := Running;
        Set(Progressing, True, "RollingUpdate", t);
        Set(Ready, False, "RollingUpdate", t);
      } else if d.ready == desired && d.ready > 0 {
        phase := Running;
        Set(Ready, True, "DeploymentReady", t);
        Set(Progressing, False, "DeploymentComplete", t);
      } else if d.replicas == 0 {
        phase := Pending;
        Set(Progressing, True, "DeploymentScaling", t);
        Set(Ready, False, "DeploymentScaling", t);
      } else if d.ready > 0 && d.ready < desired {
        phase := Running;
        Set(Progressing, True, "DeploymentPartiallyReady", t);
        Set(Ready, False, "DeploymentPartiallyReady", t);
      } else {
        phase := Pending;
        Set(Progressing, True, "DeploymentPending", t);
        Set(Ready, False, "DeploymentPending", t);
      }
    }

    method CheckDeploymentTimeout(now: int) returns (exceeded: bool)
      ensures exceeded == TimedOut(View(), now)
    {
      if phase != Pending {
        return false;
      }
      var progressing := slice.GetCondition(Progressing);
      if progressing.None? || progressing.value.status != True {
        return false;
      }
      exceeded := now - progressing.value.since > TEN_MINUTES;
    }

    method MarkDeploymentAsTimedOut(now: int)
      modifies this, slice
      ensures View() == old(View()).(phase := Failed).Set(Ready, False, "DeploymentTimeout", now)
                        .Set(Progressing, False, "DeploymentTimeout", now)
    {
      phase := Failed;
      Set(Ready, False, "DeploymentTimeout", now);
      Set(Progressing, False, "DeploymentTimeout", now);
    }

    method DeploymentBlock(e: Env) returns (timedOut: bool)
      modifies this, slice
      ensures View() == Block(old(View()), e)
      ensures timedOut == Fires(old(View()), e)
    {
      phase := Pending;
      Set(Progressing, True, "DeploymentInProgress", e.start);
      if !e.applied {
        phase := Failed;
        Set(Applied, False, "ApplyFailed", e.settle);
        return false;
      }
      Set(Applied, True, "Applied", e.settle);
      ObserveDeployment(e);
      timedOut := CheckDeploymentTimeout(e.check);
      if timedOut {
        MarkDeploymentAsTimedOut(e.check);
      }
      if !e.gatewayEnabled {
        Set(GatewayReady, True, "GatewayDisabled", e.check);
      } else if ready > 0 {
        Set(GatewayReady, True, "GatewayReady", e.check);
      } else {
        Set(GatewayReady, False, "GatewayNotReady", e.check);
      }
    }
  }

  // ---- One pass through the block ---------------------------------------------------------

  lemma SetFinds(s: Snapshot, kind: Kind, status: Status, reason: string, now: int, other: Kind)
    ensures var s' := s.Set(kind, status, reason, now);
            && Find(s'.conditions, kind) ==
               Some(Condition(kind, status,
                              if s.Is(kind, status) then Find(s.conditions, kind).value.since else now, reason, ""))
            && (other != kind ==> Find(s'.conditions, other) == Find(s.conditions, other))
            && (s'.phase, s'.replicas, s'.ready, s'.available) == (s.phase, s.replicas, s.ready, s.available)
  {
    TransitionMovesOnChange(s.conditions, kind, status, reason, "", now, other);
  }

  /** Where the clock of the watchdog starts for this reconcile. */
  function Since(s: Snapshot, e: Env): int {
    if s.Is(Progressing, True) then Find(s.conditions, Progressing).value.since else e.start
  }

  lemma StartingProgress(s: Snapshot, e: Env)
    ensures var s' := Starting(s, e).Set(Applied, if e.applied then True else False,
                                         if e.applied then "Applied" else "ApplyFailed", e.settle);
            && s'.Is(Progressing, True) && Find(s'.conditions, Progressing).value.since == Since(s, e)
            && s'.Is(Ready, True) == s.Is(Ready, True)
  {
    var p := s.(phase := Pending);
    SetFinds(p, Progressing, True, "DeploymentInProgress", e.start, Ready);
    SetFinds(Starting(s, e), Applied, if e.applied then True else False,
             if e.applied then "Applied" else "ApplyFailed", e.settle, Progressing);
    SetFinds(Starting(s, e), Applied, if e.applied then True else False,
             if e.applied then "Applied" else "ApplyFailed", e.settle, Ready);
  }

  /** Setting Progressing to True again, and Ready, leaves the clock of the watchdog alone. */
  lemma SettledProgress(s: Snapshot, reason: string, t: int)
    requires s.Is(Progressing, True)
    ensures var s' := s.Set(Progressing, True, reason, t).Set(Ready, False, reason, t);
            && Find(s'.conditions, Progressing).Some? && s'.Is(Progressing, True) && s'.Is(Ready, False)
            && Find(s'.conditions, Progressing).value.since == Find(s.conditions, Progressing).value.since
            && s'.phase == s.phase && s'.ready == s.ready
  {
    SetFinds(s, Progressing, True, reason, t, Ready);
    SetFinds(s.Set(Progressing, True, reason, t), Ready, False, reason, t, Progressing);
  }

  lemma DeployedStatus(s: Snapshot, e: Env)
    requires e.applied
    ensures var d := Deployed(s, e);
            && d.phase == (if LeavesPending(e) then Pending else Running)
            && if e.deployment.Some? && Stable(e.deployment.value)
               then d.Is(Ready, True) && d.Is(Progressing, False) && d.ready == e.deployment.value.ready
               else d.Is(Ready, False) && d.Is(Progressing, True) &&
                    Find(d.conditions, Progressing).value.since == Since(s, e)
  {
    StartingProgress(s, e);
    var p, t := Starting(s, e).Set(Applied, True, "Applied", e.settle), e.settle;
    if e.deployment.None? {
      SetFinds(p, Ready, False, "DeploymentStatusCheckFailed", t, Progressing);
    } else {
      var d := e.deployment.value;
      var q := p.(replicas := d.replicas, ready := d.ready, available := d.available);
      if RollingUpdate(d) {
        SettledProgress(q.(phase := Running), "RollingUpdate", t);
      } else if Stable(d) {
        var r := q.(phase := Running);
        SetFinds(r, Ready, True, "DeploymentReady", t, Progressing);
        SetFinds(r.Set(Ready, True, "DeploymentReady", t), Progressing, False, "DeploymentComplete", t, Ready);
      } else if d.replicas == 0 {
        SettledProgress(q.(phase := Pending), "DeploymentScaling", t);
      } else if 0 < d.ready < d.Desired() {
        SettledProgress(q.(phase := Running), "DeploymentPartiallyReady", t);
      } else {
        SettledProgress(q.(phase := Pending), "DeploymentPending", t);
      }
    }
  }

  /** What the gateway condition and the timeout do to the other two conditions. */
  lemma BlockStatus(s: Snapshot, e: Env)
    requires e.applied
    ensures var d, b := Deployed(s, e), Block(s, e);
            if Fires(s, e)
            then b.phase == Failed && b.Is(Ready, False) && b.Is(Progressing, False)
            else b.phase == d.phase && b.ready == d.ready
                 && Find(b.conditions, Ready) == Find(d.conditions, Ready)
                 && Find(b.conditions, Progressing) == Find(d.conditions, Progressing)
  {
    var d := Deployed(s, e);
    var w := Watched(d, e);
    if Fires(s, e) {
      var f := d.(phase := Failed);
      SetFinds(f, Ready, False, "DeploymentTimeout", e.check, Progressing);
      SetFinds(f.Set(Ready, False, "DeploymentTimeout", e.check), Progressing, False, "DeploymentTimeout", e.check,
               Ready);
    }
    var status := if !e.gatewayEnabled || w.ready > 0 then True else False;
    var reason := if !e.gatewayEnabled then "GatewayDisabled"
                  else if w.ready > 0 then "GatewayReady" else "GatewayNotReady";
    SetFinds(w, GatewayReady, status, reason, e.check, Ready);
    SetFinds(w, GatewayReady, status, reason, e.check, Progressing);
  }

  lemma ApplyFailedStatus(s: Snapshot, e: Env)
    requires !e.applied
    ensures var b := Block(s, e);
            && b.phase == Failed && b.Is(Ready, True) == s.Is(Ready, True)
            && b.Is(Progressing, True) && Find(b.conditions, Progressing).value.since == Since(s, e)
  {
    StartingProgress(s, e);
    var f := Starting(s, e).(phase := Failed);
    assert f.Set(Applied, False, "ApplyFailed", e.settle).conditions ==
           Starting(s, e).Set(Applied, False, "ApplyFailed", e.settle).conditions;
  }

  /** Ready=True tells the truth about this status and this Deployment. */
  predicate ReadyIsTrue(s: Snapshot, e: Env) {
    s.Is(Ready, True) ==>
      && s.phase == Running && s.Is(Progressing, False)
      && e.applied && e.deployment.Some? && s.ready == e.deployment.value.Desired() > 0
  }

  /** On leaving the block, Ready=True can be trusted except after a failed apply on a server
      that was Ready before: that exit sets the phase to Failed and leaves Ready alone. */
  lemma ReadyCanBeTrustedIff(s: Snapshot, e: Env)
    ensures ReadyIsTrue(Block(s, e), e) <==> !(!e.applied && s.Is(Ready, True))
    ensures e.applied ==> (Block(s, e).Is(Ready, True) <==> e.deployment.Some? && Stable(e.deployment.value))
  {
    if e.applied {
      DeployedStatus(s, e);
      BlockStatus(s, e);
    } else {
      ApplyFailedStatus(s, e);
    }
  }

  /** What one pass does to Progressing, and when it fires. */
  lemma ProgressAfterBlock(s: Snapshot, e: Env)
    ensures Fires(s, e) <==> LeavesPending(e) && e.check - Since(s, e) > TEN_MINUTES
    ensures var ended := Fires(s, e) || (e.applied && e.deployment.Some? && Stable(e.deployment.value));
            var b := Block(s, e);
            && b.Is(Progressing, if ended then False else True)
            && (!ended ==> Find(b.conditions, Progressing).value.since == Since(s, e))
  {
    if e.applied {
      DeployedStatus(s, e);
      BlockStatus(s, e);
    } else {
      ApplyFailedStatus(s, e);
    }
  }

  // ---- What the block reports, in the Deployment's own fields ------------------------------

  /** The Deployment controller is still at work: it has not seen the latest spec, there are replicas
      beyond the desired ones, some but not all are updated, updated ones are not ready yet, or it
      says so itself. */
  predicate AtWork(d: Deployment) {
    var desired := if d.desired.Some? then d.desired.value else 1;
    || d.observedGeneration < d.generation
    || desired < d.replicas
    || (0 < d.updated && d.updated < desired)
    || (d.ready < d.replicas && 0 < d.updated)
    || exists i :: 0 <= i < |d.conditions| && d.conditions[i].kind == "Progressing" && d.conditions[i].status == True &&
                   d.conditions[i].reason in {"ReplicaSetUpdated", "NewReplicaSetCreated"}
  }

  lemma AtWorkIsRollingUpdate(d: Deployment)
    ensures AtWork(d) <==> RollingUpdate(d)
  {
    if i :| 0 <= i < |d.conditions| && RollingCondition(d.conditions[i]) {
      assert d.conditions[i].reason in {"ReplicaSetUpdated", "NewReplicaSetCreated"};
    }
    if i :| 0 <= i < |d.conditions| && d.conditions[i].kind == "Progressing" && d.conditions[i].status == True &&
            d.conditions[i].reason in {"ReplicaSetUpdated", "NewReplicaSetCreated"} {
      assert RollingCondition(d.conditions[i]);
    }
  }

  /** After applying, the server is reported Ready exactly if the Deployment controller is done and all
      desired replicas, at least one, are ready. */
  lemma ReadyIff(s: Snapshot, e: Env)
    requires e.applied
    ensures Block(s, e).Is(Ready, True) <==>
              e.deployment.Some? && var d := e.deployment.value;
              !AtWork(d) && 0 < d.ready == if d.desired.Some? then d.desired.value else 1
  {
    ReadyCanBeTrustedIff(s, e);
    if e.deployment.Some? {
      AtWorkIsRollingUpdate(e.deployment.value);
    }
  }

  /** What is reported about a condition: its status and why. */
  predicate Says(s: Snapshot, kind: Kind, status: Status, reason: string) {
    var c := Find(s.conditions, kind);
    c.Some? && c.value.status == status && c.value.reason == reason
  }

  lemma SetSays(s: Snapshot, kind: Kind, status: Status, reason: string, now: int, other: Kind)
    ensures var s' := s.Set(kind, status, reason, now);
            && Says(s', kind, status, reason)
            && (other != kind ==> Find(s'.conditions, other) == Find(s.conditions, other))
            && (s'.phase, s'.replicas, s'.ready, s'.available) == (s.phase, s.replicas, s.ready, s.available)
  {
    SetFinds(s, kind, status, reason, now, other);
  }

  lemma TwoSay(s: Snapshot, progressing: Status, ready: Status, reason: string, t: int)
    ensures var s' := s.Set(Progressing, progressing, reason, t).Set(Ready, ready, reason, t);
            && Says(s', Progressing, progressing, reason) && Says(s', Ready, ready, reason)
            && Find(s'.conditions, Applied) == Find(s.conditions, Applied)
            && (s'.phase, s'.replicas, s'.ready, s'.available) == (s.phase, s.replicas, s.ready, s.available)
  {
    var p := s.Set(Progressing, progressing, reason, t);
    SetSays(s, Progressing, progressing, reason, t, Applied);
    SetSays(p, Ready, ready, reason, t, Progressing);
    SetSays(p, Ready, ready, reason, t, Applied);
  }

  lemma FailureSays(s: Snapshot, t: int)
    ensures var s' := s.Set(Ready, False, "DeploymentTimeout", t).Set(Progressing, False, "DeploymentTimeout", t);
            && Says(s', Progressing, False, "DeploymentTimeout") && Says(s', Ready, False, "DeploymentTimeout")
            && Find(s'.conditions, Applied) == Find(s.conditions, Applied)
            && (s'.phase, s'.replicas, s'.ready, s'.available) == (s.phase, s.replicas, s.ready, s.available)
  {
    var r := s.Set(Ready, False, "DeploymentTimeout", t);
    SetSays(s, Ready, False, "DeploymentTimeout", t, Progressing);
    SetSays(s, Ready, False, "DeploymentTimeout", t, Applied);
    SetSays(r, Progressing, False, "DeploymentTimeout", t, Ready);
    SetSays(r, Progressing, False, "DeploymentTimeout", t, Applied);
  }

  /** A phase, and one reason for the two conditions. */
  predicate Tells(s: Snapshot, phase: Phase, progressing: Status, ready: Status, reason: string) {
    s.phase == phase && Says(s, Progressing, progressing, reason) && Says(s, Ready, ready, reason)
  }

  /** What is told while the Deployment `d` has its way and no time runs out. */
  predicate TellsOf(s: Snapshot, d: Deployment) {
    var desired := if d.desired.Some? then d.desired.value else 1;
    var done := 0 < d.ready == desired;
    && (AtWork(d) ==> Tells(s, Running, True, False, "RollingUpdate"))
    && (!AtWork(d) && done ==>
          && s.phase == Running
          && Says(s, Ready, True, "DeploymentReady") && Says(s, Progressing, False, "DeploymentComplete"))
    && (!AtWork(d) && !done && d.replicas == 0 ==> Tells(s, Pending, True, False, "DeploymentScaling"))
    && (!AtWork(d) && !done && d.replicas != 0 && 0 < d.ready < desired ==>
          Tells(s, Running, True, False, "DeploymentPartiallyReady"))
    && (!AtWork(d) && !done && d.replicas != 0 && !(0 < d.ready < desired) ==>
          Tells(s, Pending, True, False, "DeploymentPending"))
    && s.replicas == d.replicas && s.ready == d.ready && s.available == d.available
  }

  lemma ObservedTells(s: Snapshot, e: Env)
    requires e.deployment.Some?
    ensures TellsOf(Observed(s, e), e.deployment.value)
    ensures Find(Observed(s, e).conditions, Applied) == Find(s.conditions, Applied)
  {
    var d, t := e.deployment.value, e.settle;
    var q := s.(replicas := d.replicas, ready := d.ready, available := d.available);
    AtWorkIsRollingUpdate(d);
    if RollingUpdate(d) {
      TwoSay(q.(phase := Running), True, False, "RollingUpdate", t);
    } else if Stable(d) {
      var r := q.(phase := Running);
      var r' := r.Set(Ready, True, "DeploymentReady", t);
      SetSays(r, Ready, True, "DeploymentReady", t, Applied);
      SetSays(r', Progressing, False, "DeploymentComplete", t, Ready);
      SetSays(r', Progressing, False, "DeploymentComplete", t, Applied);
    } else if d.replicas == 0 {
      TwoSay(q.(phase := Pending), True, False, "DeploymentScaling", t);
    } else if 0 < d.ready < d.Desired() {
      TwoSay(q.(phase := Running), True, False, "DeploymentPartiallyReady", t);
    } else {
      TwoSay(q.(phase := Pending), True, False, "DeploymentPending", t);
    }
  }

  lemma DeployedTells(s: Snapshot, e: Env)
    ensures var b := Deployed(s, e);
            && Says(b, Applied, True, "Applied")
            && (e.deployment.Some? ==> TellsOf(b, e.deployment.value))
            && (e.deployment.None? ==>
                  && b.phase == Pending && Says(b, Progressing, True, "DeploymentInProgress")
                  && Says(b, Ready, False, "DeploymentStatusCheckFailed")
                  && (b.replicas, b.ready, b.available) == (s.replicas, s.ready, s.available))
  {
    var p := Starting(s, e);
    SetSays(s.(phase := Pending), Progressing, True, "DeploymentInProgress", e.start, Applied);
    SetSays(p, Applied, True, "Applied", e.settle, Progressing);
    var q := p.Set(Applied, True, "Applied", e.settle);
    if e.deployment.None? {
      SetSays(q, Ready, False, "DeploymentStatusCheckFailed", e.settle, Progressing);
      SetSays(q, Ready, False, "DeploymentStatusCheckFailed", e.settle, Applied);
    } else {
      ObservedTells(q, e);
    }
  }

  /** Two statuses tell the same of the Deployment. */
  predicate SameTold(a: Snapshot, b: Snapshot) {
    && (a.phase, a.replicas, a.ready, a.available) == (b.phase, b.replicas, b.ready, b.available)
    && Find(a.conditions, Progressing) == Find(b.conditions, Progressing)
    && Find(a.conditions, Ready) == Find(b.conditions, Ready)
    && Find(a.conditions, Applied) == Find(b.conditions, Applied)
  }

  lemma GatewayTells(s: Snapshot, e: Env)
    ensures var b := GatewayChecked(s, e);
            && SameTold(b, s)
            && (!e.gatewayEnabled ==> Says(b, GatewayReady, True, "GatewayDisabled"))
            && (e.gatewayEnabled && s.ready > 0 ==> Says(b, GatewayReady, True, "GatewayReady"))
            && (e.gatewayEnabled && s.ready <= 0 ==> Says(b, GatewayReady, False, "GatewayNotReady"))
  {
    var status := if !e.gatewayEnabled || s.ready > 0 then True else False;
    var reason := if !e.gatewayEnabled then "GatewayDisabled"
                  else if s.ready > 0 then "GatewayReady" else "GatewayNotReady";
    SetSays(s, GatewayReady, status, reason, e.check, Ready);
    SetSays(s, GatewayReady, status, reason, e.check, Progressing);
    SetSays(s, GatewayReady, status, reason, e.check, Applied);
  }

  /** The time runs out: the Deployment is left pending, or could not be read, more than ten minutes after the
      server last began to progress. */
  predicate OutOfTime(s: Snapshot, e: Env) {
    var progressing := Find(s.conditions, Progressing);
    && e.check - (if progressing.Some? && progressing.value.status == True then progressing.value.since else e.start)
       > 600_000_000_000
    && (e.deployment.Some? ==>
          var d := e.deployment.value;
          var desired := if d.desired.Some? then d.desired.value else 1;
          !AtWork(d) && (d.ready <= 0 || desired < d.ready || (d.replicas == 0 && d.ready != desired)))
  }

  lemma FiresIffOutOfTime(s: Snapshot, e: Env)
    ensures Fires(s, e) <==> e.applied && OutOfTime(s, e)
  {
    ProgressAfterBlock(s, e);
    if e.deployment.Some? {
      AtWorkIsRollingUpdate(e.deployment.value);
    }
  }

  lemma WatchedTells(s: Snapshot, e: Env)
    ensures var w := Watched(s, e);
            && Find(w.conditions, Applied) == Find(s.conditions, Applied)
            && (TimedOut(s, e.check) ==> Tells(w, Failed, False, False, "DeploymentTimeout"))
            && (!TimedOut(s, e.check) ==> SameTold(w, s))
            && (w.replicas, w.ready, w.available) == (s.replicas, s.ready, s.available)
  {
    if TimedOut(s, e.check) {
      FailureSays(s.(phase := Failed), e.check);
    }
  }

  lemma SameTells(a: Snapshot, b: Snapshot, d: Deployment)
    ensures SameTold(a, b) && TellsOf(b, d) ==> TellsOf(a, d)
  {
  }

  /** The whole report of a pass that applied the resources. */
  lemma BlockTells(s: Snapshot, e: Env)
    requires e.applied
    ensures var b := Block(s, e);
            && Says(b, Applied, True, "Applied")
            && (OutOfTime(s, e) ==> Tells(b, Failed, False, False, "DeploymentTimeout"))
            && (!OutOfTime(s, e) && e.deployment.Some? ==> TellsOf(b, e.deployment.value))
            && (!OutOfTime(s, e) && e.deployment.None? ==>
                  && b.phase == Pending && Says(b, Progressing, True, "DeploymentInProgress")
                  && Says(b, Ready, False, "DeploymentStatusCheckFailed"))
            && (b.replicas, b.ready, b.available) ==
               if e.deployment.None? then (s.replicas, s.ready, s.available)
               else var d := e.deployment.value; (d.replicas, d.ready, d.available)
  {
    DeployedTells(s, e);
    FiresIffOutOfTime(s, e);
    WatchedTells(Deployed(s, e), e);
    GatewayTells(Watched(Deployed(s, e), e), e);
    if !Fires(s, e) && e.deployment.Some? {
      SameTells(Block(s, e), Deployed(s, e), e.deployment.value);
    }
  }

  /** The gateway counts as ready if it is off or some replica is ready. */
  lemma GatewayReadyIff(s: Snapshot, e: Env)
    requires e.applied
    ensures var b := Block(s, e);
            && (!e.gatewayEnabled ==> Says(b, GatewayReady, True, "GatewayDisabled"))
            && (e.gatewayEnabled && b.ready > 0 ==> Says(b, GatewayReady, True, "GatewayReady"))
            && (e.gatewayEnabled && b.ready <= 0 ==> Says(b, GatewayReady, False, "GatewayNotReady"))
  {
    GatewayTells(Watched(Deployed(s, e), e), e);
  }

  /** A failed apply is told by the phase and by Applied alone. */
  lemma FailedApplyTells(s: Snapshot, e: Env)
    requires !e.applied
    ensures var b := Block(s, e);
            && b.phase == Failed && Says(b, Applied, False, "ApplyFailed")
            && Says(b, Progressing, True, "DeploymentInProgress")
            && Find(b.conditions, Ready) == Find(s.conditions, Ready)
            && Find(b.conditions, GatewayReady) == Find(s.conditions, GatewayReady)
            && (b.replicas, b.ready, b.available) == (s.replicas, s.ready, s.available)
  {
    var q, p := s.(phase := Pending), Starting(s, e).(phase := Failed);
    SetSays(q, Progressing, True, "DeploymentInProgress", e.start, Ready);
    SetSays(q, Progressing, True, "DeploymentInProgress", e.start, GatewayReady);
    SetSays(p, Applied, False, "ApplyFailed", e.settle, Progressing);
    SetSays(p, Applied, False, "ApplyFailed", e.settle, Ready);
    SetSays(p, Applied, False, "ApplyFailed", e.settle, GatewayReady);
  }

  // ---- Runs of reconciles -----------------------------------------------------------------

  /** The status of this pass reaches the API server: the write is accepted, and it was made on the
      latest version, since an update of an older one is refused as a conflict. */
  predicate Lands(e: Env) {
    e.stored && e.version.None?
  }

  /** The status as it is read back, with its times in whole seconds. */
  function Stored(s: Snapshot): Snapshot {
    s.(conditions := Cut(s.conditions))
  }

  /** The stored status after a run; a pass whose status did not land leaves no trace. */
  function After(s: Snapshot, es: seq<Env>): Snapshot {
    if es == [] then s
    else
      var before := After(s, es[..|es| - 1]);
      if Lands(es[|es| - 1]) then Stored(Block(before, es[|es| - 1])) else before
  }

  /** How many passes had gone by when the version that pass `j` reads was the latest. */
  function ReadAt(es: seq<Env>, j: nat): (n: nat)
    requires j < |es|
    ensures n <= j && (es[j].version.None? ==> n == j)
  {
    if es[j].version.Some? && es[j].version.value < j then es[j].version.value else j
  }

  /** Whether the timeout fires in pass `j`. */
  predicate FiresAt(s: Snapshot, es: seq<Env>, j: nat)
    requires j < |es|
  {
    Fires(After(s, es[..ReadAt(es, j)]), es[j])
  }

  /** The start of the first pass of the current unbroken streak of passes that were stored with
      Progressing=True.  It looks at the status only, never at a transition time. */
  function StreakStart(s: Snapshot, es: seq<Env>): Option<int> {
    if es == [] || !After(s, es).Is(Progressing, True) then None
    else
      var earlier := StreakStart(s, es[..|es| - 1]);
      if earlier.Some? || !Lands(es[|es| - 1]) then earlier else Some(es[|es| - 1].start)
  }

  lemma StoredProgress(b: Snapshot)
    ensures Stored(b).Is(Progressing, True) == b.Is(Progressing, True)
    ensures b.Is(Progressing, True) ==>
              Find(Stored(b).conditions, Progressing).value.since == Whole(Find(b.conditions, Progressing).value.since)
  {
    CutFinds(b.conditions, Progressing);
  }

  /** The transition time of Progressing=True is the start of the streak, cut to the second, however
      long the streak is. */
  lemma {:induction false} TransitionTimeIsStreakStart(s: Snapshot, es: seq<Env>)
    requires !s.Is(Progressing, True)
    ensures StreakStart(s, es).Some? <==> After(s, es).Is(Progressing, True)
    ensures StreakStart(s, es).Some? ==>
              Find(After(s, es).conditions, Progressing).value.since == Whole(StreakStart(s, es).value)
  {
    if es == [] {
    } else {
      var before, e := After(s, es[..|es| - 1]), es[|es| - 1];
      TransitionTimeIsStreakStart(s, es[..|es| - 1]);
      ProgressAfterBlock(before, e);
      StoredProgress(Block(before, e));
    }
  }

  /** Where the clock of the watchdog stands for a pass that reads the status stored last by `es`. */
  function ClockStart(s: Snapshot, es: seq<Env>, e: Env): int {
    if StreakStart(s, es).Some? then Whole(StreakStart(s, es).value) else e.start
  }

  /** The timeout fires at exactly those passes that leave the server Pending more than ten minutes
      after the whole second in which the streak began that they read; firing ends the streak, if
      it lands. */
  lemma FiresExactlyWhenOverdue(s: Snapshot, es: seq<Env>, e: Env)
    requires !s.Is(Progressing, True)
    ensures Fires(After(s, es), e) <==> LeavesPending(e) && e.check - ClockStart(s, es, e) > TEN_MINUTES
    ensures Fires(After(s, es), e) && Lands(e) ==> StreakStart(s, es + [e]) == None
  {
    TransitionTimeIsStreakStart(s, es);
    ProgressAfterBlock(After(s, es), e);
    StoredProgress(Block(After(s, es), e));
    assert (es + [e])[..|es|] == es;
  }

  // The same streak without the statuses: all later lemmas are about this.

  function ClockFrom(streak: Option<int>, e: Env): int {
    if streak.Some? then Whole(streak.value) else e.start
  }

  predicate Overdue(streak: Option<int>, e: Env) {
    LeavesPending(e) && e.check - ClockFrom(streak, e) > TEN_MINUTES
  }

  /** The streak after a pass that lands. */
  function NextStreak(streak: Option<int>, e: Env): Option<int> {
    if Overdue(streak, e) || (e.applied && e.deployment.Some? && Stable(e.deployment.value)) then None
    else Some(streak.GetOr(e.start))
  }

  function Streak(es: seq<Env>): Option<int> {
    if es == [] then None
    else
      var before := Streak(es[..|es| - 1]);
      if Lands(es[|es| - 1]) then NextStreak(before, es[|es| - 1]) else before
  }

  lemma {:induction false} StreakIsComputed(s: Snapshot, es: seq<Env>)
    requires !s.Is(Progressing, True)
    ensures StreakStart(s, es) == Streak(es)
    ensures After(s, es).Is(Progressing, True) <==> Streak(es).Some?
  {
    if es == [] {
    } else {
      var before, e := After(s, es[..|es| - 1]), es[|es| - 1];
      StreakIsComputed(s, es[..|es| - 1]);
      TransitionTimeIsStreakStart(s, es[..|es| - 1]);
      ProgressAfterBlock(before, e);
      StoredProgress(Block(before, e));
    }
  }

  lemma FiresIffOverdue(s: Snapshot, es: seq<Env>, j: nat)
    requires !s.Is(Progressing, True) && j < |es|
    ensures FiresAt(s, es, j) <==> Overdue(Streak(es[..ReadAt(es, j)]), es[j])
  {
    StreakIsComputed(s, es[..ReadAt(es, j)]);
    FiresExactlyWhenOverdue(s, es[..ReadAt(es, j)], es[j]);
  }

  lemma StreakStep(es: seq<Env>, n: nat)
    requires n < |es|
    ensures Streak(es[..n + 1]) == if Lands(es[n]) then NextStreak(Streak(es[..n]), es[n]) else Streak(es[..n])
  {
    assert es[..n + 1][..n] == es[..n];
  }

  ghost predicate InOrder(es: seq<Env>) {
    && (forall i :: 0 <= i < |es| ==> es[i].start <= es[i].settle <= es[i].check)
    && (forall i, j :: 0 <= i < j < |es| ==> es[i].check <= es[j].start)
  }

  /** Once a stored status is not progressing, the clock starts again from later passes only. */
  lemma {:induction false} StreaksRestart(es: seq<Env>, n: nat, m: nat, from: int)
    requires n <= m <= |es| && Streak(es[..n]).None?
    requires forall i :: n <= i < |es| ==> from <= es[i].start
    ensures Streak(es[..m]).Some? ==> Streak(es[..m]).value >= from
  {
    if n == m {
    } else {
      StreaksRestart(es, n, m - 1, from);
      StreakStep(es, m - 1);
    }
  }

  lemma {:induction false} UnbrokenKeepsStart(es: seq<Env>, i: nat, j: nat)
    requires i <= j <= |es| && Streak(es[..i]).Some? && forall n :: i < n <= j ==> Streak(es[..n]).Some?
    ensures Streak(es[..j]) == Streak(es[..i])
  {
    if i == j {
    } else {
      UnbrokenKeepsStart(es, i, j - 1);
      StreakStep(es, j - 1);
    }
  }

  lemma {:induction false} StreakBeganBefore(es: seq<Env>, a: nat, b: nat)
    requires InOrder(es) && a <= b < |es|
    ensures Streak(es[..a]).Some? ==> Streak(es[..a]).value <= es[b].start
  {
    if a == 0 {
    } else {
      StreakStep(es, a - 1);
      StreakBeganBefore(es, a - 1, b);
      assert es[a - 1].start <= es[a - 1].check <= es[b].start;
    }
  }

  /** Streaks that are read later began later. */
  lemma {:induction false} StreaksBeginInOrder(es: seq<Env>, a: nat, b: nat)
    requires InOrder(es) && a <= b <= |es| && Streak(es[..a]).Some?
    ensures Streak(es[..b]).Some? ==> Streak(es[..a]).value <= Streak(es[..b]).value
  {
    if a == b {
    } else {
      StreakStep(es, b - 1);
      StreaksBeginInOrder(es, a, b - 1);
      StreakBeganBefore(es, a, b - 1);
    }
  }

  lemma WholeIsMonotone(a: int, b: int)
    requires a <= b
    ensures Whole(a) <= Whole(b)
  {
  }

  // ---- How far firings are apart ----------------------------------------------------------

  ghost predicate ProgressingAfter(s: Snapshot, es: seq<Env>, n: nat)
    requires n <= |es|
  {
    After(s, es[..n]).Is(Progressing, True)
  }

  lemma ProgressingIffStreak(s: Snapshot, es: seq<Env>)
    requires !s.Is(Progressing, True)
    ensures forall n :: 0 <= n <= |es| ==> (ProgressingAfter(s, es, n) <==> Streak(es[..n]).Some?)
  {
    forall n | 0 <= n <= |es|
      ensures ProgressingAfter(s, es, n) <==> Streak(es[..n]).Some?
    {
      StreakIsComputed(s, es[..n]);
    }
  }

  /** Some version stored by pass `i` or later, and no later than the one that pass `j` reads, does not
      say Progressing=True. */
  ghost predicate BrokenFor(s: Snapshot, es: seq<Env>, i: nat, j: nat)
    requires j < |es|
  {
    exists n :: i < n <= ReadAt(es, j) && !ProgressingAfter(s, es, n)
  }

  lemma BrokenStreakSeparates(es: seq<Env>, i: nat, n: nat, j: nat)
    requires InOrder(es) && j < |es| && i < n <= ReadAt(es, j) && Streak(es[..n]).None?
    requires Overdue(Streak(es[..ReadAt(es, j)]), es[j])
    ensures es[j].check - es[i].check > TEN_MINUTES - (SECOND - 1)
  {
    StreaksRestart(es, n, ReadAt(es, j), es[i].check);
  }

  lemma LandedFiringBreaks(es: seq<Env>, i: nat)
    requires i < |es| && Lands(es[i]) && Overdue(Streak(es[..i]), es[i])
    ensures Streak(es[..i + 1]).None?
  {
    StreakStep(es, i);
  }

  /** Two firings are more than ten minutes less a second apart if the later pass reads a version from
      after the end of the streak, as it does with any version since the first firing if that one
      landed; or if it reads no streak at all. */
  lemma FiringsAreTenMinutesApart(s: Snapshot, es: seq<Env>, i: nat, j: nat)
    requires !s.Is(Progressing, True) && InOrder(es) && i < j < |es|
    requires FiresAt(s, es, i) && FiresAt(s, es, j)
    ensures Lands(es[i]) && i < ReadAt(es, j) ==> BrokenFor(s, es, i, j)
    ensures BrokenFor(s, es, i, j) || !ProgressingAfter(s, es, ReadAt(es, j)) ==>
              es[j].check - es[i].check > TEN_MINUTES - (SECOND - 1)
  {
    ProgressingIffStreak(s, es);
    FiresIffOverdue(s, es, i);
    FiresIffOverdue(s, es, j);
    if Lands(es[i]) {
      LandedFiringBreaks(es, i);
    }
    if n :| i < n <= ReadAt(es, j) && !ProgressingAfter(s, es, n) {
      BrokenStreakSeparates(es, i, n, j);
    }
  }

  lemma OlderStreakIsOverdue(es: seq<Env>, i: nat, j: nat)
    requires InOrder(es) && i < j < |es| && Overdue(Streak(es[..ReadAt(es, i)]), es[i])
    requires var streak := Streak(es[..ReadAt(es, j)]);
             streak.Some? && streak.value <= Streak(es[..ReadAt(es, i)]).GetOr(es[i].start)
    ensures Overdue(Streak(es[..ReadAt(es, j)]), es[j]) <==> LeavesPending(es[j])
  {
    assert es[i].check <= es[j].start <= es[j].check;
    WholeIsMonotone(Streak(es[..ReadAt(es, j)]).value, Streak(es[..ReadAt(es, i)]).GetOr(es[i].start));
  }

  /** A pass that reads a streak no younger than the one that an earlier pass fired on fires exactly if
      it leaves the server Pending, at once. */
  lemma FiresAgainIff(s: Snapshot, es: seq<Env>, i: nat, j: nat)
    requires !s.Is(Progressing, True) && InOrder(es) && i < j < |es|
    ensures var streak := StreakStart(s, es[..ReadAt(es, j)]);
            && FiresAt(s, es, i)
            && streak.Some? && streak.value <= StreakStart(s, es[..ReadAt(es, i)]).GetOr(es[i].start) ==>
              (FiresAt(s, es, j) <==> LeavesPending(es[j]))
  {
    StreakIsComputed(s, es[..ReadAt(es, i)]);
    StreakIsComputed(s, es[..ReadAt(es, j)]);
    FiresIffOverdue(s, es, i);
    FiresIffOverdue(s, es, j);
    var streak := Streak(es[..ReadAt(es, j)]);
    if FiresAt(s, es, i) && streak.Some? && streak.value <= Streak(es[..ReadAt(es, i)]).GetOr(es[i].start) {
      OlderStreakIsOverdue(es, i, j);
    }
  }

  lemma UnbrokenReadIsOlder(es: seq<Env>, i: nat, j: nat)
    requires InOrder(es) && i < j < |es| && es[i].version.None? && Overdue(Streak(es[..i]), es[i])
    requires Streak(es[..ReadAt(es, j)]).Some?
    requires forall n :: i < n <= ReadAt(es, j) ==> Streak(es[..n]).Some?
    ensures Streak(es[..ReadAt(es, j)]).value <= Streak(es[..i]).GetOr(es[i].start)
    ensures !es[i].stored || ReadAt(es, j) <= i
  {
    var r := ReadAt(es, j);
    if r <= i {
      StreaksBeginInOrder(es, r, i);
      StreakBeganBefore(es, r, i);
    } else {
      assert Streak(es[..i + 1]).Some?;
      StreakStep(es, i);
      UnbrokenKeepsStart(es, i, r);
    }
  }

  /** So for a firing on the latest version there are two cases only: a later firing is ten minutes less
      a second away, as above, or every later pass that leaves the server Pending fires.  The second
      case needs a refused write or a lagging read. */
  lemma AfterFiringIff(s: Snapshot, es: seq<Env>, i: nat, j: nat)
    requires !s.Is(Progressing, True) && InOrder(es) && i < j < |es| && FiresAt(s, es, i) && es[i].version.None?
    requires !BrokenFor(s, es, i, j) && ProgressingAfter(s, es, ReadAt(es, j))
    ensures FiresAt(s, es, j) <==> LeavesPending(es[j])
    ensures !es[i].stored || ReadAt(es, j) <= i
  {
    ProgressingIffStreak(s, es);
    FiresIffOverdue(s, es, i);
    FiresIffOverdue(s, es, j);
    UnbrokenReadIsOlder(es, i, j);
    OlderStreakIsOverdue(es, i, j);
  }

  /** A pass over a server whose resources are applied and whose Deployment cannot be read. */
  function Blind(t: int, stored: bool, version: Option<nat>): Env {
    Env(t, t, t, true, None, false, stored, version)
  }

  /** Pending at time 0, then a pass after ten minutes, and another one a nanosecond later.  The status
      of the second one is refused, or the third one still reads the version before it. */
  predicate Crowded(es: seq<Env>) {
    && |es| == 3 && es[0] == Blind(0, true, None)
    && ((es[1] == Blind(TEN_MINUTES + 1, false, None) && es[2] == Blind(TEN_MINUTES + 2, true, None)) ||
        (es[1] == Blind(TEN_MINUTES + 1, true, None) && es[2] == Blind(TEN_MINUTES + 2, true, Some(1))))
  }

  lemma CrowdedAreOverdue(es: seq<Env>)
    requires Crowded(es)
    ensures InOrder(es) && Overdue(Streak(es[..1]), es[1]) && Overdue(Streak(es[..ReadAt(es, 2)]), es[2])
  {
    StreakStep(es, 0);
    StreakStep(es, 1);
    assert es[..0] == [];
  }

  /** Then the timeout fires in both. */
  lemma FiringsMayCrowd(s: Snapshot, es: seq<Env>)
    requires !s.Is(Progressing, True) && Crowded(es)
    ensures InOrder(es) && FiresAt(s, es, 1) && FiresAt(s, es, 2) && es[2].check - es[1].check == 1
  {
    CrowdedAreOverdue(es);
    FiresIffOverdue(s, es, 1);
    FiresIffOverdue(s, es, 2);
  }

  /** Every write is accepted and nothing lags: a streak begins at 0, the pass one nanosecond before the
      end of the second after ten minutes, the next one at the same moment, and one after ten more minutes. */
  predicate Tight(es: seq<Env>) {
    && |es| == 4 && es[0] == Blind(0, true, None)
    && es[1] == es[2] == Blind(TEN_MINUTES + SECOND - 1, true, None)
    && es[3] == Blind(2 * TEN_MINUTES + 1, true, None)
  }

  lemma TightAreOverdue(es: seq<Env>)
    requires Tight(es)
    ensures InOrder(es) && Overdue(Streak(es[..1]), es[1]) && Overdue(Streak(es[..3]), es[3])
  {
    StreakStep(es, 0);
    StreakStep(es, 1);
    StreakStep(es, 2);
    assert es[..0] == [];
    assert Whole(TEN_MINUTES + SECOND - 1) == TEN_MINUTES;
  }

  /** The bound is tight: the two firings are the shortest distance above it apart. */
  lemma GapCanBeShort(s: Snapshot, es: seq<Env>)
    requires !s.Is(Progressing, True) && Tight(es)
    ensures InOrder(es) && FiresAt(s, es, 1) && FiresAt(s, es, 3)
    ensures es[3].check - es[1].check == 599_000_000_002
  {
    TightAreOverdue(es);
    FiresIffOverdue(s, es, 1);
    FiresIffOverdue(s, es, 3);
  }
}
