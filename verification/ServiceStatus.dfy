/** Conditions, phase and revision of an inference service over one reconcile
    (operator/internal/controller/inferenceservice_controller.go, aggregate.go). */
module ServiceStatus {
  import opened Wrappers
  import opened Rollout
  import opened ApplyWorkloads
  import Convergence
  import Freshness

  datatype ConditionKind = Resolved | Rendered | Provisioned | WorkloadsApplied | EndpointReady | RouteReady | Ready
                           | Progressing

  datatype Condition = Condition(holds: bool, reason: string)

  datatype PhaseName = PhasePending | PhaseProgressing | PhaseReady | PhaseFailed

  const WAITING := "WaitingForDependencies"

  /** A pipeline step that failed; waiting for a dependency is not a failure. */
  predicate Fails(conditions: map<ConditionKind, Condition>, k: ConditionKind) {
    k in conditions && !conditions[k].holds && conditions[k].reason != WAITING
  }

  /** derivePhase. */
  function DerivePhase(conditions: map<ConditionKind, Condition>): (PhaseName, string) {
    if Fails(conditions, Resolved) then (PhaseFailed, conditions[Resolved].reason)
    else if Fails(conditions, Rendered) then (PhaseFailed, conditions[Rendered].reason)
    else if Fails(conditions, Provisioned) then (PhaseFailed, conditions[Provisioned].reason)
    else if Fails(conditions, WorkloadsApplied) then (PhaseFailed, conditions[WorkloadsApplied].reason)
    else if Ready !in conditions then (PhasePending, "Pending")
    else if conditions[Ready].holds then (PhaseReady, conditions[Ready].reason)
    else if Progressing in conditions && conditions[Progressing].holds then
      (PhaseProgressing, conditions[Progressing].reason)
    else (PhaseFailed, conditions[Ready].reason)
  }

  /** The persisted status. */
  datatype Status = Status(
    conditions: map<ConditionKind, Condition>,
    roles: seq<RoleStatus>,
    profile: Option<string>,
    revision: string,
    phase: Option<(PhaseName, string)>)

  /** What the steps outside the apply loop come to. */
  datatype Inputs = Inputs(
    resolveError: bool,            // a reference could not be read at all
    unresolved: Option<string>,    // the first reason a reference does not resolve
    profileName: Option<string>,   // the resolved profile, when it exists
    renderError: Option<string>,
    provisionError: Option<string>,
    endpointError: bool,
    endpoint: Option<string>,      // the reason it is not reachable
    routeError: bool,
    route: Option<string>,
    revision: string)              // the hash of the current profile and assets

  /** How far one reconcile got. */
  datatype Exit =
    | NoStatus                     // an error returned before any status write
    | Unresolved | NotRendered | NotProvisioned
    | NotApplied(outcome: Outcome)
    | Aggregated(outcome: Outcome)

  ghost predicate SameAt(a: map<ConditionKind, Condition>, b: map<ConditionKind, Condition>, k: ConditionKind) {
    (k in a <==> k in b) && (k in a ==> a[k] == b[k])
  }

  predicate AllRolesReady(roles: seq<RoleStatus>)
    ensures AllRolesReady(roles) <==> Freshness.AllReported(roles)
  {
    forall i :: 0 <= i < |roles| ==> roles[i].ready
  }

  function ReasonText(r: Reason): string {
    match r
    case Nothing => ""
    case Reconciling => "Reconciling"
    case Scaling => "Scaling"
    case Rolling => "Rollout"
  }

  function At(conditions: map<ConditionKind, Condition>, k: ConditionKind): Option<Condition> {
    if k in conditions then Some(conditions[k]) else None
  }

  /** The phase an aggregation reports, from the statuses of its roles, what it applied and the
      Progressing condition it found: ready when every role is; else progressing with what was applied; and
      when nothing was, what Progressing said before, a service that had converged and then lost a role being
      failed. Never pending. */
  ghost predicate Verdict(statuses: seq<RoleStatus>, applied: Reason, before: Option<Condition>,
                          phase: Option<(PhaseName, string)>) {
    var ready := forall i :: 0 <= i < |statuses| ==> statuses[i].ready;
    && (ready ==> phase == Some((PhaseReady, "Ready")))
    && (!ready && applied == Rolling ==> phase == Some((PhaseProgressing, "Rollout")))
    && (!ready && applied == Scaling ==> phase == Some((PhaseProgressing, "Scaling")))
    && (!ready && applied == Reconciling ==> phase == Some((PhaseProgressing, "Reconciling")))
    && (!ready && applied == Nothing && before.None? ==> phase == Some((PhaseProgressing, "Reconciling")))
    && (!ready && applied == Nothing && before.Some? && before.value.holds ==>
          phase == Some((PhaseProgressing, before.value.reason)))
    && (!ready && applied == Nothing && before.Some? && !before.value.holds ==>
          phase == Some((PhaseFailed, "RolesNotReady")))
  }

  /** With the pipeline's steps done, the phase of what Conclude leaves is that verdict. */
  lemma PhaseIsVerdict(statuses: seq<RoleStatus>, applied: Reason, before: Option<Condition>,
                       after: map<ConditionKind, Condition>)
    requires forall k :: k in {Resolved, Rendered, Provisioned, WorkloadsApplied} ==> !Fails(after, k)
    requires At(after, Ready) == Some(if AllRolesReady(statuses) then Condition(true, "Ready")
                                      else Condition(false, "RolesNotReady"))
    requires Progressing in after
    requires AllRolesReady(statuses) || applied != Nothing || before.None? ||
             after[Progressing] == before.value
    requires !AllRolesReady(statuses) && applied != Nothing ==>
               after[Progressing] == Condition(true, ReasonText(applied))
    requires !AllRolesReady(statuses) && applied == Nothing && before.None? ==>
               after[Progressing] == Condition(true, "Reconciling")
    ensures Verdict(statuses, applied, before, Some(DerivePhase(after)))
    ensures DerivePhase(after).0 == PhaseReady <==> AllRolesReady(statuses)
  {}

  /** The steps before the apply loop have succeeded. */
  ghost predicate Prepared(conditions: map<ConditionKind, Condition>) {
    && {Resolved, Rendered, Provisioned} <= conditions.Keys
    && conditions[Resolved] == Condition(true, "Resolved") && conditions[Rendered] == Condition(true, "Rendered")
    && conditions[Provisioned] == Condition(true, "Provisioned")
  }

  /** The conditions an aggregation leaves. */
  ghost predicate Concluded(outcome: Outcome, inputs: Inputs, conditions: map<ConditionKind, Condition>)
    requires outcome.Applied?
  {
    && Prepared(conditions) && {WorkloadsApplied, EndpointReady, RouteReady, Ready, Progressing} <= conditions.Keys
    && conditions[WorkloadsApplied] == (if outcome.waiting == [] then Condition(true, "WorkloadsApplied")
                                        else Condition(false, "WaitingForDependencies"))
    && (conditions[EndpointReady].holds <==> inputs.endpoint.None?)
    && (conditions[RouteReady].holds <==> inputs.route.None?)
    && (inputs.endpoint.Some? ==> conditions[EndpointReady].reason == inputs.endpoint.value)
    && (inputs.route.Some? ==> conditions[RouteReady].reason == inputs.route.value)
    && (conditions[Ready].holds <==> forall i :: 0 <= i < |outcome.statuses| ==> outcome.statuses[i].ready)
    && (conditions[Ready].holds ==> conditions[Progressing] == Condition(false, "Converged"))
  }

  lemma ConcludesAs(outcome: Outcome, inputs: Inputs, before: map<ConditionKind, Condition>, endpoint: string,
                    route: string, after: map<ConditionKind, Condition>)
    requires outcome.Applied? && Prepared(before)
    requires var applied := if outcome.waiting == [] then Condition(true, "WorkloadsApplied")
                            else Condition(false, "WaitingForDependencies");
             OnlyAt({Ready, Progressing}, before[WorkloadsApplied := applied]
                      [EndpointReady := Condition(inputs.endpoint.None?, endpoint)]
                      [RouteReady := Condition(inputs.route.None?, route)], after)
    requires inputs.endpoint.Some? ==> endpoint == inputs.endpoint.value
    requires inputs.route.Some? ==> route == inputs.route.value
    requires Ready in after && Progressing in after
    requires after[Ready].holds <==> forall i :: 0 <= i < |outcome.statuses| ==> outcome.statuses[i].ready
    requires after[Ready].holds ==> after[Progressing] == Condition(false, "Converged")
    ensures Concluded(outcome, inputs, after)
  {
    var mid := before[WorkloadsApplied := if outcome.waiting == [] then Condition(true, "WorkloadsApplied")
                                          else Condition(false, "WaitingForDependencies")]
                 [EndpointReady := Condition(inputs.endpoint.None?, endpoint)]
                 [RouteReady := Condition(inputs.route.None?, route)];
    assert SameAt(mid, after, Resolved) && SameAt(mid, after, Rendered) && SameAt(mid, after, Provisioned);
    assert SameAt(mid, after, WorkloadsApplied) && SameAt(mid, after, EndpointReady) && SameAt(mid, after, RouteReady);
  }

  /** The conditions left by a pass that ends before the apply loop: its own failure, and what an earlier
      pass said of the steps it did not reach is gone, but for Ready. */
  ghost predicate Ended(exit: Exit, inputs: Inputs, before: map<ConditionKind, Condition>,
                        conditions: map<ConditionKind, Condition>) {
    var later := {WorkloadsApplied, EndpointReady, RouteReady};
    && SameAt(before, conditions, Ready)
    && (exit == Unresolved ==>
          && inputs.unresolved.Some? && Resolved in conditions
          && conditions[Resolved] == Condition(false, inputs.unresolved.value)
          && conditions.Keys !! later + {Rendered, Provisioned})
    && (exit == NotRendered ==>
          && inputs.unresolved.None? && inputs.renderError.Some? && Rendered in conditions
          && conditions[Rendered] == Condition(false, inputs.renderError.value)
          && conditions.Keys !! later + {Provisioned})
    && (exit == NotProvisioned ==>
          && inputs.unresolved.None? && inputs.renderError.None? && inputs.provisionError.Some?
          && Provisioned in conditions && conditions[Provisioned] == Condition(false, inputs.provisionError.value)
          && forall k :: k in later + {Progressing} ==> SameAt(before, conditions, k))
    && (exit in {Unresolved, NotRendered} ==>
          Progressing in conditions && conditions[Progressing] == Condition(false, "Converged"))
  }

  /** Everything but the conditions `ks` is as it was. */
  ghost predicate OnlyAt(ks: set<ConditionKind>, before: map<ConditionKind, Condition>,
                         after: map<ConditionKind, Condition>) {
    forall k :: k !in ks ==> SameAt(before, after, k)
  }

  lemma EndsUnresolved(inputs: Inputs, before: map<ConditionKind, Condition>, after: map<ConditionKind, Condition>)
    requires inputs.unresolved.Some? && inputs.unresolved != Some(WAITING)
    requires var stale := {Rendered, Provisioned, WorkloadsApplied, EndpointReady, RouteReady};
             && OnlyAt(stale + {Progressing}, before[Resolved := Condition(false, inputs.unresolved.value)], after)
             && stale !! after.Keys
    requires Progressing in after && after[Progressing] == Condition(false, "Converged")
    ensures Ended(Unresolved, inputs, before, after)
    ensures DerivePhase(after) == (PhaseFailed, inputs.unresolved.value)
  {
    var mid := before[Resolved := Condition(false, inputs.unresolved.value)];
    assert SameAt(mid, after, Resolved) && SameAt(mid, after, Ready);
  }

  lemma EndsNotRendered(inputs: Inputs, before: map<ConditionKind, Condition>, after: map<ConditionKind, Condition>)
    requires inputs.unresolved.None? && inputs.renderError.Some? && inputs.renderError != Some(WAITING)
    requires var stale := {Provisioned, WorkloadsApplied, EndpointReady, RouteReady};
             && OnlyAt(stale + {Progressing}, before[Resolved := Condition(true, "Resolved")]
                       [Rendered := Condition(false, inputs.renderError.value)], after)
             && stale !! after.Keys
    requires Progressing in after && after[Progressing] == Condition(false, "Converged")
    ensures Ended(NotRendered, inputs, before, after)
    ensures DerivePhase(after) == (PhaseFailed, inputs.renderError.value)
  {
    var mid := before[Resolved := Condition(true, "Resolved")][Rendered := Condition(false, inputs.renderError.value)];
    assert SameAt(mid, after, Resolved) && SameAt(mid, after, Rendered) && SameAt(mid, after, Ready);
  }

  lemma EndsNotProvisioned(inputs: Inputs, before: map<ConditionKind, Condition>, after: map<ConditionKind, Condition>)
    requires inputs.unresolved.None? && inputs.renderError.None?
    requires inputs.provisionError.Some? && inputs.provisionError != Some(WAITING)
    requires after == before[Resolved := Condition(true, "Resolved")][Rendered := Condition(true, "Rendered")]
                        [Provisioned := Condition(false, inputs.provisionError.value)]
    ensures Ended(NotProvisioned, inputs, before, after)
    ensures DerivePhase(after) == (PhaseFailed, inputs.provisionError.value)
  {}

  /** The profile a status names: the resolved one, or, while none resolves, the one it named if that is still
      the one wanted. */
  ghost predicate Echoes(before: Option<string>, resolved: Option<string>, wanted: string, after: Option<string>) {
    && (resolved.Some? ==> after == resolved)
    && (resolved.None? ==> after == if before == Some(wanted) then before else None)
  }

  /** The in-memory status a pass works on, and the copy the API server holds. */
  class Record {
    var conditions: map<ConditionKind, Condition>
    var roles: seq<RoleStatus>
    var profile: Option<string>
    var revision: string
    var stored: Status

    constructor (stored: Status)
      ensures this.stored == stored && conditions == stored.conditions && roles == stored.roles
      ensures profile == stored.profile && revision == stored.revision
    {
      this.stored := stored;
      conditions, roles, profile, revision := stored.conditions, stored.roles, stored.profile, stored.revision;
    }

    method Set(k: ConditionKind, holds: bool, reason: string)
      modifies this`conditions
      ensures conditions == old(conditions)[k := Condition(holds, reason)]
    {
      conditions := conditions[k := Condition(holds, reason)];
    }

    method Remove(ks: set<ConditionKind>)
      modifies this`conditions
      ensures conditions == old(conditions) - ks
    {
      conditions := conditions - ks;
    }

    method SetReady(statuses: seq<RoleStatus>)
      modifies this`conditions
      ensures conditions == old(conditions)[Ready :=
                if AllRolesReady(statuses) then Condition(true, "Ready") else Condition(false, "RolesNotReady")]
    {
      if AllRolesReady(statuses) { Set(Ready, true, "Ready"); } else { Set(Ready, false, "RolesNotReady"); }
    }

    /** Converged when all roles are ready; left alone when nothing was applied. */
    method SetProgressing(statuses: seq<RoleStatus>, reason: Reason)
      modifies this`conditions
      ensures conditions.Keys == old(conditions).Keys + {Progressing}
      ensures forall k :: k in old(conditions) && k != Progressing ==> conditions[k] == old(conditions)[k]
      ensures AllRolesReady(statuses) ==> conditions[Progressing] == Condition(false, "Converged")
      ensures !AllRolesReady(statuses) && reason != Nothing ==>
                conditions[Progressing] == Condition(true, ReasonText(reason))
      ensures !AllRolesReady(statuses) && reason == Nothing ==>
                conditions[Progressing] ==
                if Progressing in old(conditions) then old(conditions)[Progressing] else Condition(true, "Reconciling")
    {
      if AllRolesReady(statuses) { Set(Progressing, false, "Converged"); return; }
      var text := ReasonText(reason);
      if reason == Nothing {
        if Progressing in conditions { return; }
        text := "Reconciling";
      }
      Set(Progressing, true, text);
    }

    /** writeStatus: the phase is derived from the conditions this pass leaves. */
    method WriteStatus()
      modifies this`stored
      ensures stored == Status(conditions, roles, profile, revision, Some(DerivePhase(conditions)))
    {
      stored := Status(conditions, roles, profile, revision, Some(DerivePhase(conditions)));
    }

    /** setProfileEcho: a resolved profile is echoed, with the revision adopted for that same
        profile; `wanted` is spec.profileRef. */
    method SetProfileEcho(resolved: Option<string>, wanted: string)
      modifies this`profile, this`revision
      ensures resolved.Some? ==> profile == resolved
      ensures resolved.None? ==> profile == if old(profile) == Some(wanted) then old(profile) else None
      ensures revision == if profile == old(profile) then old(revision) else ""
    {
      if resolved.Some? {
        if profile != resolved { revision := ""; }
        profile := resolved;
      } else if profile.Some? && profile.value != wanted {
        profile, revision := None, "";
      }
    }

    /** Leaves without applying anything: the conditions of the steps not reached go. */
    method Withdraw(stale: set<ConditionKind>)
      modifies this`conditions, this`stored
      ensures stored == Status(conditions, roles, profile, revision, Some(DerivePhase(conditions)))
      ensures OnlyAt(stale + {Progressing}, old(conditions), conditions)
      ensures stale - {Progressing} !! conditions.Keys
      ensures Progressing in conditions && conditions[Progressing] == Condition(false, "Converged")
    {
      Remove(stale);
      SetProgressing([], Nothing);
      WriteStatus();
    }

    /** The steps before the apply loop; `done` when the pass returns from one of them. */
    method Prepare(wanted: string, inputs: Inputs) returns (done: bool, exit: Exit)
      requires KnownReasons(inputs) && revision == stored.revision
      modifies this
      ensures exit == NoStatus || !done ==> stored == old(stored)
      ensures done <==> inputs.resolveError || FirstError(inputs).Some?
      ensures done && !inputs.resolveError ==> exit in {Unresolved, NotRendered, NotProvisioned}
      ensures done && !inputs.resolveError ==> stored.phase == Some((PhaseFailed, FirstError(inputs).value))
      ensures done && inputs.resolveError ==> exit == NoStatus
      // the roles of an earlier pass are not reported again, and the revision stays with its profile
      ensures done && !inputs.resolveError ==>
                && stored.roles == [] && Echoes(old(profile), inputs.profileName, wanted, stored.profile)
                && stored.revision == if stored.profile == old(profile) then old(revision) else ""
      ensures !done ==>
                && roles == [] && Echoes(old(profile), inputs.profileName, wanted, profile)
                && revision == if profile == old(profile) then old(revision) else ""
      ensures done && !inputs.resolveError ==> Ended(exit, inputs, old(conditions), stored.conditions)
      ensures !done ==> conditions == old(conditions)[Resolved := Condition(true, "Resolved")]
                          [Rendered := Condition(true, "Rendered")][Provisioned := Condition(true, "Provisioned")]
    {
      hide DerivePhase, Ended;
      ghost var before := conditions;
      if inputs.resolveError { return true, NoStatus; }
      roles := [];
      if inputs.unresolved.Some? {
        Set(Resolved, false, inputs.unresolved.value);
      } else {
        Set(Resolved, true, "Resolved");
      }
      SetProfileEcho(inputs.profileName, wanted);
      if inputs.unresolved.Some? {
        Withdraw({Rendered, Provisioned, WorkloadsApplied, EndpointReady, RouteReady});
        EndsUnresolved(inputs, before, conditions);
        return true, Unresolved;
      }
      if inputs.renderError.Some? {
        Set(Rendered, false, inputs.renderError.value);
        Withdraw({Provisioned, WorkloadsApplied, EndpointReady, RouteReady});
        EndsNotRendered(inputs, before, conditions);
        return true, NotRendered;
      }
      Set(Rendered, true, "Rendered");
      if inputs.provisionError.Some? {
        Set(Provisioned, false, inputs.provisionError.value);
        WriteStatus();
        EndsNotProvisioned(inputs, before, conditions);
        return true, NotProvisioned;
      }
      Set(Provisioned, true, "Provisioned");
      return false, NoStatus;
    }

    /** The steps after a completed apply loop. */
    method Aggregate(outcome: Outcome, inputs: Inputs) returns (exit: Exit)
      requires outcome.Applied? && Prepared(conditions)
      modifies this
      ensures exit == NoStatus || exit == Aggregated(outcome)
      ensures exit == NoStatus <==> inputs.endpointError || inputs.routeError
      ensures exit == NoStatus ==> stored == old(stored)
      ensures exit != NoStatus ==> stored.roles == outcome.statuses && stored.phase.Some?
      ensures exit != NoStatus ==> stored.profile == old(profile)
      ensures exit != NoStatus ==> (stored.phase.value.0 == PhaseReady <==> AllRolesReady(outcome.statuses))
      ensures exit != NoStatus ==>
                Verdict(outcome.statuses, outcome.progressing, At(old(conditions), Progressing), stored.phase)
      ensures exit != NoStatus ==> Concluded(outcome, inputs, stored.conditions)
      ensures exit != NoStatus ==> stored.revision == if outcome.waiting == [] then inputs.revision else old(revision)
    {
      hide Verdict, Concluded, OnlyAt, AllRolesReady;
      roles := outcome.statuses;
      if |outcome.waiting| > 0 {
        Set(WorkloadsApplied, false, WAITING);
      } else {
        revision := inputs.revision;
        Set(WorkloadsApplied, true, "WorkloadsApplied");
      }
      if inputs.endpointError { return NoStatus; }
      var endpoint := if inputs.endpoint.None? then "EndpointReady" else inputs.endpoint.value;
      Set(EndpointReady, inputs.endpoint.None?, endpoint);
      if inputs.routeError { return NoStatus; }
      var route := if inputs.route.None? then "RouteReady" else inputs.route.value;
      Set(RouteReady, inputs.route.None?, route);
      Conclude(outcome);
      ConcludesAs(outcome, inputs, old(conditions), endpoint, route, conditions);
      return Aggregated(outcome);
    }

    /** Ready, Progressing and the phase, from the statuses the pass collected. */
    method Conclude(outcome: Outcome)
      requires outcome.Applied? && !Fails(conditions, Resolved) && !Fails(conditions, Rendered)
      requires !Fails(conditions, Provisioned) && !Fails(conditions, WorkloadsApplied)
      modifies this`conditions, this`stored
      ensures stored == Status(conditions, roles, profile, revision, stored.phase) && stored.phase.Some?
      ensures Verdict(outcome.statuses, outcome.progressing, At(old(conditions), Progressing), stored.phase)
      ensures stored.phase.value.0 == PhaseReady <==> AllRolesReady(outcome.statuses)
      ensures Ready in conditions && Progressing in conditions
      ensures OnlyAt({Ready, Progressing}, old(conditions), conditions)
      ensures conditions[Ready].holds <==> forall i :: 0 <= i < |outcome.statuses| ==> outcome.statuses[i].ready
      ensures conditions[Ready].holds ==> conditions[Progressing] == Condition(false, "Converged")
    {
      hide Verdict, DerivePhase;
      SetReady(outcome.statuses);
      SetProgressing(outcome.statuses, outcome.progressing);
      PhaseIsVerdict(outcome.statuses, outcome.progressing, At(old(conditions), Progressing), conditions);
      WriteStatus();
    }

    /** The apply loop returned an error. */
    method RecordRefusal(outcome: Outcome) returns (exit: Exit)
      requires !outcome.Applied? && Prepared(conditions)
      modifies this`conditions, this`stored
      ensures exit == NotApplied(outcome)
      ensures var why := if outcome.Stopped? && outcome.failure.ForeignService? then "ServiceApplyFailed"
                         else "WorkloadApplyFailed";
              && stored == Status(conditions, roles, profile, revision, Some((PhaseFailed, why)))
              && conditions == old(conditions)[WorkloadsApplied := Condition(false, why)]
    {
      var service := outcome.Stopped? && outcome.failure == ForeignService;
      var reason := if service then "ServiceApplyFailed" else "WorkloadApplyFailed";
      Set(WorkloadsApplied, false, reason);
      WriteStatus();
      exit := NotApplied(outcome);
    }

    /** One pass. A pass that writes phase Ready got through every step with every role ready;
        and, as long as readiness does not drop while it runs, it left every role at its desired
        spec and adopted the revision it rendered. */
    method Reconcile(cluster: Cluster, spec: seq<Role>, endpointRole: string, wanted: string, inputs: Inputs)
      returns (exit: Exit, ghost index: Roles)
      requires ValidProfile(spec) && KnownReasons(inputs)
      requires conditions == stored.conditions && revision == stored.revision && profile == stored.profile
      modifies this, cluster
      ensures exit == NoStatus ==> stored == old(stored)
      ensures exit != NoStatus ==> stored.phase.Some?
      ensures exit in {Unresolved, NotRendered, NotProvisioned} ==>
                FirstError(inputs).Some? && stored.phase == Some((PhaseFailed, FirstError(inputs).value))
      ensures exit.NotApplied? ==>
                && !exit.outcome.Applied?
                && stored.phase == Some((PhaseFailed,
                     if exit.outcome.Stopped? && exit.outcome.failure.ForeignService? then "ServiceApplyFailed"
                     else "WorkloadApplyFailed"))
      ensures exit.Aggregated? ==> exit.outcome.Applied? && Clean(inputs)
      ensures exit.Aggregated? ==>
                Matches(cluster.world, spec, index, exit.outcome, old(cluster.Current()), old(cluster.clock),
                        cluster.Current())
      ensures exit != NoStatus ==> stored.roles == if exit.Aggregated? then exit.outcome.statuses else []
      ensures exit != NoStatus ==> Echoes(old(stored).profile, inputs.profileName, wanted, stored.profile)
      ensures exit.Aggregated? ==>
                Verdict(exit.outcome.statuses, exit.outcome.progressing, At(old(stored).conditions, Progressing),
                        stored.phase)
      ensures exit.Aggregated? ==> Concluded(exit.outcome, inputs, stored.conditions)
      ensures exit in {Unresolved, NotRendered, NotProvisioned} ==>
                Ended(exit, inputs, old(stored).conditions, stored.conditions)
      ensures exit.Aggregated? && exit.outcome.waiting == [] ==> stored.revision == inputs.revision
      ensures exit != NoStatus && !(exit.Aggregated? && exit.outcome.waiting == []) ==>
                stored.revision == if stored.profile == old(stored).profile then old(stored).revision else ""
      ensures exit != NoStatus && stored.phase.value.0 == PhaseReady ==>
                && exit.Aggregated?
                && (Freshness.NoDrop(index, cluster.world, old(cluster.clock),
                      FullPass(index, cluster.world, old(cluster.Current()), old(cluster.clock),
                               exit.outcome.order).clock) ==>
                      && stored.revision == inputs.revision
                      && forall n :: n in index ==> Convergence.AtDesired(cluster.workloads, index[n]))
    {
      hide Verdict, Concluded, Ended, Echoes, Tidy, OnlyUnaskedGone, DerivePhase, PartlySwept, RolesFailed;
      index := map[];
      var done;
      done, exit := Prepare(wanted, inputs);
      if done { return exit, index; }
      ghost var o, t := cluster.Current(), cluster.clock;
      var outcome;
      outcome, index := cluster.Apply(spec, endpointRole);
      if !outcome.Applied? {
        exit := RecordRefusal(outcome);
        return;
      }
      exit := Aggregate(outcome, inputs);
      if AllRolesReady(outcome.statuses) {
        ReadyIsFresh(cluster.world, spec, index, outcome, o, t, cluster.Current());
      }
    }
  }

  /** The objects and the outcome are those of one full pass over the roles of `spec`. */
  ghost predicate Matches(w: World, spec: seq<Role>, index: Roles, outcome: Outcome, before: Objects, t: nat,
                          after: Objects) {
    && outcome.Applied? && ByName(spec, index) && WellFormed(index) && IsOrder(index, outcome.order)
    && var p := FullPass(index, w, before, t, outcome.order);
       && p.failure.None? && after == p.objects && outcome.statuses == p.statuses && outcome.waiting == p.waiting
       && outcome.progressing == p.progressing
  }

  lemma ReadyIsFresh(w: World, spec: seq<Role>, index: Roles, outcome: Outcome, before: Objects, t: nat, after: Objects)
    requires Matches(w, spec, index, outcome, before, t, after) && AllRolesReady(outcome.statuses)
    ensures Freshness.NoDrop(index, w, t, FullPass(index, w, before, t, outcome.order).clock) ==>
              outcome.waiting == [] && forall n :: n in index ==> Convergence.AtDesired(after.workloads, index[n])
  {
    if Freshness.NoDrop(index, w, t, FullPass(index, w, before, t, outcome.order).clock) {
      Freshness.ReadyMeansFinished(index, w, before, t, outcome.order);
    }
  }

  /** The first step before the apply loop that did not succeed. */
  function FirstError(inputs: Inputs): Option<string> {
    if inputs.unresolved.Some? then inputs.unresolved
    else if inputs.renderError.Some? then inputs.renderError
    else inputs.provisionError
  }

  /** The steps name their own causes, never the waiting one. */
  ghost predicate KnownReasons(inputs: Inputs) {
    Some(WAITING) !in {inputs.unresolved, inputs.renderError, inputs.provisionError}
  }

  /** No step before or after the apply loop reported an error. */
  ghost predicate Clean(inputs: Inputs) {
    && !inputs.resolveError && FirstError(inputs).None?
    && !inputs.endpointError && !inputs.routeError
  }
}
