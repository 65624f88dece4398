/** The controller's half of the idle auto-stop, and the stop state it derives
    (operator/internal/controller/idle.go, devenvironment_controller.go:474-641, 2101-2105, 5143-5195). */
module Idle {
  import opened Wrappers
  import opened Activity

  const IDLE_CHECK_PERIOD := 60 * SECOND

  datatype PhaseName = Running | Stopped | Pending | Failed

  /** The environment's pod; `mark` is the agent's annotation, if it parses. */
  datatype Pod = Pod(mark: Option<int>, startTime: Option<int>, created: int, deleting: bool, scheduled: bool,
                     failed: bool, up: bool)

  datatype Status = Status(phase: Option<PhaseName>, endpoints: seq<string>, lastActivity: Option<int>)

  /** The DevEnvironment, and the replicas of its StatefulSet once there is one.  `timeout` is
      spec.lifecycle.idleTimeout, 0 when unset; `marked`, `stamp`: the two auto-stop annotations. */
  datatype Env = Env(running: bool, timeout: nat, marked: bool, stamp: Option<int>, replicas: Option<int>,
                     status: Status)

  datatype Decision = Decision(stop: bool, requeueAfter: int)

  /** The instant the idle clock is measured from: the pod's mark, else its start, else its creation. */
  function ActivityBaseline(pod: Option<Pod>): int {
    match pod
    case None => 0
    case Some(p) => if p.mark.Some? then p.mark.value else if p.startTime.Some? then p.startTime.value else p.created
  }

  /** idleBaseline: floored at the last stop this controller made. */
  function IdleBaseline(stamp: Option<int>, pod: Option<Pod>): int {
    var baseline := ActivityBaseline(pod);
    var stoppedAt := if stamp.Some? then stamp.value else 0;
    if stoppedAt > baseline then stoppedAt else baseline
  }

  /** Nothing has been seen of the environment for its timeout: not the pod's mark, where it has one, nor its
      start, where it has no mark, nor its creation, where it has neither; nor a stop by this controller. */
  ghost predicate IdleTooLong(p: Pod, stamp: Option<int>, timeout: int, now: int) {
    && timeout > 0
    && (p.mark.Some? ==> p.mark.value + timeout <= now)
    && (p.mark.None? && p.startTime.Some? ==> p.startTime.value + timeout <= now)
    && (p.mark.None? && p.startTime.None? ==> p.created + timeout <= now)
    && (stamp.Some? ==> stamp.value + timeout <= now)
  }

  /** The instants on record are after Go's zero time, which stands for none. */
  ghost predicate Dated(p: Pod, stamp: Option<int>) {
    && p.created > 0 && (p.mark.Some? ==> p.mark.value > 0) && (p.startTime.Some? ==> p.startTime.value > 0)
    && (stamp.Some? ==> stamp.value > 0)
  }

  /** The decision, for a pod that reads Running: stop exactly when it has been idle too long, and otherwise
      look again at the deadline or in a minute, whichever is first. An undated instant only ever delays it. */
  lemma DecidesBy(p: Pod, stamp: Option<int>, timeout: int, now: int)
    ensures var d := DecideIdle(now, true, timeout, IdleBaseline(stamp, Some(p)));
            && (d.stop ==> IdleTooLong(p, stamp, timeout, now))
            && (Dated(p, stamp) ==>
                  && (d.stop <==> IdleTooLong(p, stamp, timeout, now))
                  && (timeout > 0 && !d.stop ==>
                        && 0 < d.requeueAfter <= 60_000_000_000
                        && !IdleTooLong(p, stamp, timeout, now + d.requeueAfter - 1)
                        && (d.requeueAfter < 60_000_000_000 ==>
                              IdleTooLong(p, stamp, timeout, now + d.requeueAfter))))
            && (timeout <= 0 || d.stop ==> d.requeueAfter == 0)
  {}

  function DecideIdle(now: int, running: bool, timeout: int, baseline: int): Decision {
    if !running || timeout <= 0 || baseline == 0 then Decision(false, 0)
    else
      var remaining := baseline + timeout - now;
      if remaining <= 0 then Decision(true, 0)
      else Decision(false, if remaining < IDLE_CHECK_PERIOD then remaining else IDLE_CHECK_PERIOD)
  }

  // -------------------------------------------------------------------- the deadline

  function CeilDiv(a: int, b: int): int
    requires b > 0
  {
    (a + b - 1) / b
  }

  /** Looking again whenever told to: the instant it stops, and how many wakes that took. */
  function Follow(now: int, timeout: int, baseline: int): (int, int)
    requires timeout > 0 && baseline > 0
    decreases baseline + timeout - now
  {
    var d := DecideIdle(now, true, timeout, baseline);
    if d.stop then (now, 0)
    else
      var (at, wakes) := Follow(now + d.requeueAfter, timeout, baseline);
      (at, wakes + 1)
  }

  /** It stops at the deadline exactly, after one wake a minute and one for what is left over. */
  lemma {:induction false} StopsAtTheDeadline(now: int, timeout: int, baseline: int)
    requires timeout > 0 && baseline > 0 && now <= baseline + timeout
    ensures Follow(now, timeout, baseline) == (baseline + timeout, CeilDiv(baseline + timeout - now, 60_000_000_000))
    decreases baseline + timeout - now
  {
    var remaining := baseline + timeout - now;
    if remaining >= IDLE_CHECK_PERIOD {
      StopsAtTheDeadline(now + IDLE_CHECK_PERIOD, timeout, baseline);
      assert CeilDiv(remaining, IDLE_CHECK_PERIOD) == CeilDiv(remaining - IDLE_CHECK_PERIOD, IDLE_CHECK_PERIOD) + 1;
    } else if remaining > 0 {
      StopsAtTheDeadline(now + remaining, timeout, baseline);
    }
  }

  // ------------------------------------------------------------------------ one pass

  /** What a pass sees beside the object: the clock when it decides and when it stamps, the pod, the
      addresses the gateway step published, and whether the spec gate refuses the spec. */
  datatype Look = Look(now: int, stampedAt: int, pod: Option<Pod>, endpoints: seq<string>, refused: bool)

  function DerivePhase(running: bool, marked: bool, pod: Option<Pod>): PhaseName {
    if !running || marked then Stopped
    else if pod.None? || !pod.value.scheduled then Pending
    else if pod.value.failed then Failed
    else if pod.value.up then Running
    else Pending
  }

  /** An auto-stop mark the user has superseded is gone before anything is derived from it. */
  function StillMarked(e: Env): bool { e.marked && e.running && e.timeout > 0 }

  function DesiredReplicas(e: Env): int { if e.running && !StillMarked(e) then 1 else 0 }

  function SyncLastActivity(last: Option<int>, pod: Option<Pod>): Option<int> {
    if pod.None? || pod.value.mark.None? then last
    else if last.Some? && pod.value.mark.value <= last.value then last
    else pod.value.mark
  }

  function Judge(e: Env, l: Look): Decision {
    if l.pod.None? || l.pod.value.deleting || StillMarked(e) then Decision(false, 0)
    else DecideIdle(l.now, DerivePhase(e.running, false, l.pod) == Running, e.timeout, IdleBaseline(e.stamp, l.pod))
  }

  /** A pass that runs to its end. */
  function Completed(e: Env, l: Look): Env {
    var marked := StillMarked(e);
    if l.refused then
      e.(marked := marked,
         replicas := if e.replicas.None? then None else Some(0),
         status := Status(Some(Failed), [], e.status.lastActivity))
    else
      var phase, stop := DerivePhase(e.running, marked, l.pod), Judge(e, l).stop;
      e.(marked := marked || stop,
         stamp := if stop then Some(l.stampedAt) else e.stamp,
         replicas := Some(DesiredReplicas(e)),
         status := Status(Some(phase), if phase == Stopped then [] else l.endpoints,
                          SyncLastActivity(e.status.lastActivity, l.pod)))
  }

  /** When a pass stops the environment: it wants to run, is not marked already, has a timeout, and its pod is
      here to stay, running, and idle too long. */
  lemma JudgedBy(e: Env, l: Look)
    ensures Judge(e, l).stop ==>
              && e.running && e.timeout > 0 && !e.marked && l.pod.Some?
              && var p := l.pod.value;
                 && !p.deleting && p.scheduled && !p.failed && p.up && IdleTooLong(p, e.stamp, e.timeout, l.now)
    ensures && e.running && e.timeout > 0 && !e.marked && l.pod.Some?
            && (var p := l.pod.value;
                && !p.deleting && p.scheduled && !p.failed && p.up && IdleTooLong(p, e.stamp, e.timeout, l.now)
                && Dated(p, e.stamp)) ==>
              Judge(e, l).stop
  {
    if l.pod.Some? { DecidesBy(l.pod.value, e.stamp, e.timeout, l.now); }
    hide IdleTooLong, Dated, DecideIdle, IdleBaseline;
  }

  /** What a completed pass reports and renders. A refused spec fails and runs nothing. Otherwise one replica,
      and the published addresses, unless the user or an auto-stop that still stands has stopped it; the phase
      is then what the pod shows; and the last activity is the later of the one known and the pod's mark. */
  lemma PassReports(e: Env, l: Look)
    ensures var r := Completed(e, l);
            var stopped := !e.running || (e.marked && e.timeout > 0);
            && r.running == e.running && r.timeout == e.timeout
            && (l.refused ==>
                  && r.status == Status(Some(Failed), [], e.status.lastActivity) && r.stamp == e.stamp
                  && (r.marked <==> e.marked && e.running && e.timeout > 0)
                  && (if e.replicas.None? then r.replicas.None? else r.replicas == Some(0)))
            && (!l.refused ==>
                  && (r.marked <==> (e.marked && e.running && e.timeout > 0) || Judge(e, l).stop)
                  && r.stamp == (if Judge(e, l).stop then Some(l.stampedAt) else e.stamp)
                  && r.replicas == Some(if stopped then 0 else 1)
                  && r.status.endpoints == (if stopped then [] else l.endpoints)
                  && (r.status.phase == Some(Stopped) <==> stopped)
                  && (!stopped && (l.pod.None? || !l.pod.value.scheduled) ==> r.status.phase == Some(Pending))
                  && (!stopped && l.pod.Some? && l.pod.value.scheduled ==>
                        r.status.phase == Some(if l.pod.value.failed then Failed
                                               else if l.pod.value.up then Running else Pending))
                  && SeenUntil(e.status.lastActivity, l.pod, r.status.lastActivity))
  {}

  ghost predicate SeenUntil(before: Option<int>, pod: Option<Pod>, after: Option<int>) {
    var mark := if pod.Some? then pod.value.mark else None;
    && after in {before, mark}
    && (before.Some? ==> after.Some? && before.value <= after.value)
    && (mark.Some? ==> after.Some? && mark.value <= after.value)
  }

  /** What any pass may leave, wherever an API error ends it. */
  ghost predicate Leaves(e: Env, e': Env, l: Look) {
    && e'.running == e.running && e'.timeout == e.timeout
    && (|| (e'.stamp == e.stamp && (e'.marked == e.marked || e'.marked == StillMarked(e)))
        || (!l.refused && Judge(e, l).stop && e'.marked && e'.stamp == Some(l.stampedAt)))
    && e'.replicas in {e.replicas, if l.refused then Some(0) else Some(DesiredReplicas(e))}
    && e'.status.lastActivity in {e.status.lastActivity, SyncLastActivity(e.status.lastActivity, l.pod)}
  }

  /** The API server's objects of one environment. */
  class Controller {
    var running: bool
    var timeout: nat
    var marked: bool
    var stamp: Option<int>
    var replicas: Option<int>
    var status: Status
    /** API writes that failed. */
    var refusals: nat

    constructor (running: bool, timeout: nat)
      ensures Current() == Env(running, timeout, false, None, None, Status(None, [], None))
    {
      this.running, this.timeout, marked, stamp, replicas := running, timeout, false, None, None;
      status, refusals := Status(None, [], None), 0;
    }

    ghost function Current(): Env
      reads this
    {
      Env(running, timeout, marked, stamp, replicas, status)
    }

    /** One API write: it may fail. */
    method Write() returns (ok: bool)
      modifies this`refusals
      ensures refusals == old(refusals) + if ok then 0 else 1
    {
      ok := *;
      if !ok { refusals := refusals + 1; }
    }

    method ClearSuperseded() returns (ok: bool)
      modifies this`marked, this`refusals
      ensures refusals == old(refusals) + if ok then 0 else 1
      ensures ok ==> marked == StillMarked(old(Current()))
      ensures !ok ==> marked == old(marked)
    {
      if !marked || (running && timeout > 0) { return true; }
      ok := Write();
      if ok { marked := false; }
    }

    /** updateStatusIfChanged. */
    method WriteStatus(desired: Status) returns (ok: bool)
      modifies this`status, this`refusals
      ensures refusals == old(refusals) + if ok then 0 else 1
      ensures status == if ok then desired else old(status)
    {
      if status == desired { return true; }
      ok := Write();
      if ok { status := desired; }
    }

    /** recordStepFailure: nothing is reported of an error the API server resolves by being asked again. */
    method RecordFailure(desired: Status, retryable: bool)
      modifies this`status, this`refusals
      ensures refusals >= old(refusals)
      ensures status in {old(status), desired.(phase := Some(Failed))}
      ensures retryable ==> status == old(status)
      ensures !retryable && refusals == old(refusals) ==> status == desired.(phase := Some(Failed))
    {
      if !retryable { var ok := WriteStatus(desired.(phase := Some(Failed))); }
    }

    /** stopCompute. */
    method StopCompute() returns (ok: bool)
      modifies this`replicas, this`refusals
      ensures refusals == old(refusals) + if ok then 0 else 1
      ensures replicas == if !ok then old(replicas) else if old(replicas).None? then None else Some(0)
    {
      if replicas.None? || replicas == Some(0) { return true; }
      ok := Write();
      if ok { replicas := Some(0); }
    }

    method ApplyReplicas() returns (ok: bool)
      modifies this`replicas, this`refusals
      ensures refusals == old(refusals) + if ok then 0 else 1
      ensures replicas == if ok then Some(if running && !marked then 1 else 0) else old(replicas)
    {
      var desired := if running && !marked then 1 else 0;
      if replicas == Some(desired) { return true; }
      ok := Write();
      if ok { replicas := Some(desired); }
    }

    /** reconcileIdleStop. */
    method ReconcileIdleStop(desired: Status, l: Look) returns (ok: bool, synced: Status, d: Decision)
      requires desired.phase == Some(DerivePhase(running, marked, l.pod))
      modifies this`marked, this`stamp, this`refusals
      ensures refusals == old(refusals) + if ok then 0 else 1
      // it stops a running pod that is here to stay once it has been idle too long
      ensures d.stop ==>
                && !old(marked) && desired.phase == Some(Running) && l.pod.Some? && !l.pod.value.deleting
                && IdleTooLong(l.pod.value, old(stamp), timeout, l.now)
      ensures !old(marked) && desired.phase == Some(Running) && l.pod.Some? && !l.pod.value.deleting
              && IdleTooLong(l.pod.value, old(stamp), timeout, l.now) && Dated(l.pod.value, old(stamp)) ==>
                d.stop
      ensures synced == desired.(lastActivity := SyncLastActivity(desired.lastActivity, l.pod))
      ensures d == if l.pod.None? || l.pod.value.deleting || old(marked) then Decision(false, 0)
                   else DecideIdle(l.now, desired.phase == Some(Running), timeout, IdleBaseline(old(stamp), l.pod))
      ensures ok && d.stop ==> marked && stamp == Some(l.stampedAt)
      ensures !ok || !d.stop ==> marked == old(marked) && stamp == old(stamp)
      ensures !ok ==> d.stop
    {
      if l.pod.Some? { DecidesBy(l.pod.value, stamp, timeout, l.now); }
      synced := desired.(lastActivity := SyncLastActivity(desired.lastActivity, l.pod));
      if l.pod.None? || l.pod.value.deleting || marked { return true, synced, Decision(false, 0); }
      d := DecideIdle(l.now, desired.phase == Some(Running), timeout, IdleBaseline(stamp, l.pod));
      if !d.stop { return true, synced, d; }
      ok := Write();
      if ok { marked, stamp := true, Some(l.stampedAt); }
    }

    /** Reconcile: `stepOk` says whether the steps that touch nothing modelled here went through,
        `podOk` whether the pod could be read. */
    method Pass(l: Look, retryable: bool, stepOk: bool, podOk: bool) returns (completed: bool, requeueAfter: int)
      modifies this
      ensures Leaves(old(Current()), Current(), l)
      ensures completed ==> stepOk && (!l.refused ==> podOk)
      ensures stepOk && podOk && refusals == old(refusals) ==> completed
      ensures refusals >= old(refusals)
      ensures completed ==> Current() == Completed(old(Current()), l)
      ensures completed ==> requeueAfter == if l.refused then 0 else Judge(old(Current()), l).requeueAfter
    {
      requeueAfter := 0;
      var desired := status;
      var ok := ClearSuperseded();
      if !ok { RecordFailure(desired, retryable); return false, 0; }
      if l.refused {
        ok := StopCompute();
        if !ok || !stepOk { RecordFailure(desired, retryable); return false, 0; }
        completed := WriteStatus(Status(Some(Failed), [], desired.lastActivity));
        return completed, 0;
      }
      ok := ApplyReplicas();
      if !ok || !stepOk { RecordFailure(desired, retryable); return false, 0; }
      desired := desired.(endpoints := l.endpoints);
      if !podOk { RecordFailure(desired, retryable); return false, 0; }
      desired := desired.(phase := Some(DerivePhase(running, marked, l.pod)));
      if desired.phase == Some(Stopped) { desired := desired.(endpoints := []); }
      var d;
      ok, desired, d := ReconcileIdleStop(desired, l);
      if !ok { RecordFailure(desired, retryable); return false, 0; }
      completed := WriteStatus(desired);
      return completed, d.requeueAfter;
    }
  }
}
