/** What the statuses of one apply pass say (operator/internal/controller/apply.go:96-190):
    when every role reports ready, is the pass really finished? */
module Freshness {
  import opened Wrappers
  import opened Rollout
  import opened Convergence

  ghost predicate AllReported(statuses: seq<RoleStatus>) {
    forall i :: 0 <= i < |statuses| ==> statuses[i].ready
  }

  /** The cluster reported enough ready replicas (and a bound claim) at tick t. */
  ghost predicate Ample(w: World, r: Role, t: nat) {
    r.replicas <= w.ready(t, r.name) && (r.gatedOnClaim ==> w.bound(t))
  }

  /** No role that was seen ready is seen unready later, from tick lo up to tick hi. */
  ghost predicate NoDrop(roles: Roles, w: World, lo: nat, hi: nat) {
    forall n, s, t :: n in roles && lo <= s <= t < hi && Ample(w, roles[n], s) ==> Ample(w, roles[n], t)
  }

  lemma ClockAdvances(roles: Roles, w: World, p: Pass, r: Role)
    requires forall d :: d in r.dependsOn ==> d in roles
    ensures ApplyRole(roles, w, p, r).clock >= p.clock
  {
    ServicesOnly(w, p, DesiredServices(r));
  }

  lemma {:induction false} ClockOf(roles: Roles, w: World, start: Pass, order: seq<string>, n: nat, m: nat)
    requires WellFormed(roles) && IsOrder(roles, order) && n <= m <= |order|
    ensures After(roles, w, start, order, n).clock <= After(roles, w, start, order, m).clock
    decreases m - n
  {
    hide ApplyRole;
    if n < m {
      ClockOf(roles, w, start, order, n, m - 1);
      ClockAdvances(roles, w, After(roles, w, start, order, m - 1), roles[order[m - 1]]);
    }
  }

  /** A step adds one status; a role that does not wait ends at its desired spec, and a role
      reports ready exactly when its workload exists and is seen ready at the step's last tick. */
  lemma StepReports(roles: Roles, w: World, p: Pass, r: Role)
    requires WellFormed(roles) && r.name in roles && roles[r.name] == r
    requires ApplyRole(roles, w, p, r).failure.None?
    ensures var q := ApplyRole(roles, w, p, r);
            && p.failure.None?
            && |q.statuses| == |p.statuses| + 1 && q.statuses[..|p.statuses|] == p.statuses
            && q.statuses[|p.statuses|].name == r.name
            && p.waiting <= q.waiting
            && (q.waiting == p.waiting ==> AtDesired(q.objects.workloads, r))
            && (Key(r.kind, r.name) in q.objects.workloads ==> q.clock == p.clock + |r.dependsOn| + 1)
            && (q.statuses[|p.statuses|].ready <==>
                  Key(r.kind, r.name) in q.objects.workloads && Ample(w, r, p.clock + |r.dependsOn|))
  {
    hide AllReady, AllConverged, PutServices, DesiredServices;
    ServicesOnly(w, p, DesiredServices(r));
    if p.failure.Some? { StaysFailed(w, p, DesiredServices(r)); }
  }

  /** An empty waiting list means every role so far is at its desired spec. */
  lemma {:induction false} NothingWaiting(roles: Roles, w: World, o: Objects, t: nat, order: seq<string>, n: nat)
    requires WellFormed(roles) && IsOrder(roles, order) && n <= |order|
    requires var p := After(roles, w, Begin(o, t), order, n); p.failure.None? && p.waiting == []
    ensures var p := After(roles, w, Begin(o, t), order, n);
            && |p.statuses| == n
            && (forall i :: 0 <= i < n ==>
              p.statuses[i].name == order[i] && AtDesired(p.objects.workloads, roles[order[i]]))
  {
    hide ApplyRole, AtDesired;
    if n > 0 {
      var p := After(roles, w, Begin(o, t), order, n - 1);
      var r := roles[order[n - 1]];
      NotOwnDependency(roles, order, n - 1);
      StepReports(roles, w, p, r);
      NothingWaiting(roles, w, o, t, order, n - 1);
      forall i | 0 <= i < n - 1 ensures AtDesired(ApplyRole(roles, w, p, r).objects.workloads, roles[order[i]]) {
        assert order[i] in order;
        StepKeepsDesired(roles, w, p, r, order[i]);
      }
    }
  }

  /** Seen ready at some tick before `hi`. */
  ghost predicate SeenReady(w: World, r: Role, lo: nat, hi: nat) {
    exists s: nat :: lo <= s < hi && Ample(w, r, s)
  }

  /** A role whose dependencies are updated and up is not held back. */
  lemma NotHeld(roles: Roles, w: World, p: Pass, r: Role)
    requires WellFormed(roles) && r.name in roles && roles[r.name] == r
    requires p.failure.None? && AllConverged(roles, w, p.objects.workloads, r.dependsOn, p.clock)
    ensures ApplyRole(roles, w, p, r).waiting == p.waiting
  {
    ServicesOnly(w, p, DesiredServices(r));
    assert AllReady(roles, w, p.objects.workloads, r.dependsOn, p.clock);
  }

  /** Dependencies at their desired spec and seen ready before stay so at the gate. */
  lemma GateOpens(roles: Roles, w: World, ws: map<Key, Workload>, order: seq<string>, i: nat, lo: nat, clock: nat,
                  hi: nat)
    requires WellFormed(roles) && IsOrder(roles, order) && i < |order|
    requires NoDrop(roles, w, lo, hi) && lo <= clock && clock + |roles[order[i]].dependsOn| <= hi
    requires forall j :: 0 <= j < i ==> AtDesired(ws, roles[order[j]]) && SeenReady(w, roles[order[j]], lo, clock)
    ensures AllConverged(roles, w, ws, roles[order[i]].dependsOn, clock)
  {
    var deps := roles[order[i]].dependsOn;
    forall k | 0 <= k < |deps|
      ensures HashCurrent(ws, roles[deps[k]]) && RoleReady(w, ws, roles[deps[k]], clock + k)
    {
      assert deps[k] in deps;
      var j :| 0 <= j < i && order[j] == deps[k];
      assert AtDesired(ws, roles[order[j]]);
      var s: nat :| lo <= s < clock && Ample(w, roles[order[j]], s);
      assert Ample(w, roles[deps[k]], clock + k);
    }
  }

  /** Everybody before the n-th role is finished and was seen ready: nor is the n-th held. */
  lemma NextNotHeld(roles: Roles, w: World, o: Objects, t: nat, order: seq<string>, n: nat)
    requires WellFormed(roles) && IsOrder(roles, order) && 0 < n <= |order|
    requires NoDrop(roles, w, t, After(roles, w, Begin(o, t), order, |order|).clock)
    requires After(roles, w, Begin(o, t), order, n).failure.None?
    requires var p := After(roles, w, Begin(o, t), order, n - 1);
             && p.failure.None? && p.waiting == [] && p.clock >= t
             && forall i :: 0 <= i < n - 1 ==> SeenReady(w, roles[order[i]], t, p.clock)
    ensures After(roles, w, Begin(o, t), order, n).waiting == []
  {
    hide ApplyRole, AtDesired, HashCurrent, RoleReady, Ample, SeenReady, NoDrop;
    var p := After(roles, w, Begin(o, t), order, n - 1);
    var r := roles[order[n - 1]];
    NotOwnDependency(roles, order, n - 1);
    NothingWaiting(roles, w, o, t, order, n - 1);
    ClockOf(roles, w, Begin(o, t), order, n, |order|);
    StepSpends(roles, w, p, r);
    GateOpens(roles, w, p.objects.workloads, order, n - 1, t, p.clock,
              After(roles, w, Begin(o, t), order, |order|).clock);
    NotHeld(roles, w, p, r);
  }

  /** A step that does not fail reads every gate it has. */
  lemma StepSpends(roles: Roles, w: World, p: Pass, r: Role)
    requires forall d :: d in r.dependsOn ==> d in roles
    requires ApplyRole(roles, w, p, r).failure.None?
    ensures ApplyRole(roles, w, p, r).clock >= p.clock + |r.dependsOn|
  {
    hide AllConverged, AllReady, RoleReady, PutServices, DesiredServices, DesiredWorkload;
    ServicesOnly(w, p, DesiredServices(r));
    if p.failure.Some? { StaysFailed(w, p, DesiredServices(r)); }
  }

  lemma SeenLater(w: World, r: Role, lo: nat, mid: nat, hi: nat)
    requires SeenReady(w, r, lo, mid) && mid <= hi
    ensures SeenReady(w, r, lo, hi)
  {}

  /** The key lemma: while readiness does not drop within the pass, roles that all report ready
      leave nobody waiting; a non-empty waiting list forces some status to be not ready. */
  lemma {:induction false} AllReadyNobodyWaits(roles: Roles, w: World, o: Objects, t: nat, order: seq<string>, n: nat)
    requires WellFormed(roles) && IsOrder(roles, order) && n <= |order|
    requires NoDrop(roles, w, t, After(roles, w, Begin(o, t), order, |order|).clock)
    requires var p := After(roles, w, Begin(o, t), order, n); p.failure.None? && AllReported(p.statuses)
    ensures var p := After(roles, w, Begin(o, t), order, n);
            && p.waiting == [] && p.clock >= t
            && forall i :: 0 <= i < n ==> SeenReady(w, roles[order[i]], t, p.clock)
  {
    hide ApplyRole, AtDesired, HashCurrent, RoleReady, Ample, NoDrop;
    if n > 0 {
      var p := After(roles, w, Begin(o, t), order, n - 1);
      var r := roles[order[n - 1]];
      var q := ApplyRole(roles, w, p, r);
      NotOwnDependency(roles, order, n - 1);
      StepReports(roles, w, p, r);
      forall i | 0 <= i < |p.statuses| ensures p.statuses[i].ready {
        assert p.statuses[i] == q.statuses[..|p.statuses|][i];
      }
      AllReadyNobodyWaits(roles, w, o, t, order, n - 1);
      NextNotHeld(roles, w, o, t, order, n);
      forall i | 0 <= i < n ensures SeenReady(w, roles[order[i]], t, q.clock) {
        if i < n - 1 {
          SeenLater(w, roles[order[i]], t, p.clock, q.clock);
        } else {
          assert t <= q.clock - 1 < q.clock && Ample(w, r, q.clock - 1);
        }
      }
    }
  }

  /** A pass whose roles all report ready has finished the rollout, unless a dependency dropped
      between the read it was reported by and the read that gated a dependant. */
  lemma ReadyMeansFinished(roles: Roles, w: World, o: Objects, t: nat, order: seq<string>)
    requires WellFormed(roles) && IsOrder(roles, order)
    requires FullPass(roles, w, o, t, order).failure.None? && AllReported(FullPass(roles, w, o, t, order).statuses)
    requires NoDrop(roles, w, t, FullPass(roles, w, o, t, order).clock)
    ensures var p := FullPass(roles, w, o, t, order);
            && p.waiting == []
            && (forall n :: n in roles ==>
              AtDesired(p.objects.workloads, roles[n]) && SeenReady(w, roles[n], t, p.clock))
  {
    AllReadyNobodyWaits(roles, w, o, t, order, |order|);
    NothingWaiting(roles, w, o, t, order, |order|);
    var p := After(roles, w, Begin(o, t), order, |order|);
    CleanupKeepsDesired(roles, p.objects);
    forall n | n in roles
      ensures AtDesired(p.objects.workloads, roles[n]) && SeenReady(w, roles[n], t, p.clock)
    {
      var i := IndexOf(roles, order, n);
      assert SeenReady(w, roles[order[i]], t, p.clock) && AtDesired(p.objects.workloads, roles[order[i]]);
    }
  }

  /** A role that is to be created or rolled out reads every dependency ready at its gate. */
  ghost predicate GateMet(roles: Roles, w: World, p: Pass, r: Role)
    requires forall d :: d in r.dependsOn ==> d in roles
  {
    !HashCurrent(p.objects.workloads, r) ==> forall k :: 0 <= k < |r.dependsOn| ==>
      Ample(w, roles[r.dependsOn[k]], p.clock + k)
  }

  lemma GateReads(roles: Roles, w: World, ws: map<Key, Workload>, deps: seq<string>, t: nat)
    requires WellFormed(roles) && forall d :: d in deps ==> d in roles && AtDesired(ws, roles[d])
    ensures AllReady(roles, w, ws, deps, t) <==> forall k :: 0 <= k < |deps| ==> Ample(w, roles[deps[k]], t + k)
    ensures AllConverged(roles, w, ws, deps, t) <==> AllReady(roles, w, ws, deps, t)
  {
    forall k | 0 <= k < |deps|
      ensures HashCurrent(ws, roles[deps[k]])
              && (RoleReady(w, ws, roles[deps[k]], t + k) <==> Ample(w, roles[deps[k]], t + k))
    {
      assert deps[k] in deps && AtDesired(ws, roles[deps[k]]);
    }
  }

  lemma StepWaits(roles: Roles, w: World, p: Pass, r: Role)
    requires forall d :: d in r.dependsOn ==> d in roles
    requires ApplyRole(roles, w, p, r).failure.None?
    ensures var ws := p.objects.workloads;
            ApplyRole(roles, w, p, r).waiting == p.waiting <==>
            HashCurrent(ws, r)
            || if KeyOf(r) in ws then AllConverged(roles, w, ws, r.dependsOn, p.clock)
               else AllReady(roles, w, ws, r.dependsOn, p.clock)
  {
    hide AllConverged, AllReady, RoleReady, PutServices, DesiredServices, DesiredWorkload;
    ServicesOnly(w, p, DesiredServices(r));
  }

  lemma HeldIff(roles: Roles, w: World, p: Pass, r: Role)
    requires WellFormed(roles) && r.name in roles && roles[r.name] == r
    requires ApplyRole(roles, w, p, r).failure.None?
    requires forall d :: d in r.dependsOn ==> AtDesired(p.objects.workloads, roles[d])
    ensures ApplyRole(roles, w, p, r).waiting == p.waiting <==> GateMet(roles, w, p, r)
  {
    hide AllConverged, AllReady, ApplyRole, HashCurrent, AtDesired;
    StepWaits(roles, w, p, r);
    GateReads(roles, w, p.objects.workloads, r.dependsOn, p.clock);
  }

  lemma GateStep(roles: Roles, w: World, o: Objects, t: nat, order: seq<string>, n: nat)
    requires WellFormed(roles) && IsOrder(roles, order) && 0 < n <= |order|
    requires After(roles, w, Begin(o, t), order, n).failure.None?
    ensures var p, q := After(roles, w, Begin(o, t), order, n - 1), After(roles, w, Begin(o, t), order, n);
            && p.failure.None? && p.waiting <= q.waiting
            && (p.waiting == [] ==> (q.waiting == [] <==> GateMet(roles, w, p, roles[order[n - 1]])))
  {
    hide ApplyRole, AtDesired, GateMet;
    var p, r := After(roles, w, Begin(o, t), order, n - 1), roles[order[n - 1]];
    NotOwnDependency(roles, order, n - 1);
    StepReports(roles, w, p, r);
    if p.waiting == [] {
      NothingWaiting(roles, w, o, t, order, n - 1);
      forall d | d in r.dependsOn ensures AtDesired(p.objects.workloads, roles[d]) {
        var j :| 0 <= j < n - 1 && order[j] == d;
        assert AtDesired(p.objects.workloads, roles[order[j]]);
      }
      HeldIff(roles, w, p, r);
    }
  }

  /** When the gate of the i-th role is read, if nobody before it waits. */
  function GateStart(roles: Roles, order: seq<string>, t: nat, i: nat): nat
    requires i <= |order| && forall x :: x in order ==> x in roles
  {
    if i == 0 then t else GateStart(roles, order, t, i - 1) + |roles[order[i - 1]].dependsOn| + 1
  }

  /** The i-th role starts on its current template, or reads every dependency ready at its gate. */
  ghost predicate GateReady(roles: Roles, w: World, o: Objects, t: nat, order: seq<string>, i: nat)
    requires WellFormed(roles) && IsOrder(roles, order) && i < |order|
  {
    var r := roles[order[i]];
    !HashCurrent(o.workloads, r) ==>
      forall k :: 0 <= k < |r.dependsOn| ==> Ample(w, roles[r.dependsOn[k]], GateStart(roles, order, t, i) + k)
  }

  lemma StepClock(roles: Roles, w: World, p: Pass, r: Role, other: Role)
    requires forall d :: d in r.dependsOn ==> d in roles
    requires var q := ApplyRole(roles, w, p, r); q.failure.None? && q.waiting == p.waiting
    requires other.name != r.name
    ensures var q := ApplyRole(roles, w, p, r);
            && q.clock == p.clock + |r.dependsOn| + 1
            && HashCurrent(q.objects.workloads, other) == HashCurrent(p.objects.workloads, other)
  {
    hide AllConverged, AllReady, RoleReady, PutServices, DesiredServices, DesiredWorkload;
    ServicesOnly(w, p, DesiredServices(r));
    if p.failure.Some? { StaysFailed(w, p, DesiredServices(r)); }
  }

  /** Until somebody waits, the clock is where the order puts it, and later roles are as they were. */
  lemma {:induction false} NothingElseMoved(roles: Roles, w: World, o: Objects, t: nat, order: seq<string>, n: nat,
                                            m: nat)
    requires WellFormed(roles) && IsOrder(roles, order) && n <= m < |order|
    requires var p := After(roles, w, Begin(o, t), order, n); p.failure.None? && p.waiting == []
    ensures var p, r := After(roles, w, Begin(o, t), order, n), roles[order[m]];
            p.clock == GateStart(roles, order, t, n)
              && HashCurrent(p.objects.workloads, r) == HashCurrent(o.workloads, r)
  {
    hide ApplyRole, HashCurrent;
    if n > 0 {
      var p := After(roles, w, Begin(o, t), order, n - 1);
      NotOwnDependency(roles, order, n - 1);
      StepReports(roles, w, p, roles[order[n - 1]]);
      NothingElseMoved(roles, w, o, t, order, n - 1, m);
      assert roles[order[m]].name == order[m] && roles[order[n - 1]].name == order[n - 1];
      StepClock(roles, w, p, roles[order[n - 1]], roles[order[m]]);
    }
  }

  /** Exactly when a pass finishes, from its objects and readings: nobody waits, and so every role is at
      its desired spec, if and only if every role that does not start on its current template reads its
      dependencies ready at its gate. */
  lemma {:induction false} FinishedIff(roles: Roles, w: World, o: Objects, t: nat, order: seq<string>, n: nat)
    requires WellFormed(roles) && IsOrder(roles, order) && n <= |order|
    requires After(roles, w, Begin(o, t), order, n).failure.None?
    ensures After(roles, w, Begin(o, t), order, n).waiting == [] <==>
            forall i :: 0 <= i < n ==> GateReady(roles, w, o, t, order, i)
  {
    hide GateMet, GateReady, ApplyRole;
    if n > 0 {
      GateStep(roles, w, o, t, order, n);
      FinishedIff(roles, w, o, t, order, n - 1);
      if After(roles, w, Begin(o, t), order, n - 1).waiting == [] {
        GateFromInputs(roles, w, o, t, order, n - 1);
      }
      hide After;
    }
  }

  lemma GateFromInputs(roles: Roles, w: World, o: Objects, t: nat, order: seq<string>, i: nat)
    requires WellFormed(roles) && IsOrder(roles, order) && i < |order|
    requires var p := After(roles, w, Begin(o, t), order, i); p.failure.None? && p.waiting == []
    ensures forall d :: d in roles[order[i]].dependsOn ==> d in roles
    ensures GateMet(roles, w, After(roles, w, Begin(o, t), order, i), roles[order[i]]) <==>
              GateReady(roles, w, o, t, order, i)
  {
    hide After, HashCurrent, Ample, ApplyRole, IsOrder;
    NotOwnDependency(roles, order, i);
    NothingElseMoved(roles, w, o, t, order, i, i);
  }

  /** With such a drop it is not: `b` is held back on its old template, yet every status of the
      pass is ready.  `a` is read ready at tick 0 and unready at the gate, tick 1. */
  lemma DropHidesHeldRollout() returns (roles: Roles, w: World, o: Objects, order: seq<string>)
    ensures WellFormed(roles) && IsOrder(roles, order) && "b" in roles
    ensures var p := FullPass(roles, w, o, 0, order);
            && p.failure.None? && |p.statuses| == |order| && AllReported(p.statuses)
            && p.waiting == ["b"] && !AtDesired(p.objects.workloads, roles["b"])
  {
    var a := Role("a", [], Deployment, "new", 1, 0, false, None, None);
    var b := Role("b", ["a"], Deployment, "new", 1, 0, false, None, None);
    roles, order := map["a" := a, "b" := b], ["a", "b"];
    w := World((t: nat, n: string) => if n == "a" && t == 1 then 0 else 1, t => true, s => "");
    o := Objects(map[KeyOf(a) := Workload(true, "new", 1, 0), KeyOf(b) := Workload(true, "old", 1, 0)], map[]);
    assert roles["a"] == a && roles["b"] == b && WellFormed(roles) && IsOrder(roles, order) by {
      assert order[0] == "a";
    }
    HeldButReady(roles, w, o, a, b);
  }

  lemma HeldButReady(roles: Roles, w: World, o: Objects, a: Role, b: Role)
    requires WellFormed(roles) && roles.Keys == {"a", "b"} && roles["a"] == a && roles["b"] == b
    requires a.dependsOn == [] && b.dependsOn == ["a"] && a.service.None? && b.service.None?
    requires KeyOf(a) in o.workloads && o.workloads[KeyOf(a)] == DesiredWorkload(a) && KeyOf(b) in o.workloads
               && o.workloads[KeyOf(b)].mine && o.workloads[KeyOf(b)].hash != b.hash
    requires Ample(w, a, 0) && !Ample(w, a, 1) && Ample(w, b, 2)
    ensures var p := FullPass(roles, w, o, 0, ["a", "b"]);
            && p.failure.None? && p.waiting == ["b"] && |p.statuses| == 2 && AllReported(p.statuses)
            && !AtDesired(p.objects.workloads, b)
  {
    var order, p0 := ["a", "b"], Begin(o, 0);
    var p1 := p0.(clock := 1, statuses := [RoleStatus("a", true)]);
    assert After(roles, w, p0, order, 1) == p1 by { assert After(roles, w, p0, order, 0) == p0; }
    assert !AllConverged(roles, w, o.workloads, b.dependsOn, 1) by {
      assert !RoleReady(w, o.workloads, roles[b.dependsOn[0]], 1 + 0);
    }
    var p2 := p1.(clock := 3, waiting := ["b"], statuses := [RoleStatus("a", true), RoleStatus("b", true)]);
    assert PutServices(w, p1, DesiredServices(b)) == p1;
    assert PutWorkload(roles, w, p1, b) == p2;
    assert After(roles, w, p0, order, 2) == p2;
    CleanupKeepsDesired(roles, o);
  }
}
