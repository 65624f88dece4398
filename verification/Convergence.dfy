/** Where repeated apply passes end (operator/internal/controller/apply.go): every role at its
    desired spec after at most one pass per role, and nothing written from then on. */
module Convergence {
  import opened Wrappers
  import opened Services
  import opened Rollout
  import Strings

  /** Ours, of the role's kind, on its template, with its replicas, and its group size if it is grouped. */
  ghost predicate AtDesired(ws: map<Key, Workload>, r: Role) {
    var k := Key(r.kind, r.name);
    k in ws && ws[k].mine && ws[k].hash == r.hash && ws[k].replicas == Strings.Int32(r.replicas)
    && ws[k].groupSize == match r.kind { case Deployment => 0 case LeaderWorkerSet => Strings.Int32(r.groupSize) }
  }

  ghost function Lacking(roles: Roles, ws: map<Key, Workload>): set<string> {
    set n | n in roles && !AtDesired(ws, roles[n])
  }

  /** No object of another owner sits under a name this service writes. */
  ghost predicate NothingForeign(roles: Roles, o: Objects) {
    && (forall n :: n in roles && KeyOf(roles[n]) in o.workloads ==> o.workloads[KeyOf(roles[n])].mine)
    && (forall n, i :: n in roles && 0 <= i < |DesiredServices(roles[n])| ==>
          var s := DesiredServices(roles[n])[i].0; s in o.services ==> o.services[s].mine)
  }

  /** Workloads that are at their desired spec when the pass begins are up throughout it. */
  ghost predicate CaughtUp(roles: Roles, w: World, ws: map<Key, Workload>) {
    forall n, t :: n in roles && AtDesired(ws, roles[n])
      ==> roles[n].replicas <= w.ready(t, n) && (roles[n].gatedOnClaim ==> w.bound(t))
  }

  // ------------------------------------------------------------------ Services

  /** A Service the next pass leaves alone. */
  ghost predicate Settled(services: map<string, StoredService>, name: string, d: Service) {
    name in services && services[name].mine && Stored(Some(services[name].svc), "", d) == services[name].svc
  }

  /** The role's Service, and its headless sibling, are ours and as they are asked for. */
  ghost predicate Served(services: map<string, StoredService>, r: Role) {
    && (r.service.Some? ==>
          r.name in services && services[r.name].mine && AsAsked(services[r.name].svc, r.service.value))
    && (r.service.Some? && r.headless.Some? ==>
          r.name + "-hl" in services && services[r.name + "-hl"].mine
          && AsAsked(services[r.name + "-hl"].svc, r.headless.value))
  }

  lemma SettledIsServed(services: map<string, StoredService>, r: Role)
    requires RoleSettled(services, r)
    ensures Served(services, r)
  {
    var ds := DesiredServices(r);
    forall i | 0 <= i < |ds| ensures AsAsked(services[ds[i].0].svc, ds[i].1) {
      StoredAsAsked(Some(services[ds[i].0].svc), "", ds[i].1, services[ds[i].0].svc);
    }
    if r.service.Some? { assert ds[0] == (r.name, r.service.value); }
    if r.service.Some? && r.headless.Some? { assert ds[1] == (r.name + "-hl", r.headless.value); }
  }

  ghost predicate RoleSettled(services: map<string, StoredService>, r: Role) {
    forall i :: 0 <= i < |DesiredServices(r)| ==> Settled(services, DesiredServices(r)[i].0, DesiredServices(r)[i].1)
  }

  /** The two come to one stored object: equal but for what the server fills in. */
  ghost predicate Agree(d: Service, e: Service) {
    d.labels == e.labels && d.annotations == e.annotations && d.selector == e.selector
      && DefaultPorts(d.ports) == DefaultPorts(e.ports)
  }

  /** Roles that write one Service name (a role called like another's headless Service) ask for one Service. */
  ghost predicate OneServicePerName(roles: Roles) {
    forall m, n, i, j :: m in roles && n in roles && m != n && 0 <= i < |DesiredServices(roles[m])|
      && 0 <= j < |DesiredServices(roles[n])|
      && DesiredServices(roles[m])[i].0 == DesiredServices(roles[n])[j].0
      ==> Agree(DesiredServices(roles[m])[i].1, DesiredServices(roles[n])[j].1)
  }

  ghost predicate Mine(services: map<string, StoredService>, s: string) { s in services ==> services[s].mine }

  lemma PutServiceSettles(w: World, p: Pass, name: string, d: Service)
    requires p.failure.None? && Authored(d) && Mine(p.objects.services, name)
    ensures var q := PutService(w, p, name, d);
            && q.failure.None? && Settled(q.objects.services, name, d)
            && (forall s :: Mine(p.objects.services, s) ==> Mine(q.objects.services, s))
            && (Settled(p.objects.services, name, d) ==> q == p)
            && (forall s, e :: Settled(p.objects.services, s, e) && Authored(e) && (s == name ==> Agree(d, e)) ==>
              Settled(q.objects.services, s, e))
  {
    var held, q := p.objects.services, PutService(w, p, name, d);
    DefaultsAreNotDrift(if name in held then Some(held[name].svc) else None,
                        if name in held then "" else w.address(name), d);
    forall s, e | Settled(held, s, e) && Authored(e) && (s == name ==> Agree(d, e))
      ensures Settled(q.objects.services, s, e)
    {
      if s == name { OneObject(held[name].svc, d, e); }
    }
  }

  /** A Service settled for one of two that agree stays settled for it when the other is written. */
  lemma OneObject(x: Service, d: Service, e: Service)
    requires Authored(d) && Authored(e) && Agree(d, e) && Stored(Some(x), "", e) == x
    ensures var y := Stored(Some(x), "", d); Stored(Some(y), "", e) == y
  {}

  /** One role's Services end settled, and no Service that agrees with them is unsettled. */
  lemma RoleServicesSettle(w: World, p: Pass, r: Role)
    requires p.failure.None?
    requires r.service.Some? ==> Authored(r.service.value)
    requires r.headless.Some? ==> Authored(r.headless.value)
    requires forall i :: 0 <= i < |DesiredServices(r)| ==> Mine(p.objects.services, DesiredServices(r)[i].0)
    ensures var q := PutServices(w, p, DesiredServices(r));
            && q.failure.None? && RoleSettled(q.objects.services, r)
            && (forall s :: Mine(p.objects.services, s) ==> Mine(q.objects.services, s))
            && (RoleSettled(p.objects.services, r) ==> q == p)
            && (forall s, e :: Settled(p.objects.services, s, e) && AgreesWith(r, s, e) ==>
              Settled(q.objects.services, s, e))
  {
    hide PutService, Settled, Agree, Mine;
    var ds := DesiredServices(r);
    if r.service.Some? {
      assert ds[0] == (r.name, r.service.value);
      PutServiceSettles(w, p, r.name, r.service.value);
      var p1 := PutService(w, p, r.name, r.service.value);
      if r.headless.Some? {
        var hl := r.name + "-hl";
        assert ds[1] == (hl, r.headless.value);
        assert hl != r.name by { assert |hl| == |r.name| + 3; }
        PutServiceSettles(w, p1, hl, r.headless.value);
        assert ds[1..] == [(hl, r.headless.value)] && ds[1..][1..] == [];
        assert PutServices(w, p, ds) == PutServices(w, PutService(w, p1, hl, r.headless.value), ds[1..][1..]);
      } else {
        assert ds[1..] == [];
      }
    }
  }

  ghost predicate AgreesWith(r: Role, s: string, e: Service) {
    Authored(e)
    && forall i :: 0 <= i < |DesiredServices(r)| && DesiredServices(r)[i].0 == s ==> Agree(DesiredServices(r)[i].1, e)
  }

  ghost predicate Same<K, T>(a: map<K, T>, b: map<K, T>, ks: set<K>) {
    forall k :: k in ks ==> (k in a <==> k in b) && (k in a ==> a[k] == b[k])
  }

  // ------------------------------------------------------------------ one step

  /** No step moves any role away from its desired spec. */
  lemma StepKeepsDesired(roles: Roles, w: World, p: Pass, r: Role, m: string)
    requires WellFormed(roles) && r.name in roles && roles[r.name] == r && m in roles
    requires AtDesired(p.objects.workloads, roles[m])
    ensures AtDesired(ApplyRole(roles, w, p, r).objects.workloads, roles[m])
  {
    ServicesOnly(w, p, DesiredServices(r));
  }

  /** What one step leaves: nobody else's workload is touched; a role that waits keeps the one it has, if any,
      and one that does not is at its desired spec. Another owner's object stops the step, and is kept. */
  lemma StepLeaves(roles: Roles, w: World, p: Pass, r: Role)
    requires WellFormed(roles) && r.name in roles && roles[r.name] == r && p.failure.None?
    ensures var ws, q, k := p.objects.workloads, ApplyRole(roles, w, p, r), Key(r.kind, r.name);
            && Same(ws, q.objects.workloads, q.objects.workloads.Keys + ws.Keys - {k})
            && (q.failure.None? && q.waiting == p.waiting ==> AtDesired(q.objects.workloads, r))
            && (q.failure.Some? || q.waiting != p.waiting ==> q.objects.workloads == ws)
            && (q.failure.Some? <==>
                  PutServices(w, p, DesiredServices(r)).failure.Some? || (k in ws && !ws[k].mine))
            && (q.failure.None? && q.waiting != p.waiting ==>
                  q.waiting == p.waiting + [r.name] && !HashCurrent(ws, r))
  {
    hide PutServices, DesiredServices, AllReady, AllConverged, RoleReady;
    ServicesOnly(w, p, DesiredServices(r));
  }

  /** On its current template, and ready whenever asked. */
  ghost predicate Up(w: World, ws: map<Key, Workload>, r: Role) {
    HashCurrent(ws, r) && forall t: nat :: RoleReady(w, ws, r, t)
  }

  /** A role whose dependencies are at their desired spec and up reaches its own. */
  lemma StepReaches(roles: Roles, w: World, p: Pass, r: Role)
    requires WellFormed(roles) && r.name in roles && roles[r.name] == r
    requires PutServices(w, p, DesiredServices(r)).failure.None?
    requires KeyOf(r) in p.objects.workloads ==> p.objects.workloads[KeyOf(r)].mine
    requires forall d :: d in r.dependsOn ==> Up(w, p.objects.workloads, roles[d])
    ensures AtDesired(ApplyRole(roles, w, p, r).objects.workloads, r)
  {
    ServicesOnly(w, p, DesiredServices(r));
    var ws := p.objects.workloads;
    forall k | 0 <= k < |r.dependsOn|
      ensures HashCurrent(ws, roles[r.dependsOn[k]]) && RoleReady(w, ws, roles[r.dependsOn[k]], p.clock + k)
    {
      var d := r.dependsOn[k];
      assert d in r.dependsOn && Up(w, ws, roles[d]);
    }
    assert AllConverged(roles, w, ws, r.dependsOn, p.clock);
    assert AllReady(roles, w, ws, r.dependsOn, p.clock);
  }

  lemma OthersStaySettled(roles: Roles, w: World, p: Pass, r: Role, m: string)
    requires WellFormed(roles) && OneServicePerName(roles) && r.name in roles && roles[r.name] == r && m in roles
               && m != r.name
    requires p.failure.None? && RoleSettled(p.objects.services, roles[m])
    requires forall i :: 0 <= i < |DesiredServices(r)| ==> Mine(p.objects.services, DesiredServices(r)[i].0)
    ensures RoleSettled(PutServices(w, p, DesiredServices(r)).objects.services, roles[m])
  {
    hide PutServices, Settled, Agree;
    RoleServicesSettle(w, p, r);
    forall i | 0 <= i < |DesiredServices(roles[m])|
      ensures Settled(PutServices(w, p, DesiredServices(r)).objects.services, DesiredServices(roles[m])[i].0,
                      DesiredServices(roles[m])[i].1)
    {
      assert AgreesWith(r, DesiredServices(roles[m])[i].0, DesiredServices(roles[m])[i].1);
    }
  }

  /** The workload half of a step leaves the Services alone, and stops only at another owner's workload. */
  lemma WorkloadOnly(roles: Roles, w: World, q: Pass, r: Role)
    requires forall d :: d in r.dependsOn ==> d in roles
    requires q.failure.None? && (KeyOf(r) in q.objects.workloads ==> q.objects.workloads[KeyOf(r)].mine)
    ensures var z := PutWorkload(roles, w, q, r);
            && z.failure.None? && z.objects.services == q.objects.services
            && (forall k :: k in z.objects.workloads && k != KeyOf(r) ==>
                  k in q.objects.workloads && z.objects.workloads[k] == q.objects.workloads[k])
            && (KeyOf(r) in z.objects.workloads ==> z.objects.workloads[KeyOf(r)].mine)
  {
    hide AllReady, AllConverged, RoleReady;
  }

  lemma StepKeepsOwners(roles: Roles, w: World, p: Pass, r: Role)
    requires WellFormed(roles) && OneServicePerName(roles) && r.name in roles && roles[r.name] == r
    requires p.failure.None? && NothingForeign(roles, p.objects)
    ensures var q := ApplyRole(roles, w, p, r); q.failure.None? && NothingForeign(roles, q.objects)
    ensures RoleSettled(ApplyRole(roles, w, p, r).objects.services, r)
    ensures forall m :: m in roles && m != r.name && RoleSettled(p.objects.services, roles[m])
              ==> RoleSettled(ApplyRole(roles, w, p, r).objects.services, roles[m])
  {
    hide PutServices, PutWorkload, RoleSettled, OneServicePerName, DesiredServices;
    ServicesOnly(w, p, DesiredServices(r));
    assert forall i :: 0 <= i < |DesiredServices(r)| ==> Mine(p.objects.services, DesiredServices(r)[i].0);
    RoleServicesSettle(w, p, r);
    var q := PutServices(w, p, DesiredServices(r));
    WorkloadOnly(roles, w, q, r);
    forall m, i | m in roles && 0 <= i < |DesiredServices(roles[m])|
      ensures Mine(q.objects.services, DesiredServices(roles[m])[i].0)
    {
      assert Mine(p.objects.services, DesiredServices(roles[m])[i].0);
    }
    forall m | m in roles && m != r.name && RoleSettled(p.objects.services, roles[m])
      ensures RoleSettled(q.objects.services, roles[m])
    {
      OthersStaySettled(roles, w, p, r, m);
    }
  }

  // ------------------------------------------------------------------ one pass

  /** The first n roles of the order have their Services settled. */
  ghost predicate SettledUpTo(roles: Roles, o: Objects, order: seq<string>, n: nat)
    requires n <= |order|
  {
    forall i :: 0 <= i < n && order[i] in roles ==> RoleSettled(o.services, roles[order[i]])
  }

  lemma {:induction false} PassKeeps(roles: Roles, w: World, o: Objects, t: nat, order: seq<string>, n: nat)
    requires WellFormed(roles) && OneServicePerName(roles) && IsOrder(roles, order) && n <= |order|
    requires NothingForeign(roles, o)
    ensures var p := After(roles, w, Begin(o, t), order, n);
            p.failure.None? && NothingForeign(roles, p.objects) && SettledUpTo(roles, p.objects, order, n)
  {
    hide ApplyRole, RoleSettled;
    if n > 0 {
      PassKeeps(roles, w, o, t, order, n - 1);
      var p := After(roles, w, Begin(o, t), order, n - 1);
      assert order[n - 1] in order;
      StepKeepsOwners(roles, w, p, roles[order[n - 1]]);
      var q := ApplyRole(roles, w, p, roles[order[n - 1]]);
      forall i | 0 <= i < n && order[i] in roles ensures RoleSettled(q.objects.services, roles[order[i]]) {
        if i < n - 1 { assert RoleSettled(p.objects.services, roles[order[i]]); }
      }
    }
  }

  /** Once placed, a role stays placed for the rest of the pass. */
  lemma {:induction false} PlacedStays(roles: Roles, w: World, start: Pass, order: seq<string>, i: nat, n: nat,
                                       m: string)
    requires WellFormed(roles) && IsOrder(roles, order) && i <= n <= |order| && m in roles
    requires AtDesired(After(roles, w, start, order, i).objects.workloads, roles[m])
    ensures AtDesired(After(roles, w, start, order, n).objects.workloads, roles[m])
    decreases n - i
  {
    if i < n {
      PlacedStays(roles, w, start, order, i, n - 1, m);
      StepKeepsDesired(roles, w, After(roles, w, start, order, n - 1), roles[order[n - 1]], m);
    }
  }

  lemma IndexOf(roles: Roles, order: seq<string>, m: string) returns (i: nat)
    requires IsOrder(roles, order) && m in roles
    ensures i < |order| && order[i] == m
  {
    assert m in order;
    i :| 0 <= i < |order| && order[i] == m;
  }

  /** What was finished when the pass began counts as updated and up at every point of it. */
  lemma FinishedIsUp(roles: Roles, w: World, o: Objects, t: nat, order: seq<string>, n: nat, d: string)
    requires WellFormed(roles) && IsOrder(roles, order) && n <= |order| && d in roles
    requires CaughtUp(roles, w, o.workloads) && AtDesired(o.workloads, roles[d])
    ensures Up(w, After(roles, w, Begin(o, t), order, n).objects.workloads, roles[d])
  {
    PlacedStays(roles, w, Begin(o, t), order, 0, n, d);
  }

  /** A pass finishes every role whose dependencies were finished when it began. */
  lemma PassReaches(roles: Roles, w: World, o: Objects, t: nat, order: seq<string>, m: string)
    requires WellFormed(roles) && OneServicePerName(roles) && IsOrder(roles, order) && NothingForeign(roles, o)
    requires CaughtUp(roles, w, o.workloads)
    requires m in roles && forall d :: d in roles[m].dependsOn ==> AtDesired(o.workloads, roles[d])
    ensures AtDesired(FullPass(roles, w, o, t, order).objects.workloads, roles[m])
  {
    var i := IndexOf(roles, order, m);
    var p := After(roles, w, Begin(o, t), order, i);
    PassKeeps(roles, w, o, t, order, i);
    RoleServicesSettle(w, p, roles[m]);
    forall d | d in roles[m].dependsOn ensures Up(w, p.objects.workloads, roles[d]) {
      FinishedIsUp(roles, w, o, t, order, i, d);
    }
    StepReaches(roles, w, p, roles[m]);
    ReachedStays(roles, w, o, t, order, i, m);
  }

  lemma ReachedStays(roles: Roles, w: World, o: Objects, t: nat, order: seq<string>, i: nat, m: string)
    requires WellFormed(roles) && IsOrder(roles, order) && i < |order| && m in roles
    requires AtDesired(ApplyRole(roles, w, After(roles, w, Begin(o, t), order, i), roles[order[i]]).objects.workloads,
                       roles[m])
    ensures AtDesired(FullPass(roles, w, o, t, order).objects.workloads, roles[m])
  {
    hide ApplyRole;
    PlacedStays(roles, w, Begin(o, t), order, i + 1, |order|, m);
    CleanupKeepsDesired(roles, After(roles, w, Begin(o, t), order, |order|).objects);
  }

  /** Removing orphans touches no wanted Service, and has nothing left to do a second time. */
  lemma CleanupSettles(roles: Roles, o: Objects)
    requires WellFormed(roles)
    ensures Cleanup(roles, Cleanup(roles, o)) == Cleanup(roles, o)
    ensures forall n :: n in roles && RoleSettled(o.services, roles[n]) ==>
              RoleSettled(Cleanup(roles, o).services, roles[n])
    ensures NothingForeign(roles, o) ==> NothingForeign(roles, Cleanup(roles, o))
  {
    var q := Cleanup(roles, o);
    forall n, k | n in roles && 0 <= k < |DesiredServices(roles[n])|
      ensures Same(o.services, q.services, {DesiredServices(roles[n])[k].0})
    {
      assert WantedName(roles, DesiredServices(roles[n])[k].0);
    }
  }

  lemma PassOutcome(roles: Roles, w: World, o: Objects, t: nat, order: seq<string>)
    requires WellFormed(roles) && OneServicePerName(roles) && IsOrder(roles, order) && NothingForeign(roles, o)
    ensures var p := FullPass(roles, w, o, t, order);
            && p.failure.None? && NothingForeign(roles, p.objects) && Cleanup(roles, p.objects) == p.objects
            && (forall n :: n in roles ==>
                  RoleSettled(p.objects.services, roles[n]) && Served(p.objects.services, roles[n]))
            && Tidy(roles, p.objects) && Lacking(roles, p.objects.workloads) <= Lacking(roles, o.workloads)
  {
    PassKeeps(roles, w, o, t, order, |order|);
    var p := After(roles, w, Begin(o, t), order, |order|).objects;
    CleanupKeepsDesired(roles, p);
    CleanupSettles(roles, p);
    CleanupIsTidy(roles, p);
    hide RoleSettled, Served, Tidy, Cleanup, AtDesired;
    forall n | n in roles ensures RoleSettled(Cleanup(roles, p).services, roles[n]) ==>
        Served(Cleanup(roles, p).services, roles[n])
    {
      if RoleSettled(Cleanup(roles, p).services, roles[n]) { SettledIsServed(Cleanup(roles, p).services, roles[n]); }
    }
    forall n | n in roles
      ensures RoleSettled(p.services, roles[n])
              && (AtDesired(o.workloads, roles[n]) ==> AtDesired(p.workloads, roles[n]))
    {
      var i := IndexOf(roles, order, n);
      assert RoleSettled(p.services, roles[order[i]]);
      if AtDesired(o.workloads, roles[n]) { PlacedStays(roles, w, Begin(o, t), order, 0, |order|, n); }
    }
  }

  /** Each pass strictly reduces the roles that are not at their desired spec. */
  lemma PassProgresses(roles: Roles, w: World, o: Objects, t: nat, order: seq<string>)
    requires WellFormed(roles) && OneServicePerName(roles) && IsOrder(roles, order) && NothingForeign(roles, o)
    requires CaughtUp(roles, w, o.workloads) && Lacking(roles, o.workloads) != {}
    ensures Lacking(roles, FullPass(roles, w, o, t, order).objects.workloads) < Lacking(roles, o.workloads)
  {
    var m := FirstLacking(roles, o.workloads, order, |order|);
    PassReaches(roles, w, o, t, order, m);
    PassOutcome(roles, w, o, t, order);
    assert m in Lacking(roles, o.workloads);
  }

  /** The first role in order that is not at its desired spec has finished dependencies. */
  lemma {:induction false} FirstLacking(roles: Roles, ws: map<Key, Workload>, order: seq<string>, n: nat)
    returns (m: string)
    requires WellFormed(roles) && IsOrder(roles, order) && Lacking(roles, ws) != {} && n <= |order|
    requires forall x :: x in Lacking(roles, ws) && x !in order[..n] ==>
               exists y :: y in Lacking(roles, ws) && y in order[..n]
    ensures m in Lacking(roles, ws) && forall d :: d in roles[m].dependsOn ==> AtDesired(ws, roles[d])
  {
    if n == 0 {
      assert false;
    } else if exists y :: y in Lacking(roles, ws) && y in order[..n - 1] {
      m := FirstLacking(roles, ws, order, n - 1);
    } else {
      m := order[n - 1];
      assert order[..n] == order[..n - 1] + [m];
      var x :| x in Lacking(roles, ws);
      assert m in Lacking(roles, ws);
      forall d | d in roles[m].dependsOn ensures AtDesired(ws, roles[d]) {
        var j :| 0 <= j < n - 1 && order[j] == d;
        assert order[..n - 1][j] == d;
        assert d !in Lacking(roles, ws);
      }
    }
  }

  // ------------------------------------------------------------------ many passes

  ghost function Passes(roles: Roles, steps: seq<(World, seq<string>)>, o: Objects): Objects
    requires WellFormed(roles) && forall i :: 0 <= i < |steps| ==> IsOrder(roles, steps[i].1)
    decreases |steps|
  {
    if steps == [] then o
    else
      var last := steps[|steps| - 1];
      assert IsOrder(roles, last.1);
      FullPass(roles, last.0, Passes(roles, steps[..|steps| - 1], o), 0, last.1).objects
  }

  /** Between any two passes, what is at its desired spec comes up. */
  ghost predicate KeepsUp(roles: Roles, steps: seq<(World, seq<string>)>, o: Objects)
    requires WellFormed(roles) && forall i :: 0 <= i < |steps| ==> IsOrder(roles, steps[i].1)
    decreases |steps|
  {
    steps != [] ==>
      var before := steps[..|steps| - 1];
      KeepsUp(roles, before, o) && CaughtUp(roles, steps[|steps| - 1].0, Passes(roles, before, o).workloads)
  }

  lemma {:induction false} PassesBound(roles: Roles, steps: seq<(World, seq<string>)>, o: Objects)
    requires WellFormed(roles) && OneServicePerName(roles)
    requires forall i :: 0 <= i < |steps| ==> IsOrder(roles, steps[i].1)
    requires NothingForeign(roles, o) && KeepsUp(roles, steps, o)
    ensures NothingForeign(roles, Passes(roles, steps, o))
    ensures var left := Lacking(roles, Passes(roles, steps, o).workloads);
            left <= Lacking(roles, o.workloads) && (left == {} || |left| + |steps| <= |Lacking(roles, o.workloads)|)
    decreases |steps|
  {
    if steps != [] {
      var before, last := steps[..|steps| - 1], steps[|steps| - 1];
      PassesBound(roles, before, o);
      var mid := Passes(roles, before, o);
      PassOutcome(roles, last.0, mid, 0, last.1);
      if Lacking(roles, mid.workloads) != {} {
        PassProgresses(roles, last.0, mid, 0, last.1);
        SmallerSet(Lacking(roles, Passes(roles, steps, o).workloads), Lacking(roles, mid.workloads));
      }
    }
  }

  lemma SmallerSet<T>(a: set<T>, b: set<T>)
    requires a < b
    ensures |a| < |b|
  {
    var x :| x in b && x !in a;
    assert b == a + (b - a) && |b - a| > 0;
  }

  lemma SubsetSize<T>(a: set<T>, b: set<T>)
    requires a <= b
    ensures |a| <= |b|
  {
    if a != b { SmallerSet(a, b); }
  }

  /** Rollout convergence.  For a fixed render, as many passes as there are roles (and at least
      one) bring every role to its desired spec; whatever is then read, the next pass writes
      nothing and leaves every object as it is. */
  lemma Converges(roles: Roles, steps: seq<(World, seq<string>)>, o: Objects, w: World, t: nat, order: seq<string>)
    requires WellFormed(roles) && OneServicePerName(roles)
    requires forall i :: 0 <= i < |steps| ==> IsOrder(roles, steps[i].1)
    requires NothingForeign(roles, o) && KeepsUp(roles, steps, o)
    requires |steps| >= |roles| && |steps| > 0 && IsOrder(roles, order)
    ensures var done := Passes(roles, steps, o);
            && (forall n :: n in roles ==> AtDesired(done.workloads, roles[n]) && Served(done.services, roles[n]))
            && Tidy(roles, done)
            && FullPass(roles, w, done, t, order).writes == 0
            && FullPass(roles, w, done, t, order).objects == done
  {
    var before, last := steps[..|steps| - 1], steps[|steps| - 1];
    PassesBound(roles, steps, o);
    PassesBound(roles, before, o);
    var done := Passes(roles, steps, o);
    SubsetSize(Lacking(roles, o.workloads), roles.Keys);
    assert Lacking(roles, done.workloads) == {};
    forall n | n in roles ensures AtDesired(done.workloads, roles[n]) {
      assert n !in Lacking(roles, done.workloads);
    }
    PassOutcome(roles, last.0, Passes(roles, before, o), 0, last.1);
    FixedPoint(roles, w, done, t, order, |order|);
  }

  lemma {:induction false} FixedPoint(roles: Roles, w: World, o: Objects, t: nat, order: seq<string>, n: nat)
    requires WellFormed(roles) && IsOrder(roles, order) && n <= |order|
    requires forall m :: m in roles ==> AtDesired(o.workloads, roles[m]) && RoleSettled(o.services, roles[m])
    ensures var p := After(roles, w, Begin(o, t), order, n);
            p.objects == o && p.writes == 0 && p.failure.None? && p.waiting == []
  {
    if n > 0 {
      FixedPoint(roles, w, o, t, order, n - 1);
      var p := After(roles, w, Begin(o, t), order, n - 1);
      RoleServicesSettle(w, p, roles[order[n - 1]]);
    }
  }

  ghost predicate AllSettled(services: map<string, StoredService>, roles: Roles) {
    forall n :: n in roles ==> RoleSettled(services, roles[n])
  }

  /** Services can come to rest exactly when the roles that share a name agree on it; a caller can
      check that on the profile. */
  lemma RestsIff(roles: Roles)
    requires WellFormed(roles)
    ensures (exists services :: AllSettled(services, roles)) <==> OneServicePerName(roles)
  {
    if services :| AllSettled(services, roles) {
      forall m, n, i, j | m in roles && n in roles && m != n && 0 <= i < |DesiredServices(roles[m])|
        && 0 <= j < |DesiredServices(roles[n])|
        && DesiredServices(roles[m])[i].0 == DesiredServices(roles[n])[j].0
        ensures Agree(DesiredServices(roles[m])[i].1, DesiredServices(roles[n])[j].1)
      {
        assert RoleSettled(services, roles[m]) && RoleSettled(services, roles[n]);
      }
    }
    if OneServicePerName(roles) {
      var names := SetToSeq(roles.Keys);
      var services := SettleAll(roles, names, |names|);
      assert forall n :: n in roles ==> n in names && RoleSettled(services, roles[n]);
      assert AllSettled(services, roles);
    }
  }

  /** Writing the Services of the roles one after another settles them all. */
  lemma {:induction false} SettleAll(roles: Roles, names: seq<string>, n: nat)
    returns (services: map<string, StoredService>)
    requires WellFormed(roles) && OneServicePerName(roles) && n <= |names|
    requires forall i :: 0 <= i < |names| ==> names[i] in roles
    requires forall i, j :: 0 <= i < j < |names| ==> names[i] != names[j]
    ensures forall i :: 0 <= i < n ==> RoleSettled(services, roles[names[i]])
    ensures forall s :: Mine(services, s)
  {
    hide RoleSettled, Mine;
    if n == 0 {
      services := map[];
      assert forall s :: Mine(services, s) by { NothingStored(); }
    } else {
      var before := SettleAll(roles, names, n - 1);
      var w := World((t, x) => 0, t => true, s => "");
      var p, r := Begin(Objects(map[], before), 0), roles[names[n - 1]];
      RoleServicesSettle(w, p, r);
      services := PutServices(w, p, DesiredServices(r)).objects.services;
      forall i | 0 <= i < n ensures RoleSettled(services, roles[names[i]]) {
        if i < n - 1 { OthersStaySettled(roles, w, p, r, names[i]); }
      }
    }
  }

  lemma NothingStored()
    ensures forall s :: Mine(map[], s)
  {}

  lemma {:induction false} SetToSeq(s: set<string>) returns (xs: seq<string>)
    ensures forall x :: x in s <==> x in xs
    ensures forall i, j :: 0 <= i < j < |xs| ==> xs[i] != xs[j]
  {
    if s == {} {
      xs := [];
    } else {
      var x :| x in s;
      var rest := SetToSeq(s - {x});
      xs := rest + [x];
      assert forall i :: 0 <= i < |rest| ==> rest[i] in rest;
    }
  }

  /** After a headless role's own step, its `-hl` Service is the one it asks for. */
  lemma HeadlessSettles(roles: Roles, w: World, p: Pass, x: Role)
    requires WellFormed(roles) && x.name in roles && roles[x.name] == x && x.service.Some? && x.headless.Some?
    requires p.failure.None? && NothingForeign(roles, p.objects)
    ensures var q := ApplyRole(roles, w, p, x);
            q.failure.None? && Settled(q.objects.services, x.name + "-hl", x.headless.value)
  {
    RoleServicesSettle(w, p, x);
    ServicesOnly(w, p, DesiredServices(x));
    assert DesiredServices(x)[1] == (x.name + "-hl", x.headless.value);
  }

  /** A role that wants a different Service under a settled name writes it. */
  lemma UnsettledWrites(roles: Roles, w: World, p: Pass, y: Role, d: Service)
    requires WellFormed(roles) && y.name in roles && roles[y.name] == y && y.service.Some? && y.headless.None?
    requires p.failure.None? && Settled(p.objects.services, y.name, d) && d.selector != y.service.value.selector
    ensures ApplyRole(roles, w, p, y).writes > 0
  {
    var q := PutService(w, p, y.name, y.service.value);
    assert DesiredServices(y) == [(y.name, y.service.value)];
    assert PutServices(w, p, DesiredServices(y)) == PutServices(w, q, []);
    assert q.writes > p.writes;
  }

  /** Otherwise it never does: a headless role `x` and a role `x-hl` with selectors of their own write
      the same Service in turn, in every pass. */
  lemma HeadlessNameClash(w: World) returns (roles: Roles, order: seq<string>)
    ensures WellFormed(roles) && IsOrder(roles, order)
    ensures forall o: Objects :: NothingForeign(roles, o) ==> After(roles, w, Begin(o, 0), order, |order|).writes > 0
  {
    var plain := Service(map[], map[], map["role" := "x"], [], "");
    var other := plain.(selector := map["role" := "x-hl"]);
    var x := Role("x", [], Deployment, "h", 1, 0, false, Some(plain), Some(plain.(clusterIP := HEADLESS)));
    var y := Role("x-hl", [], Deployment, "h", 1, 0, false, Some(other), None);
    roles, order := map["x" := x, "x-hl" := y], ["x", "x-hl"];
    assert roles["x"] == x && roles["x-hl"] == y && "x" + "-hl" == "x-hl";
    assert |plain.selector["role"]| != |other.selector["role"]|;
    forall o: Objects | NothingForeign(roles, o)
      ensures After(roles, w, Begin(o, 0), order, |order|).writes > 0
    {
      hide ApplyRole;
      var p1 := ApplyRole(roles, w, Begin(o, 0), x);
      HeadlessSettles(roles, w, Begin(o, 0), x);
      UnsettledWrites(roles, w, p1, y, x.headless.value);
      assert After(roles, w, Begin(o, 0), order, 1) == p1;
      assert After(roles, w, Begin(o, 0), order, 2) == ApplyRole(roles, w, p1, y);
    }
  }
}
