/** The apply loop as it runs (operator/internal/controller/apply.go), proved to leave exactly
    the objects, statuses and waiting list of `Rollout.FullPass`. */
module ApplyWorkloads {
  import opened Wrappers
  import opened Services
  import opened Rollout
  import Topo

  datatype Outcome =
    | BadOrder(why: Topo.Outcome)
    | Stopped(order: seq<string>, failure: Failure)
    | Applied(order: seq<string>, waiting: seq<string>, statuses: seq<RoleStatus>, progressing: Reason)

  function TopoRoles(profile: seq<Role>): (r: seq<Topo.Role>)
    ensures |r| == |profile| && forall i :: 0 <= i < |r| ==> r[i] == Topo.Role(profile[i].name, profile[i].dependsOn)
  {
    seq(|profile|, i requires 0 <= i < |profile| => Topo.Role(profile[i].name, profile[i].dependsOn))
  }

  /** What the profile's author owes: distinct role names, and Services without an address. */
  ghost predicate ValidProfile(profile: seq<Role>) {
    && Topo.UniqueNames(TopoRoles(profile))
    && (forall i :: 0 <= i < |profile| && profile[i].service.Some? ==> Authored(profile[i].service.value))
    && (forall i :: 0 <= i < |profile| && profile[i].headless.Some? ==> Authored(profile[i].headless.value))
  }

  /** rolesByName. */
  ghost predicate ByName(profile: seq<Role>, roles: Roles) {
    && (forall i :: 0 <= i < |profile| ==> profile[i].name in roles && roles[profile[i].name] == profile[i])
    && (forall n :: n in roles ==> exists i :: 0 <= i < |profile| && profile[i].name == n)
  }

  method IndexRoles(profile: seq<Role>) returns (roles: Roles)
    requires ValidProfile(profile)
    ensures ByName(profile, roles)
  {
    roles := map[];
    for i := 0 to |profile|
      invariant forall j :: 0 <= j < i ==> profile[j].name in roles && roles[profile[j].name] == profile[j]
      invariant forall n :: n in roles ==> exists j :: 0 <= j < i && profile[j].name == n
    {
      assert forall j :: 0 <= j < i ==> TopoRoles(profile)[j].name != TopoRoles(profile)[i].name;
      roles := roles[profile[i].name := profile[i]];
    }
  }

  lemma ListedNames(profile: seq<Role>, roles: Roles, order: seq<string>, n: string)
    requires ValidProfile(profile) && ByName(profile, roles)
    requires multiset(order) == multiset(Topo.Names(TopoRoles(profile)))
    ensures n in order <==> n in roles
    ensures n in roles <==> Topo.Known(TopoRoles(profile), n)
  {
    var ts := TopoRoles(profile);
    assert n in order <==> n in multiset(order);
    assert n in Topo.Names(ts) <==> n in multiset(Topo.Names(ts));
    if n in roles {
      var i :| 0 <= i < |profile| && profile[i].name == n;
      assert Topo.Names(ts)[i] == n;
    }
    if n in order { var r := Topo.KnownRole(ts, n); }
  }

  /** topoOrder's promise, read through the index. */
  lemma OrderOfProfile(profile: seq<Role>, roles: Roles, order: seq<string>)
    requires ValidProfile(profile) && ByName(profile, roles)
    requires Topo.Resolves(TopoRoles(profile)) && Topo.IsTopologicalOrder(TopoRoles(profile), order)
    ensures WellFormed(roles) && IsOrder(roles, order)
  {
    var ts := TopoRoles(profile);
    forall n ensures n in order <==> n in roles { ListedNames(profile, roles, order, n); }
    forall n, d | n in roles && d in roles[n].dependsOn ensures d in roles {
      var i :| 0 <= i < |profile| && profile[i].name == n;
      assert ts[i] in ts;
      ListedNames(profile, roles, order, d);
    }
    assert Topo.NoRepeat(order) by { OrderNoRepeat(ts, order); }
    forall i, j | 0 <= i < j < |order| ensures order[i] != order[j] { NoRepeatDistinct(order, i, j); }
    forall i, d | 0 <= i < |order| && order[i] in roles && d in roles[order[i]].dependsOn
      ensures exists j :: 0 <= j < i && order[j] == d
    {
      var k :| 0 <= k < |profile| && profile[k].name == order[i];
      assert ts[k] in ts;
      var j := Topo.InSlice(order, i, d);
    }
  }

  lemma OrderNoRepeat(ts: seq<Topo.Role>, order: seq<string>)
    requires Topo.UniqueNames(ts) && multiset(order) == multiset(Topo.Names(ts))
    ensures Topo.NoRepeat(order)
  {
    Topo.NamesNoRepeat(ts);
    forall x ensures Topo.Count(order, x) <= 1 { assert Topo.Count(Topo.Names(ts), x) <= 1; }
  }

  lemma NoRepeatDistinct(s: seq<string>, i: nat, j: nat)
    requires i < j < |s| && Topo.NoRepeat(s)
    ensures s[i] != s[j]
  {
    var a, b := s[..j], s[j..];
    assert s == a + b && s[j] in b && a[i] in a;
    assert multiset(s) == multiset(a) + multiset(b);
    assert Topo.Count(s, s[j]) <= 1;
  }

  lemma FailureSticks(roles: Roles, w: World, start: Pass, order: seq<string>, n: nat, m: nat)
    requires WellFormed(roles) && n <= m <= |order| && forall x :: x in order ==> x in roles
    requires After(roles, w, start, order, n).failure.Some?
    ensures After(roles, w, start, order, m) == After(roles, w, start, order, n)
    decreases m - n
  {
    if n < m {
      FailureSticks(roles, w, start, order, n, m - 1);
      StaysFailed(w, After(roles, w, start, order, m - 1), DesiredServices(roles[order[m - 1]]));
    }
  }

  lemma NothingSwept(roles: Roles, o: Objects)
    ensures Swept(roles, o, {}, {}) == o
  {}

  /** The objects with one more workload dealt with. */
  lemma SweepOneWorkload(roles: Roles, o: Objects, keys: set<Key>, names: set<string>, k: Key)
    requires k in o.workloads && k !in keys
    ensures var before, after := Swept(roles, o, keys, names), Swept(roles, o, keys + {k}, names);
            && k in before.workloads && before.workloads[k] == o.workloads[k]
            && after.services == before.services
            && after.workloads == before.workloads
                 - if k !in DesiredKeys(roles) && o.workloads[k].mine then {k} else {}
  {
    var before, after := Swept(roles, o, keys, names), Swept(roles, o, keys + {k}, names);
    var gone := if k !in DesiredKeys(roles) && o.workloads[k].mine then {k} else {};
    hide DesiredKeys;
    assert forall x :: x in after.workloads <==> x in before.workloads && x !in gone;
  }

  lemma SweepOneService(roles: Roles, o: Objects, keys: set<Key>, names: set<string>, s: string)
    requires s in o.services && s !in names
    ensures var before, after := Swept(roles, o, keys, names), Swept(roles, o, keys, names + {s});
            && s in before.services && before.services[s] == o.services[s]
            && after.workloads == before.workloads
            && after.services == before.services - if !WantedName(roles, s) && o.services[s].mine then {s} else {}
  {
    var before, after := Swept(roles, o, keys, names), Swept(roles, o, keys, names + {s});
    var gone := if !WantedName(roles, s) && o.services[s].mine then {s} else {};
    hide WantedName;
    assert forall x :: x in after.services <==> x in before.services && x !in gone;
  }

  /** The loop over the roles stopped on an error. */
  ghost predicate RolesFailed(roles: Roles, w: World, o: Objects, t: nat, order: seq<string>)
    requires WellFormed(roles) && IsOrder(roles, order)
  {
    After(roles, w, Begin(o, t), order, |order|).failure.Some?
  }

  /** The objects the loop over the roles leaves. */
  ghost function LoopLeft(roles: Roles, w: World, o: Objects, t: nat, order: seq<string>): Objects
    requires WellFormed(roles) && IsOrder(roles, order)
  {
    After(roles, w, Begin(o, t), order, |order|).objects
  }

  /** Some of the orphans the loop left are gone, and nothing else. */
  ghost predicate PartlySwept(roles: Roles, w: World, o: Objects, t: nat, order: seq<string>, after: Objects)
    requires WellFormed(roles) && IsOrder(roles, order)
  {
    exists keys, names :: after == Swept(roles, After(roles, w, Begin(o, t), order, |order|).objects, keys, names)
  }

  class Cluster {
    var workloads: map<Key, Workload>
    var services: map<string, StoredService>
    var clock: nat
    /** Creates and updates of the current pass. */
    var writes: nat
    /** Deletes that failed. */
    var refused: nat
    const world: World

    constructor (world: World)
      ensures this.world == world && workloads == map[] && services == map[] && clock == 0 && writes == 0
    {
      this.world := world;
      workloads, services, clock, writes, refused := map[], map[], 0, 0, 0;
    }

    ghost function Current(): Objects
      reads this
    {
      Objects(workloads, services)
    }

    method IsRoleReady(r: Role) returns (ready: bool)
      modifies this`clock
      ensures ready <==> Key(r.kind, r.name) in workloads && r.replicas <= world.ready(old(clock), r.name)
                         && (r.gatedOnClaim ==> world.bound(old(clock)))
      ensures ready == RoleReady(world, workloads, r, old(clock)) && clock == old(clock) + 1
    {
      ready := RoleReady(world, workloads, r, clock);
      clock := clock + 1;
    }

    /** dependenciesReady: stops at the first dependency that is not. */
    method DependenciesReady(roles: Roles, deps: seq<string>) returns (ready: bool)
      requires forall d :: d in deps ==> d in roles
      modifies this`clock
      ensures ready <==> AllReady(roles, world, workloads, deps, old(clock))
    {
      for k := 0 to |deps|
        invariant clock == old(clock) + k
        invariant forall j :: 0 <= j < k ==> RoleReady(world, workloads, roles[deps[j]], old(clock) + j)
      {
        ready := IsRoleReady(roles[deps[k]]);
        if !ready { return; }
      }
      ready := true;
    }

    /** dependenciesConverged: template first, then readiness, dependency by dependency. */
    method DependenciesConverged(roles: Roles, deps: seq<string>) returns (converged: bool)
      requires forall d :: d in deps ==> d in roles
      modifies this`clock
      ensures converged <==> AllConverged(roles, world, workloads, deps, old(clock))
    {
      for k := 0 to |deps|
        invariant clock == old(clock) + k
        invariant forall j :: 0 <= j < k ==> HashCurrent(workloads, roles[deps[j]])
        invariant forall j :: 0 <= j < k ==> RoleReady(world, workloads, roles[deps[j]], old(clock) + j)
      {
        var dep := roles[deps[k]];
        if KeyOf(dep) !in workloads || workloads[KeyOf(dep)].hash != dep.hash { return false; }
        var ready := IsRoleReady(dep);
        if !ready { return false; }
      }
      converged := true;
    }

    /** applyResource: create when missing, refuse a foreign object, write only a real change. */
    method ApplyResource(name: string, d: Service, ghost p: Pass) returns (failure: Option<Failure>)
      requires Authored(d) && p.failure.None? && p.objects == Current() && p.writes == writes
      modifies this`services, this`writes
      ensures var q := PutService(world, p, name, d);
              q.objects == Current() && q.writes == writes && q.failure == failure
      ensures failure.Some? <==> name in old(services) && !old(services)[name].mine
      ensures failure.Some? ==> services == old(services)
      ensures failure.None? ==> name in services && services[name].mine && AsAsked(services[name].svc, d)
      ensures forall s :: s != name ==> (s in services <==> s in old(services))
      ensures forall s :: s != name && s in services ==> services[s] == old(services)[s]
      ensures writes == old(writes) + if services == old(services) then 0 else 1
    {
      if name in services { StoredAsAsked(Some(services[name].svc), "", d, services[name].svc); }
      StoredAsAsked(None, world.address(name), d, d);
      if name !in services {
        services := services[name := StoredService(true, Stored(None, world.address(name), d))];
        writes := writes + 1;
        return None;
      }
      var existing := services[name];
      if !existing.mine { return Some(ForeignService); }
      var update := NeedsUpdate(existing.svc, d);
      if update {
        services := services[name := StoredService(true, Stored(Some(existing.svc), "", d))];
        writes := writes + 1;
      }
      return None;
    }

    method ApplyService(r: Role, ghost p: Pass) returns (failure: Option<Failure>)
      requires r.service.Some? ==> Authored(r.service.value)
      requires r.headless.Some? ==> Authored(r.headless.value)
      requires p.failure.None? && p.objects == Current() && p.writes == writes
      modifies this`services, this`writes
      ensures var q := PutServices(world, p, DesiredServices(r));
              q.objects == Current() && q.writes == writes && q.failure == failure
    {
      var desired := DesiredServices(r);
      ghost var q := p;
      for i := 0 to |desired|
        invariant q.failure.None? && q.objects == Current() && q.writes == writes
        invariant PutServices(world, p, desired) == PutServices(world, q, desired[i..])
      {
        failure := ApplyResource(desired[i].0, desired[i].1, q);
        assert desired[i..][1..] == desired[i + 1..];
        q := PutService(world, q, desired[i].0, desired[i].1);
        if failure.Some? {
          StaysFailed(world, q, desired[i + 1..]);
          return;
        }
      }
      return None;
    }

    /** One turn of the loop: Services, then create / hold / roll out / resize / scale / skip. */
    method ApplyOne(roles: Roles, r: Role, ghost p: Pass)
      returns (failure: Option<Failure>, wait: bool, status: RoleStatus, reason: Reason)
      requires WellFormed(roles) && r.name in roles && roles[r.name] == r
      requires p.failure.None? && p.objects == Current() && p.writes == writes && p.clock == clock
      modifies this`workloads, this`services, this`clock, this`writes
      ensures var q := ApplyRole(roles, world, p, r);
              && q.objects == Current() && q.writes == writes && q.failure == failure
              && (failure.None? ==>
                    && q.clock == clock
                    && q.waiting == p.waiting + (if wait then [r.name] else [])
                    && q.statuses == p.statuses + [status]
                    && q.progressing == if reason == Nothing then p.progressing else Progress(p.progressing, reason))
    {
      hide PutServices, DesiredServices, AllReady, AllConverged, RoleReady;
      ServicesOnly(world, p, DesiredServices(r));
      wait, status, reason := false, RoleStatus(r.name, false), Nothing;
      failure := ApplyService(r, p);
      if failure.Some? { return; }
      var k, desired, tail := KeyOf(r), DesiredWorkload(r), clock + |r.dependsOn|;
      if k !in workloads {
        var ready := DependenciesReady(roles, r.dependsOn);
        clock, reason := tail, Reconciling;
        if !ready {
          wait := true;
          return;
        }
        workloads, writes := workloads[k := desired], writes + 1;
      } else {
        var existing := workloads[k];
        if !existing.mine { failure := Some(ForeignWorkload); return; }
        if existing.hash != desired.hash {
          var converged := DependenciesConverged(roles, r.dependsOn);
          if converged {
            workloads, writes, reason := workloads[k := desired], writes + 1, Rolling;
          } else {
            wait := true;
          }
        } else if existing.groupSize != desired.groupSize {
          workloads, writes, reason := workloads[k := desired], writes + 1, Scaling;
        } else if existing.replicas != desired.replicas {
          workloads, writes, reason := workloads[k := existing.(replicas := desired.replicas)], writes + 1, Scaling;
        }
        clock := tail;
      }
      var up := IsRoleReady(r);
      status := RoleStatus(r.name, up);
    }

    /** One delete call of the API server: it may fail. */
    method Delete() returns (ok: bool)
      modifies this`refused
      ensures refused == old(refused) + if ok then 0 else 1
    {
      ok := *;
      if !ok { refused := refused + 1; }
    }

    /** deleteOrphanWorkload on one listed workload. */
    method SweepWorkload(roles: Roles, ghost o: Objects, ghost keys: set<Key>, k: Key) returns (ok: bool)
      requires k in o.workloads && k !in keys && Current() == Swept(roles, o, keys, {})
      modifies this`workloads, this`refused
      ensures refused == old(refused) + if ok then 0 else 1
      ensures Current() == Swept(roles, o, if ok then keys + {k} else keys, {})
    {
      hide Swept;
      SweepOneWorkload(roles, o, keys, {}, k);
      ok := true;
      if k !in DesiredKeys(roles) && workloads[k].mine {
        ok := Delete();
        if ok { workloads := workloads - {k}; }
      }
    }

    /** Deletes the workloads of ours that no role of that kind asks for, one call each; `keys` are those
        it had dealt with. */
    method SweepWorkloads(roles: Roles) returns (ok: bool, ghost keys: set<Key>)
      requires WellFormed(roles)
      modifies this`workloads, this`refused
      ensures refused == old(refused) + if ok then 0 else 1
      ensures OnlyUnaskedGone(roles, old(Current()), Current())
      ensures ok ==> forall k :: !UnaskedWorkload(roles, Current(), k)
      ensures Current() == Swept(roles, old(Current()), keys, {})
      ensures ok ==> keys == old(workloads).Keys
    {
      hide Swept, OnlyUnaskedGone, WellFormed;
      ghost var o := Current();
      var todo := workloads.Keys;
      keys := {};
      NothingSwept(roles, o);
      while todo != {}
        invariant todo <= o.workloads.Keys && keys == o.workloads.Keys - todo
        invariant Current() == Swept(roles, o, keys, {})
        invariant refused == old(refused)
        decreases |todo|
      {
        var k :| k in todo;
        ok := SweepWorkload(roles, o, keys, k);
        SweepIsExact(roles, o, keys, {});
        if !ok { return; }
        todo, keys := todo - {k}, keys + {k};
      }
      SweepIsExact(roles, o, keys, {});
      ok := true;
    }

    method SweepService(roles: Roles, ghost o: Objects, ghost keys: set<Key>, ghost names: set<string>, s: string)
      returns (ok: bool)
      requires s in o.services && s !in names && Current() == Swept(roles, o, keys, names)
      modifies this`services, this`refused
      ensures refused == old(refused) + if ok then 0 else 1
      ensures Current() == Swept(roles, o, keys, if ok then names + {s} else names)
    {
      hide Swept, WantedName;
      SweepOneService(roles, o, keys, names, s);
      ok := true;
      if !WantedName(roles, s) && services[s].mine {
        ok := Delete();
        if ok { services := services - {s}; }
      }
    }

    method SweepServices(roles: Roles, ghost o: Objects, ghost keys: set<Key>)
      returns (ok: bool, ghost names: set<string>)
      requires Current() == Swept(roles, o, keys, {}) && services == o.services
      modifies this`services, this`refused
      ensures refused == old(refused) + if ok then 0 else 1
      ensures Current() == Swept(roles, o, keys, names)
      ensures ok ==> names == o.services.Keys
    {
      hide Swept;
      var todo := services.Keys;
      names := {};
      while todo != {}
        invariant todo <= o.services.Keys && names == o.services.Keys - todo
        invariant Current() == Swept(roles, o, keys, names)
        invariant refused == old(refused)
        decreases |todo|
      {
        var s :| s in todo;
        ok := SweepService(roles, o, keys, names, s);
        if !ok { return; }
        todo, names := todo - {s}, names + {s};
      }
      ok := true;
    }

    /** cleanupOrphanWorkloads: the workloads, then the Services. Nothing goes that a role asks for, and when
        every delete succeeds nothing of ours stays that none does. */
    method RemoveOrphans(roles: Roles) returns (ok: bool, ghost keys: set<Key>, ghost names: set<string>)
      requires WellFormed(roles)
      modifies this`workloads, this`services, this`refused
      ensures refused == old(refused) + if ok then 0 else 1
      ensures OnlyUnaskedGone(roles, old(Current()), Current())
      ensures ok ==> Tidy(roles, Current())
      ensures Current() == Swept(roles, old(Current()), keys, names)
      ensures ok ==> Current() == Cleanup(roles, old(Current()))
    {
      hide Swept, OnlyUnaskedGone, Tidy, WellFormed;
      ghost var o := Current();
      names := {};
      CleanupIsTidy(roles, o);
      ok, keys := SweepWorkloads(roles);
      SweepIsExact(roles, o, keys, {});
      if !ok { return; }
      ok, names := SweepServices(roles, o, keys);
      SweepIsExact(roles, o, keys, names);
    }

    /** The loop over the roles in dependency order. */
    method ApplyInOrder(roles: Roles, order: seq<string>)
      returns (failure: Option<Failure>, waiting: seq<string>, statuses: seq<RoleStatus>, progressing: Reason)
      requires WellFormed(roles) && forall x :: x in order ==> x in roles
      modifies this`workloads, this`services, this`clock, this`writes
      ensures var p := After(roles, world, Begin(old(Current()), old(clock)), order, |order|);
              && p.objects == Current() && p.writes == writes && p.failure == failure
              && (failure.None? ==> p.waiting == waiting && p.statuses == statuses && p.progressing == progressing)
    {
      failure, waiting, statuses, progressing := None, [], [], Nothing;
      ghost var start := Begin(Current(), clock);
      ghost var p := start;
      writes := 0;
      for n := 0 to |order|
        invariant p == After(roles, world, start, order, n)
        invariant p.failure.None? && p.objects == Current() && p.clock == clock && p.writes == writes
        invariant p.waiting == waiting && p.statuses == statuses && p.progressing == progressing
      {
        var r := roles[order[n]];
        var wait, status, reason;
        failure, wait, status, reason := ApplyOne(roles, r, p);
        p := ApplyRole(roles, world, p, r);
        if failure.Some? {
          FailureSticks(roles, world, start, order, n + 1, |order|);
          return;
        }
        if wait { waiting := waiting + [r.name]; }
        statuses := statuses + [status];
        if reason != Nothing { progressing := Progress(progressing, reason); }
      }
      failure := None;
    }

    /** applyWorkloads. */
    method Apply(profile: seq<Role>, endpointRole: string) returns (out: Outcome, ghost roles: Roles)
      requires ValidProfile(profile)
      modifies this
      ensures out.BadOrder? <==> !Topo.Resolves(TopoRoles(profile)) || Topo.HasCycle(TopoRoles(profile))
      ensures out.BadOrder? ==> Current() == old(Current())
      ensures !out.BadOrder? ==> ByName(profile, roles) && WellFormed(roles) && IsOrder(roles, out.order)
      ensures !out.BadOrder? ==>
                var p := FullPass(roles, world, old(Current()), old(clock), out.order);
                && writes == p.writes
                && (p.failure.Some? ==> out == Stopped(out.order, p.failure.value) && Current() == p.objects)
                && (out.Applied? ==>
                      p.failure.None? && Current() == p.objects
                      && out == Applied(out.order, p.waiting, p.statuses, p.progressing))
      ensures out.Applied? ==> Tidy(roles, Current())
      // what a pass removed is what no role asks for, however it ended
      ensures !out.BadOrder? ==>
                OnlyUnaskedGone(roles, LoopLeft(roles, world, old(Current()), old(clock), out.order), Current())
      // stopped by a delete, if one failed: some of the orphans are gone, and nothing else
      ensures out.Stopped? && !RolesFailed(roles, world, old(Current()), old(clock), out.order) ==>
                && out.failure == NotDeleted
                && PartlySwept(roles, world, old(Current()), old(clock), out.order, Current())
                && refused > old(refused)
      ensures out.Applied? ==> refused == old(refused)
    {
      roles := map[];
      var topo := Topo.TopoOrder(TopoRoles(profile), endpointRole);
      if !topo.Ordered? { return BadOrder(topo), roles; }
      var index := IndexRoles(profile);
      OrderOfProfile(profile, index, topo.order);
      roles := index;
      var failure, waiting, statuses, progressing := ApplyInOrder(index, topo.order);
      if failure.Some? { return Stopped(topo.order, failure.value), roles; }
      var removed, keys, names := RemoveOrphans(index);
      if !removed { return Stopped(topo.order, NotDeleted), roles; }
      return Applied(topo.order, waiting, statuses, progressing), roles;
    }
  }
}
