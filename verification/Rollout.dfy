/** One apply pass over the roles of an inference service
    (operator/internal/controller/apply.go): Services first, then
    create / roll out / resize / scale / skip, gated on the dependencies.

    The pass is specified as a function of the stored objects and of the
    readiness the cluster reports at each read; every read has its own tick, so
    a theorem over all `World`s covers every interleaving of readiness changes. */
module Rollout {
  import opened Wrappers
  import opened Services
  import Strings

  datatype Kind = Deployment | LeaderWorkerSet

  /** A workload object `<service>-<role>`; the two kinds have separate names. */
  datatype Key = Key(kind: Kind, role: string)

  datatype Workload = Workload(mine: bool, hash: string, replicas: int, groupSize: int)

  datatype StoredService = StoredService(mine: bool, svc: Service)

  datatype Objects = Objects(workloads: map<Key, Workload>, services: map<string, StoredService>)

  /** A profile role with its render. `gatedOnClaim`: it mounts a model kept on a claim. */
  datatype Role = Role(name: string, dependsOn: seq<string>, kind: Kind, hash: string,
                       replicas: int, groupSize: int, gatedOnClaim: bool,
                       service: Option<Service>, headless: Option<Service>)

  type Roles = map<string, Role>

  /** What the cluster reports: ready replicas and claim phase per tick, and server-given addresses. */
  datatype World = World(ready: (nat, string) -> int, bound: nat -> bool, address: string -> string)

  ghost predicate WellFormed(roles: Roles) {
    && (forall n :: n in roles ==> roles[n].name == n)
    && (forall n, d :: n in roles && d in roles[n].dependsOn ==> d in roles)
    && (forall n :: n in roles && roles[n].service.Some? ==> Authored(roles[n].service.value))
    && (forall n :: n in roles && roles[n].headless.Some? ==> Authored(roles[n].headless.value))
  }

  /** `order` lists every role once, dependencies first. */
  ghost predicate IsOrder(roles: Roles, order: seq<string>) {
    && (forall i, j :: 0 <= i < j < |order| ==> order[i] != order[j])
    && (forall n :: n in order <==> n in roles)
    && (forall i, d :: 0 <= i < |order| && order[i] in roles && d in roles[order[i]].dependsOn
          ==> exists j :: 0 <= j < i && order[j] == d)
  }

  function KeyOf(r: Role): Key { Key(r.kind, r.name) }

  function DesiredWorkload(r: Role): Workload {
    Workload(true, r.hash, Strings.Int32(r.replicas), if r.kind.LeaderWorkerSet? then Strings.Int32(r.groupSize) else 0)
  }

  /** `<service>-<role>`, and `<service>-<role>-hl` when headless. */
  function DesiredServices(r: Role): seq<(string, Service)> {
    if r.service.None? then []
    else if r.headless.None? then [(r.name, r.service.value)]
    else [(r.name, r.service.value), (r.name + "-hl", r.headless.value)]
  }

  // ----------------------------------------------------------------- readiness

  function RoleReady(w: World, ws: map<Key, Workload>, r: Role, t: nat): bool {
    KeyOf(r) in ws && r.replicas <= w.ready(t, r.name) && (r.gatedOnClaim ==> w.bound(t))
  }

  function HashCurrent(ws: map<Key, Workload>, r: Role): bool {
    KeyOf(r) in ws && ws[KeyOf(r)].hash == r.hash
  }

  /** Every listed dependency is ready, the k-th read at tick t + k. */
  ghost predicate AllReady(roles: Roles, w: World, ws: map<Key, Workload>, deps: seq<string>, t: nat)
    requires forall d :: d in deps ==> d in roles
  {
    forall k :: 0 <= k < |deps| ==> RoleReady(w, ws, roles[deps[k]], t + k)
  }

  /** Every listed dependency runs the current template and is ready. */
  ghost predicate AllConverged(roles: Roles, w: World, ws: map<Key, Workload>, deps: seq<string>, t: nat)
    requires forall d :: d in deps ==> d in roles
  {
    forall k :: 0 <= k < |deps| ==> HashCurrent(ws, roles[deps[k]]) && RoleReady(w, ws, roles[deps[k]], t + k)
  }

  // ------------------------------------------------------------------ one role

  datatype Reason = Nothing | Reconciling | Scaling | Rolling

  /** setProgressing: a rollout outranks scaling, which outranks the rest. */
  function Progress(current: Reason, reason: Reason): Reason {
    if current == Rolling || reason == Rolling then Rolling
    else if current == Scaling || reason == Scaling then Scaling
    else Reconciling
  }

  datatype RoleStatus = RoleStatus(name: string, ready: bool)

  /** Why a pass stopped; `NotDeleted`: an orphan could not be removed. */
  datatype Failure = ForeignService | ForeignWorkload | NotDeleted

  datatype Pass = Pass(objects: Objects, clock: nat, waiting: seq<string>, statuses: seq<RoleStatus>,
                       progressing: Reason, writes: nat, failure: Option<Failure>)

  function Begin(objects: Objects, t: nat): Pass {
    Pass(objects, t, [], [], Nothing, 0, None)
  }

  /** applyResource for one Service. */
  function PutService(w: World, p: Pass, name: string, d: Service): Pass {
    var held := p.objects.services;
    if p.failure.Some? then p
    else if name !in held then
      p.(objects := p.objects.(services := held[name := StoredService(true, Stored(None, w.address(name), d))]),
         writes := p.writes + 1)
    else if !held[name].mine then p.(failure := Some(ForeignService))
    else if Stored(Some(held[name].svc), "", d) == held[name].svc then p
    else p.(objects := p.objects.(services := held[name := StoredService(true, Stored(Some(held[name].svc), "", d))]),
            writes := p.writes + 1)
  }

  function PutServices(w: World, p: Pass, ds: seq<(string, Service)>): Pass
    decreases |ds|
  {
    if ds == [] then p else PutServices(w, PutService(w, p, ds[0].0, ds[0].1), ds[1..])
  }

  /** The workload decision for one role, its Services already applied. */
  ghost function PutWorkload(roles: Roles, w: World, p: Pass, r: Role): Pass
    requires forall d :: d in r.dependsOn ==> d in roles
  {
    var ws, k, desired := p.objects.workloads, KeyOf(r), DesiredWorkload(r);
    var tail := p.clock + |r.dependsOn|;
    if k !in ws then
      if AllReady(roles, w, ws, r.dependsOn, p.clock) then
        Wrote(w, p, r, desired, Reconciling, tail)
      else
        p.(clock := tail, waiting := p.waiting + [r.name], progressing := Progress(p.progressing, Reconciling),
           statuses := p.statuses + [RoleStatus(r.name, false)])
    else if !ws[k].mine then p.(failure := Some(ForeignWorkload))
    else if ws[k].hash != r.hash then
      if AllConverged(roles, w, ws, r.dependsOn, p.clock) then
        Wrote(w, p, r, desired, Rolling, tail)
      else
        Report(w, p.(waiting := p.waiting + [r.name]), r, tail)
    else if ws[k].groupSize != desired.groupSize then Wrote(w, p, r, desired, Scaling, tail)
    else if ws[k].replicas != desired.replicas then
      Wrote(w, p, r, ws[k].(replicas := desired.replicas), Scaling, tail)
    else Report(w, p, r, tail)
  }

  /** The loop tail: read the role's readiness and report it. */
  function Report(w: World, p: Pass, r: Role, t: nat): Pass {
    p.(clock := t + 1,
       statuses := p.statuses + [RoleStatus(r.name, RoleReady(w, p.objects.workloads, r, t))])
  }

  function Wrote(w: World, p: Pass, r: Role, v: Workload, reason: Reason, t: nat): Pass {
    Report(w, p.(objects := p.objects.(workloads := p.objects.workloads[KeyOf(r) := v]),
                 writes := p.writes + 1, progressing := Progress(p.progressing, reason)), r, t)
  }

  ghost function ApplyRole(roles: Roles, w: World, p: Pass, r: Role): Pass
    requires forall d :: d in r.dependsOn ==> d in roles
  {
    var q := PutServices(w, p, DesiredServices(r));
    if q.failure.Some? then q else PutWorkload(roles, w, q, r)
  }

  /** The pass after its first n roles: a pass that stops on an error stops in one of these. */
  ghost function After(roles: Roles, w: World, start: Pass, order: seq<string>, n: nat): Pass
    requires WellFormed(roles) && n <= |order| && forall x :: x in order ==> x in roles
  {
    if n == 0 then start else ApplyRole(roles, w, After(roles, w, start, order, n - 1), roles[order[n - 1]])
  }

  // -------------------------------------------------------------------- orphans

  function DesiredKeys(roles: Roles): set<Key> { set n | n in roles :: KeyOf(roles[n]) }

  /** A workload of ours that no role of that kind asks for. */
  predicate OrphanWorkload(roles: Roles, o: Objects, k: Key) {
    k in o.workloads && o.workloads[k].mine && k !in DesiredKeys(roles)
  }

  /** A Service of ours that no role asks for. */
  predicate OrphanService(roles: Roles, o: Objects, s: string) {
    s in o.services && o.services[s].mine && !WantedName(roles, s)
  }

  /** The orphans among the given objects are gone, and nothing else. */
  function Swept(roles: Roles, o: Objects, keys: set<Key>, names: set<string>): Objects {
    Objects(map k | k in o.workloads && !(k in keys && OrphanWorkload(roles, o, k)) :: o.workloads[k],
            map s | s in o.services && !(s in names && OrphanService(roles, o, s)) :: o.services[s])
  }

  /** Every orphan is gone. */
  function Cleanup(roles: Roles, o: Objects): Objects {
    Swept(roles, o, o.workloads.Keys, o.services.Keys)
  }

  /** desiredPrefixes: a role's own name, or its `-hl` sibling when headless. */
  predicate WantedName(roles: Roles, s: string) {
    exists n :: n in roles
      && (s == roles[n].name || (roles[n].service.Some? && roles[n].headless.Some? && s == roles[n].name + "-hl"))
  }

  predicate Headless(roles: Roles, n: string) {
    n in roles && roles[n].service.Some? && roles[n].headless.Some?
  }

  /** Nobody but us owns it, and no role asks for it: a workload whose role is gone or is of the other kind now. */
  ghost predicate UnaskedWorkload(roles: Roles, o: Objects, k: Key) {
    k in o.workloads && o.workloads[k].mine && !(k.role in roles && roles[k.role].kind == k.kind)
  }

  /** A Service of ours that is neither a role's own nor the sibling of a headless one. */
  ghost predicate UnaskedService(roles: Roles, o: Objects, s: string) {
    s in o.services && o.services[s].mine && s !in roles && forall n :: Headless(roles, n) ==> s != n + "-hl"
  }

  ghost predicate Tidy(roles: Roles, o: Objects) {
    (forall k :: !UnaskedWorkload(roles, o, k)) && (forall s :: !UnaskedService(roles, o, s))
  }

  /** Some of what nobody asks for is gone; everything else is there, unchanged. */
  ghost predicate OnlyUnaskedGone(roles: Roles, o: Objects, after: Objects) {
    && (forall k :: k in o.workloads && !UnaskedWorkload(roles, o, k) ==> k in after.workloads)
    && (forall k :: k in after.workloads ==> k in o.workloads && after.workloads[k] == o.workloads[k])
    && (forall s :: s in o.services && !UnaskedService(roles, o, s) ==> s in after.services)
    && (forall s :: s in after.services ==> s in o.services && after.services[s] == o.services[s])
  }

  /** An orphan is what no role asks for. */
  lemma OrphansAreUnasked(roles: Roles, o: Objects)
    requires WellFormed(roles)
    ensures forall k :: OrphanWorkload(roles, o, k) <==> UnaskedWorkload(roles, o, k)
    ensures forall s :: OrphanService(roles, o, s) <==> UnaskedService(roles, o, s)
  {
    forall k: Key ensures k in DesiredKeys(roles) <==> k.role in roles && roles[k.role].kind == k.kind {
      if k in DesiredKeys(roles) { var n :| n in roles && KeyOf(roles[n]) == k; }
      if k.role in roles && roles[k.role].kind == k.kind { assert KeyOf(roles[k.role]) == k; }
    }
    forall s ensures WantedName(roles, s) <==> s in roles || exists n :: Headless(roles, n) && s == n + "-hl" {
      if s in roles { assert roles[s].name == s; }
      if n :| Headless(roles, n) && s == n + "-hl" { assert roles[n].name == n; }
    }
    hide DesiredKeys, WantedName;
  }

  /** Orphan removal deletes nothing else, however far it gets; what it looked at and nobody asks for is gone. */
  lemma SweepIsExact(roles: Roles, o: Objects, keys: set<Key>, names: set<string>)
    requires WellFormed(roles)
    ensures OnlyUnaskedGone(roles, o, Swept(roles, o, keys, names))
    ensures forall k :: k in keys || k !in o.workloads ==> !UnaskedWorkload(roles, Swept(roles, o, keys, names), k)
    ensures forall s :: s in names || s !in o.services ==> !UnaskedService(roles, Swept(roles, o, keys, names), s)
  {
    OrphansAreUnasked(roles, o);
    hide OrphanWorkload, OrphanService;
    var after := Swept(roles, o, keys, names);
    assert forall k :: UnaskedWorkload(roles, after, k) ==> UnaskedWorkload(roles, o, k) && k !in keys;
    assert forall s :: UnaskedService(roles, after, s) ==> UnaskedService(roles, o, s) && s !in names;
    hide UnaskedWorkload, UnaskedService;
  }

  lemma CleanupIsTidy(roles: Roles, o: Objects)
    requires WellFormed(roles)
    ensures Tidy(roles, Cleanup(roles, o))
  {
    SweepIsExact(roles, o, o.workloads.Keys, o.services.Keys);
  }

  ghost function FullPass(roles: Roles, w: World, o: Objects, t: nat, order: seq<string>): Pass
    requires WellFormed(roles) && forall x :: x in order ==> x in roles
  {
    var p := After(roles, w, Begin(o, t), order, |order|);
    if p.failure.Some? then p else p.(objects := Cleanup(roles, p.objects))
  }

  /** A pass that ends well leaves nothing of ours that no role asks for, and only that is gone of what its
      roles left. */
  lemma PassIsTidy(roles: Roles, w: World, o: Objects, t: nat, order: seq<string>)
    requires WellFormed(roles) && forall x :: x in order ==> x in roles
    requires FullPass(roles, w, o, t, order).failure.None?
    ensures Tidy(roles, FullPass(roles, w, o, t, order).objects)
    ensures OnlyUnaskedGone(roles, After(roles, w, Begin(o, t), order, |order|).objects,
                            FullPass(roles, w, o, t, order).objects)
  {
    var o' := After(roles, w, Begin(o, t), order, |order|).objects;
    SweepIsExact(roles, o', o'.workloads.Keys, o'.services.Keys);
    CleanupIsTidy(roles, o');
  }

  // ---------------------------------------------------------------- what a pass applied

  /** What the step of role `r` did to its workload: a rollout gives it another template, scaling keeps the
      template, and a role without a workload is created or waits for it. */
  ghost predicate RolledOut(before: map<Key, Workload>, after: map<Key, Workload>, r: Role) {
    var k := KeyOf(r);
    k in before && k in after && before[k].hash != after[k].hash
  }

  ghost predicate Resized(before: map<Key, Workload>, after: map<Key, Workload>, r: Role) {
    var k := KeyOf(r);
    k in before && k in after && before[k] != after[k] && before[k].hash == after[k].hash
  }

  lemma StepReason(roles: Roles, w: World, p: Pass, r: Role)
    requires forall d :: d in r.dependsOn ==> d in roles
    requires p.failure.None?
    ensures var ws, q := p.objects.workloads, ApplyRole(roles, w, p, r);
            q.failure.None? ==>
              q.progressing ==
              if RolledOut(ws, q.objects.workloads, r) then Rolling
              else if Resized(ws, q.objects.workloads, r) then (if p.progressing == Rolling then Rolling else Scaling)
              else if KeyOf(r) !in ws then (if p.progressing in {Rolling, Scaling} then p.progressing else Reconciling)
              else p.progressing
  {
    hide AllConverged, AllReady, RoleReady, PutServices, DesiredServices;
    ServicesOnly(w, p, DesiredServices(r));
  }

  /** The i-th step of the pass, for the three things it may do. */
  ghost predicate RollsOutAt(roles: Roles, w: World, start: Pass, order: seq<string>, i: nat)
    requires WellFormed(roles) && i < |order| && forall x :: x in order ==> x in roles
  {
    RolledOut(After(roles, w, start, order, i).objects.workloads,
              After(roles, w, start, order, i + 1).objects.workloads, roles[order[i]])
  }

  ghost predicate ResizesAt(roles: Roles, w: World, start: Pass, order: seq<string>, i: nat)
    requires WellFormed(roles) && i < |order| && forall x :: x in order ==> x in roles
  {
    Resized(After(roles, w, start, order, i).objects.workloads,
            After(roles, w, start, order, i + 1).objects.workloads, roles[order[i]])
  }

  ghost predicate MissingAt(roles: Roles, w: World, start: Pass, order: seq<string>, i: nat)
    requires WellFormed(roles) && i < |order| && forall x :: x in order ==> x in roles
  {
    KeyOf(roles[order[i]]) !in After(roles, w, start, order, i).objects.workloads
  }

  /** The reason a pass reports: a rollout if it rolled any role out, else scaling if it resized one, else
      reconciling if it found one missing, else none. */
  lemma {:induction false} ReasonOfPass(roles: Roles, w: World, o: Objects, t: nat, order: seq<string>, n: nat)
    requires WellFormed(roles) && IsOrder(roles, order) && n <= |order|
    requires After(roles, w, Begin(o, t), order, n).failure.None?
    ensures After(roles, w, Begin(o, t), order, n).progressing ==
            if exists i :: 0 <= i < n && RollsOutAt(roles, w, Begin(o, t), order, i) then Rolling
            else if exists i :: 0 <= i < n && ResizesAt(roles, w, Begin(o, t), order, i) then Scaling
            else if exists i :: 0 <= i < n && MissingAt(roles, w, Begin(o, t), order, i) then Reconciling
            else Nothing
  {
    hide ApplyRole, RolledOut, Resized, WellFormed, IsOrder;
    var start := Begin(o, t);
    if n > 0 {
      OrderStep(roles, w, o, t, order, n);
      ReasonOfPass(roles, w, o, t, order, n - 1);
      hide After, RollsOutAt, ResizesAt, MissingAt;
    }
  }

  lemma OrderStep(roles: Roles, w: World, o: Objects, t: nat, order: seq<string>, n: nat)
    requires WellFormed(roles) && IsOrder(roles, order) && 0 < n <= |order|
    requires After(roles, w, Begin(o, t), order, n).failure.None?
    ensures var p, q := After(roles, w, Begin(o, t), order, n - 1), After(roles, w, Begin(o, t), order, n);
            && p.failure.None?
            && q.progressing ==
               if RollsOutAt(roles, w, Begin(o, t), order, n - 1) then Rolling
               else if ResizesAt(roles, w, Begin(o, t), order, n - 1) then
                 (if p.progressing == Rolling then Rolling else Scaling)
               else if MissingAt(roles, w, Begin(o, t), order, n - 1) then
                 (if p.progressing in {Rolling, Scaling} then p.progressing else Reconciling)
               else p.progressing
  {
    hide ApplyRole, RolledOut, Resized, KeyOf;
    var p, r := After(roles, w, Begin(o, t), order, n - 1), roles[order[n - 1]];
    NotOwnDependency(roles, order, n - 1);
    StepFailed(roles, w, p, r);
    StepReason(roles, w, p, r);
  }

  lemma StepFailed(roles: Roles, w: World, p: Pass, r: Role)
    requires forall d :: d in r.dependsOn ==> d in roles
    ensures p.failure.Some? ==> ApplyRole(roles, w, p, r).failure.Some?
  {
    if p.failure.Some? { StaysFailed(w, p, DesiredServices(r)); }
  }

  // ------------------------------------------------------------ the rollout order

  /** Whatever runs its current template has only dependencies that do. */
  ghost predicate Closed(roles: Roles, ws: map<Key, Workload>) {
    forall n, d :: n in roles && d in roles[n].dependsOn && d in roles && HashCurrent(ws, roles[n])
      ==> HashCurrent(ws, roles[d])
  }

  ghost predicate AllPresent(roles: Roles, ws: map<Key, Workload>) {
    forall n :: n in roles ==> KeyOf(roles[n]) in ws
  }

  lemma {:induction false} ServicesOnly(w: World, p: Pass, ds: seq<(string, Service)>)
    decreases |ds|
    ensures var q := PutServices(w, p, ds);
            && q == p.(objects := q.objects, writes := q.writes, failure := q.failure)
            && q.objects.workloads == p.objects.workloads
            && q.writes >= p.writes
  {
    if ds != [] { ServicesOnly(w, PutService(w, p, ds[0].0, ds[0].1), ds[1..]); }
  }

  /** A creation is gated on readiness alone: it is the one step that can break the order,
      and it does so exactly when some dependency is ready on an old template. */
  lemma StepKeepsClosed(roles: Roles, w: World, p: Pass, r: Role)
    requires WellFormed(roles) && r.name in roles && roles[r.name] == r
    requires p.failure.None? && r.name !in r.dependsOn
    requires Closed(roles, p.objects.workloads)
    ensures var ws := p.objects.workloads;
            Closed(roles, ApplyRole(roles, w, p, r).objects.workloads) <==>
            !(PutServices(w, p, DesiredServices(r)).failure.None? && KeyOf(r) !in ws
              && AllReady(roles, w, ws, r.dependsOn, p.clock)
              && exists d :: d in r.dependsOn && !HashCurrent(ws, roles[d]))
  {
    ServicesOnly(w, p, DesiredServices(r));
    var q := PutServices(w, p, DesiredServices(r));
    var ws, ws' := p.objects.workloads, ApplyRole(roles, w, p, r).objects.workloads;
    assert forall n :: n in roles && n != r.name ==> HashCurrent(ws', roles[n]) == HashCurrent(ws, roles[n]);
    if q.failure.None? && KeyOf(r) in ws && ws[KeyOf(r)].mine && ws[KeyOf(r)].hash != r.hash
       && AllConverged(roles, w, ws, r.dependsOn, p.clock) {
      forall d | d in r.dependsOn ensures HashCurrent(ws, roles[d]) {
        var k :| 0 <= k < |r.dependsOn| && r.dependsOn[k] == d;
      }
    }
    if q.failure.None? && KeyOf(r) !in ws && AllReady(roles, w, ws, r.dependsOn, p.clock) {
      assert HashCurrent(ws', r);
      if d :| d in r.dependsOn && !HashCurrent(ws, roles[d]) {
        assert !HashCurrent(ws', roles[d]) && r.name in roles && d in roles;
      }
    }
  }

  lemma StepKeepsPresent(roles: Roles, w: World, p: Pass, r: Role, k: Key)
    requires WellFormed(roles) && r.name in roles && roles[r.name] == r
    requires k in p.objects.workloads
    ensures k in ApplyRole(roles, w, p, r).objects.workloads
  {
    ServicesOnly(w, p, DesiredServices(r));
  }

  lemma NotOwnDependency(roles: Roles, order: seq<string>, i: nat)
    requires IsOrder(roles, order) && i < |order|
    ensures order[i] in roles && order[i] !in roles[order[i]].dependsOn
  {
    assert order[i] in order;
  }

  /** Rollout order, inside a pass: with every workload present, at every point of the
      pass and whatever readiness is reported, the roles on their current template are
      closed under dependency. */
  lemma {:induction false} RolloutOrder(roles: Roles, w: World, start: Pass, order: seq<string>, n: nat)
    requires WellFormed(roles) && IsOrder(roles, order) && n <= |order|
    requires AllPresent(roles, start.objects.workloads) && Closed(roles, start.objects.workloads)
    ensures var ws := After(roles, w, start, order, n).objects.workloads;
            AllPresent(roles, ws) && Closed(roles, ws)
  {
    if n > 0 {
      RolloutOrder(roles, w, start, order, n - 1);
      var p := After(roles, w, start, order, n - 1);
      var r := roles[order[n - 1]];
      NotOwnDependency(roles, order, n - 1);
      forall m | m in roles ensures KeyOf(roles[m]) in ApplyRole(roles, w, p, r).objects.workloads {
        StepKeepsPresent(roles, w, p, r, KeyOf(roles[m]));
      }
      if p.failure.Some? {
        StaysFailed(w, p, DesiredServices(r));
      } else {
        StepKeepsClosed(roles, w, p, r);
      }
    }
  }

  lemma {:induction false} StaysFailed(w: World, p: Pass, ds: seq<(string, Service)>)
    requires p.failure.Some?
    ensures PutServices(w, p, ds) == p
  {
    if ds != [] { StaysFailed(w, p, ds[1..]); }
  }

  /** The transitive reading of `Closed`: along any dependency path. */
  lemma {:induction false} ClosedTransitively(roles: Roles, ws: map<Key, Workload>, path: seq<string>)
    requires WellFormed(roles) && Closed(roles, ws)
    requires |path| > 0 && path[0] in roles && HashCurrent(ws, roles[path[0]])
    requires forall i :: 0 <= i < |path| - 1 ==> path[i] in roles && path[i + 1] in roles[path[i]].dependsOn
    ensures path[|path| - 1] in roles && HashCurrent(ws, roles[path[|path| - 1]])
  {
    if |path| > 1 {
      assert path[1] in roles[path[0]].dependsOn;
      ClosedTransitively(roles, ws, path[1..]);
    }
  }

  // --------------------------------------------------------------- runs of passes

  /** What happened in one pass: the readings it met, after how many roles it stopped, and which
      objects it still looked at to remove orphans. */
  datatype Attempt = Attempt(world: World, order: seq<string>, stop: nat, keys: set<Key>, names: set<string>)

  /** A pass may stop after any number of roles, or of deletions, as an API error makes it; orphans are
      removed only by one that got through the roles. */
  ghost predicate ValidAttempt(roles: Roles, a: Attempt) {
    IsOrder(roles, a.order) && a.stop <= |a.order| && (a.stop < |a.order| ==> a.keys == {} && a.names == {})
  }

  /** The objects an attempt leaves. */
  ghost function AttemptResult(roles: Roles, a: Attempt, o: Objects): Objects
    requires WellFormed(roles) && ValidAttempt(roles, a)
  {
    var p := After(roles, a.world, Begin(o, 0), a.order, a.stop);
    if p.failure.Some? then p.objects else Swept(roles, p.objects, a.keys, a.names)
  }

  ghost function Run(roles: Roles, attempts: seq<Attempt>, o: Objects): Objects
    requires WellFormed(roles) && forall i :: 0 <= i < |attempts| ==> ValidAttempt(roles, attempts[i])
  {
    if attempts == [] then o
    else AttemptResult(roles, attempts[|attempts| - 1], Run(roles, attempts[..|attempts| - 1], o))
  }

  lemma SweepKeepsDesired(roles: Roles, o: Objects, keys: set<Key>, names: set<string>)
    ensures forall n :: n in roles ==> var k := KeyOf(roles[n]);
              && (k in Swept(roles, o, keys, names).workloads <==> k in o.workloads)
              && (k in o.workloads ==> Swept(roles, o, keys, names).workloads[k] == o.workloads[k])
  {
    forall n | n in roles ensures KeyOf(roles[n]) in DesiredKeys(roles) {}
  }

  lemma CleanupKeepsDesired(roles: Roles, o: Objects)
    ensures forall n :: n in roles ==> var k := KeyOf(roles[n]);
              && (k in Cleanup(roles, o).workloads <==> k in o.workloads)
              && (k in o.workloads ==> Cleanup(roles, o).workloads[k] == o.workloads[k])
  {
    SweepKeepsDesired(roles, o, o.workloads.Keys, o.services.Keys);
  }

  /** Rollout order, over runs: an upgrade that starts with every workload present and none on
      its new template keeps the updated set closed in every state any run of complete or
      aborted passes reaches. */
  lemma {:induction false} RolloutOrderOverRuns(roles: Roles, attempts: seq<Attempt>, o: Objects)
    requires WellFormed(roles) && forall i :: 0 <= i < |attempts| ==> ValidAttempt(roles, attempts[i])
    requires AllPresent(roles, o.workloads) && forall n :: n in roles ==> !HashCurrent(o.workloads, roles[n])
    ensures var ws := Run(roles, attempts, o).workloads; AllPresent(roles, ws) && Closed(roles, ws)
  {
    hide After, Swept, HashCurrent;
    if attempts == [] {
      NoneUpdated(roles, o.workloads);
    } else {
      var before := attempts[..|attempts| - 1];
      RolloutOrderOverRuns(roles, before, o);
      var a := attempts[|attempts| - 1];
      var s := Run(roles, before, o);
      RolloutOrder(roles, a.world, Begin(s, 0), a.order, a.stop);
      SweepKeepsClosed(roles, After(roles, a.world, Begin(s, 0), a.order, a.stop).objects, a.keys, a.names);
    }
  }

  lemma NoneUpdated(roles: Roles, ws: map<Key, Workload>)
    requires forall n :: n in roles ==> !HashCurrent(ws, roles[n])
    ensures Closed(roles, ws)
  {}

  /** Removing orphans, however many, disturbs neither. */
  lemma SweepKeepsClosed(roles: Roles, o: Objects, keys: set<Key>, names: set<string>)
    requires AllPresent(roles, o.workloads) && Closed(roles, o.workloads)
    ensures var ws := Swept(roles, o, keys, names).workloads; AllPresent(roles, ws) && Closed(roles, ws)
  {
    SweepKeepsDesired(roles, o, keys, names);
    hide Swept;
  }

  /** Creation is not gated on the template: a new role starts beside a ready dependency that
      is still on the old one. */
  lemma CreationIgnoresTemplate(w: World) returns (roles: Roles, p: Pass, r: Role)
    requires forall t, n :: w.ready(t, n) == 1
    ensures WellFormed(roles) && r.name in roles && roles[r.name] == r
    ensures Closed(roles, p.objects.workloads) && !Closed(roles, ApplyRole(roles, w, p, r).objects.workloads)
  {
    var a := Role("a", [], Deployment, "new", 1, 0, false, None, None);
    r := Role("b", ["a"], Deployment, "new", 1, 0, false, None, None);
    roles := map["a" := a, "b" := r];
    p := Begin(Objects(map[Key(Deployment, "a") := Workload(true, "old", 1, 0)], map[]), 0);
    assert PutServices(w, p, DesiredServices(r)) == p;
    assert AllReady(roles, w, p.objects.workloads, r.dependsOn, 0);
    var ws := ApplyRole(roles, w, p, r).objects.workloads;
    assert HashCurrent(ws, roles["b"]) && !HashCurrent(ws, roles["a"]) && "a" in roles["b"].dependsOn;
  }
}
