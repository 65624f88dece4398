/** The gateway step of a DevEnvironment pass as it runs (devenvironment_controller.go:862-905,
    3946-4028, 4197-4607, 4941-4984), proved to leave only what `PortPool.PassLeaves` allows,
    whichever API write fails. */
module GatewayRoutes {
  import opened Wrappers
  import opened PortNames
  import opened DevSpec
  import opened PortAllocation
  import opened PortPool
  import PortStability

  /** What the Gateway and its dataplane said of the published routes. */
  datatype Verdict = Accepted | NotAccepted

  /** The API server's objects, seen by the one worker; `setWrites` counts the ListenerSet writes
      issued, and `refused` the API writes that failed. */
  class Controller {
    const cfg: Config
    var gateway: Option<set<int>>
    var foreign: set<int>
    var sets: map<EnvId, ListenerSet>
    var legacy: map<EnvId, set<string>>
    var endpoints: map<EnvId, seq<Endpoint>>
    var setWrites: nat
    var refused: nat

    constructor (cfg: Config, gateway: Option<set<int>>)
      ensures this.cfg == cfg && Current() == World(gateway, {}, map[], map[], map[])
    {
      this.cfg, this.gateway := cfg, gateway;
      foreign, sets, legacy, endpoints, setWrites, refused := {}, map[], map[], map[], 0, 0;
    }

    ghost function Current(): World
      reads this
    {
      World(gateway, foreign, sets, legacy, endpoints)
    }

    /** One API write: it may fail. */
    method Write() returns (ok: bool)
      modifies this`refused
      ensures refused == old(refused) + if ok then 0 else 1
    {
      ok := *;
      if !ok { refused := refused + 1; }
    }

    method WriteSet() returns (ok: bool)
      modifies this`setWrites, this`refused
      ensures setWrites == old(setWrites) + 1
      ensures refused == old(refused) + if ok then 0 else 1
    {
      setWrites := setWrites + 1;
      ok := Write();
    }

    /** usedPorts: the legacy routes, then the ListenerSets, of every other environment. */
    method UsedPortsOf(e: EnvId) returns (used: set<int>)
      ensures used == UsedPorts(Current(), e)
      // whatever anybody else claims beside the Gateway's own ports, and, of routes the controller named, no more
      ensures CoversClaims(Current(), e, used)
    {
      hide CoversClaims;
      used := foreign;
      var todo := legacy.Keys;
      while todo != {}
        invariant todo <= legacy.Keys
        invariant used == foreign + (set f, p | f in legacy && f !in todo && f != e && p in LegacyPorts(legacy[f]) :: p)
        decreases |todo|
      {
        var f :| f in todo;
        todo := todo - {f};
        if f != e { used := used + LegacyPorts(legacy[f]); }
      }
      ghost var routed := used;
      todo := sets.Keys;
      while todo != {}
        invariant todo <= sets.Keys
        invariant used == routed + (set f, p | f in sets && f !in todo && f != e && sets[f].onGateway
                    && p in PortsOf(sets[f].listeners) :: p)
        decreases |todo|
      {
        var f :| f in todo;
        todo := todo - {f};
        if f != e && sets[f].onGateway { used := used + PortsOf(sets[f].listeners); }
      }
      assert used == UsedPorts(Current(), e);
      UsedIsCovering(Current(), e);
    }

    /** heldPorts: the endpoint list, and where it is silent the environment's own listeners. */
    method HeldPortsOf(e: EnvId, names: seq<string>) returns (held: map<string, int>)
      ensures held == HeldPorts(names, EndpointsOf(Current(), e), ListenersOf(Current(), e))
    {
      hide FromEndpoints, WithListeners;
      held := ReadEndpoints(if e in endpoints then endpoints[e] else []);
      var unrecorded := false;
      for i := 0 to |names|
        invariant unrecorded <==> exists j :: 0 <= j < i && names[j] !in held
      {
        if names[i] !in held { unrecorded := true; }
      }
      if unrecorded { held := ReadListeners(held, if e in sets then sets[e].listeners else []); }
    }

    static method ReadEndpoints(eps: seq<Endpoint>) returns (held: map<string, int>)
      ensures held == FromEndpoints(eps)
    {
      held := map[];
      for i := 0 to |eps|
        invariant held == FromEndpoints(eps[..i])
      {
        assert eps[..i + 1][..i] == eps[..i];
        if eps[i].listenerPort != 0 { held := held[eps[i].name := eps[i].listenerPort]; }
      }
      assert eps[..|eps|] == eps;
    }

    static method ReadListeners(recorded: map<string, int>, ls: seq<Listener>) returns (held: map<string, int>)
      ensures held == WithListeners(recorded, ls)
    {
      hide ListenerEndpoint;
      held := recorded;
      for i := 0 to |ls|
        invariant held == WithListeners(recorded, ls[..i])
      {
        assert ls[..i + 1][..i] == ls[..i];
        var name := ListenerEndpoint(ls[i].name);
        if name != "" && name !in held { held := held[name := ls[i].port]; }
      }
      assert ls[..|ls|] == ls;
    }

    /** The keys of a port map, gathered in any order and sorted by port. */
    method SortedNames(ports: map<string, int>) returns (names: seq<string>)
      requires Injective(ports)
      ensures Enumerates(ports, names)
    {
      names := [];
      var todo := ports.Keys;
      while todo != {}
        invariant todo <= ports.Keys && Enumerates(ports - todo, names)
        decreases |todo|
      {
        var n :| n in todo;
        ghost var done := ports - todo;
        var k := 0;
        while k < |names| && ports[names[k]] < ports[n]
          invariant 0 <= k <= |names|
          invariant forall i :: 0 <= i < k ==> ports[names[i]] < ports[n]
        {
          assert names[k] in names;
          k := k + 1;
        }
        Inserted(ports, todo, names, n, k);
        names := names[..k] + [n] + names[k..];
        todo := todo - {n};
      }
      assert ports - {} == ports;
    }

    /** applyListenerSet: declares exactly the given ports; removes the object when there are none;
        writes nothing when the object already says so. */
    method ApplyListenerSet(e: EnvId, s: Spec, ports: map<string, int>) returns (ok: bool)
      requires PortMap(ports)
      modifies this`setWrites, this`sets, this`refused
      ensures SameSets(old(sets), sets, e)
      ensures refused == old(refused) + if ok then 0 else 1
      ensures !ok ==> sets == old(sets)
      ensures ok && ports == map[] ==> e !in sets
      ensures ok && ports != map[] ==> e in sets && sets[e] == ListenerSet(true, DesiredListeners(s.ports, ports))
      ensures Declared(old(sets), e, s, ports) ==> ok && sets == old(sets) && setWrites == old(setWrites)
    {
      if ports == map[] {
        if e !in sets { return true; }
        ok := WriteSet();
        if ok { sets := sets - {e}; }
        return;
      }
      var names := SortedNames(ports);
      EnumerationUnique(ports, names, Listing(ports));
      assert forall i :: 0 <= i < |names| ==> names[i] in names;
      var desired := ListenerSet(true, ListenersFor(s.ports, ports, names));
      if e in sets && sets[e] == desired { return true; }
      ok := WriteSet();
      if ok { sets := sets[e := desired]; }
    }

    /** pruneL4Routes: deletes the environment's routes whose port is not among `keep`, and no others. */
    method PruneRoutes(e: EnvId, keep: set<int>) returns (ok: bool)
      modifies this`legacy, this`refused
      ensures refused == old(refused) + if ok then 0 else 1
      ensures forall f :: f != e ==> LegacyOf(Current(), f) == LegacyOf(old(Current()), f)
      ensures LegacyOf(Current(), e) <= LegacyOf(old(Current()), e)
      ensures forall n :: n in LegacyOf(old(Current()), e) && RoutePort(n, "-tcp-") in keep ==>
                n in LegacyOf(Current(), e)
      ensures ok ==> forall n :: n in LegacyOf(Current(), e) ==> RoutePort(n, "-tcp-") in keep
    {
      hide RoutePort;
      var mine := if e in legacy then legacy[e] else {};
      var todo := mine;
      while todo != {}
        invariant refused == old(refused)
        invariant forall f :: f != e ==> LegacyOf(Current(), f) == LegacyOf(old(Current()), f)
        invariant todo <= LegacyOf(Current(), e) <= mine
        invariant forall n :: n in mine && RoutePort(n, "-tcp-") in keep ==> n in LegacyOf(Current(), e)
        invariant forall n :: n in LegacyOf(Current(), e) && n !in todo ==> RoutePort(n, "-tcp-") in keep
        decreases |todo|
      {
        var n :| n in todo;
        todo := todo - {n};
        if RoutePort(n, "-tcp-") !in keep {
          ok := Write();
          if !ok { return; }
          legacy := legacy[e := legacy[e] - {n}];
        }
      }
      return true;
    }

    /** The routes, in ascending port order; one written for the ListenerSet leaves the Gateway. */
    method ApplyRoutes(e: EnvId, s: Spec, ports: map<string, int>) returns (ok: bool)
      requires PortMap(ports)
      modifies this`legacy, this`refused
      ensures refused == old(refused) + if ok then 0 else 1
      ensures forall f :: f != e ==> LegacyOf(Current(), f) == LegacyOf(old(Current()), f)
      ensures LegacyOf(Current(), e) <= LegacyOf(old(Current()), e)
      ensures ok ==> forall n :: n in ports && L4Protocol(s.ports, n) == TCP ==>
                       RouteName(e.name, TCP, ports[n]) !in LegacyOf(Current(), e)
    {
      hide RouteName, L4Protocol;
      var names := SortedNames(ports);
      for i := 0 to |names|
        invariant refused == old(refused)
        invariant forall f :: f != e ==> LegacyOf(Current(), f) == LegacyOf(old(Current()), f)
        invariant LegacyOf(Current(), e) <= LegacyOf(old(Current()), e)
        invariant forall j :: 0 <= j < i ==> names[j] in ports && ports[names[j]] > 0
        invariant forall j :: 0 <= j < i && L4Protocol(s.ports, names[j]) == TCP ==>
                    RouteName(e.name, TCP, ports[names[j]]) !in LegacyOf(Current(), e)
      {
        assert names[i] in names;
        ok := Write();
        if !ok { return; }
        if L4Protocol(s.ports, names[i]) == TCP && e in legacy {
          legacy := legacy[e := legacy[e] - {RouteName(e.name, TCP, ports[names[i]])}];
        }
      }
      forall n | n in ports && L4Protocol(s.ports, n) == TCP
        ensures RouteName(e.name, TCP, ports[n]) !in LegacyOf(Current(), e)
      {
        assert n in names;
        var j :| 0 <= j < |names| && names[j] == n;
      }
      return true;
    }

    /** The allocation: the pool is read only for an environment that draws from it. */
    method DrawPorts(e: EnvId, s: Spec) returns (r: Option<map<string, int>>)
      requires ValidConfig(cfg) && gateway.Some? && KeyNames(L4PortNames(s))
      ensures r.Some? <==> Allocation(cfg, Current(), e, s).Some?
      ensures r.Some? ==> r.value == Zip(L4PortNames(s), Allocation(cfg, Current(), e, s).value) && PortMap(r.value)
      ensures r.Some? ==> (r.value == map[] <==> L4PortNames(s) == [])
    {
      hide ListenerEndpoint, WithListeners, FromEndpoints, UsedPorts, HeldPorts, L4PortNames, Zip, PortMap;
      var names := ListL4PortNames(s);
      if |names| == 0 {
        assert Zip(names, []) == map[] && PortMap(map[]) by { NothingDrawn(); }
        return Some(map[]);
      }
      var used := UsedPortsOf(e);
      var held := HeldPortsOf(e, names);
      used := used + gateway.value;
      var pool := new Pool(cfg.lo, cfg.hi, used);
      var ps := pool.AllocateAll(names, held);
      if ps.None? { return None; }
      var ports := FillPorts(names, ps.value);
      AllocateSound(cfg.lo, cfg.hi, used, held, names);
      ZipIsPortMap(names, ps.value, cfg.lo, cfg.hi, used);
      ZipMaps(names, ps.value);
      assert names[0] in ports;
      return Some(ports);
    }

    /** publishRoutes: allocate, prune, declare, route.  `r` holds the ports when it got through. */
    method PublishRoutes(e: EnvId, s: Spec) returns (r: Option<map<string, int>>)
      requires ValidConfig(cfg) && gateway.Some? && KeyNames(L4PortNames(s))
      modifies this`setWrites, this`sets, this`legacy, this`refused
      ensures SameElsewhere(old(Current()), Current(), e)
      // it gets through unless the range is exhausted or a write is refused
      ensures refused >= old(refused)
      ensures r.None? <==> Allocation(cfg, old(Current()), e, s).None? || refused > old(refused)
      ensures SetKept(old(Current()), Current(), e) || SetPublished(cfg, old(Current()), Current(), e, s)
      // a second publish with nothing changed leaves the ListenerSet unwritten
      ensures forall ps, G :: PortStability.HoldsPorts(cfg, old(Current()), e, s, ps, G) ==>
                setWrites == old(setWrites) && sets == old(sets)
      ensures r.Some? ==> SetPublished(cfg, old(Current()), Current(), e, s) && PortMap(r.value)
      ensures r.Some? ==> r.value == Zip(L4PortNames(s), Allocation(cfg, old(Current()), e, s).value)
      // none of its routes is left on the Gateway itself for a port it gave up, or for a TCP port it declares
      ensures r.Some? ==> RoutesMoved(Current(), e, s, r.value)
    {
      hide Allocation, DesiredListeners, KeyNames, L4PortNames, Zip, RoutePort, RouteName, Injective;
      var drawn := DrawPorts(e, s);
      if drawn.None? { return None; }
      var ports := drawn.value;
      forall ps, G | PortStability.HoldsPorts(cfg, Current(), e, s, ps, G) ensures Declared(sets, e, s, ports) {
        HolderDeclares(cfg, Current(), e, s, ps, G);
      }
      var ok := PruneRoutes(e, ports.Values);
      if !ok { return None; }
      ok := ApplyListenerSet(e, s, ports);
      if !ok { return None; }
      ok := ApplyRoutes(e, s, ports);
      if !ok { return None; }
      return Some(ports);
    }

    method FillPorts(names: seq<string>, ps: seq<int>) returns (ports: map<string, int>)
      requires |names| == |ps|
      ensures ports == Zip(names, ps)
    {
      ports := map[];
      for i := 0 to |names|
        invariant ports == Zip(names[..i], ps[..i])
      {
        assert names[..i + 1][..i] == names[..i] && ps[..i + 1][..i] == ps[..i];
        ports := ports[names[i] := ps[i]];
      }
      assert names[..|names|] == names && ps[..|ps|] == ps;
    }

    /** migrateListenerNames: at most one write, under the names the endpoint list records. */
    method MigrateListenerNames(e: EnvId) returns (ok: bool)
      modifies this`setWrites, this`sets, this`refused
      ensures setWrites <= old(setWrites) + 1
      ensures refused == old(refused) + if ok then 0 else 1
      ensures SameSets(old(sets), sets, e) && (e in sets <==> e in old(sets))
      ensures !ok ==> sets == old(sets)
      ensures ok && e in sets ==>
                sets[e] == old(sets)[e].(listeners :=
                             MigrateListeners(old(sets)[e].listeners, EndpointsOf(old(Current()), e)))
    {
      if e !in sets { return true; }
      var eps := if e in endpoints then endpoints[e] else [];
      var ls, migrated := RenameListeners(sets[e].listeners, eps);
      if !migrated { return true; }
      ok := WriteSet();
      if ok { sets := sets[e := sets[e].(listeners := ls)]; }
    }

    static method RenameListeners(was: seq<Listener>, eps: seq<Endpoint>) returns (ls: seq<Listener>, migrated: bool)
      ensures ls == MigrateListeners(was, eps)
      ensures !migrated ==> ls == was
    {
      hide ListenerEndpoint, ListenerName, EndpointsByPort;
      var byPort := EndpointsByPort(eps);
      ls, migrated := was, false;
      for i := 0 to |ls|
        invariant |ls| == |was|
        invariant forall j :: 0 <= j < i ==> ls[j] == MigrateListener(byPort, was[j])
        invariant forall j :: i <= j < |was| ==> ls[j] == was[j]
        invariant !migrated ==> ls == was
      {
        if ListenerEndpoint(ls[i].name) == "" && ls[i].port in byPort && ls[i].port >= 0 {
          ls := ls[i := ls[i].(name := ListenerName(byPort[ls[i].port], ls[i].protocol, ls[i].port))];
          migrated := true;
        }
      }
    }

    /** reconcileGatewayRoutes: `eps` is the endpoint list the pass will report; `served`: the Gateway API
        is installed. */
    method ReconcileRoutes(e: EnvId, s: Spec, served: bool, verdict: Verdict) returns (ok: bool, eps: seq<Endpoint>)
      requires ValidConfig(cfg) && KeyNames(L4PortNames(s))
      modifies this`setWrites, this`sets, this`legacy, this`refused
      ensures refused >= old(refused)
      ensures SameElsewhere(old(Current()), Current(), e)
      ensures SetKept(old(Current()), Current(), e) || SetPublished(cfg, old(Current()), Current(), e, s)
              || SetMigrated(old(Current()), Current(), e)
      ensures eps in {EndpointsOf(old(Current()), e), []} ||
              (SetPublished(cfg, old(Current()), Current(), e, s)
               && eps == BuildEndpoints(cfg, s, Zip(L4PortNames(s), Allocation(cfg, old(Current()), e, s).value)))
      // a publish that gets through reports its addresses iff the Gateway has accepted it, and none otherwise;
      // one that does not leaves the list as it is
      ensures served && gateway.Some? ==>
                if Allocation(cfg, old(Current()), e, s).None? || refused > old(refused) then
                  ok && eps == EndpointsOf(old(Current()), e)
                else
                  && ok && SetPublished(cfg, old(Current()), Current(), e, s)
                  && (verdict == NotAccepted ==> eps == [])
                  && (verdict == Accepted ==>
                        eps == BuildEndpoints(cfg, s, Zip(L4PortNames(s), Allocation(cfg, old(Current()), e, s).value)))
      // without the API nothing is written, and the list goes
      ensures !served ==> ok && eps == [] && Current() == old(Current()) && setWrites == old(setWrites)
      // while the Gateway is away the list is not withdrawn until the names that replace it are in place
      ensures served && gateway.None? ==> (ok <==> refused == old(refused)) && (ok ==> eps == [])
      ensures served && gateway.None? && eps != EndpointsOf(old(Current()), e) ==>
                eps == [] && (e in sets ==> SetMigrated(old(Current()), Current(), e))
    {
      if !served { return true, []; }
      eps := if e in endpoints then endpoints[e] else [];
      if gateway.None? {
        ok := MigrateListenerNames(e);
        if ok { eps := []; }
        return;
      }
      var published := PublishRoutes(e, s);
      if published.None? { return true, eps; }
      if verdict == NotAccepted { return true, []; }
      return true, BuildEndpoints(cfg, s, published.value);
    }

    /** deleteRoutes: the routes, then the ListenerSet. */
    method DeleteRoutes(e: EnvId) returns (ok: bool)
      modifies this`setWrites, this`sets, this`legacy, this`refused
      ensures SameElsewhere(old(Current()), Current(), e)
      ensures refused == old(refused) + if ok then 0 else 1
      ensures SetKept(old(Current()), Current(), e) || e !in sets
      ensures ok ==> e !in sets && LegacyOf(Current(), e) == {}
    {
      ok := PruneRoutes(e, {});
      if !ok || e !in sets { return; }
      ok := WriteSet();
      if ok { sets := sets - {e}; }
    }

    method SetEndpoints(e: EnvId, eps: seq<Endpoint>)
      modifies this`endpoints, this`refused
      ensures refused == old(refused) ==> endpoints == old(endpoints)[e := eps]
      ensures refused >= old(refused)
      ensures endpoints == old(endpoints) || endpoints == old(endpoints)[e := eps]
    {
      var ok := Write();
      if ok { endpoints := endpoints[e := eps]; }
    }

    /** A pass of a running or stopped environment whose spec clears the gate. */
    method PublishPass(e: EnvId, s: Spec, served: bool, verdict: Verdict, stopped: bool)
      requires ValidConfig(cfg) && ValidPorts(s.ports) && PlatformNamesFree(s)
      modifies this
      ensures PassLeaves(cfg, old(Current()), Current(), e, s, Publish)
      // with every write answered and ports enough, the environment is published at the addresses it reports
      ensures served && gateway.Some? && refused == old(refused) && Allocation(cfg, old(Current()), e, s).Some? ==>
                && SetPublished(cfg, old(Current()), Current(), e, s)
                && EndpointsOf(Current(), e) ==
                   if stopped || verdict == NotAccepted then []
                   else BuildEndpoints(cfg, s, Zip(L4PortNames(s), Allocation(cfg, old(Current()), e, s).value))
    {
      hide Zip, BuildEndpoints, Allocation, L4PortNames, KeyNames, PortMap, ValidPorts, PlatformNamesFree,
           SameElsewhere, SetKept, SetPublished, SetMigrated, PassLeaves;
      L4PortNamesAreKeys(s);
      ghost var was := Current();
      var ok, eps := ReconcileRoutes(e, s, served, verdict);
      ghost var mid := Current();
      if ok && stopped { eps := []; }
      SetEndpoints(e, eps);
      EndsWith(cfg, was, mid, Current(), e, s, eps);
    }

    /** A pass that withdraws the environment: a refused spec, or a deletion. */
    method WithdrawPass(e: EnvId, s: Spec)
      requires ValidConfig(cfg)
      modifies this
      ensures PassLeaves(cfg, old(Current()), Current(), e, s, Withdraw)
      ensures refused == old(refused) ==> e !in sets && LegacyOf(Current(), e) == {} && EndpointsOf(Current(), e) == []
    {
      var ok := DeleteRoutes(e);
      if ok { SetEndpoints(e, []); }
    }
  }

  /** A pass ends by writing its endpoint list, or failing to. */
  lemma EndsWith(c: Config, w: World, mid: World, after: World, e: EnvId, s: Spec, eps: seq<Endpoint>)
    requires ValidConfig(c) && SameElsewhere(w, mid, e) && mid.endpoints == w.endpoints
    requires SetKept(w, mid, e) || SetPublished(c, w, mid, e, s) || SetMigrated(w, mid, e)
    requires after in {mid, mid.(endpoints := mid.endpoints[e := eps])}
    requires eps in {EndpointsOf(w, e), []}
             || (SetPublished(c, w, mid, e, s)
                 && eps == BuildEndpoints(c, s, Zip(L4PortNames(s), Allocation(c, w, e, s).value)))
    ensures PassLeaves(c, w, after, e, s, Publish)
    ensures SetPublished(c, w, mid, e, s) ==> SetPublished(c, w, after, e, s)
  {
    hide Zip, DesiredListeners, BuildEndpoints, Allocation, MigrateListeners, L4PortNames, KeyNames, PortMap;
  }

  /** What an environment still has attached to the Gateway is at a port it declares, and not for TCP. */
  ghost predicate RoutesMoved(w: World, e: EnvId, s: Spec, ports: map<string, int>)
    requires forall n :: n in ports ==> ports[n] > 0
  {
    && (forall n :: n in LegacyOf(w, e) ==> RoutePort(n, "-tcp-") in ports.Values)
    && (forall n :: n in ports && L4Protocol(s.ports, n) == TCP ==>
          RouteName(e.name, TCP, ports[n]) !in LegacyOf(w, e))
  }

  /** No other environment's ListenerSet changed. */
  ghost predicate SameSets(before: map<EnvId, ListenerSet>, after: map<EnvId, ListenerSet>, e: EnvId) {
    forall f :: f != e ==> (f in after <==> f in before) && (f in after ==> after[f] == before[f])
  }

  /** The environment's ListenerSet already declares exactly these ports. */
  ghost predicate Declared(sets: map<EnvId, ListenerSet>, e: EnvId, s: Spec, ports: map<string, int>)
    requires PortMap(ports)
  {
    if ports == map[] then e !in sets else e in sets && sets[e] == ListenerSet(true, DesiredListeners(s.ports, ports))
  }

  /** What a holder would publish is what it declares. */
  lemma HolderDeclares(c: Config, w: World, e: EnvId, s: Spec, ps: seq<int>, G: set<int>)
    requires ValidConfig(c) && w.gateway.Some? && PortStability.HoldsPorts(c, w, e, s, ps, G)
    ensures Allocation(c, w, e, s) == Some(ps) && |ps| == |L4PortNames(s)| && PortMap(Zip(L4PortNames(s), ps))
    ensures Declared(w.sets, e, s, Zip(L4PortNames(s), ps))
  {
    PortStability.PublishRepeats(c, w, e, s, ps, G);
    ZipMembers(L4PortNames(s), ps);
    assert L4PortNames(s)[0] in Zip(L4PortNames(s), ps);
  }

  lemma NothingDrawn()
    ensures Zip([], []) == map[] && PortMap(map[])
  {}

  /** Inserting a name at its place keeps the enumeration sorted. */
  lemma Inserted(ports: map<string, int>, todo: set<string>, names: seq<string>, n: string, k: nat)
    requires Injective(ports) && todo <= ports.Keys && n in todo && Enumerates(ports - todo, names) && k <= |names|
    requires forall i :: 0 <= i < k ==> names[i] in ports && ports[names[i]] < ports[n]
    requires k < |names| ==> names[k] in ports && ports[names[k]] >= ports[n]
    ensures Enumerates(ports - (todo - {n}), names[..k] + [n] + names[k..])
  {
    var after, done := names[..k] + [n] + names[k..], ports - (todo - {n});
    assert forall i :: 0 <= i < |names| ==> names[i] in names;
    assert n !in names;
    forall m ensures m in after <==> m in done { InsertedMembers(names, n, k, m); }
    forall i, j | 0 <= i < j < |after|
      ensures after[i] in done && after[j] in done && done[after[i]] < done[after[j]]
    {
      InsertedOrder(ports, names, n, k, i, j);
      assert after[i] in after && after[j] in after;
    }
  }

  lemma InsertedMembers(names: seq<string>, n: string, k: nat, m: string)
    requires k <= |names|
    ensures m in names[..k] + [n] + names[k..] <==> m in names || m == n
  {
    assert names == names[..k] + names[k..];
  }

  lemma InsertedOrder(ports: map<string, int>, names: seq<string>, n: string, k: nat, i: nat, j: nat)
    requires Injective(ports) && n in ports && n !in names && k <= |names| && i < j <= |names|
    requires forall a :: 0 <= a < |names| ==> names[a] in ports
    requires forall a, b :: 0 <= a < b < |names| ==> ports[names[a]] < ports[names[b]]
    requires forall a :: 0 <= a < k ==> ports[names[a]] < ports[n]
    requires k < |names| ==> ports[names[k]] >= ports[n]
    ensures var after := names[..k] + [n] + names[k..];
            after[i] in ports && after[j] in ports && ports[after[i]] < ports[after[j]]
  {
    var after := names[..k] + [n] + names[k..];
    assert after[i] == if i < k then names[i] else if i == k then n else names[i - 1];
    assert after[j] == if j < k then names[j] else if j == k then n else names[j - 1];
    if i == k { assert names[k] != n; }
  }
}
