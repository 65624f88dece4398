/** The L4 port pool of the shared Gateway as a state machine
    (devenvironment_controller.go:3946-4028, 4197-4607, 4666-4713, 4941-4984).
    There is no allocation table: what is used is read off the other environments' ListenerSets
    and legacy routes, and what an environment holds off its own records. */
module PortPool {
  import opened Wrappers
  import opened Strings
  import opened PortNames
  import opened DevSpec
  import opened PortAllocation

  datatype Config = Config(lo: int, hi: int, httpPort: int)

  /** What SetupWithManager checks before the controller starts. */
  ghost predicate ValidConfig(c: Config) { 1 <= c.lo <= c.hi <= 65535 }

  datatype EnvId = EnvId(namespace: string, name: string)

  datatype Listener = Listener(name: string, protocol: Protocol, port: int)

  /** An environment's ListenerSet; `onGateway`: its parent is the configured Gateway. */
  datatype ListenerSet = ListenerSet(onGateway: bool, listeners: seq<Listener>)

  datatype Endpoint = Endpoint(name: string, listenerPort: int)

  /** `foreign`: ports of ListenerSets that are no environment's.  `legacy`: per environment, the
      names of its TCPRoutes that are attached to the Gateway itself. */
  datatype World = World(
    gateway: Option<set<int>>,
    foreign: set<int>,
    sets: map<EnvId, ListenerSet>,
    legacy: map<EnvId, set<string>>,
    endpoints: map<EnvId, seq<Endpoint>>)

  function EndpointsOf(w: World, e: EnvId): seq<Endpoint> { if e in w.endpoints then w.endpoints[e] else [] }

  function LegacyOf(w: World, e: EnvId): set<string> { if e in w.legacy then w.legacy[e] else {} }

  function ListenersOf(w: World, e: EnvId): seq<Listener> { if e in w.sets then w.sets[e].listeners else [] }

  function PortsOf(ls: seq<Listener>): (ps: set<int>)
    ensures forall p :: p in ps <==> exists i :: 0 <= i < |ls| && ls[i].port == p
  {
    set i | 0 <= i < |ls| :: ls[i].port
  }

  function LegacyPorts(names: set<string>): set<int> {
    set n | n in names && RoutePort(n, "-tcp-") != 0 :: RoutePort(n, "-tcp-")
  }

  /** usedPorts: what every other environment, and anyone else, has on the Gateway. */
  function UsedPorts(w: World, e: EnvId): set<int> {
    w.foreign
    + (set f, p | f in w.sets && f != e && w.sets[f].onGateway && p in PortsOf(w.sets[f].listeners) :: p)
    + (set f, p | f in w.legacy && f != e && p in LegacyPorts(w.legacy[f]) :: p)
  }

  // ------------------------------------------------------------------- held ports

  function FromEndpoints(eps: seq<Endpoint>): map<string, int> {
    if eps == [] then map[]
    else
      var before, ep := FromEndpoints(eps[..|eps| - 1]), eps[|eps| - 1];
      if ep.listenerPort == 0 then before else before[ep.name := ep.listenerPort]
  }

  function WithListeners(held: map<string, int>, ls: seq<Listener>): map<string, int> {
    if ls == [] then held
    else
      var before, l := WithListeners(held, ls[..|ls| - 1]), ls[|ls| - 1];
      var name := ListenerEndpoint(l.name);
      if name == "" || name in before then before else before[name := l.port]
  }

  predicate AllRecorded(names: seq<string>, held: map<string, int>) {
    forall i :: 0 <= i < |names| ==> names[i] in held
  }

  /** heldPorts: the endpoint list first, then, where it is silent, the environment's own listeners. */
  function HeldPorts(names: seq<string>, eps: seq<Endpoint>, ls: seq<Listener>): map<string, int> {
    var held := FromEndpoints(eps);
    if AllRecorded(names, held) then held else WithListeners(held, ls)
  }

  // ----------------------------------------------------------- the listeners to declare

  /** The names of a port map in ascending port order. */
  ghost predicate Enumerates(ports: map<string, int>, names: seq<string>) {
    && (forall n :: n in names <==> n in ports)
    && (forall i, j :: 0 <= i < j < |names| ==>
      names[i] in ports && names[j] in ports && ports[names[i]] < ports[names[j]])
  }

  ghost predicate Injective(ports: map<string, int>) {
    forall m, n :: m in ports && n in ports && m != n ==> ports[m] != ports[n]
  }

  /** The list depends on the map alone, not on the order the map was walked in. */
  lemma {:induction false} EnumerationUnique(ports: map<string, int>, a: seq<string>, b: seq<string>)
    requires Enumerates(ports, a) && Enumerates(ports, b)
    ensures a == b
    decreases |a|
  {
    if a != [] {
      assert a[0] in a && a[0] in b;
      assert b[0] in b && b[0] in a;
      var i :| 0 <= i < |a| && a[i] == b[0];
      var j :| 0 <= j < |b| && b[j] == a[0];
      assert i == 0 && j == 0;
      EnumerationTail(ports, a);
      EnumerationTail(ports, b);
      EnumerationUnique(ports - {a[0]}, a[1..], b[1..]);
    }
  }

  lemma EnumerationTail(ports: map<string, int>, a: seq<string>)
    requires Enumerates(ports, a) && a != []
    ensures Enumerates(ports - {a[0]}, a[1..])
  {
    forall n ensures n in a[1..] <==> n in ports - {a[0]} {
      if n in ports && n != a[0] {
        assert n in a;
        var k :| 0 <= k < |a| && a[k] == n;
        assert a[1..][k - 1] == n;
      }
      if n in a[1..] {
        var k :| 0 <= k < |a| - 1 && a[1..][k] == n;
        assert a[k + 1] == n && n in a;
      }
    }
  }

  lemma {:induction false} EnumerationExists(ports: map<string, int>) returns (names: seq<string>)
    requires Injective(ports)
    ensures Enumerates(ports, names)
    decreases |ports|
  {
    if ports == map[] {
      names := [];
    } else {
      var top := LargestPort(ports, ports.Keys);
      assert (ports - {top}).Keys == ports.Keys - {top};
      var before := EnumerationExists(ports - {top});
      names := before + [top];
      LargestLast(ports, top, before);
    }
  }

  lemma LargestLast(ports: map<string, int>, top: string, before: seq<string>)
    requires Injective(ports) && top in ports && Enumerates(ports - {top}, before)
    requires forall n :: n in ports ==> ports[n] <= ports[top]
    ensures Enumerates(ports, before + [top])
  {
    var rest, names := ports - {top}, before + [top];
    assert forall i :: 0 <= i < |before| ==> before[i] in before && before[i] in rest;
    forall i, j | 0 <= i < j < |names|
      ensures names[i] in ports && names[j] in ports && ports[names[i]] < ports[names[j]]
    {
      assert names[i] == before[i] && before[i] in rest && ports[before[i]] == rest[before[i]];
      if j < |before| { assert names[j] == before[j] && ports[before[j]] == rest[before[j]]; }
    }
    forall n ensures n in names <==> n in ports { assert n in names <==> n in before || n == top; }
  }

  lemma {:induction false} LargestPort(ports: map<string, int>, among: set<string>) returns (top: string)
    requires among != {} && among <= ports.Keys
    ensures top in among && forall n :: n in among ==> ports[n] <= ports[top]
    decreases among
  {
    var n :| n in among;
    var rest := among - {n};
    if rest == {} {
      top := n;
      assert among == {n};
    } else {
      var t := LargestPort(ports, rest);
      top := if ports[t] >= ports[n] then t else n;
    }
  }

  ghost function Listing(ports: map<string, int>): (names: seq<string>)
    requires Injective(ports)
    ensures Enumerates(ports, names)
  {
    assert exists names :: Enumerates(ports, names) by { var names := EnumerationExists(ports); }
    var names :| Enumerates(ports, names);
    names
  }

  function ListenersFor(ps: seq<PortSpec>, ports: map<string, int>, names: seq<string>): (ls: seq<Listener>)
    requires forall i :: 0 <= i < |names| ==> names[i] in ports && ports[names[i]] >= 0
    ensures |ls| == |names|
  {
    seq(|names|, i requires 0 <= i < |names| =>
      Listener(ListenerName(names[i], L4Protocol(ps, names[i]), ports[names[i]]), L4Protocol(ps, names[i]),
               ports[names[i]]))
  }

  ghost predicate PortMap(ports: map<string, int>) {
    Injective(ports) && forall n :: n in ports ==> n != "" && 0 < ports[n] <= 65535
  }

  /** desiredListenerSet's list. */
  ghost function DesiredListeners(ps: seq<PortSpec>, ports: map<string, int>): seq<Listener>
    requires PortMap(ports)
  {
    assert forall n :: n in Listing(ports) ==> n in ports;
    ListenersFor(ps, ports, Listing(ports))
  }

  /** The ports map publishRoutes fills: the i-th name has the i-th port. */
  function Zip(names: seq<string>, ps: seq<int>): map<string, int>
    requires |names| == |ps|
  {
    if names == [] then map[]
    else Zip(names[..|names| - 1], ps[..|ps| - 1])[names[|names| - 1] := ps[|ps| - 1]]
  }

  lemma ZipLast(names: seq<string>, ps: seq<int>)
    requires |names| == |ps| && names != []
    ensures Zip(names, ps) == Zip(names[..|names| - 1], ps[..|ps| - 1])[names[|names| - 1] := ps[|ps| - 1]]
  {}

  lemma {:induction false} ZipMembers(names: seq<string>, ps: seq<int>)
    requires |names| == |ps|
    ensures forall n :: n in Zip(names, ps) <==> n in names
  {
    if names != [] {
      var init := names[..|names| - 1];
      ZipMembers(init, ps[..|ps| - 1]);
      assert names == init + [names[|names| - 1]];
    }
  }

  lemma {:induction false} ZipAt(names: seq<string>, ps: seq<int>, i: nat)
    requires |names| == |ps| && KeyNames(names) && i < |names|
    ensures names[i] in Zip(names, ps) && Zip(names, ps)[names[i]] == ps[i]
  {
    hide Zip;
    ZipLast(names, ps);
    var last := |names| - 1;
    if i < last {
      var init, front := names[..last], ps[..last];
      assert forall j :: 0 <= j < last ==> init[j] == names[j];
      ZipAt(init, front, i);
      assert init[i] == names[i] && front[i] == ps[i] && names[i] != names[last];
    }
  }

  lemma ZipMaps(names: seq<string>, ps: seq<int>)
    requires |names| == |ps| && KeyNames(names)
    ensures forall n :: n in Zip(names, ps) <==> n in names
    ensures forall i :: 0 <= i < |names| ==> names[i] in Zip(names, ps) && Zip(names, ps)[names[i]] == ps[i]
  {
    hide Zip, KeyNames;
    ZipMembers(names, ps);
    forall i | 0 <= i < |names|
      ensures names[i] in Zip(names, ps) && Zip(names, ps)[names[i]] == ps[i]
    {
      ZipAt(names, ps, i);
    }
  }

  lemma ZipIsPortMap(names: seq<string>, ps: seq<int>, lo: int, hi: int, used: set<int>)
    requires |names| == |ps| && KeyNames(names) && Distinct(ps) && Values(ps) <= Free(lo, hi, used) && 1 <= lo
               && hi <= 65535
    ensures PortMap(Zip(names, ps))
  {
    ZipMaps(names, ps);
    var ports := Zip(names, ps);
    forall m, n | m in ports && n in ports && m != n ensures ports[m] != ports[n] {
      var i :| 0 <= i < |names| && names[i] == m;
      var j :| 0 <= j < |names| && names[j] == n;
      assert i < j || j < i;
    }
    forall n | n in ports ensures n != "" && 0 < ports[n] <= 65535 {
      var i :| 0 <= i < |names| && names[i] == n;
      assert ps[i] in Values(ps);
    }
  }

  // --------------------------------------------------------------------- migration

  function EndpointsByPort(eps: seq<Endpoint>): map<int, string> {
    if eps == [] then map[]
    else
      var before, ep := EndpointsByPort(eps[..|eps| - 1]), eps[|eps| - 1];
      if ep.listenerPort == 0 then before else before[ep.listenerPort := ep.name]
  }

  function MigrateListener(byPort: map<int, string>, l: Listener): Listener {
    if ListenerEndpoint(l.name) != "" || l.port !in byPort || l.port < 0 then l
    else l.(name := ListenerName(byPort[l.port], l.protocol, l.port))
  }

  /** migrateListenerNames: names that record no endpoint get the one the endpoint list has for their port. */
  function MigrateListeners(ls: seq<Listener>, eps: seq<Endpoint>): (r: seq<Listener>)
    ensures |r| == |ls|
  {
    seq(|ls|, i requires 0 <= i < |ls| => MigrateListener(EndpointsByPort(eps), ls[i]))
  }

  // ---------------------------------------------------------------------- the passes

  datatype Kind = Publish | Withdraw

  /** The ports a publishing pass of `e` allocates. */
  ghost function Allocation(c: Config, w: World, e: EnvId, s: Spec): Option<seq<int>>
    requires ValidConfig(c)
  {
    if w.gateway.None? then None
    else Allocate(c.lo, c.hi, UsedPorts(w, e) + w.gateway.value,
                  HeldPorts(L4PortNames(s), EndpointsOf(w, e), ListenersOf(w, e)), L4PortNames(s))
  }

  /** buildEndpoints: the listener ports of the published addresses. */
  function BuildEndpoints(c: Config, s: Spec, ports: map<string, int>): seq<Endpoint> {
    (if s.envType != SSH then [Endpoint(TypeName(s.envType), c.httpPort)] else [])
    + (if SshExposed(s) then [Endpoint(SSH_NAME, if SSH_NAME in ports then ports[SSH_NAME] else 0)] else [])
    + EntryEndpoints(c, s.ports, ports)
  }

  function EntryEndpoints(c: Config, ps: seq<PortSpec>, ports: map<string, int>): (eps: seq<Endpoint>)
    ensures |eps| == |ps|
  {
    seq(|ps|, i requires 0 <= i < |ps| =>
      Endpoint(ps[i].name, if !IsL4(ps[i]) then c.httpPort else if ps[i].name in ports then ports[ps[i].name] else 0))
  }

  ghost predicate SameElsewhere(w: World, w': World, e: EnvId) {
    && w'.gateway == w.gateway && w'.foreign == w.foreign
    && (forall f :: f != e ==> (f in w'.sets <==> f in w.sets) && (f in w.sets ==> w'.sets[f] == w.sets[f]))
    && (forall f :: f != e ==> LegacyOf(w', f) == LegacyOf(w, f) && EndpointsOf(w', f) == EndpointsOf(w, f))
    && LegacyOf(w', e) <= LegacyOf(w, e)
  }

  /** The ListenerSet of `e` was left alone. */
  ghost predicate SetKept(w: World, w': World, e: EnvId) {
    (e in w'.sets <==> e in w.sets) && (e in w.sets ==> w'.sets[e] == w.sets[e])
  }

  /** The pass published: it declared exactly the ports it allocated. */
  ghost predicate SetPublished(c: Config, w: World, w': World, e: EnvId, s: Spec)
    requires ValidConfig(c)
  {
    var ps := Allocation(c, w, e, s);
    && ps.Some?
    && (L4PortNames(s) == [] ==> e !in w'.sets)
    && (L4PortNames(s) != [] ==>
          var ports := Zip(L4PortNames(s), ps.value);
          PortMap(ports) && e in w'.sets && w'.sets[e] == ListenerSet(true, DesiredListeners(s.ports, ports)))
  }

  /** The Gateway was away and the listener names were migrated. */
  ghost predicate SetMigrated(w: World, w': World, e: EnvId) {
    && w.gateway.None? && e in w.sets && e in w'.sets
    && w'.sets[e] == w.sets[e].(listeners := MigrateListeners(w.sets[e].listeners, EndpointsOf(w, e)))
  }

  /** What one pass of `e` may leave, wherever an API error ends it. */
  ghost predicate PassLeaves(c: Config, w: World, w': World, e: EnvId, s: Spec, kind: Kind)
    requires ValidConfig(c)
  {
    && SameElsewhere(w, w', e)
    && match kind
       case Withdraw => (SetKept(w, w', e) || e !in w'.sets) && EndpointsOf(w', e) in {EndpointsOf(w, e), []}
       case Publish =>
         && (SetKept(w, w', e) || SetPublished(c, w, w', e, s) || SetMigrated(w, w', e))
         && (EndpointsOf(w', e) in {EndpointsOf(w, e), []}
             || (SetPublished(c, w, w', e, s)
                 && EndpointsOf(w', e) == BuildEndpoints(c, s, Zip(L4PortNames(s), Allocation(c, w, e, s).value))))
  }

  // -------------------------------------------------------------------------- safety

  ghost predicate NoRepeatedPort(ls: seq<Listener>) {
    forall i, j :: 0 <= i < j < |ls| ==> ls[i].port != ls[j].port
  }

  /** No ListenerSet on the Gateway repeats a port, and no two of them share one. */
  ghost predicate Safe(w: World) {
    && (forall e :: e in w.sets && w.sets[e].onGateway ==> NoRepeatedPort(w.sets[e].listeners))
    && (forall e, f :: e in w.sets && f in w.sets && e != f && w.sets[e].onGateway && w.sets[f].onGateway
          ==> PortsOf(w.sets[e].listeners) !! PortsOf(w.sets[f].listeners))
  }

  lemma DesiredPorts(ps: seq<PortSpec>, ports: map<string, int>)
    requires PortMap(ports)
    ensures NoRepeatedPort(DesiredListeners(ps, ports))
    ensures PortsOf(DesiredListeners(ps, ports)) == ports.Values
  {
    var names, ls := Listing(ports), DesiredListeners(ps, ports);
    forall p ensures p in PortsOf(ls) <==> p in ports.Values {
      if p in ports.Values {
        var n :| n in ports && ports[n] == p;
        assert n in names;
        var i :| 0 <= i < |names| && names[i] == n;
        assert ls[i].port == p;
      }
      if p in PortsOf(ls) {
        var i :| 0 <= i < |ls| && ls[i].port == p;
        assert names[i] in ports && ports[names[i]] == p;
      }
    }
  }

  lemma ZipValues(names: seq<string>, ps: seq<int>)
    requires |names| == |ps| && KeyNames(names)
    ensures Zip(names, ps).Values == Values(ps)
  {
    ZipMaps(names, ps);
    var ports := Zip(names, ps);
    forall p ensures p in ports.Values <==> p in Values(ps) {
      if p in Values(ps) { var i :| 0 <= i < |ps| && ps[i] == p; assert names[i] in ports && ports[names[i]] == p; }
      if p in ports.Values {
        var n :| n in ports && ports[n] == p;
        var i :| 0 <= i < |names| && names[i] == n;
        assert ps[i] == p;
      }
    }
  }

  /** What a publish declares is in range, off the Gateway's own ports, and off everyone else's. */
  lemma PublishedPorts(c: Config, w: World, w': World, e: EnvId, s: Spec)
    requires ValidConfig(c) && KeyNames(L4PortNames(s)) && SetPublished(c, w, w', e, s) && e in w'.sets
    ensures NoRepeatedPort(w'.sets[e].listeners)
    ensures PortsOf(w'.sets[e].listeners) <= Free(c.lo, c.hi, UsedPorts(w, e) + w.gateway.value)
    ensures PortsOf(w'.sets[e].listeners) == Values(Allocation(c, w, e, s).value)
  {
    var names := L4PortNames(s);
    var ps := Allocation(c, w, e, s).value;
    AllocateSound(c.lo, c.hi, UsedPorts(w, e) + w.gateway.value,
                  HeldPorts(names, EndpointsOf(w, e), ListenersOf(w, e)), names);
    ZipValues(names, ps);
    DesiredPorts(s.ports, Zip(names, ps));
  }

  /** An attached route of `f` for the port `p`. */
  ghost predicate RouteAttached(w: World, f: EnvId, p: int) {
    0 < p < 0x8000_0000 && f in w.legacy && f.name + "-tcp-" + Itoa(p) in w.legacy[f]
  }

  /** Somebody else has the port on the Gateway: the Gateway itself, an object that is no environment's, or
      another environment, through its ListenerSet or a route attached to the Gateway. */
  ghost predicate Claimed(w: World, e: EnvId, p: int) {
    || (w.gateway.Some? && p in w.gateway.value)
    || p in w.foreign
    || (exists f, i :: f in w.sets && f != e && w.sets[f].onGateway && 0 <= i < |w.sets[f].listeners|
          && w.sets[f].listeners[i].port == p)
    || (exists f :: f != e && RouteAttached(w, f, p))
  }

  lemma ClaimedIsUsed(w: World, e: EnvId, p: int)
    requires Claimed(w, e, p)
    ensures p in UsedPorts(w, e) || (w.gateway.Some? && p in w.gateway.value)
  {
    if f :| f != e && RouteAttached(w, f, p) {
      RouteNameRoundTrip(f.name, TCP, p);
      assert f.name + "-tcp-" + Itoa(p) == RouteName(f.name, TCP, p);
      assert p in LegacyPorts(w.legacy[f]);
    } else if f, i :| f in w.sets && f != e && w.sets[f].onGateway && 0 <= i < |w.sets[f].listeners|
                      && w.sets[f].listeners[i].port == p {
      assert p in PortsOf(w.sets[f].listeners);
    }
  }

  /** The controller wrote every attached route: it is named for its environment and a port. */
  ghost predicate RoutesNamed(w: World) {
    forall f, n :: f in w.legacy && n in w.legacy[f] ==>
      exists p :: 0 < p < 0x8000_0000 && n == f.name + "-tcp-" + Itoa(p)
  }

  /** And nothing else is used. */
  lemma UsedIsClaimed(w: World, e: EnvId, p: int)
    requires RoutesNamed(w)
    ensures p in UsedPorts(w, e) || (w.gateway.Some? && p in w.gateway.value) <==> Claimed(w, e, p)
  {
    if Claimed(w, e, p) { ClaimedIsUsed(w, e, p); }
    if p in UsedPorts(w, e) && p !in w.foreign {
      if f :| f in w.legacy && f != e && p in LegacyPorts(w.legacy[f]) {
        var n :| n in w.legacy[f] && RoutePort(n, "-tcp-") == p;
        var q :| 0 < q < 0x8000_0000 && n == f.name + "-tcp-" + Itoa(q);
        assert n == RouteName(f.name, TCP, q);
        RouteNameRoundTrip(f.name, TCP, q);
        assert RouteAttached(w, f, p);
      }
    }
  }

  ghost predicate CoversClaims(w: World, e: EnvId, used: set<int>) {
    && (forall p :: Claimed(w.(gateway := None), e, p) ==> p in used)
    && (RoutesNamed(w) ==> forall p :: p in used ==> Claimed(w.(gateway := None), e, p))
  }

  lemma UsedIsCovering(w: World, e: EnvId)
    ensures CoversClaims(w, e, UsedPorts(w, e))
  {
    var v := w.(gateway := None);
    assert UsedPorts(v, e) == UsedPorts(w, e);
    hide Claimed;
    forall p | Claimed(v, e, p) ensures p in UsedPorts(v, e) { ClaimedIsUsed(v, e, p); }
    if RoutesNamed(w) {
      forall p | p in UsedPorts(v, e) ensures Claimed(v, e, p) { UsedIsClaimed(v, e, p); }
    }
  }

  /** A publish finds ports for all its endpoints exactly when there are enough ports in the range that nobody
      else claims. */
  lemma AllocatesIff(c: Config, w: World, e: EnvId, s: Spec, unclaimed: set<int>)
    requires ValidConfig(c) && w.gateway.Some? && RoutesNamed(w)
    requires forall p :: p in unclaimed <==> c.lo <= p <= c.hi && !Claimed(w, e, p)
    ensures Allocation(c, w, e, s).Some? <==> |L4PortNames(s)| <= |unclaimed|
  {
    hide UsedPorts, Claimed, L4PortNames;
    var used := UsedPorts(w, e) + w.gateway.value;
    forall p ensures p in Free(c.lo, c.hi, used) <==> p in unclaimed { UsedIsClaimed(w, e, p); }
    assert Free(c.lo, c.hi, used) == unclaimed;
    AllocateFailsIff(c.lo, c.hi, used, HeldPorts(L4PortNames(s), EndpointsOf(w, e), ListenersOf(w, e)), L4PortNames(s));
  }

  /** Nobody declares a new port that somebody else has: each port a ListenerSet gains is in range, and no
      claim of the state it was drawn in. */
  ghost predicate NewPortsUnclaimed(c: Config, w: World, w': World) {
    forall e, i :: e in w'.sets && 0 <= i < |w'.sets[e].listeners| ==>
      var p := w'.sets[e].listeners[i].port;
      || (exists j :: 0 <= j < |ListenersOf(w, e)| && ListenersOf(w, e)[j].port == p)
      || (c.lo <= p <= c.hi && !Claimed(w, e, p))
  }

  /** A publish declares nothing that somebody else has. */
  lemma PublishIsUnclaimed(c: Config, w: World, w': World, e: EnvId, s: Spec)
    requires ValidConfig(c) && KeyNames(L4PortNames(s)) && SetPublished(c, w, w', e, s) && e in w'.sets
    ensures w.gateway.Some?
    ensures forall i :: 0 <= i < |w'.sets[e].listeners| ==>
              c.lo <= w'.sets[e].listeners[i].port <= c.hi && !Claimed(w, e, w'.sets[e].listeners[i].port)
  {
    PublishedPorts(c, w, w', e, s);
    hide UsedPorts, Claimed;
    forall i | 0 <= i < |w'.sets[e].listeners|
      ensures c.lo <= w'.sets[e].listeners[i].port <= c.hi && !Claimed(w, e, w'.sets[e].listeners[i].port)
    {
      var p := w'.sets[e].listeners[i].port;
      assert p in PortsOf(w'.sets[e].listeners);
      if Claimed(w, e, p) { ClaimedIsUsed(w, e, p); }
    }
  }

  lemma OthersAreUsed(w: World, e: EnvId, f: EnvId)
    requires f in w.sets && f != e && w.sets[f].onGateway
    ensures PortsOf(w.sets[f].listeners) <= UsedPorts(w, e)
  {}

  lemma MigrationKeepsPorts(ls: seq<Listener>, eps: seq<Endpoint>)
    ensures PortsOf(MigrateListeners(ls, eps)) == PortsOf(ls)
    ensures NoRepeatedPort(ls) ==> NoRepeatedPort(MigrateListeners(ls, eps))
  {
    var ms := MigrateListeners(ls, eps);
    assert forall i :: 0 <= i < |ls| ==> ms[i].port == ls[i].port;
    forall p ensures p in PortsOf(ms) <==> p in PortsOf(ls) {
      if p in PortsOf(ls) { var i :| 0 <= i < |ls| && ls[i].port == p; assert ms[i].port == p; }
      if p in PortsOf(ms) { var i :| 0 <= i < |ms| && ms[i].port == p; assert ls[i].port == p; }
    }
  }

  lemma NewPorts(c: Config, w: World, w': World, e: EnvId, s: Spec, kind: Kind)
    requires ValidConfig(c) && KeyNames(L4PortNames(s)) && PassLeaves(c, w, w', e, s, kind)
    ensures NewPortsUnclaimed(c, w, w')
  {
    hide Claimed, DesiredListeners, MigrateListeners, Allocation, BuildEndpoints, Zip, PortMap, L4PortNames, KeyNames;
    forall f, i | f in w'.sets && 0 <= i < |w'.sets[f].listeners|
      ensures var p := w'.sets[f].listeners[i].port;
              || (exists j :: 0 <= j < |ListenersOf(w, f)| && ListenersOf(w, f)[j].port == p)
              || (c.lo <= p <= c.hi && !Claimed(w, f, p))
    {
      if f != e || SetKept(w, w', e) {
        assert w'.sets[f] == w.sets[f];
        assert ListenersOf(w, f)[i].port == w'.sets[f].listeners[i].port;
      } else if kind == Publish && SetPublished(c, w, w', e, s) {
        PublishIsUnclaimed(c, w, w', e, s);
      } else {
        MigrationKeepsPorts(w.sets[e].listeners, EndpointsOf(w, e));
        assert w'.sets[e].listeners[i].port in PortsOf(w'.sets[e].listeners);
        assert ListenersOf(w, e) == w.sets[e].listeners;
        var j :| 0 <= j < |w.sets[e].listeners| && w.sets[e].listeners[j].port == w'.sets[e].listeners[i].port;
      }
    }
  }

  /** What keeps the pool safe is what the one ListenerSet a pass writes says. */
  lemma OneSetStaysSafe(w: World, w': World, e: EnvId)
    requires Safe(w) && SameElsewhere(w, w', e)
    requires e in w'.sets && w'.sets[e].onGateway ==>
               && NoRepeatedPort(w'.sets[e].listeners)
               && forall f :: f in w.sets && f != e && w.sets[f].onGateway ==>
                    PortsOf(w.sets[f].listeners) !! PortsOf(w'.sets[e].listeners)
    ensures Safe(w')
  {
    hide PortsOf, NoRepeatedPort;
  }

  /** Port-pool safety, one pass: wherever it stops. */
  lemma PassKeepsSafe(c: Config, w: World, w': World, e: EnvId, s: Spec, kind: Kind)
    requires ValidConfig(c) && KeyNames(L4PortNames(s)) && PassLeaves(c, w, w', e, s, kind) && Safe(w)
    ensures Safe(w') && NewPortsUnclaimed(c, w, w')
  {
    hide NewPortsUnclaimed, DesiredListeners, MigrateListeners, Allocation, BuildEndpoints, Zip, PortMap, L4PortNames,
         KeyNames, UsedPorts, PortsOf, NoRepeatedPort;
    NewPorts(c, w, w', e, s, kind);
    if e in w'.sets && !SetKept(w, w', e) {
      if kind == Publish && SetPublished(c, w, w', e, s) {
        PublishedPorts(c, w, w', e, s);
        forall f | f in w.sets && f != e && w.sets[f].onGateway
          ensures PortsOf(w.sets[f].listeners) !! PortsOf(w'.sets[e].listeners)
        {
          OthersAreUsed(w, e, f);
        }
      } else {
        MigrationKeepsPorts(w.sets[e].listeners, EndpointsOf(w, e));
      }
    }
    OneSetStaysSafe(w, w', e);
  }

  /** Anything else that happens: the Gateway, foreign objects, routes and statuses change freely;
      an environment's ListenerSet can only disappear. */
  ghost predicate OutsideStep(w: World, w': World) {
    forall e :: e in w'.sets ==> e in w.sets && w'.sets[e] == w.sets[e]
  }

  ghost predicate Next(c: Config, w: World, w': World)
    requires ValidConfig(c)
  {
    || OutsideStep(w, w')
    || exists e, s, kind :: KeyNames(L4PortNames(s)) && PassLeaves(c, w, w', e, s, kind)
  }

  ghost predicate IsRun(c: Config, ws: seq<World>)
    requires ValidConfig(c)
  {
    |ws| > 0 && forall i :: 0 <= i < |ws| - 1 ==> Next(c, ws[i], ws[i + 1])
  }

  lemma OutsideKeepsSafe(w: World, w': World)
    requires OutsideStep(w, w') && Safe(w)
    ensures Safe(w')
  {}

  lemma OutsideAddsNothing(c: Config, w: World, w': World)
    requires OutsideStep(w, w')
    ensures NewPortsUnclaimed(c, w, w')
  {
    forall e, i | e in w'.sets && 0 <= i < |w'.sets[e].listeners|
      ensures exists j :: 0 <= j < |ListenersOf(w, e)| && ListenersOf(w, e)[j].port == w'.sets[e].listeners[i].port
    {
      assert ListenersOf(w, e)[i] == w'.sets[e].listeners[i];
    }
  }

  /** Port-pool safety, over runs: in every reachable state no port is declared twice, and every port that
      anybody ever came to declare was, in the state it was drawn in, claimed by nobody else: not by the
      Gateway, not by a foreign object, not by another environment's listener or attached route. */
  lemma {:induction false} PoolStaysSafe(c: Config, ws: seq<World>, k: nat)
    requires ValidConfig(c) && IsRun(c, ws) && Safe(ws[0]) && k < |ws|
    ensures Safe(ws[k])
    ensures forall i :: 0 <= i < k ==> NewPortsUnclaimed(c, ws[i], ws[i + 1])
  {
    hide NewPortsUnclaimed, PassLeaves, Safe, OutsideStep, KeyNames, L4PortNames;
    if k > 0 {
      PoolStaysSafe(c, ws, k - 1);
      var w, w' := ws[k - 1], ws[k];
      assert Next(c, ws[k - 1], ws[k - 1 + 1]);
      if OutsideStep(w, w') {
        OutsideAddsNothing(c, w, w');
        OutsideKeepsSafe(w, w');
      } else {
        var e, s, kind :| KeyNames(L4PortNames(s)) && PassLeaves(c, w, w', e, s, kind);
        PassKeepsSafe(c, w, w', e, s, kind);
      }
    }
  }
}
