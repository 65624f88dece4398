/** The ports of an environment's Service, and the check that refuses the specs it cannot serve
    (operator/internal/controller/devenvironment_controller.go:2535-2706, 2753-2788, 4842-4852). */
module ServicePorts {
  import opened PortNames
  import opened DevSpec
  import PortPool

  const MAIN_NAME := "main"
  const SSH_SERVICE_PORT := 22
  const SSH_CONTAINER_PORT := 2222

  datatype ServicePort = ServicePort(name: string, port: int, target: int, protocol: Protocol)

  /** A Service may carry a number and protocol together only once. */
  datatype Key = Key(port: int, protocol: Protocol)

  function KeyOf(sp: ServicePort): Key { Key(sp.port, sp.protocol) }

  function EntryKey(p: PortSpec): Key { Key(p.containerPort, PortProtocol(p)) }

  function EntryPort(p: PortSpec): ServicePort {
    ServicePort(p.name, p.containerPort, p.containerPort, PortProtocol(p))
  }

  function MainContainerPort(t: EnvType): int {
    match t case Jupyter => 8888 case VSCode => 8080 case SSH => SSH_CONTAINER_PORT
  }

  /** platformServicePorts. */
  function PlatformPorts(s: Spec): seq<ServicePort> {
    var main := MainContainerPort(s.envType);
    [ServicePort(MAIN_NAME, if s.envType == SSH then SSH_SERVICE_PORT else main, main, TCP)]
    + if SshExposed(s) && s.envType != SSH then
        [ServicePort(SSH_NAME, SSH_SERVICE_PORT, SSH_CONTAINER_PORT, TCP)]
      else []
  }

  predicate HasKey(sps: seq<ServicePort>, k: Key) {
    exists i :: 0 <= i < |sps| && KeyOf(sps[i]) == k
  }

  function Add(sps: seq<ServicePort>, sp: ServicePort): seq<ServicePort> {
    if HasKey(sps, KeyOf(sp)) then sps else sps + [sp]
  }

  /** The Service's ports once the first `n` entries of spec.ports are added. */
  function Render(s: Spec, n: nat): seq<ServicePort>
    requires n <= |s.ports|
  {
    if n == 0 then PlatformPorts(s) else Add(Render(s, n - 1), EntryPort(s.ports[n - 1]))
  }

  function ServiceOf(s: Spec): seq<ServicePort> { Render(s, |s.ports|) }

  /** desiredService: an entry whose number and protocol are taken is folded away. */
  method DesiredService(s: Spec) returns (ports: seq<ServicePort>)
    ensures ports == ServiceOf(s)
    ensures UniqueKeys(ports)
  {
    ports := PlatformPorts(s);
    var seen := set i | 0 <= i < |ports| :: KeyOf(ports[i]);
    for n := 0 to |s.ports|
      invariant ports == Render(s, n)
      invariant forall k :: k in seen <==> HasKey(ports, k)
    {
      var sp := EntryPort(s.ports[n]);
      if KeyOf(sp) !in seen {
        HasKeySnoc(ports, sp);
        seen := seen + {KeyOf(sp)};
        ports := ports + [sp];
      }
    }
    KeysUnique(s, |s.ports|);
  }

  ghost predicate UniqueKeys(sps: seq<ServicePort>) {
    forall i, j :: 0 <= i < j < |sps| ==> KeyOf(sps[i]) != KeyOf(sps[j])
  }

  ghost predicate UniqueNames(sps: seq<ServicePort>) {
    forall i, j :: 0 <= i < j < |sps| ==> sps[i].name != sps[j].name
  }

  lemma {:induction false} KeysUnique(s: Spec, n: nat)
    requires n <= |s.ports|
    ensures UniqueKeys(Render(s, n))
  {
    if n > 0 {
      KeysUnique(s, n - 1);
      var before, sp := Render(s, n - 1), EntryPort(s.ports[n - 1]);
      assert !HasKey(before, KeyOf(sp)) ==> forall i :: 0 <= i < |before| ==> KeyOf(before[i]) != KeyOf(sp);
    }
  }

  lemma SameKeySamePort(s: Spec, n: nat, a: ServicePort, b: ServicePort)
    requires n <= |s.ports| && a in Render(s, n) && b in Render(s, n) && KeyOf(a) == KeyOf(b)
    ensures a == b
  {
    KeysUnique(s, n);
    var sps := Render(s, n);
    var i :| 0 <= i < |sps| && sps[i] == a;
    var j :| 0 <= j < |sps| && sps[j] == b;
    assert !(i < j) && !(j < i);
  }

  lemma HasKeySnoc(sps: seq<ServicePort>, sp: ServicePort)
    ensures forall k :: HasKey(sps + [sp], k) <==> HasKey(sps, k) || k == KeyOf(sp)
  {
    forall k ensures HasKey(sps + [sp], k) <==> HasKey(sps, k) || k == KeyOf(sp) {
      if HasKey(sps, k) {
        var i :| 0 <= i < |sps| && KeyOf(sps[i]) == k;
        assert KeyOf((sps + [sp])[i]) == k;
      }
      assert (sps + [sp])[|sps|] == sp;
    }
  }

  // ------------------------------------------------------------------ the refusal

  /** `mustUpdate`: the spec is refused until the user edits it. */
  datatype Finding = Finding(entry: nat, mustUpdate: bool)

  /** The names status.endpoints carries for the platform's own addresses. */
  function PlatformEndpoints(s: Spec): set<string> {
    (if s.envType != SSH then {TypeName(s.envType)} else {}) + if SshExposed(s) then {SSH_NAME} else {}
  }

  /** Entry `i` can be added to what precedes it: its name is not on another port, it is no platform
      address, and its port is new under a new name or already forwards where it declares. */
  ghost predicate EntryOk(s: Spec, i: nat)
    requires i < |s.ports|
  {
    var before, p := Render(s, i), s.ports[i];
    && (forall sp :: sp in before && sp.name == p.name ==> KeyOf(sp) == EntryKey(p))
    && p.name !in PlatformEndpoints(s)
    && (HasKey(before, EntryKey(p)) ==> forall sp :: sp in before && KeyOf(sp) == EntryKey(p) ==>
      sp.target == p.containerPort)
    && (!HasKey(before, EntryKey(p)) ==> forall j :: 0 <= j < i ==> s.ports[j].name != p.name)
  }

  ghost predicate Accepted(s: Spec) { forall i :: 0 <= i < |s.ports| ==> EntryOk(s, i) }

  /** `taken` and `names` index the ports by key and by name. */
  ghost predicate Indexes(sps: seq<ServicePort>, taken: map<Key, ServicePort>, names: map<string, Key>) {
    && (forall k :: k in taken <==> HasKey(sps, k))
    && (forall k :: k in taken ==> taken[k] in sps && KeyOf(taken[k]) == k)
    && (forall sp :: sp in sps ==> sp.name in names && names[sp.name] == KeyOf(sp))
    && (forall m :: m in names ==> names[m] in taken && taken[names[m]].name == m)
  }

  lemma IndexesSnoc(sps: seq<ServicePort>, taken: map<Key, ServicePort>, names: map<string, Key>, sp: ServicePort)
    requires Indexes(sps, taken, names) && KeyOf(sp) !in taken && sp.name !in names
    ensures Indexes(sps + [sp], taken[KeyOf(sp) := sp], names[sp.name := KeyOf(sp)])
  {
    hide HasKey;
    HasKeySnoc(sps, sp);
    assert forall q :: q in sps + [sp] <==> q in sps || q == sp;
  }

  /** What the three maps of portCollisionFindings record while nothing is refused; `folded` holds
      the names whose entry was folded away. */
  ghost predicate Books(s: Spec, n: nat, taken: map<Key, ServicePort>, names: map<string, Key>, folded: set<string>)
    requires n <= |s.ports|
  {
    && Indexes(Render(s, n), taken, names)
    && (forall m :: m in folded ==> exists j :: 0 <= j < n && s.ports[j].name == m)
    && (forall j :: 0 <= j < n ==> s.ports[j].name in folded || s.ports[j].name in names)
  }

  /** The books decide an entry as the Service does. */
  lemma BooksDecide(s: Spec, n: nat, taken: map<Key, ServicePort>, names: map<string, Key>, folded: set<string>)
    requires n < |s.ports| && Books(s, n, taken, names, folded)
    ensures var p := s.ports[n]; var k := EntryKey(p);
            EntryOk(s, n) <==>
            && !(p.name in names && (k !in taken || names[p.name] != k))
            && p.name !in PlatformEndpoints(s)
            && (if k in taken then taken[k].target == p.containerPort else p.name !in folded)
  {
    hide Render, PlatformEndpoints;
    var sps, p := Render(s, n), s.ports[n];
    var k := EntryKey(p);
    forall sp | sp in sps && KeyOf(sp) == k ensures k in taken && sp == taken[k] {
      var i :| 0 <= i < |sps| && sps[i] == sp;
      assert HasKey(sps, k);
      SameKeySamePort(s, n, sp, taken[k]);
    }
    forall sp | sp in sps && sp.name == p.name ensures p.name in names && names[p.name] == KeyOf(sp) {}
    if p.name in names {
      assert taken[names[p.name]] in sps;
    }
  }

  /** A published entry is booked as the Service's new last port. */
  lemma BooksPublish(s: Spec, n: nat, taken: map<Key, ServicePort>, names: map<string, Key>, folded: set<string>)
    requires n < |s.ports| && Books(s, n, taken, names, folded)
    requires EntryKey(s.ports[n]) !in taken && s.ports[n].name !in names
    ensures var p := s.ports[n];
            Books(s, n + 1, taken[EntryKey(p) := EntryPort(p)], names[p.name := EntryKey(p)], folded)
  {
    hide Indexes;
    BooksKeys(s, n, taken, names, folded);
    assert Render(s, n + 1) == Render(s, n) + [EntryPort(s.ports[n])];
    IndexesSnoc(Render(s, n), taken, names, EntryPort(s.ports[n]));
  }

  lemma BooksFold(s: Spec, n: nat, taken: map<Key, ServicePort>, names: map<string, Key>, folded: set<string>)
    requires n < |s.ports| && Books(s, n, taken, names, folded) && EntryKey(s.ports[n]) in taken
    ensures var p := s.ports[n];
            Books(s, n + 1, taken, names, folded + {p.name})
  {
    BooksKeys(s, n, taken, names, folded);
    hide Indexes;
    assert Render(s, n + 1) == Render(s, n);
  }

  ghost predicate Reported(findings: seq<Finding>, i: int) {
    exists k :: 0 <= k < |findings| && findings[k].entry == i
  }

  ghost predicate Refuses(findings: seq<Finding>) {
    exists k :: 0 <= k < |findings| && findings[k].mustUpdate
  }

  /** portCollisionFindings refuses exactly the specs that are not accepted; of an accepted one it
      reports exactly the entries the Service folds away. */
  method PortCollisionFindings(s: Spec) returns (findings: seq<Finding>)
    ensures Refuses(findings) <==> !Accepted(s)
    ensures Accepted(s) ==> forall i :: 0 <= i < |s.ports| ==>
              (Reported(findings, i) <==> HasKey(Render(s, i), EntryKey(s.ports[i])))
  {
    hide Render, EntryOk, Books, PlatformEndpoints;
    findings := [];
    var taken, names, folded := BookPlatform(s);
    for i := 0 to |s.ports|
      invariant Refuses(findings) <==> exists j :: 0 <= j < i && !EntryOk(s, j)
      invariant !Refuses(findings) ==> Books(s, i, taken, names, folded)
      invariant forall k :: 0 <= k < |findings| ==> findings[k].entry < i
      invariant !Refuses(findings) ==> forall j :: 0 <= j < i ==>
                  (Reported(findings, j) <==> HasKey(Render(s, j), EntryKey(s.ports[j])))
    {
      var p := s.ports[i];
      var key := EntryKey(p);
      ghost var was := findings;
      ghost var refused := Refuses(was);
      if !refused {
        BooksDecide(s, i, taken, names, folded);
        BooksKeys(s, i, taken, names, folded);
      }
      if p.name in names && (key !in taken || names[p.name] != key) {
        findings := findings + [Finding(i, true)];
      } else if p.name in PlatformEndpoints(s) {
        findings := findings + [Finding(i, true)];
      } else if key !in taken {
        if p.name in folded {
          findings := findings + [Finding(i, true)];
        } else {
          if !refused { BooksPublish(s, i, taken, names, folded); }
          taken, names := taken[key := EntryPort(p)], names[p.name := key];
        }
      } else if taken[key].target == p.containerPort {
        if !refused { BooksFold(s, i, taken, names, folded); }
        folded := folded + {p.name};
        findings := findings + [Finding(i, false)];
      } else {
        findings := findings + [Finding(i, true)];
      }
      if findings != was { FindingSnoc(was, findings[|was|]); }
    }
  }

  lemma FindingSnoc(fs: seq<Finding>, f: Finding)
    ensures Refuses(fs + [f]) <==> Refuses(fs) || f.mustUpdate
    ensures forall i :: Reported(fs + [f], i) <==> Reported(fs, i) || i == f.entry
  {
    if Refuses(fs) {
      var k :| 0 <= k < |fs| && fs[k].mustUpdate;
      assert (fs + [f])[k].mustUpdate;
    }
    if f.mustUpdate { assert (fs + [f])[|fs|].mustUpdate; }
    forall i ensures Reported(fs + [f], i) <==> Reported(fs, i) || i == f.entry {
      if Reported(fs, i) {
        var k :| 0 <= k < |fs| && fs[k].entry == i;
        assert (fs + [f])[k].entry == i;
      }
      assert (fs + [f])[|fs|].entry == f.entry;
    }
  }

  lemma BooksKeys(s: Spec, n: nat, taken: map<Key, ServicePort>, names: map<string, Key>, folded: set<string>)
    requires n < |s.ports| && Books(s, n, taken, names, folded)
    ensures EntryKey(s.ports[n]) in taken <==> HasKey(Render(s, n), EntryKey(s.ports[n]))
  {}

  method BookPlatform(s: Spec) returns (taken: map<Key, ServicePort>, names: map<string, Key>, folded: set<string>)
    ensures Books(s, 0, taken, names, folded)
  {
    hide Indexes;
    taken, names, folded := map[], map[], {};
    var ports := PlatformPorts(s);
    NothingIndexed();
    for i := 0 to |ports|
      invariant Indexes(ports[..i], taken, names)
      invariant taken.Keys == (set j | 0 <= j < i :: KeyOf(ports[j]))
      invariant names.Keys == (set j | 0 <= j < i :: ports[j].name)
    {
      IndexesSnoc(ports[..i], taken, names, ports[i]);
      assert ports[..i + 1] == ports[..i] + [ports[i]];
      taken, names := taken[KeyOf(ports[i]) := ports[i]], names[ports[i].name := KeyOf(ports[i])];
    }
    assert ports[..|ports|] == ports;
  }

  lemma NothingIndexed()
    ensures Indexes([], map[], map[])
  {}

  // --------------------------------------------------------- what acceptance is worth

  lemma {:induction false} NamesUnique(s: Spec, n: nat)
    requires n <= |s.ports| && Accepted(s)
    ensures UniqueNames(Render(s, n))
  {
    if n > 0 {
      NamesUnique(s, n - 1);
      var before, sp := Render(s, n - 1), EntryPort(s.ports[n - 1]);
      assert EntryOk(s, n - 1);
      if !HasKey(before, KeyOf(sp)) {
        forall i | 0 <= i < |before| ensures before[i].name != sp.name {
          assert before[i] in before && KeyOf(before[i]) != KeyOf(sp);
        }
      }
    }
  }

  /** The Service has a port that forwards this number and protocol to the container port `target`. */
  ghost predicate Forwards(sps: seq<ServicePort>, k: Key, target: int) {
    exists sp :: sp in sps && KeyOf(sp) == k && sp.target == target
  }

  lemma {:induction false} RenderGrows(s: Spec, m: nat, n: nat, sp: ServicePort)
    requires m <= n <= |s.ports| && sp in Render(s, m)
    ensures sp in Render(s, n)
  {
    if m < n { RenderGrows(s, m, n - 1, sp); }
  }

  /** Some port of the Service has the entry's number and transport and forwards to that number. */
  ghost predicate Serves(sps: seq<ServicePort>, p: PortSpec) {
    exists sp :: sp in sps && sp.port == p.containerPort && sp.target == p.containerPort
      && sp.protocol == match p.kind { case HttpPort => TCP case TcpPort => TCP case UdpPort => UDP }
  }

  ghost predicate AllServed(s: Spec) {
    forall i :: 0 <= i < |s.ports| ==> Serves(ServiceOf(s), s.ports[i])
  }

  lemma EntryServed(s: Spec, i: nat)
    requires i < |s.ports| && EntryOk(s, i)
    ensures Serves(ServiceOf(s), s.ports[i])
    ensures Forwards(ServiceOf(s), EntryKey(s.ports[i]), s.ports[i].containerPort)
  {
    var before, sp := Render(s, i), EntryPort(s.ports[i]);
    var after := Render(s, i + 1);
    if HasKey(before, KeyOf(sp)) {
      var j :| 0 <= j < |before| && KeyOf(before[j]) == KeyOf(sp);
      assert before[j] in before && before[j].target == sp.target;
      RenderGrows(s, i, |s.ports|, before[j]);
    } else {
      assert after[|before|] == sp;
      RenderGrows(s, i + 1, |s.ports|, sp);
    }
  }

  /** No entry takes the name of a platform Service port for a port of its own: "main" is the type's port, and
      "ssh", beside another type, is 22. */
  ghost predicate PlatformPortNamesFree(s: Spec) {
    forall i :: 0 <= i < |s.ports| ==>
      var p := s.ports[i];
      && (p.name == "main" ==>
            && !p.kind.UdpPort?
            && p.containerPort == match s.envType { case Jupyter => 8888 case VSCode => 8080 case SSH => 22 })
      && (p.name == "ssh" && !s.envType.SSH? && s.sshEnabled ==> !p.kind.UdpPort? && p.containerPort == 22)
  }

  lemma PlatformPortNames(s: Spec)
    ensures PlatformPortNamesFree(s) <==>
            forall i, sp :: 0 <= i < |s.ports| && sp in PlatformPorts(s) && sp.name == s.ports[i].name ==>
              KeyOf(sp) == EntryKey(s.ports[i])
  {
    var ps := PlatformPorts(s);
    assert ps[0] in ps && ps[0].name == "main" && (|ps| > 1 ==> ps[1] in ps && ps[1].name == "ssh");
  }

  /** An accepted spec renders a Service the API server takes: each number and protocol once, each name
      once.  Every entry is served where it declares, under an address nobody else has. */
  lemma AcceptedIsLegal(s: Spec)
    requires Accepted(s)
    ensures UniqueKeys(ServiceOf(s)) && UniqueNames(ServiceOf(s))
    ensures AllServed(s) && PlatformNamesFree(s) && PlatformPortNamesFree(s)
  {
    KeysUnique(s, |s.ports|);
    NamesUnique(s, |s.ports|);
    PlatformPortNames(s);
    hide PlatformPortNamesFree;
    forall i | 0 <= i < |s.ports| ensures Serves(ServiceOf(s), s.ports[i]) {
      assert EntryOk(s, i);
      EntryServed(s, i);
    }
    forall i | 0 <= i < |s.ports| ensures s.ports[i].name !in PlatformEndpoints(s) { assert EntryOk(s, i); }
    forall i, sp | 0 <= i < |s.ports| && sp in PlatformPorts(s) && sp.name == s.ports[i].name
      ensures KeyOf(sp) == EntryKey(s.ports[i])
    {
      RenderGrows(s, 0, i, sp);
      assert EntryOk(s, i);
    }
  }

  lemma {:induction false} RenderedFrom(s: Spec, n: nat, sp: ServicePort)
    requires n <= |s.ports| && sp in Render(s, n)
    ensures sp in PlatformPorts(s) || exists j :: 0 <= j < n && sp == EntryPort(s.ports[j])
  {
    if n > 0 && sp in Render(s, n - 1) { RenderedFrom(s, n - 1, sp); }
  }

  /** And it refuses nothing else: with the names the CRD keeps distinct, a spec is accepted exactly
      when every entry is served where it declares and no name the platform publishes is borrowed. */
  lemma AcceptedIff(s: Spec)
    requires ValidPorts(s.ports)
    ensures Accepted(s) <==> AllServed(s) && PlatformNamesFree(s) && PlatformPortNamesFree(s)
  {
    if Accepted(s) {
      AcceptedIsLegal(s);
    } else if AllServed(s) && PlatformNamesFree(s) && PlatformPortNamesFree(s) {
      forall i | 0 <= i < |s.ports| ensures EntryOk(s, i) { ServedIsOk(s, i); }
    }
  }

  lemma ServedIsOk(s: Spec, i: nat)
    requires ValidPorts(s.ports) && i < |s.ports| && AllServed(s) && PlatformNamesFree(s) && PlatformPortNamesFree(s)
    ensures EntryOk(s, i)
  {
    PlatformPortNames(s);
    hide Render, PlatformPortNamesFree;
    var p := s.ports[i];
    forall sp | sp in Render(s, i) && sp.name == p.name ensures KeyOf(sp) == EntryKey(p) {
      RenderedFrom(s, i, sp);
    }
    forall sp | sp in Render(s, i) && KeyOf(sp) == EntryKey(p) ensures sp.target == p.containerPort {
      RenderGrows(s, i, |s.ports|, sp);
      assert Serves(ServiceOf(s), p);
      var owner :| owner in ServiceOf(s) && KeyOf(owner) == EntryKey(p) && owner.target == p.containerPort;
      SameKeySamePort(s, |s.ports|, sp, owner);
    }
  }

  ghost predicate UniqueEndpoints(eps: seq<PortPool.Endpoint>) {
    forall i, j :: 0 <= i < j < |eps| ==> eps[i].name != eps[j].name
  }

  ghost predicate DistinctNames(ps: seq<PortSpec>) {
    forall i, j :: 0 <= i < j < |ps| ==> ps[i].name != ps[j].name
  }

  /** The published addresses of an accepted spec have distinct names exactly when its entries do. */
  lemma EndpointNamesIff(c: PortPool.Config, s: Spec, ports: map<string, int>)
    requires Accepted(s)
    ensures UniqueEndpoints(PortPool.BuildEndpoints(c, s, ports)) <==> DistinctNames(s.ports)
  {
    hide PortPool.BuildEndpoints;
    var eps, n := PortPool.BuildEndpoints(c, s, ports), |PlatformNames(s)|;
    EndpointNames(c, s, ports);
    AcceptedNamesFree(s);
    hide Accepted, PlatformNames;
    if UniqueEndpoints(eps) {
      forall i, j | 0 <= i < j < |s.ports| ensures s.ports[i].name != s.ports[j].name {
        assert eps[n + i].name != eps[n + j].name;
      }
    }
    if DistinctNames(s.ports) {
      forall i, j | 0 <= i < j < |eps| ensures eps[i].name != eps[j].name {
        if j >= n { assert eps[j].name == s.ports[j - n].name; }
        if i >= n { assert eps[i].name == s.ports[i - n].name; }
      }
    }
  }

  function PlatformNames(s: Spec): seq<string> {
    (if s.envType != SSH then [TypeName(s.envType)] else []) + if SshExposed(s) then [SSH_NAME] else []
  }

  lemma EndpointNames(c: PortPool.Config, s: Spec, ports: map<string, int>)
    ensures var eps, own := PortPool.BuildEndpoints(c, s, ports), PlatformNames(s);
            && |eps| == |own| + |s.ports|
            && (forall i :: 0 <= i < |own| ==> eps[i].name == own[i])
            && (forall i :: 0 <= i < |s.ports| ==> eps[|own| + i].name == s.ports[i].name)
  {
    var eps, own := PortPool.BuildEndpoints(c, s, ports), PlatformNames(s);
    var es := PortPool.EntryEndpoints(c, s.ports, ports);
    forall i | 0 <= i < |s.ports| ensures eps[|own| + i].name == s.ports[i].name {
      assert eps[|own| + i] == es[i];
    }
  }

  lemma AcceptedNamesFree(s: Spec)
    requires Accepted(s)
    ensures forall i, k :: 0 <= i < |PlatformNames(s)| && 0 <= k < |s.ports| ==> PlatformNames(s)[i] != s.ports[k].name
    ensures forall i, j :: 0 <= i < j < |PlatformNames(s)| ==> PlatformNames(s)[i] != PlatformNames(s)[j]
  {
    forall i, k | 0 <= i < |PlatformNames(s)| && 0 <= k < |s.ports| ensures PlatformNames(s)[i] != s.ports[k].name {
      assert EntryOk(s, k);
    }
  }

  /** Specs stored before the CRD keyed spec.ports by name can slip through: a name folded away
      twice, onto two different ports, is accepted and publishes two addresses. */
  lemma FoldedNameRepeats() returns (s: Spec)
    ensures Accepted(s) && !DistinctNames(s.ports)
    ensures exists i, j :: 0 <= i < j < |s.ports| && s.ports[i].name == s.ports[j].name
              && EntryKey(s.ports[i]) != EntryKey(s.ports[j])
  {
    var x, y, z := PortSpec("x", TcpPort, 8888), PortSpec("y", TcpPort, 9000), PortSpec("x", TcpPort, 9000);
    s := Spec(Jupyter, false, [x, y, z]);
    var main, py := ServicePort("main", 8888, 8888, TCP), ServicePort("y", 9000, 9000, TCP);
    assert [main][0] == main && KeyOf(main) == EntryKey(x) && HasKey([main], EntryKey(x));
    assert Render(s, 0) == [main];
    assert Render(s, 1) == [main] && !HasKey([main], EntryKey(y));
    assert [main, py][1] == py && KeyOf(py) == EntryKey(z) && HasKey([main, py], EntryKey(z));
    assert Render(s, 2) == [main, py];
    assert EntryOk(s, 0) && EntryOk(s, 1) && EntryOk(s, 2);
    assert s.ports[0].name == s.ports[2].name;
  }

  // ------------------------------------------------------------------------ routing

  function DeclaredPort(ps: seq<PortSpec>, name: string): int {
    if ps == [] then 0 else if ps[0].name == name then ps[0].containerPort else DeclaredPort(ps[1..], name)
  }

  /** servicePortFor: the Service port number a named endpoint's route forwards to. */
  function ServicePortFor(s: Spec, name: string): int {
    if name == SSH_NAME then SSH_SERVICE_PORT else DeclaredPort(s.ports, name)
  }

  lemma {:induction false} LookUp(ps: seq<PortSpec>, i: nat)
    requires i < |ps| && DistinctNames(ps)
    ensures DeclaredPort(ps, ps[i].name) == ps[i].containerPort
    ensures L4Protocol(ps, ps[i].name) == PortProtocol(ps[i])
  {
    if i > 0 {
      assert ps[0].name != ps[i].name && ps[i] == ps[1..][i - 1];
      LookUp(ps[1..], i - 1);
    }
  }

  /** The route of a tcp or udp entry reaches the container port it declares, unless the entry is
      named ssh, ssh is not exposed, and the port is not 22: then it is routed to 22 instead. */
  lemma L4EntryRoutedIff(s: Spec, i: nat)
    requires ValidPorts(s.ports) && Accepted(s) && i < |s.ports| && IsL4(s.ports[i])
    ensures var p := s.ports[i];
            Forwards(ServiceOf(s), Key(ServicePortFor(s, p.name), L4Protocol(s.ports, p.name)), p.containerPort)
            <==> !(p.name == "ssh" && p.containerPort != 22)
    ensures L4Protocol(s.ports, s.ports[i].name) == if s.ports[i].kind.UdpPort? then UDP else TCP
  {
    hide Render;
    var p := s.ports[i];
    AcceptedIsLegal(s);
    LookUp(s.ports, i);
    assert Serves(ServiceOf(s), p);
    assert Forwards(ServiceOf(s), EntryKey(p), p.containerPort);
    if p.name == SSH_NAME && p.containerPort != SSH_SERVICE_PORT {
      forall sp | sp in ServiceOf(s) && KeyOf(sp) == Key(SSH_SERVICE_PORT, PortProtocol(p))
        ensures sp.target == SSH_SERVICE_PORT
      {
        RenderedFrom(s, |s.ports|, sp);
      }
    }
  }

  /** An accepted entry named ssh, beside no exposed ssh, whose route goes to port 22. */
  lemma SshNamedEntryMisrouted() returns (s: Spec)
    ensures ValidPorts(s.ports) && Accepted(s) && !SshExposed(s)
    ensures |s.ports| == 1 && s.ports[0] == PortSpec("ssh", TcpPort, 9000) && ServicePortFor(s, "ssh") == 22
    ensures !Forwards(ServiceOf(s), Key(ServicePortFor(s, "ssh"), L4Protocol(s.ports, "ssh")), 9000)
  {
    var p := PortSpec("ssh", TcpPort, 9000);
    s := Spec(VSCode, false, [p]);
    var main := ServicePort(MAIN_NAME, 8080, 8080, TCP);
    assert Render(s, 0) == [main] && KeyOf(main) != EntryKey(p);
    assert "ssh" !in PlatformEndpoints(s);
    assert EntryOk(s, 0);
    L4EntryRoutedIff(s, 0);
  }

  /** The platform's own addresses: the web route reaches the type's port, the ssh route sshd. */
  lemma PlatformRouted(s: Spec)
    ensures s.envType.Jupyter? ==> Forwards(ServiceOf(s), Key(8888, TCP), 8888)
    ensures s.envType.VSCode? ==> Forwards(ServiceOf(s), Key(8080, TCP), 8080)
    ensures s.envType.SSH? || s.sshEnabled ==>
              ServicePortFor(s, "ssh") == 22 && Forwards(ServiceOf(s), Key(22, TCP), 2222)
  {
    var ports := PlatformPorts(s);
    assert ports[0] in Render(s, 0);
    RenderGrows(s, 0, |s.ports|, ports[0]);
    if SshExposed(s) && s.envType != SSH {
      assert ports[1] in Render(s, 0);
      RenderGrows(s, 0, |s.ports|, ports[1]);
    }
  }

  /** And the Service has no other port: each is the type's, sshd's, or an entry's under the entry's name. */
  lemma NothingElseServed(s: Spec, sp: ServicePort)
    requires sp in ServiceOf(s)
    ensures || (s.envType.Jupyter? && sp == ServicePort("main", 8888, 8888, TCP))
            || (s.envType.VSCode? && sp == ServicePort("main", 8080, 8080, TCP))
            || (s.envType.SSH? && sp == ServicePort("main", 22, 2222, TCP))
            || (!s.envType.SSH? && s.sshEnabled && sp == ServicePort("ssh", 22, 2222, TCP))
            || exists i :: 0 <= i < |s.ports| && sp.name == s.ports[i].name && sp.port == s.ports[i].containerPort
                 && sp.target == sp.port && (sp.protocol.UDP? <==> s.ports[i].kind.UdpPort?)
  {
    RenderedFrom(s, |s.ports|, sp);
  }

  /** An http entry's rule names its container port, and reaches it. */
  lemma HttpEntryRouted(s: Spec, i: nat)
    requires Accepted(s) && i < |s.ports| && s.ports[i].kind == HttpPort
    ensures Forwards(ServiceOf(s), Key(s.ports[i].containerPort, TCP), s.ports[i].containerPort)
  {
    AcceptedIsLegal(s);
    assert EntryKey(s.ports[i]) == Key(s.ports[i].containerPort, TCP);
  }
}
