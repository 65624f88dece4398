/** What an environment keeps while the pool runs: its ports, and its record of them
    (devenvironment_controller.go:3946-4028, 4447-4586, 5176-5195). */
module PortStability {
  import opened Wrappers
  import opened Strings
  import opened PortNames
  import opened DevSpec
  import opened PortAllocation
  import opened PortPool

  // --------------------------------------------------------------- reading records

  /** A listener that says which endpoint it is for says the port of that endpoint. */
  ghost predicate ListenersAgree(ls: seq<Listener>, n: string, p: int) {
    forall i :: 0 <= i < |ls| && ListenerEndpoint(ls[i].name) == n ==> ls[i].port == p
  }

  ghost predicate Declares(ls: seq<Listener>, n: string) {
    exists i :: 0 <= i < |ls| && ListenerEndpoint(ls[i].name) == n
  }

  /** The fallback reads back what the listeners of an endpoint agree on. */
  lemma {:induction false} FallbackReads(held: map<string, int>, ls: seq<Listener>, n: string, p: int)
    requires n != "" && ListenersAgree(ls, n, p) && (n in held ==> held[n] == p)
    ensures n in WithListeners(held, ls) <==> n in held || Declares(ls, n)
    ensures n in WithListeners(held, ls) ==> WithListeners(held, ls)[n] == p
  {
    hide ListenerEndpoint;
    if ls != [] {
      var init, last := ls[..|ls| - 1], ls[|ls| - 1];
      assert forall i :: 0 <= i < |init| ==> init[i] == ls[i];
      FallbackReads(held, init, n, p);
      if ListenerEndpoint(last.name) == n { assert ls[|ls| - 1] == last; }
      if Declares(ls, n) && ListenerEndpoint(last.name) != n {
        var i :| 0 <= i < |ls| && ListenerEndpoint(ls[i].name) == n;
        assert i < |init| && ListenerEndpoint(init[i].name) == n;
      }
      if Declares(init, n) {
        var i :| 0 <= i < |init| && ListenerEndpoint(init[i].name) == n;
        assert ListenerEndpoint(ls[i].name) == n;
      }
    }
  }

  lemma {:induction false} FallbackKeeps(held: map<string, int>, ls: seq<Listener>, n: string)
    requires n in held
    ensures n in WithListeners(held, ls) && WithListeners(held, ls)[n] == held[n]
  {
    if ls != [] { FallbackKeeps(held, ls[..|ls| - 1], n); }
  }

  /** The i-th entry of the list is its last record of the endpoint; an entry without a port records nothing. */
  ghost predicate LastRecord(eps: seq<Endpoint>, n: string, i: int) {
    && 0 <= i < |eps| && eps[i].name == n && eps[i].listenerPort != 0
    && forall j :: i < j < |eps| && eps[j].name == n ==> eps[j].listenerPort == 0
  }

  /** The i-th listener is the first that says it is for the endpoint. */
  ghost predicate FirstDeclared(ls: seq<Listener>, n: string, i: int) {
    && 0 <= i < |ls| && ListenerEndpoint(ls[i].name) == n
    && forall j :: 0 <= j < i ==> ListenerEndpoint(ls[j].name) != n
  }

  lemma {:induction false} RecordRead(eps: seq<Endpoint>, n: string)
    ensures n in FromEndpoints(eps) <==> exists i :: LastRecord(eps, n, i)
    ensures forall i :: LastRecord(eps, n, i) ==>
              n in FromEndpoints(eps) && FromEndpoints(eps)[n] == eps[i].listenerPort
  {
    if eps != [] {
      var init, last := eps[..|eps| - 1], eps[|eps| - 1];
      RecordRead(init, n);
      if last.name == n && last.listenerPort != 0 {
        assert LastRecord(eps, n, |eps| - 1);
      } else {
        forall i ensures LastRecord(eps, n, i) <==> LastRecord(init, n, i) {
          assert forall j :: 0 <= j < |init| ==> init[j] == eps[j];
        }
      }
    }
  }

  lemma {:induction false} DeclaredRead(held: map<string, int>, ls: seq<Listener>, n: string)
    requires n != "" && n !in held
    ensures n in WithListeners(held, ls) <==> exists i :: FirstDeclared(ls, n, i)
    ensures forall i :: FirstDeclared(ls, n, i) ==>
              n in WithListeners(held, ls) && WithListeners(held, ls)[n] == ls[i].port
  {
    hide ListenerEndpoint;
    if ls != [] {
      var init, last := ls[..|ls| - 1], ls[|ls| - 1];
      DeclaredRead(held, init, n);
      assert forall j :: 0 <= j < |init| ==> init[j] == ls[j];
      forall i | 0 <= i < |init| ensures FirstDeclared(ls, n, i) <==> FirstDeclared(init, n, i) {}
      if FirstDeclared(ls, n, |ls| - 1) {
        assert forall j :: 0 <= j < |init| ==> ListenerEndpoint(ls[j].name) != n;
      } else if ListenerEndpoint(last.name) == n {
        var j := EarlierDeclares(ls, n);
      }
    }
  }

  lemma EarlierDeclares(ls: seq<Listener>, n: string) returns (i: int)
    requires exists j :: 0 <= j < |ls| && ListenerEndpoint(ls[j].name) == n
    ensures FirstDeclared(ls, n, i)
  {
    hide ListenerEndpoint;
    i :| 0 <= i < |ls| && ListenerEndpoint(ls[i].name) == n;
    while exists j :: 0 <= j < i && ListenerEndpoint(ls[j].name) == n
      invariant 0 <= i < |ls| && ListenerEndpoint(ls[i].name) == n
      decreases i
    {
      var j :| 0 <= j < i && ListenerEndpoint(ls[j].name) == n;
      i := j;
    }
  }

  /** What an endpoint holds: the port the list last recorded for it; failing that, the port of the first
      listener declared for it; and otherwise none. */
  lemma HeldFrom(names: seq<string>, eps: seq<Endpoint>, ls: seq<Listener>, n: string)
    requires n in names && n != ""
    ensures var held := HeldPorts(names, eps, ls);
            && (forall i :: LastRecord(eps, n, i) ==> n in held && held[n] == eps[i].listenerPort)
            && (forall i :: FirstDeclared(ls, n, i) && (forall j :: !LastRecord(eps, n, j)) ==>
                  n in held && held[n] == ls[i].port)
            && (n in held ==> (exists i :: LastRecord(eps, n, i)) || exists i :: FirstDeclared(ls, n, i))
  {
    hide LastRecord, FirstDeclared, FromEndpoints, WithListeners;
    RecordRead(eps, n);
    if n in FromEndpoints(eps) {
      FallbackKeeps(FromEndpoints(eps), ls, n);
    } else {
      DeclaredRead(FromEndpoints(eps), ls, n);
    }
  }

  /** The endpoint list has nothing else to say about these names than `ports` does. */
  ghost predicate EndpointsAgree(eps: seq<Endpoint>, ports: map<string, int>) {
    forall i :: 0 <= i < |eps| && eps[i].name in ports && eps[i].listenerPort != 0 ==>
      eps[i].listenerPort == ports[eps[i].name]
  }

  lemma {:induction false} EndpointsRead(eps: seq<Endpoint>, ports: map<string, int>)
    requires EndpointsAgree(eps, ports)
    ensures forall n :: n in ports && n in FromEndpoints(eps) ==> FromEndpoints(eps)[n] == ports[n]
  {
    if eps != [] {
      var init := eps[..|eps| - 1];
      assert forall i :: 0 <= i < |init| ==> init[i] == eps[i];
      EndpointsRead(init, ports);
    }
  }

  /** The listeners a publish declared read back as the map it declared them for. */
  lemma DeclaredReads(ps: seq<PortSpec>, ports: map<string, int>, n: string)
    requires PortMap(ports) && n in ports
    ensures ListenersAgree(DesiredListeners(ps, ports), n, ports[n]) && Declares(DesiredListeners(ps, ports), n)
  {
    var names, ls := Listing(ports), DesiredListeners(ps, ports);
    forall i | 0 <= i < |ls| ensures ListenerEndpoint(ls[i].name) == names[i] && ls[i].port == ports[names[i]] {
      assert names[i] in names;
      ListenerNameRoundTrip(names[i], L4Protocol(ps, names[i]), ports[names[i]]);
    }
    var i :| 0 <= i < |names| && names[i] == n;
    assert ListenerEndpoint(ls[i].name) == n;
  }

  /** From either record, or a mixture, heldPorts recovers every port. */
  lemma HeldRecovers(names: seq<string>, eps: seq<Endpoint>, ps: seq<PortSpec>, ports: map<string, int>)
    requires PortMap(ports) && EndpointsAgree(eps, ports) && forall i :: 0 <= i < |names| ==> names[i] in ports
    ensures var held := HeldPorts(names, eps, DesiredListeners(ps, ports));
            forall i :: 0 <= i < |names| ==> names[i] in held && held[names[i]] == ports[names[i]]
  {
    var held := FromEndpoints(eps);
    EndpointsRead(eps, ports);
    if !AllRecorded(names, held) {
      forall i | 0 <= i < |names|
        ensures var h := WithListeners(held, DesiredListeners(ps, ports));
                names[i] in h && h[names[i]] == ports[names[i]]
      {
        DeclaredReads(ps, ports, names[i]);
        FallbackReads(held, DesiredListeners(ps, ports), names[i], ports[names[i]]);
      }
    }
  }

  // -------------------------------------------------------------------- stability

  /** Environment `e` holds exactly the ports `ps`, in every record it has of them, and nobody
      else has a claim on one. `G` is the Gateway's own listener ports. */
  ghost predicate HoldsPorts(c: Config, w: World, e: EnvId, s: Spec, ps: seq<int>, G: set<int>)
    requires ValidConfig(c)
  {
    var names := L4PortNames(s);
    && KeyNames(names) && names != [] && |ps| == |names| && Distinct(ps)
    && Values(ps) <= Free(c.lo, c.hi, UsedPorts(w, e) + G)
    && (w.gateway.None? || w.gateway == Some(G))
    && PortMap(Zip(names, ps))
    && e in w.sets && w.sets[e] == ListenerSet(true, DesiredListeners(s.ports, Zip(names, ps)))
    && EndpointsAgree(EndpointsOf(w, e), Zip(names, ps))
  }

  /** A holder's next publish allocates the ports it holds: nothing to write. */
  lemma PublishRepeats(c: Config, w: World, e: EnvId, s: Spec, ps: seq<int>, G: set<int>)
    requires ValidConfig(c) && HoldsPorts(c, w, e, s, ps, G) && w.gateway.Some?
    ensures Allocation(c, w, e, s) == Some(ps)
  {
    var names := L4PortNames(s);
    ZipMaps(names, ps);
    assert forall i :: 0 <= i < |names| ==> names[i] in Zip(names, ps);
    HeldRecovers(names, EndpointsOf(w, e), s.ports, Zip(names, ps));
    var held := HeldPorts(names, EndpointsOf(w, e), ListenersOf(w, e));
    assert Holds(held, names, ps);
    AllocateKeeps(c.lo, c.hi, UsedPorts(w, e) + G, held, names, ps);
  }

  /** The addresses a publish builds record the ports it published. */
  lemma BuiltAgree(c: Config, s: Spec, ports: map<string, int>)
    requires ValidPorts(s.ports) && PlatformNamesFree(s) && forall n :: n in ports <==> n in L4PortNames(s)
    ensures EndpointsAgree(BuildEndpoints(c, s, ports), ports)
  {
    var eps := BuildEndpoints(c, s, ports);
    forall i | 0 <= i < |eps| && eps[i].name in ports && eps[i].listenerPort != 0
      ensures eps[i].listenerPort == ports[eps[i].name]
    {
      var web := if s.envType != SSH then 1 else 0;
      var ssh := if SshExposed(s) then 1 else 0;
      if i >= web + ssh {
        assert eps[i] == EntryEndpoints(c, s.ports, ports)[i - web - ssh];
      } else if i >= web {
        assert eps[i].name == SSH_NAME;
      }
    }
  }

  /** One of the listeners is the endpoint's, with that transport and port. */
  ghost predicate ListensAt(ls: seq<Listener>, n: string, protocol: Protocol, port: int) {
    exists i :: 0 <= i < |ls| && ListenerEndpoint(ls[i].name) == n && ls[i].protocol == protocol && ls[i].port == port
  }

  lemma DeclaredListens(ps: seq<PortSpec>, ports: map<string, int>, n: string)
    requires PortMap(ports) && n in ports
    ensures ListensAt(DesiredListeners(ps, ports), n, L4Protocol(ps, n), ports[n])
  {
    hide ListenerEndpoint, L4Protocol;
    var names, ls := Listing(ports), DesiredListeners(ps, ports);
    var i :| 0 <= i < |names| && names[i] == n;
    ListenerNameRoundTrip(n, L4Protocol(ps, n), ports[n]);
    assert ls[i].port == ports[n];
  }

  lemma {:induction false} ProtocolOf(ps: seq<PortSpec>, i: nat)
    requires ValidPorts(ps) && i < |ps|
    ensures L4Protocol(ps, ps[i].name) == if ps[i].kind == UdpPort then UDP else TCP
  {
    if i > 0 {
      assert ps[1..][i - 1] == ps[i] && ps[0].name != ps[i].name;
      ProtocolOf(ps[1..], i - 1);
    }
  }

  lemma {:induction false} UnlistedIsTcp(ps: seq<PortSpec>, n: string)
    requires forall i :: 0 <= i < |ps| ==> ps[i].name != n
    ensures L4Protocol(ps, n) == TCP
  {
    if ps != [] { UnlistedIsTcp(ps[1..], n); }
  }

  ghost predicate EntryReported(c: Config, ls: seq<Listener>, p: PortSpec, ep: Endpoint) {
    && ep.name == p.name
    && (p.kind.HttpPort? ==> ep.listenerPort == c.httpPort)
    && (p.kind.TcpPort? ==> ListensAt(ls, p.name, TCP, ep.listenerPort))
    && (p.kind.UdpPort? ==> ListensAt(ls, p.name, UDP, ep.listenerPort))
  }

  lemma EntryListens(c: Config, s: Spec, ports: map<string, int>, i: nat)
    requires ValidPorts(s.ports) && i < |s.ports|
    requires PortMap(ports) && forall n :: n in ports <==> n in L4PortNames(s)
    ensures EntryReported(c, DesiredListeners(s.ports, ports), s.ports[i], EntryEndpoints(c, s.ports, ports)[i])
  {
    hide DesiredListeners, ListensAt, PortMap;
    if IsL4(s.ports[i]) {
      assert s.ports[i].name in L4Entries(s.ports);
      DeclaredListens(s.ports, ports, s.ports[i].name);
      ProtocolOf(s.ports, i);
    }
  }

  lemma SshListens(s: Spec, ports: map<string, int>)
    requires SshExposed(s) && PlatformNamesFree(s)
    requires PortMap(ports) && forall n :: n in ports <==> n in L4PortNames(s)
    ensures "ssh" in ports && ListensAt(DesiredListeners(s.ports, ports), "ssh", TCP, ports["ssh"])
  {
    assert L4PortNames(s)[0] == "ssh";
    DeclaredListens(s.ports, ports, "ssh");
    UnlistedIsTcp(s.ports, "ssh");
  }

  lemma AddressSlots(c: Config, s: Spec, ports: map<string, int>)
    requires SshExposed(s) ==> "ssh" in ports
    ensures var eps := BuildEndpoints(c, s, ports);
            var web := if s.envType.SSH? then 0 else 1;
            var ssh := if s.envType.SSH? || s.sshEnabled then 1 else 0;
            && |eps| == web + ssh + |s.ports|
            && (s.envType.Jupyter? ==> eps[0] == Endpoint("jupyter", c.httpPort))
            && (s.envType.VSCode? ==> eps[0] == Endpoint("vscode", c.httpPort))
            && (ssh == 1 ==> eps[web] == Endpoint("ssh", ports["ssh"]))
            && forall i :: 0 <= i < |s.ports| ==> eps[web + ssh + i] == EntryEndpoints(c, s.ports, ports)[i]
  {}

  /** The addresses a publish reports, in their order: the type's web address and every http entry on the HTTP
      listener; ssh and every tcp or udp entry on a port the environment's own ListenerSet declares for it,
      with its transport. */
  lemma AddressesAreDeclared(c: Config, s: Spec, ports: map<string, int>)
    requires ValidPorts(s.ports) && PlatformNamesFree(s)
    requires PortMap(ports) && forall n :: n in ports <==> n in L4PortNames(s)
    ensures var eps, ls := BuildEndpoints(c, s, ports), DesiredListeners(s.ports, ports);
            var web := if s.envType.SSH? then 0 else 1;
            var ssh := if s.envType.SSH? || s.sshEnabled then 1 else 0;
            && |eps| == web + ssh + |s.ports|
            && (s.envType.Jupyter? ==> eps[0] == Endpoint("jupyter", c.httpPort))
            && (s.envType.VSCode? ==> eps[0] == Endpoint("vscode", c.httpPort))
            && (ssh == 1 ==> eps[web].name == "ssh" && ListensAt(ls, "ssh", TCP, eps[web].listenerPort))
            && forall i :: 0 <= i < |s.ports| ==> EntryReported(c, ls, s.ports[i], eps[web + ssh + i])
  {
    if SshExposed(s) { assert L4PortNames(s)[0] == "ssh"; }
    AddressSlots(c, s, ports);
    hide BuildEndpoints, DesiredListeners, EntryReported, PortMap, ValidPorts, ListensAt, PlatformNamesFree,
         L4PortNames;
    if SshExposed(s) { SshListens(s, ports); }
    forall i | 0 <= i < |s.ports|
      ensures EntryReported(c, DesiredListeners(s.ports, ports), s.ports[i], EntryEndpoints(c, s.ports, ports)[i])
    {
      EntryListens(c, s, ports, i);
    }
  }

  /** Steps of others, and of the world, that leave `e` its claims: the Gateway may go and come
      back with the same listeners; foreign objects and routes may change, but not onto its ports. */
  ghost predicate HarmlessOutside(c: Config, w: World, w': World, e: EnvId, ps: seq<int>, G: set<int>) {
    && w'.sets == w.sets && EndpointsOf(w', e) == EndpointsOf(w, e)
    && (w'.gateway.None? || w'.gateway == Some(G))
    && w'.foreign !! Values(ps)
    && forall f :: f in w'.legacy && f != e ==> LegacyPorts(w'.legacy[f]) !! Values(ps)
  }

  /** A step of a run in which the spec of `e` stays `s` and `e` is neither deleted nor refused. */
  ghost predicate HoldingStep(c: Config, w: World, w': World, e: EnvId, s: Spec, ps: seq<int>, G: set<int>)
    requires ValidConfig(c)
  {
    || HarmlessOutside(c, w, w', e, ps, G)
    || PassLeaves(c, w, w', e, s, Publish)
    || exists f, r, kind :: f != e && KeyNames(L4PortNames(r)) && PassLeaves(c, w, w', f, r, kind)
  }

  /** What others use never moves onto a port that `e` declares. */
  lemma OthersStayOff(c: Config, w: World, w': World, e: EnvId, f: EnvId, r: Spec, kind: Kind)
    requires ValidConfig(c) && f != e && KeyNames(L4PortNames(r)) && PassLeaves(c, w, w', f, r, kind)
    requires e in w.sets && w.sets[e].onGateway && UsedPorts(w, e) !! PortsOf(w.sets[e].listeners)
    ensures UsedPorts(w', e) !! PortsOf(w.sets[e].listeners)
  {
    var mine := PortsOf(w.sets[e].listeners);
    forall p | p in UsedPorts(w', e) ensures p !in mine {
      if p in w'.foreign {
      } else if g :| g in w'.sets && g != e && w'.sets[g].onGateway && p in PortsOf(w'.sets[g].listeners) {
        if g == f { FreshSetStaysOff(c, w, w', e, f, r, kind); }
      } else {
        var g :| g in w'.legacy && g != e && p in LegacyPorts(w'.legacy[g]);
        assert LegacyOf(w', g) <= LegacyOf(w, g);
        assert g in w.legacy && p in LegacyPorts(w.legacy[g]);
      }
    }
  }

  lemma FreshSetStaysOff(c: Config, w: World, w': World, e: EnvId, f: EnvId, r: Spec, kind: Kind)
    requires ValidConfig(c) && f != e && KeyNames(L4PortNames(r)) && PassLeaves(c, w, w', f, r, kind)
    requires e in w.sets && w.sets[e].onGateway && UsedPorts(w, e) !! PortsOf(w.sets[e].listeners)
    requires f in w'.sets && w'.sets[f].onGateway
    ensures PortsOf(w'.sets[f].listeners) !! PortsOf(w.sets[e].listeners)
  {
    if SetKept(w, w', f) {
    } else if kind == Publish && SetPublished(c, w, w', f, r) {
      PublishedPorts(c, w, w', f, r);
      OthersAreUsed(w, f, e);
    } else {
      MigrationKeepsPorts(w.sets[f].listeners, EndpointsOf(w, f));
    }
  }

  /** Names that record their endpoint have nothing to migrate. */
  lemma NothingToMigrate(ps: seq<PortSpec>, ports: map<string, int>, eps: seq<Endpoint>)
    requires PortMap(ports)
    ensures MigrateListeners(DesiredListeners(ps, ports), eps) == DesiredListeners(ps, ports)
  {
    var names, ls := Listing(ports), DesiredListeners(ps, ports);
    forall i | 0 <= i < |ls| ensures ListenerEndpoint(ls[i].name) != "" {
      assert names[i] in names;
      ListenerNameRoundTrip(names[i], L4Protocol(ps, names[i]), ports[names[i]]);
    }
  }

  lemma ZipDeclares(s: Spec, ps: seq<int>)
    requires KeyNames(L4PortNames(s)) && |ps| == |L4PortNames(s)| && PortMap(Zip(L4PortNames(s), ps))
    ensures PortsOf(DesiredListeners(s.ports, Zip(L4PortNames(s), ps))) == Values(ps)
  {
    ZipValues(L4PortNames(s), ps);
    DesiredPorts(s.ports, Zip(L4PortNames(s), ps));
  }

  /** Port stability, one step. */
  lemma HoldingStepKeeps(c: Config, w: World, w': World, e: EnvId, s: Spec, ps: seq<int>, G: set<int>)
    requires ValidConfig(c) && ValidPorts(s.ports) && PlatformNamesFree(s)
    requires HoldsPorts(c, w, e, s, ps, G) && HoldingStep(c, w, w', e, s, ps, G)
    ensures HoldsPorts(c, w', e, s, ps, G)
  {
    var names := L4PortNames(s);
    var ports := Zip(names, ps);
    ZipDeclares(s, ps);
    assert UsedPorts(w, e) !! Values(ps);
    if HarmlessOutside(c, w, w', e, ps, G) {
      assert UsedPorts(w', e) !! Values(ps);
    } else if PassLeaves(c, w, w', e, s, Publish) {
      OwnPassKeeps(c, w, w', e, s, ps, G);
    } else {
      var f, r, kind :| f != e && KeyNames(L4PortNames(r)) && PassLeaves(c, w, w', f, r, kind);
      OthersStayOff(c, w, w', e, f, r, kind);
    }
  }

  lemma OwnPassKeeps(c: Config, w: World, w': World, e: EnvId, s: Spec, ps: seq<int>, G: set<int>)
    requires ValidConfig(c) && ValidPorts(s.ports) && PlatformNamesFree(s)
    requires HoldsPorts(c, w, e, s, ps, G) && PassLeaves(c, w, w', e, s, Publish)
    ensures HoldsPorts(c, w', e, s, ps, G)
  {
    var ports := Zip(L4PortNames(s), ps);
    ZipMaps(L4PortNames(s), ps);
    NothingToMigrate(s.ports, ports, EndpointsOf(w, e));
    BuiltAgree(c, s, ports);
    if w.gateway.Some? { PublishRepeats(c, w, e, s, ps, G); }
    assert w'.sets[e] == w.sets[e];
    UsedUnmoved(w, w', e);
  }

  lemma UsedUnmoved(w: World, w': World, e: EnvId)
    requires SameElsewhere(w, w', e)
    ensures UsedPorts(w', e) <= UsedPorts(w, e)
  {
    forall p | p in UsedPorts(w', e) ensures p in UsedPorts(w, e) {
      if f :| f in w'.legacy && f != e && p in LegacyPorts(w'.legacy[f]) {
        assert LegacyOf(w', f) == LegacyOf(w, f);
        assert f in w.legacy;
      }
    }
  }

  ghost predicate HoldingRun(c: Config, ws: seq<World>, e: EnvId, s: Spec, ps: seq<int>, G: set<int>)
    requires ValidConfig(c)
  {
    |ws| > 0 && forall i :: 0 <= i < |ws| - 1 ==> HoldingStep(c, ws[i], ws[i + 1], e, s, ps, G)
  }

  /** Port stability over runs.  Once a publish of `e` has declared the ports `ps`, every run of
      passes of all environments keeps them, through a Gateway that goes and returns, routes not
      accepted, stops and starts, and passes that end anywhere: each L4 endpoint has the same port
      in every state, and every publish of `e` on the way allocates it again. */
  lemma {:induction false} PortsAreStable(c: Config, ws: seq<World>, e: EnvId, s: Spec, ps: seq<int>, G: set<int>,
                                          k: nat)
    requires ValidConfig(c) && ValidPorts(s.ports) && PlatformNamesFree(s)
    requires HoldingRun(c, ws, e, s, ps, G) && HoldsPorts(c, ws[0], e, s, ps, G) && k < |ws|
    ensures HoldsPorts(c, ws[k], e, s, ps, G)
    ensures ws[k].sets[e] == ws[0].sets[e]
    ensures forall i :: 0 <= i < |ps| ==> c.lo <= ps[i] <= c.hi && !Claimed(ws[k], e, ps[i])
    ensures ws[k].gateway.Some? ==> Allocation(c, ws[k], e, s) == Some(ps)
  {
    if k > 0 {
      PortsAreStable(c, ws, e, s, ps, G, k - 1);
      assert HoldingStep(c, ws[k - 1], ws[k - 1 + 1], e, s, ps, G);
      HoldingStepKeeps(c, ws[k - 1], ws[k], e, s, ps, G);
    }
    HolderIsUnclaimed(c, ws[k], e, s, ps, G);
    if ws[k].gateway.Some? { PublishRepeats(c, ws[k], e, s, ps, G); }
  }

  /** Nobody else has a claim on what a holder holds. */
  lemma HolderIsUnclaimed(c: Config, w: World, e: EnvId, s: Spec, ps: seq<int>, G: set<int>)
    requires ValidConfig(c) && HoldsPorts(c, w, e, s, ps, G)
    ensures forall i :: 0 <= i < |ps| ==> c.lo <= ps[i] <= c.hi && !Claimed(w, e, ps[i])
  {
    hide Claimed, UsedPorts;
    forall i | 0 <= i < |ps| ensures c.lo <= ps[i] <= c.hi && !Claimed(w, e, ps[i]) {
      assert ps[i] in Values(ps);
      if Claimed(w, e, ps[i]) { ClaimedIsUsed(w, e, ps[i]); }
    }
  }

  /** A publish that gets its ListenerSet written makes `e` a holder, when its endpoint list does not
      say otherwise: the hypothesis of the run above is what a publish establishes. */
  lemma PublishHolds(c: Config, w: World, w': World, e: EnvId, s: Spec)
    requires ValidConfig(c) && KeyNames(L4PortNames(s)) && L4PortNames(s) != [] && w.gateway.Some?
    requires SameElsewhere(w, w', e) && SetPublished(c, w, w', e, s)
    requires EndpointsAgree(EndpointsOf(w', e), Zip(L4PortNames(s), Allocation(c, w, e, s).value))
    ensures HoldsPorts(c, w', e, s, Allocation(c, w, e, s).value, w.gateway.value)
  {
    var names, ps := L4PortNames(s), Allocation(c, w, e, s).value;
    AllocateSound(c.lo, c.hi, UsedPorts(w, e) + w.gateway.value,
                  HeldPorts(names, EndpointsOf(w, e), ListenersOf(w, e)), names);
    UsedUnmoved(w, w', e);
  }

  // -------------------------------------------------------------------- migration

  /** What migrating relies on: an undecodable listener's port is recorded against a named
      endpoint, and against that endpoint only that port; a decodable one does not contradict the list. */
  ghost predicate Migratable(ls: seq<Listener>, eps: seq<Endpoint>) {
    forall i :: 0 <= i < |ls| ==> CanMigrate(ls[i], eps)
  }

  ghost predicate CanMigrate(l: Listener, eps: seq<Endpoint>) {
    var held, byPort := FromEndpoints(eps), EndpointsByPort(eps);
    && 0 <= l.port <= MAX_INT64
    && (ListenerEndpoint(l.name) == "" ==>
          l.port in byPort && byPort[l.port] != "" && byPort[l.port] in held && held[byPort[l.port]] == l.port)
    && (ListenerEndpoint(l.name) in held ==> held[ListenerEndpoint(l.name)] == l.port)
  }

  /** The i-th entry of the list is its last record of the port. */
  ghost predicate LastWithPort(eps: seq<Endpoint>, p: int, i: int) {
    0 <= i < |eps| && eps[i].listenerPort == p && p != 0 && forall j :: i < j < |eps| ==> eps[j].listenerPort != p
  }

  lemma {:induction false} PortRead(eps: seq<Endpoint>, p: int)
    ensures p in EndpointsByPort(eps) <==> exists i :: LastWithPort(eps, p, i)
    ensures forall i :: LastWithPort(eps, p, i) ==> p in EndpointsByPort(eps) && EndpointsByPort(eps)[p] == eps[i].name
  {
    if eps != [] {
      var init, last := eps[..|eps| - 1], eps[|eps| - 1];
      PortRead(init, p);
      if last.listenerPort == p && p != 0 {
        assert LastWithPort(eps, p, |eps| - 1);
      } else {
        forall i ensures LastWithPort(eps, p, i) <==> LastWithPort(init, p, i) {
          assert forall j :: 0 <= j < |init| ==> init[j] == eps[j];
        }
      }
    }
  }

  /** Only the name of a listener that says no endpoint, and whose port the list records, is changed: to
      `<endpoint>-<tcp or udp>-<port>` of the endpoint last recorded at that port. */
  lemma MigratesTo(ls: seq<Listener>, eps: seq<Endpoint>, i: nat)
    requires i < |ls| && ls[i].port >= 0
    ensures var l, m := ls[i], MigrateListeners(ls, eps)[i];
            && m.port == l.port && m.protocol == l.protocol
            && (ListenerEndpoint(l.name) != "" ==> m == l)
            && ((forall j :: !LastWithPort(eps, l.port, j)) ==> m == l)
            && (forall j :: LastWithPort(eps, l.port, j) && ListenerEndpoint(l.name) == "" ==>
                  m.name == eps[j].name + (match l.protocol case TCP => "-tcp-" case UDP => "-udp-") + Itoa(l.port))
  {
    hide ListenerEndpoint;
    PortRead(eps, ls[i].port);
  }

  lemma MigratedEndpoint(l: Listener, eps: seq<Endpoint>)
    requires CanMigrate(l, eps)
    ensures var m, n := MigrateListener(EndpointsByPort(eps), l), ListenerEndpoint(l.name);
            && m.port == l.port && ListenerEndpoint(m.name) != ""
            && (n != "" ==> m == l)
            && (n == "" ==> l.port in EndpointsByPort(eps) && ListenerEndpoint(m.name) == EndpointsByPort(eps)[l.port])
            && (ListenerEndpoint(m.name) in FromEndpoints(eps) ==>
              FromEndpoints(eps)[ListenerEndpoint(m.name)] == l.port)
            && (n == "" ==> ListenerEndpoint(m.name) in FromEndpoints(eps))
  {
    if ListenerEndpoint(l.name) == "" {
      ListenerNameRoundTrip(EndpointsByPort(eps)[l.port], l.protocol, l.port);
    }
  }

  lemma SplitLast(ls: seq<Listener>, eps: seq<Endpoint>)
    requires Migratable(ls, eps) && ls != []
    ensures Migratable(ls[..|ls| - 1], eps) && CanMigrate(ls[|ls| - 1], eps)
    ensures var ms := MigrateListeners(ls, eps);
            ms[..|ms| - 1] == MigrateListeners(ls[..|ls| - 1], eps)
            && ms[|ms| - 1] == MigrateListener(EndpointsByPort(eps), ls[|ls| - 1])
  {
    hide CanMigrate, MigrateListener, EndpointsByPort, ListenerEndpoint;
    var init, ms := ls[..|ls| - 1], MigrateListeners(ls, eps);
    assert forall i :: 0 <= i < |init| ==> init[i] == ls[i];
    assert ms[..|ms| - 1] == MigrateListeners(init, eps);
  }

  /** Migrated names alone recover what list and names recovered together. */
  lemma {:induction false} MigratedReads(ls: seq<Listener>, eps: seq<Endpoint>, n: string)
    requires Migratable(ls, eps) && n != ""
    ensures var a, b := WithListeners(FromEndpoints(eps), ls), WithListeners(map[], MigrateListeners(ls, eps));
            && (n in b ==> n in a && a[n] == b[n])
            && (n in a && n !in FromEndpoints(eps) ==> n in b)
  {
    hide ListenerEndpoint, CanMigrate, MigrateListener, MigrateListeners, Migratable, FromEndpoints, EndpointsByPort;
    if ls == [] {
      assert |MigrateListeners(ls, eps)| == 0;
    } else {
      var init, l := ls[..|ls| - 1], ls[|ls| - 1];
      SplitLast(ls, eps);
      MigratedEndpoint(l, eps);
      MigratedReads(init, eps, n);
      if n in FromEndpoints(eps) {
        FallbackKeeps(FromEndpoints(eps), ls, n);
        FallbackKeeps(FromEndpoints(eps), init, n);
      }
    }
  }

  /** `l` is the listener of `n`: it names it, or the list records its port for it. */
  ghost predicate ListensFor(l: Listener, eps: seq<Endpoint>, n: string) {
    || ListenerEndpoint(l.name) == n
    || (ListenerEndpoint(l.name) == "" && l.port in EndpointsByPort(eps) && EndpointsByPort(eps)[l.port] == n)
  }

  ghost predicate HasListener(ls: seq<Listener>, eps: seq<Endpoint>, n: string) {
    exists i :: 0 <= i < |ls| && ListensFor(ls[i], eps, n)
  }

  lemma {:induction false} ListenerIsRead(ls: seq<Listener>, eps: seq<Endpoint>, n: string)
    requires Migratable(ls, eps) && n != "" && HasListener(ls, eps, n)
    ensures n in WithListeners(map[], MigrateListeners(ls, eps))
  {
    hide ListenerEndpoint, CanMigrate, MigrateListener, MigrateListeners, Migratable, FromEndpoints, EndpointsByPort;
    var i :| 0 <= i < |ls| && ListensFor(ls[i], eps, n);
    var init, l := ls[..|ls| - 1], ls[|ls| - 1];
    SplitLast(ls, eps);
    if i < |init| {
      assert init[i] == ls[i];
      ListenerIsRead(init, eps, n);
    } else {
      MigratedEndpoint(l, eps);
    }
  }

  /** A listener from before the endpoint was part of its name, and the list that records its port. */
  lemma LegacyListenerMigrates() returns (ls: seq<Listener>, eps: seq<Endpoint>)
    ensures Migratable(ls, eps) && HasListener(ls, eps, "ssh") && |ls| == 1 && ListenerEndpoint(ls[0].name) == ""
  {
    ls, eps := [Listener("p1", TCP, 20000)], [Endpoint("ssh", 20000)];
    assert FromEndpoints([]) == map[] && EndpointsByPort([]) == map[] && eps[..0] == [];
    assert FromEndpoints(eps) == map["ssh" := 20000] && EndpointsByPort(eps) == map[20000 := "ssh"];
    assert ListenerEndpoint("p1") == "" by {
      assert LastIndex("p1", "-tcp-") < 0 && LastIndex("p1", "-udp-") < 0;
    }
    assert CanMigrate(ls[0], eps) && ListensFor(ls[0], eps, "ssh");
  }

  /** Migrating the names and then withdrawing the endpoint list loses no allocation: every
      endpoint with a declared listener is recovered with the port it was recovered with before. */
  lemma MigrationKeepsHeld(names: seq<string>, ls: seq<Listener>, eps: seq<Endpoint>, i: nat)
    requires Migratable(ls, eps) && i < |names| && names[i] != "" && HasListener(ls, eps, names[i])
    ensures var before, after := HeldPorts(names, eps, ls), HeldPorts(names, [], MigrateListeners(ls, eps));
            names[i] in before && names[i] in after && before[names[i]] == after[names[i]]
  {
    var n := names[i];
    ListenerIsRead(ls, eps, n);
    MigratedReads(ls, eps, n);
    assert FromEndpoints([]) == map[] && !AllRecorded(names, map[]);
    if AllRecorded(names, FromEndpoints(eps)) { FallbackKeeps(FromEndpoints(eps), ls, n); }
  }
}
