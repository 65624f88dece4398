/** The fields of a DevEnvironment's spec that decide its exposures
    (operator/internal/controller/devenvironment_controller.go:1125-1194). */
module DevSpec {
  import opened PortNames

  datatype EnvType = Jupyter | VSCode | SSH

  function TypeName(t: EnvType): string {
    match t case Jupyter => "jupyter" case VSCode => "vscode" case SSH => "ssh"
  }

  datatype PortKind = HttpPort | TcpPort | UdpPort

  datatype PortSpec = PortSpec(name: string, kind: PortKind, containerPort: int)

  datatype Spec = Spec(envType: EnvType, sshEnabled: bool, ports: seq<PortSpec>)

  const SSH_NAME := "ssh"

  /** What the CRD enforces: entries are named, each name once. */
  ghost predicate ValidPorts(ports: seq<PortSpec>) {
    && (forall i :: 0 <= i < |ports| ==> ports[i].name != "")
    && (forall i, j :: 0 <= i < j < |ports| ==> ports[i].name != ports[j].name)
  }

  /** What the spec gate enforces: no entry takes the name of an address the platform publishes. */
  ghost predicate PlatformNamesFree(s: Spec) {
    forall i :: 0 <= i < |s.ports| ==>
      (s.envType != SSH ==> s.ports[i].name != TypeName(s.envType)) && (SshExposed(s) ==> s.ports[i].name != SSH_NAME)
  }

  predicate SshExposed(s: Spec) { s.envType == SSH || s.sshEnabled }

  predicate IsL4(p: PortSpec) { p.kind == TcpPort || p.kind == UdpPort }

  /** The names of the tcp and udp entries. */
  function L4Entries(ports: seq<PortSpec>): (names: seq<string>)
    ensures forall n :: n in names <==> exists i :: 0 <= i < |ports| && IsL4(ports[i]) && ports[i].name == n
  {
    if ports == [] then []
    else
      var p := ports[|ports| - 1];
      L4Entries(ports[..|ports| - 1]) + if IsL4(p) then [p.name] else []
  }

  /** l4PortNames: the endpoints that draw a port from the pool, in allocation order. */
  function L4PortNames(s: Spec): seq<string> {
    (if SshExposed(s) then [SSH_NAME] else []) + L4Entries(s.ports)
  }

  method ListL4PortNames(s: Spec) returns (names: seq<string>)
    ensures names == L4PortNames(s)
  {
    names := [];
    if SshExposed(s) { names := names + [SSH_NAME]; }
    for i := 0 to |s.ports|
      invariant names == (if SshExposed(s) then [SSH_NAME] else []) + L4Entries(s.ports[..i])
    {
      assert s.ports[..i + 1][..i] == s.ports[..i];
      if s.ports[i].kind == TcpPort || s.ports[i].kind == UdpPort { names := names + [s.ports[i].name]; }
    }
    assert s.ports[..|s.ports|] == s.ports;
  }

  function PortProtocol(p: PortSpec): Protocol { if p.kind == UdpPort then UDP else TCP }

  /** l4Protocol: the transport of a named endpoint; ssh, and anything unknown, is TCP. */
  function L4Protocol(ports: seq<PortSpec>, name: string): Protocol {
    if ports == [] then TCP
    else if ports[0].name == name then PortProtocol(ports[0])
    else L4Protocol(ports[1..], name)
  }

  lemma {:induction false} EntryIndex(ports: seq<PortSpec>, i: nat) returns (k: nat)
    requires i < |ports| && ports[i].kind in {TcpPort, UdpPort}
    ensures k < |L4Entries(ports)| && L4Entries(ports)[k] == ports[i].name
    ensures k == |L4Entries(ports[..i])|
  {
    var init := ports[..|ports| - 1];
    if i < |init| {
      k := EntryIndex(init, i);
      assert init[..i] == ports[..i];
    } else {
      k := |L4Entries(init)|;
    }
  }

  lemma {:induction false} EntriesGrow(ports: seq<PortSpec>, i: nat, j: nat)
    requires i < j <= |ports| && IsL4(ports[i])
    ensures |L4Entries(ports[..i])| < |L4Entries(ports[..j])|
    decreases j
  {
    assert ports[..j][..j - 1] == ports[..j - 1];
    if j > i + 1 { EntriesGrow(ports, i, j - 1); }
  }

  /** The allocation order: "ssh" first when it is exposed, then the tcp and udp entries as the spec lists them. */
  lemma AllocationOrder(s: Spec)
    ensures var ssh := if s.envType.SSH? || s.sshEnabled then 1 else 0;
            && |L4PortNames(s)| == ssh + |L4Entries(s.ports)| && (ssh == 1 ==> L4PortNames(s)[0] == "ssh")
            && (forall n :: n in L4PortNames(s) <==>
                  || (ssh == 1 && n == "ssh")
                  || exists i :: 0 <= i < |s.ports| && !s.ports[i].kind.HttpPort? && s.ports[i].name == n)
  {}

  lemma EntryOrder(s: Spec, i: nat, j: nat) returns (a: nat, b: nat)
    requires i < j < |s.ports| && !s.ports[i].kind.HttpPort? && !s.ports[j].kind.HttpPort?
    ensures a < b < |L4PortNames(s)| && L4PortNames(s)[a] == s.ports[i].name && L4PortNames(s)[b] == s.ports[j].name
    ensures s.envType.SSH? || s.sshEnabled ==> a > 0
  {
    var first := if SshExposed(s) then 1 else 0;
    a := EntryIndex(s.ports, i);
    b := EntryIndex(s.ports, j);
    EntriesGrow(s.ports, i, j);
    a, b := first + a, first + b;
  }

  /** Distinct entry names, none of them "ssh" beside an exposed ssh, draw distinct ports. */
  lemma {:induction false} L4EntriesDistinct(ports: seq<PortSpec>)
    requires ValidPorts(ports)
    ensures forall i, j :: 0 <= i < j < |L4Entries(ports)| ==> L4Entries(ports)[i] != L4Entries(ports)[j]
  {
    if ports != [] {
      var rest, last := ports[..|ports| - 1], ports[|ports| - 1];
      L4EntriesDistinct(rest);
      assert last.name !in L4Entries(rest);
    }
  }

  /** The names publishRoutes allocates for are usable as keys: non-empty and distinct. */
  ghost predicate KeyNames(names: seq<string>) {
    && (forall i :: 0 <= i < |names| ==> names[i] != "")
    && (forall i, j :: 0 <= i < j < |names| ==> names[i] != names[j])
  }

  lemma L4PortNamesAreKeys(s: Spec)
    requires ValidPorts(s.ports) && PlatformNamesFree(s)
    ensures KeyNames(L4PortNames(s))
  {
    L4EntriesDistinct(s.ports);
    forall i | 0 <= i < |L4Entries(s.ports)| ensures L4Entries(s.ports)[i] != "" {
      assert L4Entries(s.ports)[i] in L4Entries(s.ports);
    }
    if SshExposed(s) { assert SSH_NAME !in L4Entries(s.ports); }
  }
}
