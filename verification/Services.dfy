/** Writing a generated Service only when the write would change it
    (operator/internal/controller/apply.go, serviceNeedsUpdate). */
module Services {

  import opened Wrappers

  /** A target port; the unset one is the number 0. */
  datatype Target = Number(n: int) | Named(s: string)

  datatype Port = Port(name: string, port: int, protocol: string, target: Target)

  datatype Service = Service(
    labels: map<string, string>,
    annotations: map<string, string>,
    selector: map<string, string>,
    ports: seq<Port>,
    clusterIP: string)

  const HEADLESS := "None"

  /** What the controller writes: either headless or no address of its own. */
  ghost predicate Authored(d: Service) {
    d.clusterIP == "" || d.clusterIP == HEADLESS
  }

  // ------------------------------------------------------------- API server

  function DefaultPort(p: Port): Port {
    p.(protocol := if p.protocol == "" then "TCP" else p.protocol,
       target := if p.target == Number(0) then Number(p.port) else p.target)
  }

  function DefaultPorts(ps: seq<Port>): (r: seq<Port>)
    ensures |r| == |ps| && forall i :: 0 <= i < |ps| ==> r[i] == DefaultPort(ps[i])
  {
    seq(|ps|, i requires 0 <= i < |ps| => DefaultPort(ps[i]))
  }

  /** What the server stores: defaults filled in, an address already given is kept. */
  function Stored(existing: Option<Service>, address: string, d: Service): Service {
    d.(ports := DefaultPorts(d.ports),
       clusterIP := if d.clusterIP != "" then d.clusterIP
                    else if existing.Some? then existing.value.clusterIP else address)
  }

  /** An object that has been through the server. */
  ghost predicate Defaulted(e: Service) {
    DefaultPorts(e.ports) == e.ports
  }

  /** The stored Service `e` is the one asked for: the controller's fields as they are asked, TCP where no
      protocol is named, the port's own number where no target is, and headless when that is asked. */
  ghost predicate AsAsked(e: Service, d: Service) {
    && e.labels == d.labels && e.annotations == d.annotations && e.selector == d.selector
    && |e.ports| == |d.ports|
    && (forall i :: 0 <= i < |e.ports| ==> e.ports[i].name == d.ports[i].name && e.ports[i].port == d.ports[i].port)
    && (forall i :: 0 <= i < |e.ports| ==>
          e.ports[i].protocol == (if d.ports[i].protocol != "" then d.ports[i].protocol else "TCP"))
    && (forall i :: 0 <= i < |e.ports| ==>
          e.ports[i].target == (if d.ports[i].target != Number(0) then d.ports[i].target
                                else Number(d.ports[i].port)))
    && (d.clusterIP != "" ==> e.clusterIP == d.clusterIP)
  }

  /** A write of `d` over anything stores what was asked, and a Service that a write would leave alone is that. */
  lemma StoredAsAsked(existing: Option<Service>, address: string, d: Service, e: Service)
    ensures AsAsked(Stored(existing, address, d), d)
    ensures e.ports == DefaultPorts(e.ports) ==> (AsAsked(e, d) <==> Stored(Some(e), "", d) == e)
    ensures existing.Some? && d.clusterIP == "" ==> Stored(existing, address, d).clusterIP == existing.value.clusterIP
    ensures existing.None? && d.clusterIP == "" ==> Stored(existing, address, d).clusterIP == address
  {
    if AsAsked(e, d) { assert e.ports == DefaultPorts(d.ports); }
  }

  // -------------------------------------------------------------- comparison

  predicate PortEqual(e: Port, d: Port) {
    e.name == d.name && e.port == d.port &&
    var protocol := if d.protocol == "" then "TCP" else d.protocol;
    var target := if d.target == Number(0) then Number(d.port) else d.target;
    e.protocol == protocol && e.target == target
  }

  /** serviceNeedsUpdate: the field-by-field comparison, ports in order. */
  method NeedsUpdate(e: Service, d: Service) returns (update: bool)
    requires Authored(d)
    ensures update <==> Stored(Some(e), "", d) != e
  {
    if e.labels != d.labels || e.annotations != d.annotations || e.selector != d.selector {
      return true;
    }
    if |e.ports| != |d.ports| { return true; }
    for i := 0 to |d.ports|
      invariant forall j :: 0 <= j < i ==> e.ports[j] == DefaultPort(d.ports[j])
    {
      if !PortEqual(e.ports[i], d.ports[i]) {
        assert e.ports[i] != DefaultPort(d.ports[i]);
        return true;
      }
    }
    assert e.ports == DefaultPorts(d.ports);
    return d.clusterIP == HEADLESS && e.clusterIP != HEADLESS;
  }

  /** A stored Service is left alone by the next pass, whatever the server filled in. */
  lemma DefaultsAreNotDrift(existing: Option<Service>, address: string, d: Service)
    requires Authored(d)
    ensures var e := Stored(existing, address, d);
            Defaulted(e) && Stored(Some(e), "", d) == e
  {
    var e := Stored(existing, address, d);
    assert DefaultPorts(e.ports) == e.ports;
  }
}
