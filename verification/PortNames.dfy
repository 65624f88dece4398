/** The names that record an L4 allocation (operator/internal/controller/devenvironment_controller.go):
    `<endpoint>-<protocol>-<port>` for a listener, `<env>-<protocol>-<port>` for a route. */
module PortNames {
  import opened Wrappers
  import opened Strings

  datatype Protocol = TCP | UDP

  function Infix(p: Protocol): string {
    if p == TCP then "-tcp-" else "-udp-"
  }

  /** l4ListenerName. */
  function ListenerName(name: string, protocol: Protocol, port: nat): string {
    name + Infix(protocol) + Itoa(port)
  }

  /** The part before the last `infix` that a number follows, or "". */
  function Before(name: string, infix: string): string {
    var i := LastIndex(name, infix);
    if i > 0 && ParseInt(name[i + |infix|..]).Some? then name[..i] else ""
  }

  /** l4ListenerEndpoint: the endpoint a listener was declared for, or "" when its name says none. */
  function ListenerEndpoint(name: string): string {
    var tcp := Before(name, "-tcp-");
    if tcp != "" then tcp else Before(name, "-udp-")
  }

  function RouteName(env: string, protocol: Protocol, port: nat): string {
    env + Infix(protocol) + Itoa(port)
  }

  /** routePort: the port a route's name ends in, or 0. */
  function RoutePort(name: string, infix: string): int {
    var i := LastIndex(name, infix);
    if i < 0 then 0
    else match ParseInt(name[i + |infix|..])
         case Some(n) => Int32(n)
         case None => 0
  }

  /** Past the name, only the written infix starts with a dash and a letter. */
  lemma OnlyTheInfix(name: string, protocol: Protocol, port: nat, i: nat)
    requires |name| < i && i + 5 <= |ListenerName(name, protocol, port)|
    ensures var s := ListenerName(name, protocol, port);
            s[i..i + 5] != "-tcp-" && s[i..i + 5] != "-udp-"
  {
    var s, infix, tail := ListenerName(name, protocol, port), Infix(protocol), Itoa(port);
    assert s[i..i + 5][0] == s[i] && s[i..i + 5][1] == s[i + 1];
    if i < |name| + 5 {
      assert s[i] == infix[i - |name|];
    } else {
      assert s[i] == tail[i - |name| - 5];
    }
    if i >= |name| + 4 { assert s[i + 1] == tail[i - |name| - 4]; }
  }

  /** Digits cannot hide a later occurrence: the last infix is the one written last. */
  lemma LastInfix(name: string, protocol: Protocol, port: nat)
    ensures LastIndex(ListenerName(name, protocol, port), Infix(protocol)) == |name|
    ensures ListenerName(name, protocol, port)[|name| + 5..] == Itoa(port)
  {
    var s, infix := ListenerName(name, protocol, port), Infix(protocol);
    assert s[|name|..|name| + 5] == infix;
    assert At(s, infix, |name|);
    forall i | |name| < i ensures !At(s, infix, i) {
      if i + 5 <= |s| { OnlyTheInfix(name, protocol, port, i); }
    }
  }

  /** Before a `-udp-` ending, whatever follows a `-tcp-` is not a number. */
  lemma NoTcpNumber(name: string, port: nat)
    ensures Before(ListenerName(name, UDP, port), "-tcp-") == ""
  {
    var s := ListenerName(name, UDP, port);
    var u := |name| + 1;
    assert s[u] == 'u';
    var i := LastIndex(s, "-tcp-");
    if i > |name| { OnlyTheInfix(name, UDP, port, i); }
    if i >= 0 {
      assert forall k :: i <= k < i + 5 ==> s[k] == s[i..i + 5][k - i];
      assert i + 5 <= u;
      assert s[i + 5..][u - i - 5] == 'u';
      ParseIntRejects(s[i + 5..], u - i - 5);
    }
  }

  /** The listener name gives its endpoint back, whatever the endpoint is called: even one that
      contains or ends in `-tcp` or `-udp`, or a number after it. */
  lemma ListenerNameRoundTrip(name: string, protocol: Protocol, port: nat)
    requires name != "" && port <= MAX_INT64
    ensures ListenerEndpoint(ListenerName(name, protocol, port)) == name
  {
    LastInfix(name, protocol, port);
    ParseIntItoa(port);
    assert ListenerName(name, protocol, port)[..|name|] == name;
    if protocol == UDP { NoTcpNumber(name, port); }
  }

  /** A route's name gives its port back, whatever the environment is called. */
  lemma RouteNameRoundTrip(env: string, protocol: Protocol, port: nat)
    requires port < 0x8000_0000
    ensures RoutePort(RouteName(env, protocol, port), Infix(protocol)) == port
  {
    hide Int32;
    Int32Keeps(port);
    LastInfix(env, protocol, port);
    assert RouteName(env, protocol, port) == ListenerName(env, protocol, port);
    ParseIntItoa(port);
  }

  /** The names as they read on the wire. */
  lemma WrittenNames(name: string)
    ensures ListenerName(name, TCP, 20000) == name + "-tcp-20000" && RouteName(name, TCP, 20000) == name + "-tcp-20000"
    ensures ListenerName(name, UDP, 20017) == name + "-udp-20017" && RouteName(name, UDP, 20017) == name + "-udp-20017"
    ensures name != "" ==> ListenerEndpoint(name + "-tcp-20000") == name
    ensures RoutePort(name + "-tcp-20000", "-tcp-") == 20000
  {
    hide ListenerEndpoint, RoutePort;
    Digits();
    if name != "" { ListenerNameRoundTrip(name, TCP, 20000); }
    RouteNameRoundTrip(name, TCP, 20000);
    hide Itoa;
    assert "-tcp-" + "20000" == "-tcp-20000" && "-udp-" + "20017" == "-udp-20017";
    assert name + "-tcp-" + "20000" == name + ("-tcp-" + "20000");
    assert name + "-udp-" + "20017" == name + ("-udp-" + "20017");
  }

  lemma Digits()
    ensures Itoa(20000) == "20000" && Itoa(20017) == "20017"
  {
    assert Itoa(20) == ['2', '0'];
    assert Itoa(200) == ['2', '0', '0'];
    assert Itoa(2000) == ['2', '0', '0', '0'] && Itoa(2001) == ['2', '0', '0', '1'];
  }
}
