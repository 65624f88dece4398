/** The pod template of an environment, as the controller renders it
    (operator/internal/controller/devenvironment_controller.go:1203-1220, 1252-1760, 2192-2510). */
module PodTemplates {
  import opened Wrappers
  import opened Strings
  import opened PortNames
  import opened DevSpec
  import EnvVars
  import ServicePorts

  datatype Gpu = Gpu(vendor: string, model: string, count: Option<int>)

  datatype Resources = Resources(gpu: Option<Gpu>, cpu: string, memory: string)

  datatype Runtime = Runtime(command: seq<string>, args: seq<string>, env: seq<EnvVars.EnvVar>, user: string,
                             runAsUser: Option<int>, runAsGroup: Option<int>, sudo: bool)

  datatype Storage = Storage(size: string, retain: bool, mountPath: string)

  datatype DataVolume = DataVolume(name: string, claim: string, mountPath: string, subPath: string, readOnly: bool)

  datatype KeysSecret = KeysSecret(name: string, key: string)

  datatype Network = Network(rdma: bool, infiniband: bool)

  /** What is rendered into the workload: the spec, and the two Secret digests a pass carries. */
  datatype DevEnv = DevEnv(
    namespace: string,
    name: string,
    spec: Spec,
    keys: Option<KeysSecret>,
    image: string,
    resources: Resources,
    runtime: Option<Runtime>,
    storage: Option<Storage>,
    volumes: seq<DataVolume>,
    network: Option<Network>,
    nodeSelector: map<string, string>,
    scheduler: string,
    idleTimeout: nat,
    tokenRevision: string,
    keysRevision: string)

  /** The operator's flags, and the agent reference its build names. */
  datatype Operator = Operator(ibResource: string, roceResource: string, agentImage: string)

  // ---------------------------------------------------------------------- resolutions

  datatype Identity = Identity(user: int, group: int, nonRoot: bool)

  /** desiredSecurityContext: 1000:1000 unless the spec says otherwise. */
  function IdentityOf(rt: Option<Runtime>): Identity {
    var user := if rt.Some? && rt.value.runAsUser.Some? then rt.value.runAsUser.value else 1000;
    var group := if rt.Some? && rt.value.runAsGroup.Some? then rt.value.runAsGroup.value else 1000;
    Identity(user, group, user != 0)
  }

  function ContainsReference(s: string): bool { LastIndex(s, "$(") >= 0 }

  predicate NamesHome(v: EnvVars.EnvVar) { v.source.None? && "/" <= v.value && !ContainsReference(v.value) }

  /** declaredHome: what the last entry named HOME says, when it is usable. */
  function DeclaredHome(vs: seq<EnvVars.EnvVar>): string {
    if vs == [] then ""
    else
      var last := vs[|vs| - 1];
      if last.name != EnvVars.HOME then DeclaredHome(vs[..|vs| - 1]) else if NamesHome(last) then last.value else ""
  }

  method FindDeclaredHome(vs: seq<EnvVars.EnvVar>) returns (home: string)
    ensures home == DeclaredHome(vs)
  {
    home := "";
    for i := 0 to |vs|
      invariant home == DeclaredHome(vs[..i])
    {
      assert vs[..i + 1][..i] == vs[..i];
      if vs[i].name == EnvVars.HOME { home := if NamesHome(vs[i]) then vs[i].value else ""; }
    }
    assert vs[..|vs|] == vs;
  }

  /** resolveMountPath, for an environment with a workspace claim. */
  function MountPath(storage: Storage, rt: Option<Runtime>): string {
    if storage.mountPath != "" then storage.mountPath
    else if rt.None? then "/workspace"
    else if DeclaredHome(rt.value.env) != "" then DeclaredHome(rt.value.env)
    else if rt.value.runAsUser == Some(0) then "/root"
    else if rt.value.user != "" then "/home/" + rt.value.user
    else "/workspace"
  }

  function HomeOf(storage: Option<Storage>, rt: Option<Runtime>): Option<string> {
    if storage.None? then None else Some(MountPath(storage.value, rt))
  }

  function VendorOf(g: Gpu): string { if g.vendor == "metax" then "metax" else "nvidia" }

  function VendorResource(v: string): string { if v == "nvidia" then "nvidia.com/gpu" else "metax-tech.com/gpu" }

  function ProductLabel(v: string): string { VendorResource(v) + ".product" }

  function GpuCount(g: Gpu): int { if g.count.Some? && g.count.value > 0 then g.count.value else 1 }

  /** rdmaResource: the claimed resource, and whether the pod runs on the host network. */
  function RdmaOf(op: Operator, network: Option<Network>): (string, bool) {
    if network.None? || !network.value.rdma then ("", false)
    else if network.value.infiniband then
      (if op.ibResource == "" then "rdma/ib_shared_devices" else op.ibResource, false)
    else (if op.roceResource == "" then "rdma/roce_shared_devices" else op.roceResource, true)
  }

  function KeysSource(e: DevEnv): KeysSecret {
    if e.keys.Some? then e.keys.value else KeysSecret(e.name + "-ssh-client-key", "id_ed25519.pub")
  }

  predicate SudoGranted(rt: Option<Runtime>) { rt.Some? && rt.value.sudo && IdentityOf(rt).user > 0 }

  predicate AgentEnabled(e: DevEnv) { e.idleTimeout > 0 }

  function ContainerOf(e: DevEnv): EnvVars.Container {
    EnvVars.Container(e.spec.envType, e.namespace, e.name, IdentityOf(e.runtime).user == 0,
                      HomeOf(e.storage, e.runtime))
  }

  // ---------------------------------------------------------------------- the template

  datatype Quantity = Count(n: int) | Parsed(text: string)

  datatype Requirements = Requirements(limits: map<string, Quantity>, requests: map<string, Quantity>)

  datatype Mount = Mount(name: string, path: string, subPath: string, readOnly: bool)

  datatype HostPort = HostPort(name: string, port: int, protocol: Protocol)

  datatype MainContainer = MainContainer(name: string, image: string, command: seq<string>, args: seq<string>,
                                         env: seq<EnvVars.EnvVar>, resources: Requirements, identity: Identity,
                                         ipcLock: bool, probePort: int, mounts: seq<Mount>, ports: seq<HostPort>)

  datatype InitContainer = Permissions(uid: int, gid: int) | Sudoers(uid: int)

  datatype Volume = DataClaim(name: string, claim: string, readOnly: bool) | SudoersDir
                  | HostKey(secret: string, mode: int) | AuthorizedKeys(secret: string, key: string, mode: int)

  datatype Agent = Agent(image: string, watched: seq<int>, identity: Identity)

  datatype Template = Template(owner: string, annotations: map<string, string>, main: MainContainer,
                               inits: seq<InitContainer>, nodeSelector: map<string, string>, scheduler: string,
                               hostNetwork: bool, volumes: seq<Volume>, agent: Option<Agent>, serviceAccount: string)

  /** desiredResources. */
  function RequirementsOf(r: Resources, rdma: string): Requirements {
    var gpu := match r.gpu case None => map[] case Some(g) => map[VendorResource(VendorOf(g)) := Count(GpuCount(g))];
    var devices: map<string, Quantity> := gpu + if rdma == "" then map[] else map[rdma := Count(1)];
    Requirements(devices + (if r.cpu == "" then map[] else map["cpu" := Parsed(r.cpu)])
                         + (if r.memory == "" then map[] else map["memory" := Parsed(r.memory)]), devices)
  }

  /** desiredNodeSelector: the model pin is written over the labels asked for. */
  function NodeSelectorOf(asked: map<string, string>, r: Resources): map<string, string> {
    asked + match r.gpu
            case Some(g) => if g.model == "" then map[] else map[ProductLabel(VendorOf(g)) := g.model]
            case None => map[]
  }

  function AddHostPort(ports: seq<HostPort>, p: HostPort): seq<HostPort> {
    if exists i :: 0 <= i < |ports| && ports[i].port == p.port && ports[i].protocol == p.protocol then ports
    else ports + [p]
  }

  /** desiredContainerPorts. */
  function HostPorts(s: Spec, n: nat): seq<HostPort>
    requires n <= |s.ports|
  {
    if n > 0 then
      var p := s.ports[n - 1];
      AddHostPort(HostPorts(s, n - 1), HostPort(p.name, p.containerPort, PortProtocol(p)))
    else
      var main := [HostPort("main", ServicePorts.MainContainerPort(s.envType), TCP)];
      if SshExposed(s) && s.envType != SSH then AddHostPort(main, HostPort("ssh", ServicePorts.SSH_CONTAINER_PORT, TCP))
      else main
  }

  function DataMounts(vs: seq<DataVolume>): seq<Mount> {
    seq(|vs|, i requires 0 <= i < |vs| => Mount(vs[i].name, vs[i].mountPath, vs[i].subPath, vs[i].readOnly))
  }

  function DataClaims(vs: seq<DataVolume>): seq<Volume> {
    seq(|vs|, i requires 0 <= i < |vs| => DataClaim(vs[i].name, vs[i].claim, vs[i].readOnly))
  }

  function MountsOf(e: DevEnv): seq<Mount> {
    (if e.storage.None? then [] else [Mount("workspace", MountPath(e.storage.value, e.runtime), "", false)])
    + DataMounts(e.volumes)
    + (if SudoGranted(e.runtime) then [Mount("sudoers", "/etc/sudoers.d/20-cubestack", "20-cubestack", true)] else [])
    + (if SshExposed(e.spec) then
         [Mount("ssh-host-key", "/etc/ssh/ssh_host_ed25519_key", "ssh_host_ed25519_key", true),
          Mount("ssh-authorized-keys", "/run/ssh", "", true)]
       else [])
  }

  function KeyMode(rt: Option<Runtime>): int { if rt.Some? && rt.value.runAsUser == Some(0) then 384 else 420 }

  function VolumesOf(e: DevEnv): seq<Volume> {
    DataClaims(e.volumes)
    + (if SudoGranted(e.runtime) then [SudoersDir] else [])
    + (if SshExposed(e.spec) then
         [HostKey(e.name + "-ssh-host-key", KeyMode(e.runtime)),
          AuthorizedKeys(KeysSource(e).name, KeysSource(e).key, KeyMode(e.runtime))]
       else [])
  }

  function InitsOf(e: DevEnv): seq<InitContainer> {
    var id := IdentityOf(e.runtime);
    (if e.storage.None? then [] else [Permissions(id.user, id.group)])
    + if SudoGranted(e.runtime) then [Sudoers(id.user)] else []
  }

  /** podTemplateAnnotations. */
  function AnnotationsOf(e: DevEnv): map<string, string> {
    (if e.spec.envType == Jupyter && e.tokenRevision != "" then
       map["ai.cubestack.io/jupyter-token-revision" := e.tokenRevision]
     else map[])
    + if SshExposed(e.spec) && e.keysRevision != "" then map["ai.cubestack.io/ssh-keys-revision" := e.keysRevision]
      else map[]
  }

  function AgentOf(op: Operator, e: DevEnv): Option<Agent> {
    if !AgentEnabled(e) then None
    else
      var main := ServicePorts.MainContainerPort(e.spec.envType);
      var ssh := SshExposed(e.spec) && e.spec.envType != SSH;
      Some(Agent(op.agentImage,
                 [main] + if ssh then [ServicePorts.SSH_CONTAINER_PORT] else [],
                 IdentityOf(e.runtime)))
  }

  function MainOf(op: Operator, e: DevEnv): MainContainer {
    var (rdma, hostNetwork) := RdmaOf(op, e.network);
    MainContainer(TypeName(e.spec.envType), e.image,
                  if e.runtime.Some? then e.runtime.value.command else [],
                  if e.runtime.Some? then e.runtime.value.args else [],
                  EnvVars.Rendered(ContainerOf(e), if e.runtime.Some? then e.runtime.value.env else []),
                  RequirementsOf(e.resources, rdma), IdentityOf(e.runtime), rdma != "",
                  ServicePorts.MainContainerPort(e.spec.envType), MountsOf(e),
                  if hostNetwork then HostPorts(e.spec, |e.spec.ports|) else [])
  }

  /** desiredPodSpec, with the labels and annotations of the template around it. */
  function TemplateOf(op: Operator, e: DevEnv): Template {
    Template(e.name, AnnotationsOf(e), MainOf(op, e), InitsOf(e), NodeSelectorOf(e.nodeSelector, e.resources),
             e.scheduler, RdmaOf(op, e.network).1, VolumesOf(e), AgentOf(op, e),
             if AgentEnabled(e) then e.name + "-activity" else "")
  }

  /** Where the container is told its home is, and where its workspace is mounted, are one path,
      whatever that path looks like and whatever HOME the spec declares. */
  lemma HomeIsTheMount(op: Operator, e: DevEnv, lookup: string -> string)
    requires e.storage.Some? && NoSpace(e.namespace) && NoSpace(e.name)
    requires e.runtime.Some? ==> EnvVars.UniqueNames(e.runtime.value.env)
    ensures var main := TemplateOf(op, e).main; var home := EnvVars.Find(main.env, EnvVars.HOME);
            && |main.mounts| > 0 && main.mounts[0].name == "workspace" && home.Some? && home.value.source.None?
            && EnvVars.Expand(home.value.value, lookup) == main.mounts[0].path
  {
    hide EnvVars.Rendered, EnvVars.Settles, EnvVars.NotebookStated, EnvVars.Find, EnvVars.Expand, EnvVars.Escape;
    hide MountPath, NoSpace;
    var declared := if e.runtime.Some? then e.runtime.value.env else [];
    EnvVars.RenderedSettles(ContainerOf(e), declared);
    EnvVars.HomeExpandsBack(MountPath(e.storage.value, e.runtime), lookup);
  }

  // -------------------------------------------------------------- what the template says

  /** Entry `i` is the last named HOME. */
  ghost predicate LastHome(vs: seq<EnvVars.EnvVar>, i: int) {
    0 <= i < |vs| && vs[i].name == "HOME" && forall j :: i < j < |vs| ==> vs[j].name != "HOME"
  }

  /** The entry says a path outright: no Secret, no reference to another variable, and it starts at the root. */
  ghost predicate SaysAPath(v: EnvVars.EnvVar) {
    && v.source.None? && |v.value| > 0 && v.value[0] == '/'
    && forall k :: 0 <= k < |v.value| - 1 ==> !(v.value[k] == '$' && v.value[k + 1] == '(')
  }

  lemma PathIffNamesHome(v: EnvVars.EnvVar)
    ensures SaysAPath(v) <==> NamesHome(v)
  {
    var s := v.value;
    if ContainsReference(s) {
      var k := LastIndex(s, "$(");
      assert s[k..k + 2][0] == s[k] && s[k..k + 2][1] == s[k + 1];
    }
    forall k | 0 <= k < |s| - 1 && s[k] == '$' && s[k + 1] == '(' ensures ContainsReference(s) {
      assert s[k..k + 2] == "$(";
      assert At(s, "$(", k);
    }
  }

  /** The declared home is what the last entry named HOME says, and nothing when that is no path. */
  lemma {:induction false} HomeSaid(vs: seq<EnvVars.EnvVar>)
    ensures forall i :: LastHome(vs, i) ==> DeclaredHome(vs) == if SaysAPath(vs[i]) then vs[i].value else ""
    ensures (forall i :: !LastHome(vs, i)) ==> DeclaredHome(vs) == ""
  {
    hide NamesHome, SaysAPath;
    if vs != [] {
      var init, last := vs[..|vs| - 1], vs[|vs| - 1];
      PathIffNamesHome(last);
      HomeSaid(init);
      if last.name == "HOME" {
        assert LastHome(vs, |vs| - 1);
      } else {
        forall i ensures LastHome(vs, i) <==> LastHome(init, i) {
          assert forall j :: 0 <= j < |init| ==> init[j] == vs[j];
        }
      }
    }
  }

  /** Where the workspace is mounted: where the spec says; else at the declared home; else at the home of the user
      the container runs as, root before a name; else at /workspace. */
  lemma MountedAt(op: Operator, e: DevEnv)
    requires e.storage.Some?
    ensures var t := TemplateOf(op, e).main;
            && |t.mounts| > 0
            && var path := t.mounts[0].path;
               && (e.storage.value.mountPath != "" ==> path == e.storage.value.mountPath)
               && (e.storage.value.mountPath == "" ==>
                     match e.runtime
                     case None => path == "/workspace"
                     case Some(rt) =>
                       && (forall i :: LastHome(rt.env, i) && SaysAPath(rt.env[i]) ==> path == rt.env[i].value)
                       && ((forall i :: LastHome(rt.env, i) ==> !SaysAPath(rt.env[i])) ==>
                             path == if rt.runAsUser == Some(0) then "/root"
                                     else if rt.user != "" then "/home/" + rt.user else "/workspace"))
  {
    hide LastHome, SaysAPath, DeclaredHome, SudoGranted, SshExposed, RequirementsOf, EnvVars.Rendered, HostPorts;
    if e.storage.value.mountPath == "" && e.runtime.Some? { MountOfRuntime(e.storage.value, e.runtime.value); }
  }

  lemma MountOfRuntime(storage: Storage, rt: Runtime)
    requires storage.mountPath == ""
    ensures forall i :: LastHome(rt.env, i) && SaysAPath(rt.env[i]) ==>
              MountPath(storage, Some(rt)) == rt.env[i].value
    ensures (forall i :: LastHome(rt.env, i) ==> !SaysAPath(rt.env[i])) ==>
              MountPath(storage, Some(rt)) == if rt.runAsUser == Some(0) then "/root"
                                              else if rt.user != "" then "/home/" + rt.user else "/workspace"
  {
    HomeSaid(rt.env);
    hide LastHome, DeclaredHome;
  }

  /** Everything in the pod runs as the one identity, root only if the spec says user 0. */
  lemma OneIdentity(op: Operator, e: DevEnv)
    ensures var t := TemplateOf(op, e); var id := t.main.identity;
            && (id.user == 0 <==> e.runtime.Some? && e.runtime.value.runAsUser == Some(0))
            && (id.nonRoot <==> id.user != 0)
            && (e.runtime.None? ==> id.user == 1000 && id.group == 1000)
            && (e.runtime.Some? ==>
                  && (match e.runtime.value.runAsUser case Some(u) => id.user == u case None => id.user == 1000)
                  && (match e.runtime.value.runAsGroup case Some(g) => id.group == g case None => id.group == 1000))
            && (t.agent.Some? ==> t.agent.value.identity == id)
            && (e.storage.Some? ==> Permissions(id.user, id.group) in t.inits)
            && (Sudoers(id.user) in t.inits <==> e.runtime.Some? && e.runtime.value.sudo && id.user > 0)
            && (forall x :: x in t.inits ==> x in {Permissions(id.user, id.group), Sudoers(id.user)})
            && (e.storage.None? ==> Permissions(id.user, id.group) !in t.inits)
  {
    hide EnvVars.Rendered, RequirementsOf, HostPorts, RdmaOf, MountsOf, VolumesOf, NodeSelectorOf, AnnotationsOf;
  }

  const NVIDIA := "nvidia.com/gpu"
  const METAX := "metax-tech.com/gpu"

  /** An RDMA resource is called neither like a GPU nor like a quantity of the container's own. */
  ghost predicate DeviceNames(op: Operator) {
    op.ibResource !in {NVIDIA, METAX, "cpu", "memory"} && op.roceResource !in {NVIDIA, METAX, "cpu", "memory"}
  }

  ghost function RdmaName(op: Operator, n: Network): string {
    if n.infiniband then (if op.ibResource != "" then op.ibResource else "rdma/ib_shared_devices")
    else if op.roceResource != "" then op.roceResource else "rdma/roce_shared_devices"
  }

  /** The GPUs, at least one, and the RDMA device are requests and limits alike; the rest is limits alone. */
  ghost predicate Claims(q: Requirements, r: Resources, rdma: string) {
    && (forall k :: k in q.requests ==> k in q.limits && q.limits[k] == q.requests[k])
    && (forall k :: k in q.limits && k !in q.requests ==> k == "cpu" || k == "memory")
    && (r.cpu != "" ==> "cpu" in q.limits && q.limits["cpu"] == Parsed(r.cpu))
    && (r.memory != "" ==> "memory" in q.limits && q.limits["memory"] == Parsed(r.memory))
    && (rdma != "" ==> rdma in q.requests && q.requests[rdma] == Count(1))
    && (r.gpu.Some? ==>
          var k, g := if r.gpu.value.vendor == "metax" then METAX else NVIDIA, r.gpu.value;
          && k in q.requests
          && q.requests[k] == Count(if g.count.Some? && g.count.value > 0 then g.count.value else 1))
    && (r.gpu.None? && rdma == "" ==> q.requests == map[])
  }

  lemma RequirementsClaim(r: Resources, rdma: string)
    requires rdma !in {NVIDIA, METAX, "cpu", "memory"}
    ensures Claims(RequirementsOf(r, rdma), r, rdma)
  {
    var q := RequirementsOf(r, rdma);
    assert forall k :: k in q.requests ==> k !in {"cpu", "memory"} by {
      assert |NVIDIA| == 14 && |METAX| == 18 && |"cpu"| == 3 && |"memory"| == 6;
    }
    assert "cpu" != "memory" by { assert |"cpu"| == 3 && |"memory"| == 6; }
  }

  /** What the pod claims of devices: GPUs of the vendor's resource; one RDMA device, with memory locking, iff
      the spec asks for RDMA. */
  lemma DevicesClaimed(op: Operator, e: DevEnv)
    requires DeviceNames(op)
    ensures var t := TemplateOf(op, e).main; var rdma := e.network.Some? && e.network.value.rdma;
            && Claims(t.resources, e.resources, if rdma then RdmaName(op, e.network.value) else "")
            && (t.ipcLock <==> rdma)
  {
    RdmaNamed(op, e.network);
    hide RequirementsOf, Claims, EnvVars.Rendered, MountsOf, HostPorts, IdentityOf, RdmaOf, RdmaName;
    RequirementsClaim(e.resources, RdmaOf(op, e.network).0);
  }

  lemma RdmaNamed(op: Operator, network: Option<Network>)
    requires DeviceNames(op)
    ensures var name := RdmaOf(op, network).0;
            && name !in {NVIDIA, METAX, "cpu", "memory"}
            && (name != "" <==> network.Some? && network.value.rdma)
            && (name != "" ==> name == RdmaName(op, network.value))
  {
    assert |NVIDIA| == 14 && |METAX| == 18 && |"cpu"| == 3 && |"memory"| == 6;
    assert |"rdma/ib_shared_devices"| == 22 && |"rdma/roce_shared_devices"| == 24;
  }

  /** The model asked for is a label of the node, written over any the spec asks for; nothing else is added. */
  lemma NodesSelected(op: Operator, e: DevEnv)
    ensures var nodes := TemplateOf(op, e).nodeSelector;
            match e.resources.gpu
            case None => nodes == e.nodeSelector
            case Some(g) =>
              nodes == if g.model == "" then e.nodeSelector
                       else e.nodeSelector[(if g.vendor == "metax" then METAX else NVIDIA) + ".product" := g.model]
  {
    hide MainOf, VolumesOf, InitsOf, AgentOf, AnnotationsOf, RdmaOf, NodeSelectorOf;
    ModelPinned(e.nodeSelector, e.resources);
  }

  lemma ModelPinned(asked: map<string, string>, r: Resources)
    ensures NodeSelectorOf(asked, r) ==
            match r.gpu
            case None => asked
            case Some(g) =>
              if g.model == "" then asked
              else asked[(if g.vendor == "metax" then METAX else NVIDIA) + ".product" := g.model]
  {
    if r.gpu.Some? { ProductOf(r.gpu.value); }
    hide ProductLabel, VendorOf;
  }

  lemma ProductOf(g: Gpu)
    ensures ProductLabel(VendorOf(g)) == (if g.vendor == "metax" then METAX else NVIDIA) + ".product"
  {
    assert VendorOf(g) == "metax" || VendorOf(g) == "nvidia";
    assert "metax" != "nvidia" by { assert |"metax"| == 5 && |"nvidia"| == 6; }
  }

  /** RoCE alone puts the pod on the host network, and then every port it listens on is declared: the type's,
      sshd's where it is exposed, and every entry's. */
  lemma HostNetworkIff(op: Operator, e: DevEnv)
    ensures var t := TemplateOf(op, e);
            && (t.hostNetwork <==> e.network.Some? && e.network.value.rdma && !e.network.value.infiniband)
            && (!t.hostNetwork ==> t.main.ports == [])
            && (t.hostNetwork ==>
                  && DeclaresHost(t.main.ports, t.main.probePort, TCP)
                  && (e.spec.envType.SSH? || e.spec.sshEnabled ==> DeclaresHost(t.main.ports, 2222, TCP))
                  && forall i :: 0 <= i < |e.spec.ports| ==>
                       DeclaresHost(t.main.ports, e.spec.ports[i].containerPort,
                                    if e.spec.ports[i].kind.UdpPort? then UDP else TCP))
            && (forall i, j :: 0 <= i < j < |t.main.ports| ==>
                  t.main.ports[i].port != t.main.ports[j].port || t.main.ports[i].protocol != t.main.ports[j].protocol)
            && t.main.probePort == match e.spec.envType { case Jupyter => 8888 case VSCode => 8080 case SSH => 2222 }
  {
    HostPortsDeclared(e.spec, |e.spec.ports|);
    hide HostPorts, DeclaresHost;
  }

  ghost predicate DeclaresHost(ports: seq<HostPort>, port: int, protocol: Protocol) {
    exists i :: 0 <= i < |ports| && ports[i].port == port && ports[i].protocol == protocol
  }

  ghost predicate HostPortsDistinct(ports: seq<HostPort>) {
    forall i, j :: 0 <= i < j < |ports| ==> ports[i].port != ports[j].port || ports[i].protocol != ports[j].protocol
  }

  lemma AddHostPortAdds(ports: seq<HostPort>, p: HostPort)
    requires HostPortsDistinct(ports)
    ensures HostPortsDistinct(AddHostPort(ports, p)) && DeclaresHost(AddHostPort(ports, p), p.port, p.protocol)
    ensures forall n, x :: DeclaresHost(ports, n, x) ==> DeclaresHost(AddHostPort(ports, p), n, x)
  {
    var after := AddHostPort(ports, p);
    if after != ports { assert after[|ports|] == p; }
    forall n, x | DeclaresHost(ports, n, x) ensures DeclaresHost(after, n, x) {
      var i :| 0 <= i < |ports| && ports[i].port == n && ports[i].protocol == x;
      assert after[i] == ports[i];
    }
  }

  lemma {:induction false} HostPortsDeclared(s: Spec, n: nat)
    requires n <= |s.ports|
    ensures var ports := HostPorts(s, n);
            && HostPortsDistinct(ports)
            && DeclaresHost(ports, match s.envType { case Jupyter => 8888 case VSCode => 8080 case SSH => 2222 }, TCP)
            && (s.envType.SSH? || s.sshEnabled ==> DeclaresHost(ports, 2222, TCP))
            && forall i :: 0 <= i < n ==>
                 DeclaresHost(ports, s.ports[i].containerPort, if s.ports[i].kind.UdpPort? then UDP else TCP)
  {
    if n > 0 {
      HostPortsDeclared(s, n - 1);
      var p := s.ports[n - 1];
      AddHostPortAdds(HostPorts(s, n - 1), HostPort(p.name, p.containerPort, PortProtocol(p)));
      hide AddHostPort, DeclaresHost, HostPortsDistinct;
    } else {
      var main := [HostPort("main", ServicePorts.MainContainerPort(s.envType), TCP)];
      assert main[0].port == ServicePorts.MainContainerPort(s.envType);
      AddHostPortAdds(main, HostPort("ssh", ServicePorts.SSH_CONTAINER_PORT, TCP));
    }
  }

  function VolumeName(v: Volume): string {
    match v
    case DataClaim(name, claim, readOnly) => name
    case SudoersDir => "sudoers"
    case HostKey(secret, mode) => "ssh-host-key"
    case AuthorizedKeys(secret, key, mode) => "ssh-authorized-keys"
  }

  ghost predicate Mounted(ms: seq<Mount>, m: Mount) { exists i :: 0 <= i < |ms| && ms[i] == m }

  ghost predicate HasVolume(vs: seq<Volume>, name: string) { exists i :: 0 <= i < |vs| && VolumeName(vs[i]) == name }

  /** Every mount but the workspace's, which the claim template provides, has its volume; and every data volume is
      mounted where the spec says. */
  lemma MountsHaveVolumes(op: Operator, e: DevEnv)
    ensures var t := TemplateOf(op, e);
            && (forall i :: 0 <= i < |t.main.mounts| ==>
                  || (t.main.mounts[i].name == "workspace" && e.storage.Some?)
                  || HasVolume(t.volumes, t.main.mounts[i].name))
            && (forall i :: 0 <= i < |e.volumes| ==>
                  var v := e.volumes[i];
                  && Mounted(t.main.mounts, Mount(v.name, v.mountPath, v.subPath, v.readOnly))
                  && HasClaim(t.volumes, DataClaim(v.name, v.claim, v.readOnly)))
  {
    hide EnvVars.Rendered, RequirementsOf, HostPorts, IdentityOf, RdmaOf, MountPath, SudoGranted, SshExposed,
         KeysSource, KeyMode;
    forall i | 0 <= i < |e.volumes|
      ensures var v := e.volumes[i];
              && Mounted(MountsOf(e), Mount(v.name, v.mountPath, v.subPath, v.readOnly))
              && HasClaim(VolumesOf(e), DataClaim(v.name, v.claim, v.readOnly))
    {
      DataMounted(e, i);
    }
    forall i | 0 <= i < |MountsOf(e)|
      ensures (MountsOf(e)[i].name == "workspace" && e.storage.Some?) || HasVolume(VolumesOf(e), MountsOf(e)[i].name)
    {
      MountHasVolume(e, i);
    }
    hide MountsOf, VolumesOf, HasVolume, Mounted, HasClaim;
  }

  ghost predicate HasClaim(vs: seq<Volume>, v: Volume) { exists i :: 0 <= i < |vs| && vs[i] == v }

  lemma DataMounted(e: DevEnv, i: nat)
    requires i < |e.volumes|
    ensures var v := e.volumes[i];
            && Mounted(MountsOf(e), Mount(v.name, v.mountPath, v.subPath, v.readOnly))
            && HasClaim(VolumesOf(e), DataClaim(v.name, v.claim, v.readOnly))
  {
    hide MountPath, SudoGranted, SshExposed, KeysSource, KeyMode;
    var w := if e.storage.None? then 0 else 1;
    assert MountsOf(e)[w + i] == DataMounts(e.volumes)[i] && VolumesOf(e)[i] == DataClaims(e.volumes)[i];
  }

  lemma MountHasVolume(e: DevEnv, i: nat)
    requires i < |MountsOf(e)|
    ensures (MountsOf(e)[i].name == "workspace" && e.storage.Some?) || HasVolume(VolumesOf(e), MountsOf(e)[i].name)
  {
    hide MountPath, SudoGranted, SshExposed, KeysSource, KeyMode;
    var w, n := if e.storage.None? then 0 else 1, |e.volumes|;
    if w <= i < w + n {
      assert MountsOf(e)[i] == DataMounts(e.volumes)[i - w] && VolumesOf(e)[i - w] == DataClaims(e.volumes)[i - w];
      assert VolumeName(VolumesOf(e)[i - w]) == MountsOf(e)[i].name;
    } else if w + n <= i {
      assert VolumeName(VolumesOf(e)[i - w]) == MountsOf(e)[i].name;
    }
  }

  /** sshd's keys: the environment's own host key, and the user's Secret where one is named; readable by root
      alone in a root environment. */
  lemma OwnVolumes(e: DevEnv)
    ensures var ms, vs := MountsOf(e), VolumesOf(e);
            var root := e.runtime.Some? && e.runtime.value.runAsUser == Some(0);
            && (e.spec.envType.SSH? || e.spec.sshEnabled ==>
                  && Mount("ssh-host-key", "/etc/ssh/ssh_host_ed25519_key", "ssh_host_ed25519_key", true) in ms
                  && Mount("ssh-authorized-keys", "/run/ssh", "", true) in ms
                  && HostKey(e.name + "-ssh-host-key", if root then 0x180 else 0x1A4) in vs
                  && (e.keys.Some? ==>
                        AuthorizedKeys(e.keys.value.name, e.keys.value.key, if root then 0x180 else 0x1A4) in vs)
                  && (e.keys.None? ==>
                        AuthorizedKeys(e.name + "-ssh-client-key", "id_ed25519.pub",
                                       if root then 0x180 else 0x1A4) in vs)
                  && HasVolume(vs, "ssh-host-key") && HasVolume(vs, "ssh-authorized-keys"))
            && (SudoGranted(e.runtime) ==>
                  && Mount("sudoers", "/etc/sudoers.d/20-cubestack", "20-cubestack", true) in ms
                  && SudoersDir in vs && HasVolume(vs, "sudoers"))
  {
    hide MountPath;
    var vs, n := VolumesOf(e), |e.volumes|;
    var g := if SudoGranted(e.runtime) then 1 else 0;
    if SudoGranted(e.runtime) { assert VolumeName(vs[n]) == "sudoers"; }
    if SshExposed(e.spec) {
      assert VolumeName(vs[n + g]) == "ssh-host-key" && VolumeName(vs[n + g + 1]) == "ssh-authorized-keys";
    }
  }

  /** The agent runs beside the environment iff it has an idle timeout, and watches what users connect to. */
  lemma AgentBeside(op: Operator, e: DevEnv)
    ensures var t := TemplateOf(op, e);
            && (t.agent.Some? <==> e.idleTimeout > 0)
            && (t.agent.Some? ==> t.agent.value.image == op.agentImage && t.serviceAccount == e.name + "-activity")
            && (t.agent.None? ==> t.serviceAccount == "")
            && (t.agent.Some? ==>
                  var ports := t.agent.value.watched;
                  && (e.spec.envType.SSH? ==> ports == [2222])
                  && (e.spec.envType.Jupyter? ==> ports == if e.spec.sshEnabled then [8888, 2222] else [8888])
                  && (e.spec.envType.VSCode? ==> ports == if e.spec.sshEnabled then [8080, 2222] else [8080]))
  {
    hide MainOf, VolumesOf, InitsOf, AnnotationsOf, NodeSelectorOf, RdmaOf, IdentityOf;
  }

  /** What the user declared of the container is what runs, and a new revision of a Secret changes the template. */
  lemma AsDeclared(op: Operator, e: DevEnv)
    ensures var t := TemplateOf(op, e);
            && t.main.image == e.image && t.scheduler == e.scheduler && t.owner == e.name
            && t.main.command == (if e.runtime.Some? then e.runtime.value.command else [])
            && t.main.args == (if e.runtime.Some? then e.runtime.value.args else [])
            && t.main.env == EnvVars.Rendered(ContainerOf(e), if e.runtime.Some? then e.runtime.value.env else [])
            && (e.spec.envType.Jupyter? && e.tokenRevision != "" ==>
                  Annotated(t.annotations, "jupyter-token", e.tokenRevision))
            && ((e.spec.envType.SSH? || e.spec.sshEnabled) && e.keysRevision != "" ==>
                  Annotated(t.annotations, "ssh-keys", e.keysRevision))
  {
    hide RequirementsOf, MountsOf, VolumesOf, InitsOf, AgentOf, NodeSelectorOf, RdmaOf, IdentityOf, EnvVars.Rendered,
         HostPorts, ContainerOf, AnnotationsOf, Annotated;
    RevisionsAnnotated(e);
  }

  lemma RevisionsAnnotated(e: DevEnv)
    ensures e.spec.envType.Jupyter? && e.tokenRevision != "" ==>
              Annotated(AnnotationsOf(e), "jupyter-token", e.tokenRevision)
    ensures (e.spec.envType.SSH? || e.spec.sshEnabled) && e.keysRevision != "" ==>
              Annotated(AnnotationsOf(e), "ssh-keys", e.keysRevision)
  {
    var token, keys := "ai.cubestack.io/jupyter-token-revision", "ai.cubestack.io/ssh-keys-revision";
    assert token == "ai.cubestack.io/" + "jupyter-token" + "-revision";
    assert keys == "ai.cubestack.io/" + "ssh-keys" + "-revision";
    assert |token| == 38 && |keys| == 33;
  }

  ghost predicate Annotated(annotations: map<string, string>, secret: string, revision: string) {
    var key := "ai.cubestack.io/" + secret + "-revision";
    key in annotations && annotations[key] == revision
  }
}
