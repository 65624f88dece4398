/** Rolling a workload by a hash of its template's inputs
    (operator/internal/controller/devenvironment_controller.go:694-707, 3230-3501).
    The stored hash is modelled by the input it digests: sha256 is taken to be injective. */
module StatefulSets {
  import opened Wrappers
  import opened Strings
  import opened DevSpec
  import opened PodTemplates
  import EnvVars

  datatype RdmaInput = RdmaInput(hostNetwork: bool, resource: string, ports: seq<HostPort>)

  /** templateInput: the hand-assembled hash input. */
  datatype Input = Input(
    envType: EnvType,
    image: string,
    resources: Resources,
    runtime: Option<Runtime>,
    storage: Option<Storage>,
    volumes: seq<DataVolume>,
    sshExposed: bool,
    nodeSelector: map<string, string>,
    scheduler: string,
    tokenRevision: string,
    keysRevision: string,
    sshMount: string,
    podSecurity: string,
    rootLauncher: string,
    workspaceHome: string,
    typeEnv: string,
    rdma: Option<RdmaInput>,
    shareProcess: bool,
    agent: string,
    agentImage: string,
    serviceAccount: string,
    sudoers: string)

  const MOUNT_VERSION := "dir-items-1"

  function MountKey(source: KeysSecret): string { MOUNT_VERSION + "/" + source.name + "/" + source.key }

  function RdmaInputOf(op: Operator, e: DevEnv): Option<RdmaInput> {
    var (resource, hostNetwork) := RdmaOf(op, e.network);
    if resource == "" then None
    else Some(RdmaInput(hostNetwork, resource, if hostNetwork then HostPorts(e.spec, |e.spec.ports|) else []))
  }

  /** stsSpecHash's input. */
  function InputOf(op: Operator, e: DevEnv): Input {
    Input(e.spec.envType, e.image, e.resources, e.runtime, e.storage, e.volumes, SshExposed(e.spec), e.nodeSelector,
          e.scheduler, e.tokenRevision, e.keysRevision, MountKey(KeysSource(e)), "seccomp-runtime-default-1",
          if e.spec.envType == Jupyter && IdentityOf(e.runtime).user == 0 then "root-launcher-env-1" else "",
          if e.storage.Some? then "workspace-home-1" else "",
          if e.spec.envType != VSCode then "cubstack-type-env-1" else "",
          RdmaInputOf(op, e), AgentEnabled(e),
          if AgentEnabled(e) then "1" else "",
          if AgentEnabled(e) then op.agentImage else "",
          if AgentEnabled(e) then e.name + "-activity" else "",
          if SudoGranted(e.runtime) then "sudoers-1" else "")
  }

  // ------------------------------------------------------------ the key is complete

  ghost predicate NoSlash(s: string) { forall i :: 0 <= i < |s| ==> s[i] != '/' }

  /** Names of objects carry no slash, so the mount key tells its two parts apart. */
  lemma MountKeyTellsApart(a: KeysSecret, b: KeysSecret)
    requires NoSlash(a.name) && NoSlash(b.name) && MountKey(a) == MountKey(b)
    ensures a == b
  {
    var n := |MOUNT_VERSION| + 1;
    var s, t := a.name + "/" + a.key, b.name + "/" + b.key;
    assert MountKey(a)[n..] == s && MountKey(b)[n..] == t;
    FirstSlash(a);
    FirstSlash(b);
    assert s[..|a.name|] == a.name && t[..|b.name|] == b.name;
    assert s[|a.name| + 1..] == a.key && t[|b.name| + 1..] == b.key;
  }

  lemma FirstSlash(a: KeysSecret)
    requires NoSlash(a.name)
    ensures IndexOf(a.name + "/" + a.key, '/') == |a.name|
  {
    var s := a.name + "/" + a.key;
    assert s[|a.name|] == '/';
    assert forall i :: 0 <= i < |a.name| ==> s[i] == a.name[i];
  }

  ghost predicate IsObject(e: DevEnv, namespace: string, name: string) {
    e.namespace == namespace && e.name == name && NoSlash(name) && NoSlash(KeysSource(e).name)
  }

  /** The input sees the whole RDMA request: the defaulted resource names are never empty. */
  lemma RdmaSeen(op: Operator, e: DevEnv, op': Operator, e': DevEnv)
    requires RdmaInputOf(op, e) == RdmaInputOf(op', e')
    ensures RdmaOf(op, e.network) == RdmaOf(op', e'.network)
    ensures RdmaOf(op, e.network).1 ==> HostPorts(e.spec, |e.spec.ports|) == HostPorts(e'.spec, |e'.spec.ports|)
  {}

  /** What the template reads besides the RDMA request and the agent. */
  ghost predicate SameSources(e: DevEnv, e': DevEnv) {
    && e.namespace == e'.namespace && e.name == e'.name && e.spec.envType == e'.spec.envType
    && SshExposed(e.spec) == SshExposed(e'.spec) && KeysSource(e) == KeysSource(e')
    && e.image == e'.image && e.resources == e'.resources && e.runtime == e'.runtime && e.storage == e'.storage
    && e.volumes == e'.volumes && e.nodeSelector == e'.nodeSelector && e.scheduler == e'.scheduler
    && e.tokenRevision == e'.tokenRevision && e.keysRevision == e'.keysRevision && AgentEnabled(e) == AgentEnabled(e')
  }

  lemma EqualInputsSameSources(op: Operator, e: DevEnv, op': Operator, e': DevEnv)
    requires IsObject(e, e'.namespace, e'.name) && IsObject(e', e.namespace, e.name)
    requires InputOf(op, e) == InputOf(op', e')
    ensures SameSources(e, e') && RdmaInputOf(op, e) == RdmaInputOf(op', e')
    ensures AgentEnabled(e) ==> op.agentImage == op'.agentImage
  {
    hide RdmaInputOf, KeysSource, MountKey, SshExposed, NoSlash, IdentityOf;
    MountKeyTellsApart(KeysSource(e), KeysSource(e'));
  }

  lemma SameMain(op: Operator, e: DevEnv, op': Operator, e': DevEnv)
    requires SameSources(e, e') && RdmaInputOf(op, e) == RdmaInputOf(op', e')
    ensures MainOf(op, e) == MainOf(op', e')
  {
    hide RdmaOf, RdmaInputOf, HostPorts, KeysSource, SshExposed, MountPath, EnvVars.Rendered, RequirementsOf;
    hide IdentityOf;
    RdmaSeen(op, e, op', e');
    assert ContainerOf(e) == ContainerOf(e');
    assert MountsOf(e) == MountsOf(e');
  }

  /** Hash key completeness: for one object, whatever the operator's flags were when each was rendered,
      equal inputs mean equal pod templates, annotations included. */
  lemma EqualInputsEqualTemplates(op: Operator, e: DevEnv, op': Operator, e': DevEnv)
    requires IsObject(e, e'.namespace, e'.name) && IsObject(e', e.namespace, e.name)
    requires InputOf(op, e) == InputOf(op', e')
    ensures TemplateOf(op, e) == TemplateOf(op', e')
  {
    hide InputOf, RdmaInputOf, RdmaOf, HostPorts, KeysSource, MainOf, SshExposed, IdentityOf, NodeSelectorOf;
    EqualInputsSameSources(op, e, op', e');
    RdmaSeen(op, e, op', e');
    SameMain(op, e, op', e');
    assert VolumesOf(e) == VolumesOf(e');
    assert AnnotationsOf(e) == AnnotationsOf(e');
    assert AgentOf(op, e) == AgentOf(op', e');
  }

  // ---------------------------------------------------------------------- applying it

  datatype Retention = Retention(deletedRetains: bool, scaledRetains: bool)

  /** `claims`: the size the workspace claim template asks for, if there is one. */
  datatype StatefulSet = StatefulSet(owned: bool, key: Option<Input>, template: Template, replicas: Option<int>,
                                     retention: Option<Retention>, claims: Option<string>)

  function Desired(op: Operator, e: DevEnv, replicas: int): StatefulSet {
    StatefulSet(true, Some(InputOf(op, e)), TemplateOf(op, e), Some(replicas),
                Some(Retention(e.storage.Some? && e.storage.value.retain, true)),
                if e.storage.Some? then Some(e.storage.value.size) else None)
  }

  predicate UpToDate(x: StatefulSet, desired: StatefulSet) {
    x.key == desired.key && x.replicas == desired.replicas && x.retention == desired.retention
  }

  /** What a successful applyStatefulSet leaves. */
  function Applied(x: Option<StatefulSet>, desired: StatefulSet): StatefulSet {
    match x
    case None => desired
    case Some(s) => if UpToDate(s, desired) then s else desired.(claims := s.claims)
  }

  /** The spec asks that its workspace survive the environment. */
  ghost predicate AsksToKeep(e: DevEnv) { e.storage.Some? && e.storage.value.retain }

  /** With the object goes its claim, when its policy says so; the platform keeps a claim of no policy. */
  predicate TakesTheClaim(x: StatefulSet) { x.retention.Some? && !x.retention.value.deletedRetains }

  /** The API server's objects: the StatefulSet, whether its workspace claim was taken off it, and whether that
      claim has been lost. */
  class Workload {
    var stored: Option<StatefulSet>
    var detached: bool
    var lost: bool
    /** API writes that failed. */
    var refused: nat

    constructor ()
      ensures stored == None && !detached && !lost && refused == 0
    {
      stored, detached, lost, refused := None, false, false, 0;
    }

    /** One API write: it may fail. */
    method Write() returns (ok: bool)
      modifies this`refused
      ensures refused == old(refused) + if ok then 0 else 1
    {
      ok := *;
      if !ok { refused := refused + 1; }
    }

    /** applyStatefulSet; a foreign object of the same name is left alone and fails the step. */
    method Apply(op: Operator, e: DevEnv, running: bool, autoStopped: bool) returns (ok: bool)
      modifies this`stored, this`refused
      ensures ok ==> stored == Some(Applied(old(stored), Desired(op, e, if running && !autoStopped then 1 else 0)))
      // one replica iff it is to run; its workspace outlives it iff the spec asks for that, and every stop
      ensures ok ==> stored.Some? && stored.value.owned
      ensures ok ==> stored.value.replicas == Some(if running && !autoStopped then 1 else 0)
      ensures ok ==> stored.value.retention == Some(Retention(e.storage.Some? && e.storage.value.retain, true))
      ensures ok && old(stored).Some? ==> stored.value.claims == old(stored).value.claims
      ensures ok && old(stored).None? ==>
                && stored.value.key == Some(InputOf(op, e)) && stored.value.template == TemplateOf(op, e)
                && (e.storage.Some? ==> stored.value.claims == Some(e.storage.value.size))
                && (e.storage.None? ==> stored.value.claims == None)
      ensures !ok ==> stored == old(stored)
      ensures !ok <==> (old(stored).Some? && !old(stored).value.owned) || refused > old(refused)
    {
      hide InputOf, TemplateOf;
      var replicas := 0;
      if running && !autoStopped { replicas := 1; }
      var sts := Desired(op, e, replicas);
      if stored.None? {
        ok := Write();
        if ok { stored := Some(sts); }
        return;
      }
      var existing := stored.value;
      if !existing.owned { return false; }
      var sameRetention := existing.retention.Some? && existing.retention == sts.retention;
      if existing.key == sts.key && existing.replicas == sts.replicas && sameRetention { return true; }
      sts := sts.(claims := existing.claims);
      ok := Write();
      if ok { stored := Some(sts); }
    }

    /** stopCompute. */
    method ScaleToZero() returns (ok: bool)
      modifies this`stored, this`refused
      ensures stored == old(stored) || (old(stored).Some? && stored == Some(old(stored).value.(replicas := Some(0))))
      ensures ok && stored.Some? && stored.value.owned ==> stored.value.replicas == Some(0)
      ensures old(stored).Some? && !old(stored).value.owned ==> stored == old(stored)
      ensures ok <==> refused == old(refused)
    {
      if stored.None? || !stored.value.owned || stored.value.replicas == Some(0) { return true; }
      ok := Write();
      if ok { stored := Some(stored.value.(replicas := Some(0))); }
    }

    /** detachWorkspaceClaims: the policy, where it does not say so yet, and then the claim itself. */
    method Detach() returns (ok: bool)
      requires stored.Some?
      modifies this`stored, this`detached, this`refused
      ensures stored.Some? && stored.value == old(stored).value.(retention := stored.value.retention)
      ensures stored.value.retention in {old(stored).value.retention, Some(Retention(true, true))}
      ensures ok ==> detached && stored.value.retention.Some? && stored.value.retention.value.deletedRetains
      ensures ok <==> refused == old(refused)
    {
      var policy := stored.value.retention;
      if policy.None? || !policy.value.deletedRetains {
        ok := Write();
        if !ok { return; }
        stored := Some(stored.value.(retention := Some(Retention(true, true))));
      }
      ok := true;
      if !detached {
        ok := Write();
        if ok { detached := true; }
      }
    }

    /** deleteStatefulSet: an environment that asks to keep its workspace keeps it, even when the policy it was
        last applied with says otherwise; of one that does not, the policy decides. */
    method Delete(e: DevEnv) returns (ok: bool)
      modifies this
      ensures old(stored).None? || !old(stored).value.owned ==>
                ok && stored == old(stored) && lost == old(lost) && detached == old(detached)
      ensures ok && old(stored).Some? && old(stored).value.owned ==> stored == None
      ensures AsksToKeep(e) ==> lost == old(lost)
      ensures !AsksToKeep(e) && ok && old(stored).Some? && old(stored).value.owned ==>
                (lost <==> old(lost) || (!old(detached) && TakesTheClaim(old(stored).value)))
      ensures !ok ==> lost == old(lost)
      ensures !ok ==>
                && stored.Some? && old(stored).Some?
                && stored.value == old(stored).value.(retention := stored.value.retention)
      ensures ok <==> refused == old(refused)
    {
      ok := true;
      if stored.None? || !stored.value.owned { return; }
      if e.storage.Some? && e.storage.value.retain {
        ok := Detach();
        if !ok { return; }
      }
      ok := Write();
      if !ok { return; }
      if TakesTheClaim(stored.value) && !detached { lost := true; }
      stored := None;
    }
  }

  /** The stored hash is the hash of the stored template. */
  ghost predicate Honest(x: Option<StatefulSet>, namespace: string, name: string) {
    x.Some? && x.value.key.Some? ==>
      exists op, e :: IsObject(e, namespace, name) && x.value.key == Some(InputOf(op, e))
        && x.value.template == TemplateOf(op, e)
  }

  /** Although it skips on a hash match, what a successful apply leaves is what is desired; the claim
      templates of an existing object are kept, as they cannot change. */
  lemma AppliedIsDesired(x: Option<StatefulSet>, op: Operator, e: DevEnv, replicas: int)
    requires IsObject(e, e.namespace, e.name) && Honest(x, e.namespace, e.name)
    ensures var r, d := Applied(x, Desired(op, e, replicas)), Desired(op, e, replicas);
            && r.template == TemplateOf(op, e) && r.replicas == Some(replicas)
            && r.retention == Some(Retention(e.storage.Some? && e.storage.value.retain, true))
            && r.claims == (if x.Some? then x.value.claims else d.claims)
            && Honest(Some(r), e.namespace, e.name)
  {
    hide InputOf, TemplateOf;
    if x.Some? && UpToDate(x.value, Desired(op, e, replicas)) {
      var op', e' :| IsObject(e', e.namespace, e.name) && x.value.key == Some(InputOf(op', e'))
        && x.value.template == TemplateOf(op', e');
      EqualInputsEqualTemplates(op', e', op, e);
    }
  }

  /** What may happen to the object: applies, from whatever spec and flags are current, a stop, the
      retention patch of a deletion, and its removal. */
  datatype Act = Apply(op: Operator, e: DevEnv, replicas: int) | ScaleToZero | Retain | Remove

  ghost predicate Acts(x: Option<StatefulSet>, x': Option<StatefulSet>, a: Act) {
    || x' == x
    || match a
       case Apply(op, e, replicas) => x' == Some(Applied(x, Desired(op, e, replicas)))
       case ScaleToZero => x.Some? && x' == Some(x.value.(replicas := Some(0)))
       case Retain => x.Some? && x' == Some(x.value.(retention := Some(Retention(true, true))))
       case Remove => x' == None
  }

  ghost predicate IsRun(xs: seq<Option<StatefulSet>>, acts: seq<Act>, namespace: string, name: string) {
    && |xs| == |acts| + 1 && xs[0] == None
    && (forall i :: 0 <= i < |acts| ==> Acts(xs[i], xs[i + 1], acts[i]))
    && (forall i :: 0 <= i < |acts| && acts[i].Apply? ==> IsObject(acts[i].e, namespace, name))
  }

  lemma {:induction false} AlwaysHonest(xs: seq<Option<StatefulSet>>, acts: seq<Act>, namespace: string, name: string,
                                        k: nat)
    requires IsRun(xs, acts, namespace, name) && k < |xs|
    ensures Honest(xs[k], namespace, name)
  {
    hide InputOf, TemplateOf, IsObject;
    if k > 0 {
      AlwaysHonest(xs, acts, namespace, name, k - 1);
      assert Acts(xs[k - 1], xs[k - 1 + 1], acts[k - 1]);
      if acts[k - 1].Apply? {
        ApplyKeepsHonest(xs[k - 1], acts[k - 1].op, acts[k - 1].e, acts[k - 1].replicas, namespace, name);
      }
    }
  }

  lemma ApplyKeepsHonest(x: Option<StatefulSet>, op: Operator, e: DevEnv, replicas: int, namespace: string,
                         name: string)
    requires IsObject(e, namespace, name) && Honest(x, namespace, name)
    ensures Honest(Some(Applied(x, Desired(op, e, replicas))), namespace, name)
  {
    hide InputOf, TemplateOf;
    AppliedIsDesired(x, op, e, replicas);
  }

  /** In any run, after every successful apply the stored template is the one rendered now, the replicas are
      those asked for, the workspace outlives the object iff the spec asks for that, and outlives every stop;
      an object that existed keeps its claim template, and a new one asks for the spec's size. */
  lemma AppliedInRunIsDesired(xs: seq<Option<StatefulSet>>, acts: seq<Act>, namespace: string, name: string, i: nat)
    requires IsRun(xs, acts, namespace, name) && i < |acts| && acts[i].Apply?
    requires xs[i + 1] == Some(Applied(xs[i], Desired(acts[i].op, acts[i].e, acts[i].replicas)))
    ensures var a, x := acts[i], xs[i + 1].value;
            && x.template == TemplateOf(a.op, a.e) && x.replicas == Some(a.replicas)
            && x.retention == Some(Retention(a.e.storage.Some? && a.e.storage.value.retain, true))
            && (xs[i].Some? ==> x.claims == xs[i].value.claims)
            && (xs[i].None? ==> x.claims == match a.e.storage case None => None case Some(st) => Some(st.size))
  {
    hide InputOf, TemplateOf;
    AlwaysHonest(xs, acts, namespace, name, i);
    assert IsObject(acts[i].e, namespace, name);
    AppliedIsDesired(xs[i], acts[i].op, acts[i].e, acts[i].replicas);
  }

  /** Whether the workspace was last asked to be kept: by the last apply that took effect, or by a deletion. */
  ghost function KeepAsked(xs: seq<Option<StatefulSet>>, acts: seq<Act>, k: nat): bool
    requires |xs| == |acts| + 1 && k < |xs|
  {
    if k == 0 then false
    else
      match acts[k - 1]
      case Apply(op, e, replicas) =>
        if xs[k] == Some(Applied(xs[k - 1], Desired(op, e, replicas))) then AsksToKeep(e)
        else KeepAsked(xs, acts, k - 1)
      case Retain => (xs[k].Some? && xs[k] != xs[k - 1]) || KeepAsked(xs, acts, k - 1)
      case ScaleToZero => KeepAsked(xs, acts, k - 1)
      case Remove => KeepAsked(xs, acts, k - 1)
  }

  /** In every run, the object takes its claim with it exactly when it was not last asked to be kept; and no
      scaling to zero ever takes it. */
  lemma {:induction false} ClaimKeptAsAsked(xs: seq<Option<StatefulSet>>, acts: seq<Act>, namespace: string,
                                            name: string, k: nat)
    requires IsRun(xs, acts, namespace, name) && k < |xs| && xs[k].Some?
    ensures TakesTheClaim(xs[k].value) <==> !KeepAsked(xs, acts, k)
    ensures xs[k].value.retention.Some? && xs[k].value.retention.value.scaledRetains
  {
    hide InputOf, TemplateOf, IsObject;
    assert Acts(xs[k - 1], xs[k - 1 + 1], acts[k - 1]);
    if xs[k - 1].Some? { ClaimKeptAsAsked(xs, acts, namespace, name, k - 1); }
  }
}
