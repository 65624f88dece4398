# Verification of the cubestack operator

This project models the decision logic of the Kubernetes operator under `operator/` and proves what it
promises. The API server is an object store read and written one request at a time; a pass may end at any
write. What a pass does not decide itself, such as readiness readings, the rendered templates and the verdict
of the Gateway, is a parameter, so the theorems hold for every choice of it. The code works step by step on
stored objects: each such operation is a class method or a loop here, proved against a specification
function, and the theorems over runs are about those functions.

Inference services:

- `Topo`: the role order, Kahn's algorithm with a deferred endpoint role.
- `Services`: writing a generated Service only when the write would change it.
- `Rollout`, `ApplyWorkloads`: one apply pass over the roles, as a function of the readings it meets and as it
  runs. `Convergence`: where repeated passes end. `Freshness`: what the collected statuses prove.
- `ServiceStatus`: conditions, phase and revision over one reconcile.

Development environments:

- `DevSpec`, `PortNames`, `PortAllocation`: the exposures, the names that record an allocation, the allocator.
- `PortPool`, `PortStability`: the shared pool as a state machine, its safety and the stability of addresses.
  `GatewayRoutes`: the gateway step of a pass, proved to leave only what that state machine allows.
- `ServicePorts`: the rendered Service, the collision check, and the backends of the routes.
- `Activity`, `Idle`, `IdleRuns`: the activity agent, the controller's idle judgement and stop state, and runs
  of both with clients in between.
- `EnvVars`, `RenderedEnv`, `PodTemplates`, `StatefulSets`: the container's environment and what it says entry by
  entry, the pod template, and rolling it by a hash of hand-picked inputs; what becomes of the workspace claim.

Both: `Numbers` and `Overrides` (JSON number equality per section 6 of RFC 8259, and override validation),
`ProcStat` (a stat line as in proc_pid_stat(5)), `Strings` and `Wrappers` (the library functions relied on).

## Where the code does less than it says

Each of these is a lemma with a concrete input, beside a lemma that says exactly when the code meets the
property.

- Ready can be stale: when a dependency's readiness drops between its own report and the gate of a dependant
  in the same pass, every status reads ready while the dependant is held on its old template
  (`Freshness.DropHidesHeldRollout`, exact in `Freshness.FinishedIff`).
- The rollout order is not kept by creations: a new role is gated on readiness only
  (`Rollout.CreationIgnoresTemplate`, exact in `Rollout.StepKeepsClosed`).
- A role named like another role's headless Service makes every pass write
  (`Convergence.HeadlessNameClash`, exact in `Convergence.RestsIff`).
- An integer's enum check compares exactly, except that an enum number whose exponent no int holds never
  matches, not even a zero (`Overrides.HugeExponentRejected`, exact in `Overrides.IntegerEnumIsByValue`).
  `numbersEqual` by itself also takes 0.01 and 1e-2 for different numbers (`Numbers.FractionsDiffer`, exact in
  `Numbers.EqualExact`); no override reaches that, because only int64 literals are accepted as numbers.
- A held port is not reserved for its endpoint: exposing ssh moves the tcp entry that held the lowest port
  (`PortAllocation.EnablingSshMovesPorts`, exact in `PortAllocation.KeepsIff`).
- The collision check accepts a spec, stored before the CRD kept entry names unique, that publishes one name
  for two ports (`ServicePorts.FoldedNameRepeats`, exact in `ServicePorts.EndpointNamesIff`).
- `servicePortFor` answers 22 for an entry named `ssh` even when ssh is not exposed
  (`ServicePorts.SshNamedEntryMisrouted`, exact in `ServicePorts.L4EntryRoutedIff`).
- Two override lists, the empty one and the one with a single empty entry, have one canonical form
  (`Overrides.EmptyListsLookAlike`, exact in `Overrides.CanonicalLists`).

## Model

| member | source | states |
|---|---|---|
| Topo.TopoOrder | operator/internal/controller/topo.go:30-78 | Total for unique role names, deferral included; an unknown dependency is reported iff there is one; a cycle is reported iff a non-empty set of roles each depends on a member of that set; otherwise the order is a permutation with every dependency earlier, and an endpoint role nothing depends on is last |
| Topo.BuildGraph | operator/internal/controller/topo.go:42-53 | The adjacency built by the loop lists every dependant as often as it repeats the dependency, and the in-degrees are the lengths of the `dependsOn` lists |
| Topo.FindUnknown | operator/internal/controller/topo.go:35-41 | Finds a dependency that names no declared role iff there is one |
| Topo.OrderExcludesCycle | operator/internal/controller/topo.go:75-77 | A dependency-first order of all roles and a cycle cannot both exist |
| Topo.CycleNotPlaced | operator/internal/controller/topo.go:61-74 | No member of a cycle is ever placed |
| Topo.LeftoverIsCycle | operator/internal/controller/topo.go:75-77 | When the worklist runs dry early, the roles left over are a cycle |
| Topo.RepeatsDoNotMatter | operator/internal/controller/topo.go:48-53 | Lists that differ only in repeated `dependsOn` entries resolve, have a cycle and admit an order alike |
| Services.NeedsUpdate | operator/internal/controller/apply.go:303-349 | An update is asked for exactly when storing the desired Service would change the stored one, after the API server's defaulting |
| Services.DefaultsAreNotDrift | operator/internal/controller/apply.go:303-349 | Whatever the server fills in, the stored form of a desired Service is a fixed point of writing it again |
| Services.StoredAsAsked | operator/internal/controller/apply.go:303-349 | A write stores the labels, annotations, selector and ports asked for, with TCP and the own number where none is named, and keeps an address already given; a Service is left alone iff it is that |
| Rollout.StepKeepsClosed | operator/internal/controller/apply.go:116-160 | One turn of the loop keeps the set of roles on their new template closed under `dependsOn`, except exactly when it creates a role beside a ready dependency that is still on its old template |
| Rollout.RolloutOrder | operator/internal/controller/apply.go:96-190 | With every workload present, at every point inside a pass and under arbitrary readiness readings, the updated set stays closed |
| Rollout.RolloutOrderOverRuns | operator/internal/controller/apply.go:77-199 | Over any run of complete or aborted passes, an upgrade that starts with no role on its new template keeps the updated set closed |
| Rollout.ClosedTransitively | operator/internal/controller/apply.go:427-454 | A closed set is closed along every dependency path |
| Rollout.CleanupKeepsDesired | operator/internal/controller/apply.go:616-676 | Orphan removal leaves every desired workload as it is |
| Rollout.SweepIsExact | operator/internal/controller/apply.go:616-676 | Orphan removal, however far it gets, deletes only objects of ours that no role asks for: a workload whose role is gone or is of the other kind now, a Service that is neither a role's own nor a headless sibling; what it looked at and nobody asks for is gone |
| Rollout.CleanupIsTidy | operator/internal/controller/apply.go:616-676 | Orphan removal that gets to the end leaves no such object |
| Rollout.PassIsTidy | operator/internal/controller/apply.go:77-199 | So a pass that ends well leaves nothing of ours that no role asks for, and only that is gone of what its roles left |
| Rollout.ReasonOfPass | operator/internal/controller/apply.go:48-62 | The reason a pass reports: rollout iff it gave some workload another template; else scaling iff it changed one; else reconciling iff it found one missing; else none |
| Rollout.SweepKeepsClosed | operator/internal/controller/apply.go:656-676 | Removing any part of the orphans keeps the updated set closed |
| Rollout.CreationIgnoresTemplate | operator/internal/controller/apply.go:407-421 | Creation is gated on readiness only: a concrete state in which it breaks the closure |
| ApplyWorkloads.Cluster.IsRoleReady | operator/internal/controller/apply.go:561-590 | One readiness reading: the workload of the role's kind exists, at least the desired replicas are ready, and its claim is bound where it mounts one |
| ApplyWorkloads.Cluster.DependenciesReady | operator/internal/controller/apply.go:407-421 | True iff every dependency reads ready, although it stops at the first that does not |
| ApplyWorkloads.Cluster.DependenciesConverged | operator/internal/controller/apply.go:427-454 | True iff every dependency runs its current template and reads ready |
| ApplyWorkloads.Cluster.ApplyResource | operator/internal/controller/apply.go:238-258 | Refuses a foreign Service and otherwise leaves ours as asked; it counts a write iff something changed and touches no other Service |
| ApplyWorkloads.Cluster.ApplyService | operator/internal/controller/apply.go:216-236 | The role's Service and its headless sibling, stopping at the first refusal |
| ApplyWorkloads.Cluster.ApplyOne | operator/internal/controller/apply.go:96-190 | The create / hold / roll out / resize / scale / skip decision leaves the cluster, the waiting list, the status and the progress reason the specification gives |
| ApplyWorkloads.Cluster.ApplyInOrder | operator/internal/controller/apply.go:96-190 | The loop over the roles refines the pass specification, up to the role an error stops it at |
| ApplyWorkloads.Cluster.RemoveOrphans | operator/internal/controller/apply.go:616-676 | Deletes only what no role asks for, kind included, one call each; when no delete fails, every workload of ours left is a role's of that kind and every Service a role's own or its headless sibling |
| ApplyWorkloads.Cluster.SweepWorkloads | operator/internal/controller/apply.go:616-640 | The workloads, up to the delete that fails; without one, none of ours is left that no role of its kind asks for |
| ApplyWorkloads.Cluster.SweepServices | operator/internal/controller/apply.go:640-651 | The Services, likewise |
| ApplyWorkloads.Cluster.Apply | operator/internal/controller/apply.go:77-199 | A whole apply: refuses iff the roles do not resolve or form a cycle; otherwise it is one full pass in a dependency order, after which nothing of ours is left that no role asks for; or that pass with some of those objects still there, when a delete failed; nothing else is ever removed |
| ApplyWorkloads.OrderOfProfile | operator/internal/controller/topo.go:30-78 | A successful `topoOrder` gives the loop each role once, dependencies first |
| Convergence.StepKeepsDesired | operator/internal/controller/apply.go:96-190 | No step moves any role away from its desired spec |
| Convergence.StepLeaves | operator/internal/controller/apply.go:96-190 | One step touches no other workload; a role that waits keeps the workload it has, one that does not wait is at its spec (ours, its template, replicas and group size), and another owner's object stops the step untouched |
| Convergence.StepReaches | operator/internal/controller/apply.go:116-181 | A role whose dependencies are updated and up reaches its desired spec in its own step |
| Convergence.PassReaches | operator/internal/controller/apply.go:77-199 | A pass finishes every role whose dependencies were finished when it began |
| Convergence.PassProgresses | operator/internal/controller/apply.go:77-199 | Each pass strictly reduces the set of roles not at their desired spec |
| Convergence.PassOutcome | operator/internal/controller/apply.go:77-199 | A pass fails nowhere, leaves every role's Service and headless sibling ours and as asked, leaves nothing of ours that no role asks for, and moves no role away from its spec |
| Convergence.Converges | operator/internal/controller/apply.go:77-199 | At most as many passes as roles bring every role to its spec and every Service to what is asked, with nothing else of ours left; the next pass writes nothing and changes no object |
| Convergence.FixedPoint | operator/internal/controller/apply.go:303-349 | With every role and Service at rest, no point of a pass writes |
| Convergence.RestsIff | operator/internal/controller/apply.go:216-236 | The Services can come to rest at all iff roles that write one Service name ask for one Service |
| Convergence.HeadlessNameClash | operator/internal/controller/apply.go:216-236 | A role named like another's headless Service makes every pass write, for ever |
| Freshness.NothingWaiting | operator/internal/controller/apply.go:96-190 | An empty waiting list means every role so far is at its desired spec |
| Freshness.AllReadyNobodyWaits | operator/internal/controller/apply.go:96-190 | While readiness does not drop within the pass, a non-empty waiting list forces some status to be not ready |
| Freshness.ReadyMeansFinished | operator/internal/controller/apply.go:77-199 | Then a pass whose roles all report ready has left every role at its desired spec |
| Freshness.FinishedIff | operator/internal/controller/apply.go:112-160 | Exactly when, from the objects and readings a pass begins with: nobody waits iff every role that does not start on its current template reads its dependencies ready at its gate |
| Freshness.DropHidesHeldRollout | operator/internal/controller/apply.go:184-190 | A dependency that drops between its own report and a dependant's gate: every status ready, one role held back on its old template |
| ServiceStatus.Record.SetProgressing | operator/internal/controller/aggregate.go:84-126 | Converged when all are ready, the apply step's reason otherwise; when nothing was applied, what it was, or Reconciling at the first observation |
| ServiceStatus.Record.SetProfileEcho | operator/internal/controller/inferenceservice_controller.go:385-397 | A resolved profile is echoed, a reference switched to an unresolved one is cleared, and the revision stays exactly with the profile it was adopted for |
| ServiceStatus.Record.Withdraw | operator/internal/controller/inferenceservice_controller.go:185-240 | Conditions of steps not reached are removed, Progressing says converged, all others are kept |
| ServiceStatus.Record.Prepare | operator/internal/controller/inferenceservice_controller.go:185-270 | The exits before the apply step: the phase is Failed with the first error's reason, that step's condition is false, later steps' conditions are gone and Ready is kept; the roles are cleared, the profile echoed, and the revision kept with its profile |
| ServiceStatus.Record.Aggregate | operator/internal/controller/inferenceservice_controller.go:270-325 | The revision is adopted iff nobody waits, every condition is set from its step, and the phase is the verdict of `Conclude` |
| ServiceStatus.Record.Conclude | operator/internal/controller/aggregate.go:137-193 | The phase: Ready iff every role is; else Progressing with what the pass applied; and when it applied nothing, what Progressing said before (Reconciling at first), or Failed/RolesNotReady iff that was already false; never Pending |
| ServiceStatus.Record.RecordRefusal | operator/internal/controller/inferenceservice_controller.go:262-276 | A failed apply reads Failed, with ServiceApplyFailed iff a foreign Service stopped it, and changes no other condition |
| ServiceStatus.Record.Reconcile | operator/internal/controller/inferenceservice_controller.go:140-336 | Every exit's phase, conditions, roles, profile and revision from the inputs, the outcome and the status before. Whenever a pass writes phase Ready, it got through every step with every role ready; and unless readiness dropped while it ran, every role is at its desired spec and the rendered revision is adopted |
| ServiceStatus.ReadyIsFresh | operator/internal/controller/inferenceservice_controller.go:270-325 | The step from the statuses of the pass to the objects it left |
| PortNames.ListenerNameRoundTrip | operator/internal/controller/devenvironment_controller.go:4774-4791 | The endpoint is recovered from every listener name, also when it contains or ends in `-tcp` or `-udp` |
| PortNames.RouteNameRoundTrip | operator/internal/controller/devenvironment_controller.go:4349-4367 | The port is recovered from every route name |
| PortNames.NoTcpNumber | operator/internal/controller/devenvironment_controller.go:4782-4791 | Trying `-tcp-` first never misreads a udp listener's name |
| PortNames.LastInfix | operator/internal/controller/devenvironment_controller.go:4782-4784 | The last infix is the one that was written |
| PortNames.WrittenNames | operator/internal/controller/devenvironment_controller.go:4774-4791 | The names as they read: `<name>-tcp-20000`, `<name>-udp-20017` |
| DevSpec.ListL4PortNames | operator/internal/controller/devenvironment_controller.go:1138-1153 | The endpoints that draw from the pool, in allocation order |
| DevSpec.AllocationOrder | operator/internal/controller/devenvironment_controller.go:1138-1153 | "ssh" first iff the type is ssh or ssh is enabled, then exactly the tcp and udp entries |
| DevSpec.EntryOrder | operator/internal/controller/devenvironment_controller.go:1138-1153 | Those keep the order of the spec |
| DevSpec.L4PortNamesAreKeys | operator/internal/controller/devenvironment_controller.go:1138-1153 | With the CRD's unique entry names and the platform's names free, they are distinct keys |
| PortAllocation.AllocateSound | operator/internal/controller/devenvironment_controller.go:4226-4232 | The ports handed out are distinct, in range and unused |
| PortAllocation.AllocateFailsIff | operator/internal/controller/devenvironment_controller.go:4226-4232 | The loop fails iff the names outnumber the free ports of the range |
| PortAllocation.AllocateKeeps | operator/internal/controller/devenvironment_controller.go:4588-4607 | Endpoints that hold distinct free ports keep them |
| PortAllocation.KeepsIff | operator/internal/controller/devenvironment_controller.go:4588-4607 | From the inputs alone: an endpoint keeps the port it holds iff that port is free, no earlier name holds it too, and no more earlier names draw low (hold no free port above it of their own) than there are free ports below it |
| PortAllocation.AllocatesLowFirst | operator/internal/controller/devenvironment_controller.go:4594-4607 | Until the low draws use them up, the ports below a given free one go first, and above it each port goes to the name that holds it |
| PortAllocation.HeldIsHandedOut | operator/internal/controller/devenvironment_controller.go:4594-4607 | A free port that some name holds is handed out |
| PortAllocation.EnablingSshMovesPorts | operator/internal/controller/devenvironment_controller.go:4588-4607 | Exposing ssh on an environment that holds the lowest port moves its tcp entry: held ports are not reserved |
| PortAllocation.Pool.AllocatePort | operator/internal/controller/devenvironment_controller.go:4594-4607 | One port: the held one while it is free and in range, else the lowest free one, booked in the used set |
| PortAllocation.Pool.AllocateAll | operator/internal/controller/devenvironment_controller.go:4226-4232 | The loop over the endpoints, filling the used set in place |
| PortPool.EnumerationUnique | operator/internal/controller/devenvironment_controller.go:4666-4676 | The listener order depends on the port map alone, not on the order the map is walked in |
| PortPool.DesiredPorts | operator/internal/controller/devenvironment_controller.go:4666-4713 | The declared listeners carry exactly the ports of the map, each once |
| PortPool.PublishedPorts | operator/internal/controller/devenvironment_controller.go:4197-4233 | What a publish declares is what it allocated: in range, off the Gateway's own listeners and off the used ports |
| PortPool.PublishIsUnclaimed | operator/internal/controller/devenvironment_controller.go:4427-4475 | No port a publish declares is claimed by anybody else: not bound by the Gateway, not of a foreign object, not a listener of another environment on the Gateway, and no route `<other>-tcp-<port>` is attached to it |
| PortPool.UsedIsClaimed | operator/internal/controller/devenvironment_controller.go:4427-4475 | And with routes named by the controller, the used ports are exactly those claims |
| PortPool.AllocatesIff | operator/internal/controller/devenvironment_controller.go:4226-4232 | A publish finds its ports iff the range has enough that nobody else claims |
| PortPool.MigrationKeepsPorts | operator/internal/controller/devenvironment_controller.go:4549-4586 | Migrating names changes no port |
| PortPool.PassKeepsSafe | operator/internal/controller/devenvironment_controller.go:3946-4028 | A pass of any environment, ended anywhere, keeps the pool free of shared and repeated ports, and every port it newly declares is in range and claimed by nobody else |
| PortPool.PoolStaysSafe | operator/internal/controller/devenvironment_controller.go:4427-4475 | In every state of every run of serialised passes no two ListenerSets on the Gateway share a port and none repeats one; and every port anybody came to declare was in range and, when it was drawn, claimed by nobody else: not by the Gateway, a foreign object, another environment's listener, or another environment's attached route |
| PortStability.HeldRecovers | operator/internal/controller/devenvironment_controller.go:4492-4535 | From the endpoint list, the environment's own listeners, or any mixture, every held port is recovered |
| PortStability.HeldFrom | operator/internal/controller/devenvironment_controller.go:4492-4535 | What an endpoint holds: the port the list last recorded for it; failing that, the port of its first listener; otherwise none |
| PortStability.PublishRepeats | operator/internal/controller/devenvironment_controller.go:4197-4233 | A holder's next publish allocates the ports it holds |
| PortStability.BuiltAgree | operator/internal/controller/devenvironment_controller.go:4994-5036 | The addresses a publish reports record the ports it published |
| PortStability.AddressesAreDeclared | operator/internal/controller/devenvironment_controller.go:4994-5036 | The addresses a publish reports, in order: the web address and every http entry on the HTTP listener; ssh and every tcp or udp entry on a port the environment's own ListenerSet declares under its name with its transport |
| PortStability.HoldingStepKeeps | operator/internal/controller/devenvironment_controller.go:3946-4028 | One step of anybody leaves a holder its ports and its records of them |
| PortStability.PortsAreStable | operator/internal/controller/devenvironment_controller.go:3946-4028 | Over every run of passes of all environments, with the Gateway gone and back, routes refused, stops, starts and aborted passes, each L4 endpoint has the same port in every state, and nobody else ever has a claim on it |
| PortStability.PublishHolds | operator/internal/controller/devenvironment_controller.go:4226-4250 | A publish that gets its ListenerSet written, and agrees with the endpoint list, makes the environment a holder |
| PortStability.LegacyListenerMigrates | operator/internal/controller/devenvironment_controller.go:4537-4548 | A listener and an endpoint list of the kind migration is for |
| PortStability.MigratesTo | operator/internal/controller/devenvironment_controller.go:4549-4586 | Migration renames exactly the listeners that say no endpoint and whose port the list records, to `<endpoint>-<transport>-<port>` of the endpoint last recorded there |
| PortStability.MigrationKeepsHeld | operator/internal/controller/devenvironment_controller.go:4537-4586 | Migrating the names and withdrawing the endpoint list loses no allocation of an endpoint with a declared listener |
| GatewayRoutes.Controller.UsedPortsOf | operator/internal/controller/devenvironment_controller.go:4427-4475 | The two scans collect every port anybody else claims beside the Gateway's own, attached routes included, and, of routes the controller named, no others |
| GatewayRoutes.Controller.HeldPortsOf | operator/internal/controller/devenvironment_controller.go:4492-4535 | The two-stage read of the environment's own record |
| GatewayRoutes.Controller.SortedNames | operator/internal/controller/devenvironment_controller.go:4666-4676 | Sorting the walked map gives its enumeration in port order |
| GatewayRoutes.Controller.ApplyListenerSet | operator/internal/controller/devenvironment_controller.go:4941-4984 | Declares exactly the given ports, removes the object when there are none, and writes nothing when it already says so |
| GatewayRoutes.Controller.PruneRoutes | operator/internal/controller/devenvironment_controller.go:4301-4345 | Only this environment's routes go; those whose port is kept stay, and no other is left |
| GatewayRoutes.Controller.ApplyRoutes | operator/internal/controller/devenvironment_controller.go:4264-4292 | Each TCP route it writes leaves the Gateway for the ListenerSet; nothing else changes hands |
| GatewayRoutes.Controller.DrawPorts | operator/internal/controller/devenvironment_controller.go:4199-4233 | Draws the specified allocation, or fails exactly when there is none |
| GatewayRoutes.Controller.PublishRoutes | operator/internal/controller/devenvironment_controller.go:4197-4294 | It gets through unless the range is exhausted or a write is refused; then the ListenerSet declares exactly the allocation and no route of its own is left on the Gateway for a port it gave up or a TCP port it declares; otherwise the set is that or untouched; for an environment that holds its ports it issues no ListenerSet write |
| GatewayRoutes.Controller.MigrateListenerNames | operator/internal/controller/devenvironment_controller.go:4549-4586 | At most one write, which renames exactly the undecodable listeners the endpoint list records |
| GatewayRoutes.Controller.ReconcileRoutes | operator/internal/controller/devenvironment_controller.go:3946-4028 | A publish that gets through reports the published addresses iff the Gateway accepted, and none otherwise; one that does not leaves the list; without the Gateway API nothing is written; while the Gateway is away the list is withdrawn only after the names that replace it are in place |
| GatewayRoutes.Controller.DeleteRoutes | operator/internal/controller/devenvironment_controller.go:850-897 | Routes, then the ListenerSet; nobody else's |
| GatewayRoutes.Controller.PublishPass | operator/internal/controller/devenvironment_controller.go:594-633 | A pass leaves only what the pool's step relation allows, whichever write fails; with every write answered and ports enough it publishes, at the addresses it reports |
| GatewayRoutes.Controller.WithdrawPass | operator/internal/controller/devenvironment_controller.go:511-531 | So does a pass that withdraws a refused environment; with every write answered nothing of it is left on the Gateway |
| ServicePorts.DesiredService | operator/internal/controller/devenvironment_controller.go:2753-2788 | The rendered list, with each number and protocol once |
| ServicePorts.PortCollisionFindings | operator/internal/controller/devenvironment_controller.go:2606-2706 | Refuses exactly the specs that are not accepted; of an accepted one it reports exactly the entries the Service folds away |
| ServicePorts.BooksDecide | operator/internal/controller/devenvironment_controller.go:2643-2704 | The three maps decide an entry as the rendered Service does |
| ServicePorts.AcceptedIsLegal | operator/internal/controller/devenvironment_controller.go:2606-2706 | An accepted spec renders unique numbers-and-protocols and unique names, serves every entry where it declares, and borrows no platform name |
| ServicePorts.AcceptedIff | operator/internal/controller/devenvironment_controller.go:2606-2706 | With unique entry names, a spec is accepted iff every entry is served at its number, transport and target, none takes the name of a published platform address, and entries named `main` or `ssh` keep those ports |
| ServicePorts.EndpointNamesIff | operator/internal/controller/devenvironment_controller.go:4994-5036 | The published addresses of an accepted spec have distinct names iff its entries do |
| ServicePorts.FoldedNameRepeats | operator/internal/controller/devenvironment_controller.go:2679-2694 | An accepted spec that predates the CRD key and publishes one name for two ports |
| ServicePorts.L4EntryRoutedIff | operator/internal/controller/devenvironment_controller.go:4718-4748 | The route of a tcp or udp entry reaches the container port it declares iff it is not an entry named `ssh` with another port than 22 |
| ServicePorts.SshNamedEntryMisrouted | operator/internal/controller/devenvironment_controller.go:4842-4852 | An accepted entry named `ssh` on port 9000 whose route goes to port 22 |
| ServicePorts.PlatformRouted | operator/internal/controller/devenvironment_controller.go:4842-4852 | The web route reaches 8888 or 8080 by type; the ssh route goes to 22, which forwards to 2222 |
| ServicePorts.NothingElseServed | operator/internal/controller/devenvironment_controller.go:2753-2788 | The Service has no other port: each is the type's, sshd's, or an entry's under its name |
| ServicePorts.HttpEntryRouted | operator/internal/controller/devenvironment_controller.go:4611-4634 | An http entry's rule reaches its container port |
| Activity.Recorder.Run | operator/internal/activity/reporter.go:117-147 | The event loop: one read, then one step per tick |
| Activity.Recorder.DoTick | operator/internal/activity/reporter.go:151-183 | One sample: a write only when active and due, and the fields move only on an acknowledged write |
| Activity.Recorder.MayWriteAt | operator/internal/activity/reporter.go:193-200 | After the known mark, and at least 60 s after the last write |
| Activity.MarkSaysActive | operator/internal/activity/reporter.go:86-93 | The mark is what it was, or the second of an active sample: never written while idle |
| Activity.MarkMovesForward | operator/internal/activity/reporter.go:186-197 | As long as writes are answered it never moves back, whatever the clock does |
| Activity.WritesAreSpaced | operator/internal/activity/reporter.go:42-46 | Acknowledged writes are at least a minute apart |
| Activity.FailureIsRetried | operator/internal/activity/reporter.go:176-182 | A failed write does not use up the floor |
| Activity.RestartKnowsTheMark | operator/internal/activity/reporter.go:117-131 | An agent that reads its mark back knows it; after a restart the next active sample is written unless the agent knows a mark that is not behind it |
| Activity.FreshStep | operator/internal/activity/reporter.go:151-183 | An active sample whose write lands keeps the mark within the floor and a second |
| Activity.WriteAndRestartAreFresh | operator/internal/activity/reporter.go:117-131 | The first write makes it so, and a restart of the agent keeps it |
| Idle.StopsAtTheDeadline | operator/internal/controller/idle.go:111-120 | With a constant baseline, following the requeues stops exactly at baseline + timeout, after one wake per started minute left |
| Idle.DecidesBy | operator/internal/controller/idle.go:111-199 | For a pod that reads Running: stop only if, and with dated instants iff, the timeout has passed since its mark, or its start where it has no mark, or its creation where it has neither, and since the last auto-stop; else look again at that deadline or in a minute |
| Idle.JudgedBy | operator/internal/controller/idle.go:337-359 | A pass stops the environment only if, and with dated instants iff, it wants to run, is unmarked, has a timeout, and its pod is not being deleted, is scheduled, up and not failed, and idle too long |
| Idle.PassReports | operator/internal/controller/devenvironment_controller.go:5143-5195 | A completed pass, field by field: a refused spec fails and runs nothing; else one replica and the addresses unless stopped, the phase from the pod, and the later of the known last activity and the pod's mark |
| Idle.Controller.ClearSuperseded | operator/internal/controller/idle.go:297-302 | A mark the user superseded is dropped before anything is derived from it |
| Idle.Controller.WriteStatus | operator/internal/controller/devenvironment_controller.go:645-658 | The status is written when it differs |
| Idle.Controller.RecordFailure | operator/internal/controller/devenvironment_controller.go:669-695 | A failed step reports Failed, keeps what the pass derived, and reports nothing of a retryable error |
| Idle.Controller.StopCompute | operator/internal/controller/devenvironment_controller.go:705-718 | Scales an existing workload to zero, or leaves it alone when the write fails |
| Idle.Controller.ApplyReplicas | operator/internal/controller/devenvironment_controller.go:2101-2105 | One replica iff running and not auto-stopped, or no change when the write fails |
| Idle.Controller.ReconcileIdleStop | operator/internal/controller/idle.go:337-359 | Marks and stamps an unmarked environment whose pod is running and here to stay, only if and, with dated instants, iff that pod has been idle too long |
| Idle.Controller.Pass | operator/internal/controller/devenvironment_controller.go:453-641 | A whole pass: the specified result when it completes, which it does unless a write or step fails, and only what the step relation allows when it does not |
| IdleRuns.StopStateAgrees | operator/internal/controller/devenvironment_controller.go:5143-5195 | After a completed pass that clears the gate, replicas are 0 iff the phase is Stopped; published addresses imply one replica; the mark implies running and a timeout |
| IdleRuns.StopsAreSpaced | operator/internal/controller/idle.go:185-264 | Over every run, each stop is of a running pod and comes at least the timeout after its mark, or after its start if it has no mark, or after its creation if it has neither; and after every earlier stop, whoever cleared the mark in between |
| IdleRuns.MarkedByStop | operator/internal/controller/idle.go:249-263 | A mark appears only where a pass judged the environment idle |
| IdleRuns.ActivityMovesForward | operator/internal/controller/idle.go:317-330 | `status.lastActivityTime` never decreases over a run |
| IdleRuns.StoppedStaysUnmarked | operator/internal/controller/idle.go:297-302 | A stopped environment is not marked by any pass |
| IdleRuns.StopThenStart | operator/internal/controller/devenvironment_controller.go:2101-2105 | A user's stop and start return to one replica, however many passes and edits come between |
| IdleRuns.BusyStepKeeps | operator/internal/controller/idle.go:143-168 | One step of agent, controller or client keeps a busy environment's mark fresh and the environment unmarked |
| IdleRuns.NeverStoppedInUse | operator/internal/activity/reporter.go:40-46 | With active samples at most `gap` apart whose writes land, the mark is younger than 60 s + gap + 1 s at every look, and the environment is never auto-stopped |
| IdleRuns.ShorterCanStop | operator/internal/controller/idle.go:111-120 | 76 s is the least safe timeout in whole seconds at the 15 s sampling interval: every shorter one can stop an environment in use |
| EnvVars.DesiredEnv | operator/internal/controller/devenvironment_controller.go:2208-2260 | The environment pipeline of the container, stage by stage |
| EnvVars.WithNotebookBaseUrl | operator/internal/controller/devenvironment_controller.go:1785-1795 | The first NOTEBOOK_ARGS entry is rewritten, or one is appended |
| EnvVars.WithRootLauncherEnv | operator/internal/controller/devenvironment_controller.go:1910-1931 | Root's account replaces the declared one, and the flag is merged |
| EnvVars.DeleteNamed | operator/internal/controller/devenvironment_controller.go:2221-2221 | Deletes exactly the entries of those names, in order |
| EnvVars.DropBaseUrl | operator/internal/controller/devenvironment_controller.go:1790-1790 | Drops exactly the arguments that carry the prefix flag |
| EnvVars.ReplaceSettles | operator/internal/controller/devenvironment_controller.go:2216-2228 | Dropping names and appending own entries keeps every other entry unchanged, in order, and every name unique |
| EnvVars.MergeSettles | operator/internal/controller/devenvironment_controller.go:1785-1795 | So does merging into NOTEBOOK_ARGS |
| EnvVars.HomeSettles | operator/internal/controller/devenvironment_controller.go:1825-1828 | And stating the home first |
| EnvVars.BaseUrlFlags | operator/internal/controller/devenvironment_controller.go:1785-1795 | The flags read back as the declared ones without any base_url, then the published prefix |
| EnvVars.AllowRootFlags | operator/internal/controller/devenvironment_controller.go:1910-1931 | And then --allow-root, unless it was there |
| EnvVars.HomeExpandsBack | operator/internal/controller/devenvironment_controller.go:1813-1828 | The stated home expands back to the mount path, for every path, under the `$$` and `$(NAME)` rules |
| EnvVars.RenderedSettles | operator/internal/controller/devenvironment_controller.go:2208-2260 | The rendered list has each name once; every entry under a name the controller does not own survives unchanged and in order; every owned name carries the controller's value |
| RenderedEnv.OthersSurvive | operator/internal/controller/devenvironment_controller.go:2208-2260 | Each name once; every entry the user declares under a name the controller does not own is there unchanged, and nothing else is, beside the owned names |
| RenderedEnv.OrderKept | operator/internal/controller/devenvironment_controller.go:2208-2260 | In the order it was declared in |
| RenderedEnv.StatedValues | operator/internal/controller/devenvironment_controller.go:2216-2260 | The owned entries by name and value: the token's Secret key, root's account, the type, and a home that expands to the mount path |
| RenderedEnv.NotebookFlags | operator/internal/controller/devenvironment_controller.go:1785-1795 | NOTEBOOK_ARGS carries one `--ServerApp.base_url=/dev/<namespace>/<name>/`, `--allow-root` for root, and every other declared flag as often as it was declared |
| RenderedEnv.FlagOrder | operator/internal/controller/devenvironment_controller.go:1785-1795 | The declared flags keep their order |
| PodTemplates.FindDeclaredHome | operator/internal/controller/devenvironment_controller.go:1741-1756 | The last entry named HOME, when it is usable |
| PodTemplates.HomeSaid | operator/internal/controller/devenvironment_controller.go:1741-1756 | The declared home is the value of the last entry named HOME when that is an absolute path without a reference, and none otherwise |
| PodTemplates.MountedAt | operator/internal/controller/devenvironment_controller.go:1712-1728 | The workspace is mounted where the spec says; else at the declared home; else at root's or the user's home; else at /workspace |
| PodTemplates.HomeIsTheMount | operator/internal/controller/devenvironment_controller.go:1836-1849 | The home the container is told expands to the path its workspace is mounted at |
| PodTemplates.OneIdentity | operator/internal/controller/devenvironment_controller.go:1450-1480 | Everything in the pod runs as one identity, root iff the spec says user 0; the init containers are those storage and a sudo grant ask for |
| PodTemplates.DevicesClaimed | operator/internal/controller/devenvironment_controller.go:1383-1445 | GPUs of the vendor's resource, at least one, and one RDMA device, are requested and limited alike; cpu and memory limited; memory locking iff RDMA |
| PodTemplates.NodesSelected | operator/internal/controller/devenvironment_controller.go:1291-1330 | The node labels asked for, with the GPU model written over them |
| PodTemplates.HostNetworkIff | operator/internal/controller/devenvironment_controller.go:1345-1400 | On the host network iff RoCE is asked for, and then every port it listens on is declared, each number and transport once |
| PodTemplates.MountsHaveVolumes | operator/internal/controller/devenvironment_controller.go:2262-2400 | Every mount but the workspace's has its volume, and every data volume is mounted as the spec says |
| PodTemplates.OwnVolumes | operator/internal/controller/devenvironment_controller.go:2273-2400 | sshd gets the environment's host key and the user's Secret where one is named, readable by root alone iff root; sudo its rule |
| PodTemplates.AgentBeside | operator/internal/controller/devenvironment_controller.go:2402-2465 | The agent runs beside the environment iff it has an idle timeout, and watches the ports users connect to |
| PodTemplates.AsDeclared | operator/internal/controller/devenvironment_controller.go:2192-2260 | Image, command, arguments, scheduler and variables are those declared, and a new Secret revision changes the template |
| StatefulSets.MountKeyTellsApart | operator/internal/controller/devenvironment_controller.go:1218-1231 | The mount key distinguishes its Secret name and data key |
| StatefulSets.EqualInputsEqualTemplates | operator/internal/controller/devenvironment_controller.go:3282-3501 | For one object, equal hash inputs mean equal pod templates, annotations included, whatever the operator's flags were at each rendering |
| StatefulSets.Workload.Apply | operator/internal/controller/devenvironment_controller.go:3230-3267 | A successful apply leaves one replica iff running and not auto-stopped, a claim that outlives the object iff the spec retains its storage and outlives every stop, ours, with its claim template kept; it fails iff the object is foreign or a write is refused, and then changes nothing |
| StatefulSets.Workload.ScaleToZero | operator/internal/controller/devenvironment_controller.go:705-718 | A refused environment's workload is stopped and otherwise unchanged |
| StatefulSets.Workload.Detach | operator/internal/controller/devenvironment_controller.go:806-847 | Sets the retaining policy where it is missing and takes the claim off the object |
| StatefulSets.Workload.Delete | operator/internal/controller/devenvironment_controller.go:776-790 | An environment that asks to keep its workspace loses none by its deletion, even if the policy last applied says otherwise; of one that does not, the policy decides; a foreign object is left alone |
| StatefulSets.AppliedIsDesired | operator/internal/controller/devenvironment_controller.go:3230-3267 | Although it skips on a hash match, a successful apply leaves the template rendered now, the replicas asked for and the retention of the spec |
| StatefulSets.AlwaysHonest | operator/internal/controller/devenvironment_controller.go:3230-3267 | In every run the stored hash is that of the stored template |
| StatefulSets.AppliedInRunIsDesired | operator/internal/controller/devenvironment_controller.go:3230-3267 | So it does after every successful apply of every run; an existing object keeps its claim template, a new one asks for the spec's size |
| StatefulSets.ClaimKeptAsAsked | operator/internal/controller/devenvironment_controller.go:2121-2140 | In every run the object would take its claim with it iff it was not last asked to be kept, by the last effective apply or by a deletion; no scaling to zero ever takes it |
| Numbers.CountTrailingZeros | operator/internal/renderer/overrides.go:256-259 | Counts the digits a negative scale may absorb |
| Numbers.RatFromNumber | operator/internal/renderer/overrides.go:225-273 | Reads a literal by shifting its digit string |
| Numbers.NumbersEqual | operator/internal/renderer/overrides.go:209-218 | Compares as int64 when both are, else as rationals |
| Numbers.ScaleFits | operator/internal/renderer/overrides.go:244-253 | A text that fits in memory cannot make the 64-bit shift wrap back into range |
| Numbers.RatOfExact | operator/internal/renderer/overrides.go:225-273 | Converts exactly the literals whose shift leaves an integer of bounded size, or that have no exponent, each to its own value |
| Numbers.ConvertsIff | operator/internal/renderer/overrides.go:225-273 | Which literals convert, digit by digit: all without an exponent; else an int64 exponent and all zeros, or at most 19 zeros to append, or zeros enough to drop |
| Numbers.EqualExact | operator/internal/renderer/overrides.go:209-218 | Equal iff both literals convert and their values agree |
| Numbers.EqualToInteger | operator/internal/renderer/overrides.go:209-218 | Against an int64 literal, equal iff the values are, for every literal whose exponent fits an int |
| Numbers.IntegerEqualIff | operator/internal/renderer/overrides.go:209-273 | The case the operator has: against an int64 literal, equal iff the values agree and the other literal converts |
| Numbers.HugeZero | operator/internal/renderer/overrides.go:227-231 | A zero whose exponent no int holds does not convert |
| Numbers.FractionsDiffer | operator/internal/renderer/overrides.go:250-262 | 0.01 and 1e-2 have one value and are not equal |
| Overrides.EnumContains | operator/internal/renderer/overrides.go:184-205 | True iff the enum holds an equal entry, numbers being compared by `numbersEqual` and everything else by equality |
| Overrides.ValidateValue | operator/internal/renderer/overrides.go:99-177 | Accepts exactly the values of the declared type, in range and allowed; the canonical form says what the value says: true or false, the string, the same integer, or the entries, which split apart again |
| Overrides.IntegersAccepted | operator/internal/renderer/overrides.go:108-127 | Of JSON numbers an integer override accepts exactly those without a point or an exponent that an int64 and the bounds admit |
| Overrides.AllowedMeans | operator/internal/renderer/overrides.go:160-175 | The enum holds a value as a whole, a list entry by entry, an integer by value; an empty enum everything |
| Overrides.ResolveOverrides | operator/internal/renderer/overrides.go:55-86 | Succeeds iff every value taken is valid and every user key is declared; each override takes the user's value, else its default, else nothing, and resolves to the canonical form of that |
| Overrides.IntegerEnumIsByValue | operator/internal/renderer/overrides.go:178-205 | An integer is allowed iff the enum spells a number of its value that converts, whatever else the enum holds |
| Overrides.HugeExponentRejected | operator/internal/renderer/overrides.go:225-243 | 0 is not found in an enum that spells it with an exponent beyond an int |
| Overrides.CanonicalIntegers | operator/internal/renderer/overrides.go:112-127 | Integers have one canonical form iff they have one value |
| Overrides.CanonicalLists | operator/internal/renderer/overrides.go:134-153 | Lists have one canonical form iff they are one list, or one of them is empty and the other holds one empty entry |
| Overrides.EmptyListsLookAlike | operator/internal/renderer/overrides.go:134-153 | The two lists with one canonical form |
| Overrides.SplitJoin | operator/internal/renderer/overrides.go:146-153 | The joined form is the parts with one comma between each two, and can be split back apart |
| ProcStat.ParseStat | operator/internal/activity/proc.go:107-153 | Never out of range; reads exactly the readable lines, with CPU the 64-bit sum of fields 14 to 17, and names what is wrong with any other: no name, no pid, too few fields, or the first bad one |
| ProcStat.AddCounters | operator/internal/activity/proc.go:136-147 | The four counters, or the first field that is none |
| ProcStat.StatOfSays | operator/internal/activity/proc.go:107-118 | What a line says is unique: the name lies between its outermost parentheses |
| ProcStat.StatRoundTrip | operator/internal/activity/proc.go:107-169 | The line of every process reads back as its pid, name, tty, start time and CPU sum, whatever the name contains |

## Left out

- Topo.TopoOrder: does not model repeated role names, which the admission policy of the profile excludes (operator/config/vap/inferenceruntimeprofile_policy.yaml); two copies of an endpoint role make the deferral loop for ever.
- ServiceStatus.Record.Reconcile: does not claim that a Ready phase is fresh when readiness drops inside the pass, because it then is not; `Freshness.FinishedIff` gives the exact condition.
- StatefulSets.Workload.Delete: one claim stands for the claims of the set, and the platform's garbage collection is the policy read at the delete.
- PortPool.UsedIsClaimed: a route that carries a name the controller does not write counts by the number its name ends in.
- PodTemplates.DevicesClaimed: assumes the operator's RDMA resource names are not those of a GPU, cpu or memory.
- IdleRuns.NeverStoppedInUse: assumes one clock, and that the writes of active samples land.
- StatefulSets.EqualInputsEqualTemplates: takes sha256 as injective, names of objects as free of slashes, and the constants of one build; fields rendered from constants alone are not part of the template.
- EnvVars.RenderedSettles: assumes unique declared names, as the CRD does, and a namespace and name without spaces.
- GatewayRoutes.Controller.PruneRoutes: follows the TCPRoutes attached to the Gateway itself, the only routes that count towards the pool; a port that changes from tcp to udp keeps its old TCPRoute, because routes are matched by port number only.
- PortStability.MigrationKeepsHeld: is about a Gateway that is away; when the Gateway API itself is not served, the endpoint list is withdrawn without migrating.
- ApplyWorkloads.Cluster.Apply: of the API errors it models refused objects and failed deletes; any other ends a pass after some role, which is what `Rollout.Attempt` covers.
- PortPool.PoolStaysSafe: does not model foreign objects that carry an environment's own name, which the operator refuses to touch.
- Overrides.ValidateValue: decoding JSON text is a parameter; error messages are not modelled.
- The apply step's ServiceMonitor write, and the error for a role the render lacks: neither changes a workload or a Service.
- Transport, caches, watches, RBAC, events, flags and concurrent workers: passes are serialised and reads are fresh.
- The renderer's templates, the route and catalog checks, resolving references and provisioning assets: their outcomes are inputs of a reconcile.
- The activity detector's sampling and the reading of `/proc`: the recorder gets an arbitrary stream of active, inactive and failed samples.
- Keys, tokens and the Secrets they are kept in; NetworkPolicy rendering; init scripts; finalizers.
- The ModelVersion and InferenceRuntimeProfile reconcilers: thin bookkeeping beside the two modelled here.
- The web portal under `web/`: pages and thin API routes.
