# A model of the OtterScale tenant operator

The operator turns a `Workspace` into a namespace with RBAC, a Harbor project, quotas
and a network policy. It is level-triggered: every reconcile may die after any single
call, and everything it writes can be changed behind its back. This project models the
operator's protocols against an API server and a Harbor that behave that way, and proves
what holds over whole runs.

Two kinds of file go together. The state machines (`RobotProtocol`, `Ownership`,
`WorkQueue`, `AdmissionRuns`, `ReadyRuns`) take one remote call, event or request at a
time, with failures before and after the effect and with other parties moving in between;
the theorems about all runs are proved there. The classes (`RobotDriver`,
`OwnershipDriver`, `MemberSync.Project`, `Projections.Bindings`, `Namespaces.ApiServer`,
`Admission.Draft`, `Controller.Reconciler`, `NetworkIsolation.PolicyStore`) are the Go
functions with their loops, early returns and updates in place. The two drivers are shown
to walk their machine call by call, wherever they are cut off. A fault list that ends is
the process dying.

| file | what it is about |
|---|---|
| `RobotProtocol.dfy`, `RobotDriver.dfy` | Harbor reveals a robot secret once; robot creation, robot deletion and the Secret write are separate calls |
| `MemberSync.dfy` | the desired member list against Harbor's member table |
| `Projections.dfy` | the same list compiled into RoleBindings and into Harbor members |
| `Namespaces.dfy` | create, adopt or refuse a namespace; admission's counterpart; backup and restore |
| `Ownership.dfy`, `OwnershipDriver.dfy` | any number of workspaces reconciling at once over shared namespaces |
| `WorkQueue.dfy` | watches, predicates, fan-out, queue and requeue decisions |
| `WorkspaceStatus.dfy`, `ReadyRuns.dfy`, `Controller.dfy` | conditions, references, merge patches, `Reconcile` and its error classification |
| `Admission.dfy`, `AdmissionRuns.dfy` | defaulting, name search, CRD rules, authorisation, runs of requests |
| `Fixpoint.dfy` | one undisturbed reconcile of everything, and the next one |
| `NetworkIsolation.dfy` | the allowed-namespace list as a NetworkPolicy |

## What the code relies on

The proofs made these assumptions explicit. Where leaving one out breaks a property there
is a lemma that says so.

- The existence check of the pull Secret is not behind. It goes through the manager's
  cache (cmd/main.go:176, internal/workspace/harbor.go:206-216), which the repository
  itself describes as lagging (internal/webhook/v1alpha1/workspace_webhook.go:40-43), and
  nothing makes it current. If it answers "missing" for a Secret that exists, the operator
  invalidates the stored credential itself, and if the copy read before the write is still
  old the write is refused and the pair stays stale. `LaggingReadsExactly` proves that this
  is the one way lagging reads break an otherwise undisturbed attempt;
  `UnseenSecretIsInvalidated` is the run: an attempt settles the workspace, the next one
  reads the Secret as it was before. All other reads may lag as they like in the runs of
  `AlwaysInStep`, `NeverInvalidated` and `Converges`.
- Only the operator removes its robot or writes the pull Secret; anybody may delete the
  Secret. The refresh decision looks at the Secret's existence alone
  (internal/workspace/harbor.go:172-185). A robot removed by someone else followed by an
  attempt that dies between creation and Secret write strands a stale Secret for good
  (`RobotGoneStrandsTheSecret`, `StaleForever`), and so does a restored backup that brings
  back a Secret older than the last refresh (`BackupStrandsTheSecret`). Putting the current
  credentials back is harmless (`AlwaysInStep` allows it) except in the middle of a refresh
  (`PutBackMidRefreshStrands`). `CalmAttempt` gives the exact line: an undisturbed attempt
  with current reads repairs every state except a stale pair.
- One worker. The namespace gate is a check, answered by the cache, and nothing holds the
  namespace afterwards. With one attempt at a time, which is what controller-runtime does
  unless it is told otherwise and this code does not tell it, the gate is nevertheless a
  lock, however the cache lags (`NobodyTrespasses`), with one exception: a namespace created
  by an attempt whose cache has not yet shown that another claimant had owned one of that
  name before it was removed. `ExclusiveExactly` proves that this is the only exception,
  `OneWorkerCanBeHaunted` that a single worker can get there, and `HauntedExactly` that the
  other claimant's next attempt can then pass the gate of a namespace it does not own. A
  second worker is enough to lose the lock even with a current cache
  (`OverlappingAttemptsCanLeak`). `TrespassExactly` names the states in which a call can do
  harm, and `ActingMeansOwning` says when any number of workers act only as owners.
- Nobody but the operator makes a Workspace an owner of a namespace. Others may strip or
  drop workspace owner references and edit everything else (`MayEdit` in `Ownership.dfy`).
- The List inside the fan-out answers (internal/controller/workspace_controller.go:400-404
  drops the error, `FailedFanOutLosesTheWakeUp`), and a workspace deleted and created again
  is not delivered as one update of equal generation. `RecreationIsMissedExactly` shows
  that those deliveries, and no other re-creations, are lost;
  `CompressedRecreationLosesTheWakeUp` counts the edits that lead to one.
- Reconcile attempts never go back to an older generation of the object; the status in the
  copy they work on may be arbitrarily old (`GoingBackMisreports`). The status patch
  carries neither UID nor resourceVersion, so the patch of an attempt on a deleted workspace
  must not land on another one of its name (`LatePatchMisreports`, `NamesakeMisreports`).
- Harbor's member list arrives in one response with unique user names, every member is a
  Harbor user, and nobody else changes a project's members during a sync.
- The narrowed robot listing fits on one page: the code reads only the first
  (internal/harbor/client.go:428-462), so "no such robot" is right only if every robot of
  the project whose name contains the query is on it.
- `SetControllerReference` treats an owner reference as the same object when kind and name
  agree, whatever the UID, as controller-runtime does; controller-runtime is not part of
  this model. One definition (`Namespaces.Foreign`) serves namespaces and child objects.

Two comments in the repository are stronger than its code. The early return after the
label backfill expects its own update to requeue the workspace
(internal/controller/workspace_controller.go:127-128), but a label-only update does not
pass `GenerationChangedPredicate`: `BackfillDoesNotRequeue`. The operator is said to need
no exemption in the webhook because it only patches status
(internal/workspace/authorization.go:71-72), but the backfill is an ordinary update:
`BackfillNeedsStanding`.

## Model

| member | source | states |
|---|---|---|
| RobotProtocol.AlwaysInStep | internal/workspace/harbor.go:159-198 | in every state reachable by attempts cut off after any call, with the pull Secret deleted or its current credentials put back by others and with reads that lag, as long as an existing Secret is never reported missing to the existence check: an existing pull Secret carries the live robot's secret, and at most one robot has the full name |
| RobotProtocol.NeverInvalidated | internal/workspace/harbor.go:164-185 | in those runs no call, and nothing others do between calls, changes the live robot's secret while the Secret stays in place |
| RobotProtocol.CalmAttempt | internal/workspace/harbor.go:121-201 | from any pair of stores an undisturbed attempt with current reads finishes with the pull Secret listed on the default ServiceAccount, and robot and Secret end in step exactly when they did not start as a stale pair |
| RobotProtocol.LaggingReadsExactly | internal/workspace/harbor.go:172-194 | with nobody else at work and no failing call, an attempt that starts in step ends with a stale pair if and only if its existence check was told "missing" of a Secret that exists and the copy read before its write still was not the stored one |
| RobotProtocol.UnseenSecretIsInvalidated | internal/workspace/harbor.go:206-216 | from every state without a Secret, one undisturbed attempt settles the workspace and a second one that reads the Secret as it was before leaves it stale |
| RobotProtocol.Converges | internal/workspace/harbor.go:187-200 | after any finite storm of interruptions, lagging reads and deletions one undisturbed attempt with current reads settles the workspace, and every later attempt, failing or not, mutates nothing unless it is told that the existing Secret is missing |
| RobotProtocol.ListedOnce | internal/workspace/harbor.go:274-284 | the pull Secret is listed exactly once afterwards if it was listed at most once |
| RobotProtocol.StaleForever | internal/workspace/harbor.go:172-185 | a stale pair survives every further attempt unchanged unless somebody else removes the Secret or the robot, or the Secret is wrongly reported missing |
| RobotProtocol.RobotGoneStrandsTheSecret | internal/workspace/harbor.go:172-194 | from every settled state, removing the robot from outside and dying after its re-creation leads to a stale pair |
| RobotProtocol.PutBackMidRefreshStrands | internal/harbor/client.go:332-357 | even the current credentials put back just before a refresh deletes the robot become a stale pair if the attempt then dies |
| RobotProtocol.BackupStrandsTheSecret | internal/workspace/harbor.go:164-194 | from every settled state, losing the Secret, one undisturbed attempt and a restore of the earlier Secret lead to a stale pair, although the attempt in between had settled the workspace |
| RobotProtocol.CreationsAreAccountedFor | internal/harbor/client.go:256-357 | over any run of the kind AlwaysInStep covers in which copies show nothing that was never stored, robots created are at most one plus Secrets deleted by others plus interrupted attempts |
| RobotProtocol.CreatesAtMostOne | internal/harbor/client.go:256-357 | one attempt creates at most one robot, whatever happens around it |
| RobotProtocol.OthersUntouched | internal/harbor/client.go:361-374 | whatever others do and whatever reads show, robots of other names are never created, changed or deleted |
| RobotProtocol.ReferencesAlwaysKept | internal/workspace/harbor.go:274-284 | whatever others do and whatever reads show, over any attempts the default ServiceAccount's references are as they were, in order, with the pull Secret appended once at most and only if it was not there |
| RobotProtocol.QueryKeepsTheRobot | internal/harbor/client.go:424-462 | the server-side name filter never hides the robot the exact comparison looks for |
| RobotDriver.Reconciler.FindRobot | internal/harbor/client.go:428-462 | returns the robot of exactly the full name whatever else the listing contains, and none only if there is none (the listing being one complete page) |
| RobotDriver.Reconciler.EnsureRobot | internal/harbor/client.go:256-266 | follows the protocol's machine: credentials only when this call created the robot |
| RobotDriver.Reconciler.RefreshRobotSecret | internal/harbor/client.go:332-357 | follows the protocol's machine: find, delete by ID, create, and an error when the robot is missing or re-created by another writer |
| RobotDriver.Reconciler.EnsureImagePullSecret | internal/workspace/harbor.go:268-293 | follows the protocol's machine: what was listed stays, and the pull Secret is appended only when it is not listed |
| RobotDriver.Reconciler.ReconcileHarbor | internal/workspace/harbor.go:121-201 | wherever it stops, and with reads through the cache, the stores are where the protocol's machine is after the same calls; soundness is kept under the protocol's assumptions; under none, other robots and other references are untouched and at most one robot is created |
| MemberSync.TargetMeans | internal/harbor/client.go:162-186 | the wanted membership is exactly the mentioned users Harbor has, each in the role of the first mention |
| MemberSync.MissingHolds | internal/harbor/client.go:162-182 | every mention of a user Harbor lacks is reported, at the place its order gives it |
| MemberSync.MissingOnly | internal/harbor/client.go:162-182 | and nothing else is reported |
| MemberSync.SafeChains | internal/harbor/client.go:169-192 | over any chain of cut-off attempts, with more users known to Harbor each time, only old and wanted members are ever in, wanted members stay, and removals wait for everyone wanted and known at the start |
| MemberSync.PrefixIsSafe | internal/harbor/client.go:169-186 | stopping after any prefix of the list leaves only old or wanted members in old or wanted roles, with no wanted member missing who was there |
| MemberSync.LeftoversAreSafe | internal/harbor/client.go:188-192 | once the list has been handled, any subset of the leftovers may be gone |
| MemberSync.Project.AddProjectMember | internal/harbor/client.go:198-221 | a user Harbor lacks and an existing member are both left as they are, and told apart |
| MemberSync.Project.ReconcileProjectMembers | internal/harbor/client.go:142-195 | success leaves exactly the wanted membership and the unprovisioned mentions in order, independent of deletion order; it fails only if a call fails or the process dies, never for an unprovisioned user; failure anywhere is safe; a project already as wanted is not changed |
| Projections.RolesMeanTheSame | internal/workspace/harbor.go:296-307 | the Harbor role of each workspace role carries the rights it should: all may pull, edit and admin may push, admin alone manages |
| Projections.BuildHarborMembers | internal/workspace/harbor.go:139-150 | service accounts are left out and the order kept |
| Projections.Bindings.ReconcileRoleBindings | internal/workspace/rbac.go:33-46 | stopped anywhere, the roles up to some point have their wanted bindings and the rest the old ones; success grants each ClusterRole to exactly the users listed with it; it fails only if a call fails, the process dies or a binding is another controller's |
| Projections.Bindings.ReconcileRoleBinding | internal/workspace/rbac.go:50-87 | the binding ends wanted or unchanged; success means it refers to that role, lists those subjects and is controlled by this workspace; a binding controlled by an owner of another kind or name is not overwritten, and that or a failing call is the only reason to fail |
| Projections.CompiledMeans | internal/workspace/rbac.go:33-87 | afterwards a user holds a ClusterRole through the operator's bindings exactly when some member entry says so, these bindings are this workspace's, and other bindings are as before |
| Projections.SubjectsAreMentions | internal/workspace/rbac.go:34-37 | RBAC carries the union of a user's roles |
| Projections.HarborTakesTheFirst | internal/workspace/harbor.go:138-150 | Harbor carries the role of the first entry that is not a service account |
| Projections.ProjectionsAgreeExactly | internal/workspace/rbac.go:33-79 | for a user Harbor knows, both projections agree if and only if all entries carry one role and some entry, if any, is not a service account |
| Namespaces.MutationStamps | internal/workspace/namespace.go:48-163 | a taken namespace has this workspace as controller and carries, value by value, the identity, version and Pod Security labels and the Rancher project if configured; every other label, annotation and owner is kept and none is added |
| Namespaces.IdentityMeans | internal/workspace/namespace.go:109-116 | a namespace is marked as a workspace's own exactly by the four standard labels with these values |
| Namespaces.RefusalsExactly | internal/workspace/namespace.go:138-163 | the conflict and the controller refusal, each as an if-and-only-if on the owner references and identity labels found; a missing namespace is never refused |
| Namespaces.MutationSettles | internal/workspace/namespace.go:130-164 | reconciling the result again asks for no write |
| Namespaces.AdmissionAgreesWithReconcile | internal/workspace/namespace.go:83-103 | for a UID nothing refers to yet, admission accepts an existing namespace if and only if it is not terminating and reconcile takes it; the only refusal is the conflict |
| Namespaces.RestoreRoundTrip | internal/workspace/namespace.go:74-80 | reconciled at any version and stripped of owners, a namespace is accepted for the same name under a fresh UID and ends owned by it alone |
| Namespaces.RestoreIsForOneName | internal/workspace/namespace.go:109-116 | a workspace of another name is refused by both |
| Namespaces.ApiServer.ReconcileNamespace | internal/workspace/namespace.go:119-175 | only this namespace is written, only as decided; refusals write nothing; success means owned and stamped; a conflict is reported as a conflict, and failure needs a failing call or another controller |
| Ownership.AlwaysOneOwner | internal/workspace/namespace.go:130-164 | over every interleaving of reconciles, edits, strips and removals no namespace has two workspace owners |
| Ownership.ForeignNamespaceUntouched | internal/workspace/namespace.go:138-143 | a namespace neither owned nor adoptable is left exactly as it was by every call of that workspace |
| Ownership.ActorsPassedTheGate | internal/controller/workspace_controller.go:151-186 | whoever can touch child objects or the Harbor project passed the namespace step earlier in the attempt, and the namespace was owned by their UID when the copy they passed on was taken, which is the moment of the write if there was one |
| Ownership.LosersAlterNothing | internal/controller/workspace_controller.go:151-186 | while one claimant holds a namespace, and once the cache is past copies on which the other would pass, no move of the other changes it, its objects or its Harbor project |
| Ownership.HauntedExactly | internal/workspace/namespace.go:128-164 | an attempt at rest can next be led past the gate of a namespace somebody else owns if and only if the cache shows, or has still to show, a copy of it that needs no write for that workspace |
| Ownership.NobodyTakesOver | internal/workspace/network_isolation.go:83 | an object a workspace controls never comes under a workspace of another name while it exists, whatever move is made |
| Ownership.TrespassExactly | internal/controller/workspace_controller.go:151-186 | some call of one workspace can change what another owns if and only if it is past the gate of a namespace the other owns |
| Ownership.NobodyTrespasses | internal/controller/workspace_controller.go:151-186 | with one worker, over every run of edits, strips, removals, crashes, lagging reads and reconciles in which no namespace is created blind, no call of a workspace changes a namespace another owns, anything in it, or its Harbor project |
| Ownership.ExclusiveExactly | internal/controller/workspace_controller.go:151-186 | with one worker, nobody is ever past, or led by the cache past, the gate of another's namespace if and only if no namespace is created by an attempt whose cache had not shown a former owner of that name |
| Ownership.OneWorkerCanBeHaunted | internal/workspace/namespace.go:128-164 | from every state at rest without the namespace, two claimants handled one after the other by one worker while the cache shows none lead to such a creation |
| Ownership.ActingMeansOwning | internal/controller/workspace_controller.go:151-186 | with any number of workers, everyone past the gate owns the namespace at every moment of a run if and only if nobody takes a namespace away under an attempt past the gate and no attempt passes on a copy out of date about the owner; then two claimants are never past it together |
| Ownership.OverlappingAttemptsCanLeak | internal/controller/workspace_controller.go:151-186 | from every state with one claimant past the gate and another at rest, a run with one overlapping attempt and a current cache exists in which the first deletes the second's object |
| OwnershipDriver.Attempt.ReconcileNamespace | internal/workspace/namespace.go:119-175 | reading through the cache under interference it is a run of the interleaving model, and succeeds exactly when it is past the gate |
| OwnershipDriver.Attempt.ReconcileResources | internal/controller/workspace_controller.go:151-186 | the whole sync is a run of the interleaving model that acts only past the gate: what it tries is a prefix of the operations in order, all of them if it succeeds; it fails only if a call fails, the process dies, or the cluster turns its last call down |
| OwnershipDriver.Attempt.ReconcileResourcesFromRest | internal/controller/workspace_controller.go:151-186 | a successful sync made exactly its operations and owned its namespace when the copy at its gate was taken, every namespace has at most one workspace owner at the end, and with one worker and no blind creation none of its calls changed what another workspace owned |
| WorkQueue.NoLostWakeUps | internal/controller/workspace_controller.go:298-413 | a workspace nothing is on its way to was last reconciled at its current UID, generation and operator inputs with no member pending, or is parked on a conflict found at them and reported, or was only relabelled; re-creations the cache sees as updates are covered unless the generation is the same |
| WorkQueue.WokenExactly | internal/controller/workspace_controller.go:298-413 | a sleeping workspace is queued by one move exactly if that is an event on an object it owns or a restart; deliveries that bring nothing new leave it asleep |
| WorkQueue.StampedNeverBackfills | internal/controller/workspace_controller.go:119-129 | if every write carries the label, the last exception never arises |
| WorkQueue.BackfillDoesNotRequeue | internal/controller/workspace_controller.go:119-129 | after a backfill and the delivery of its own update the workspace sleeps unreconciled if and only if nothing else had queued it |
| WorkQueue.FailedFanOutLosesTheWakeUp | internal/controller/workspace_controller.go:400-404 | a fan-out whose List fails leaves a workspace asleep on inputs it never saw |
| WorkQueue.RecreationIsMissedExactly | internal/controller/workspace_controller.go:299-301 | delivering a re-creation to a workspace at rest leaves it asleep if and only if the generation did not move |
| WorkQueue.CompressedRecreationLosesTheWakeUp | internal/controller/workspace_controller.go:299-301 | a re-creation followed by some edits and delivered as one update is left unreconciled if and only if it has reached the generation the old object had |
| WorkspaceStatus.NewStatusConditions | internal/controller/workspace_controller.go:486-506 | condition types stay unique and come out sorted, all but Ready are kept, and Ready is True for this generation exactly when no member is pending, each pending member being named otherwise |
| WorkspaceStatus.FailedStatusConditions | internal/controller/workspace_controller.go:250-261 | a failure report replaces Ready and the observed generation and nothing else: no reference is cleared and types stay unique |
| WorkspaceStatus.PatchMeans | internal/controller/workspace_controller.go:510-512 | a patch yields the new status on the copy it was computed from, is empty if nothing changed, and changes nothing when applied again |
| WorkspaceStatus.NewStatusSettles | internal/controller/workspace_controller.go:418-509 | computing the status from itself changes nothing |
| ReadyRuns.ReadyMeansReconciled | internal/controller/workspace_controller.go:188-265 | over all runs with lagging copies, lost patches and re-creations, as long as no attempt goes back a generation and no patch for a deleted object lands on its namesake, Ready=True with observed generation g means g was reconciled completely with no pending member |
| ReadyRuns.LatePatchMisreports | internal/controller/workspace_controller.go:510-512 | a complete attempt on a deleted object makes its namesake say Ready about a generation nobody reconciled exactly under the stated condition |
| ReadyRuns.NamesakeMisreports | internal/controller/workspace_controller.go:510-512 | a namesake just created is reported Ready, unreconciled, if and only if the late attempt's patch carries the condition |
| ReadyRuns.GoingBackMisreports | internal/controller/workspace_controller.go:510-512 | an attempt on an older generation mixes the two generations exactly under the stated condition |
| Controller.Reconciler.ComputeStatus | internal/controller/workspace_controller.go:418-506 | the loops and assignments produce the status function's value |
| Controller.Reconciler.UpdateStatus | internal/controller/workspace_controller.go:418-520 | a failed lookup stores nothing; otherwise the stored status is the old one or the old one patched, and it succeeds exactly when there is nothing to store or the patch goes through |
| Controller.Reconciler.HandleReconcileError | internal/controller/workspace_controller.go:191-217 | a namespace conflict parks unless its report failed; a write conflict leaves the status untouched; every other failure attempts Ready=False and is retried |
| Controller.Reconciler.Reconcile | internal/controller/workspace_controller.go:107-147 | comes back exactly for the outcomes the queue model requeues, stores exactly what the run model says that outcome stores, and succeeds exactly when the resources are complete, both lookups answer and the status goes through |
| Admission.DefaultingIndexes | internal/webhook/v1alpha1/workspace_webhook.go:80-158 | user labels are exactly the current subjects, the namespace label is right, other labels are untouched, and defaulting is idempotent |
| Admission.GeneratedNamesAreUsable | internal/webhook/v1alpha1/workspace_webhook.go:123-130 | every generated name satisfies the CRD pattern and length and is not reserved |
| Admission.Draft.GenerateAvailableNamespaceName | internal/webhook/v1alpha1/workspace_webhook.go:107-119 | the first free one of five candidates, or no name when a probe fails or all are taken |
| Admission.Draft.DefaultMemberLabels | internal/webhook/v1alpha1/workspace_webhook.go:134-158 | the two passes over the labels mirror the member list |
| Admission.Draft.Default | internal/webhook/v1alpha1/workspace_webhook.go:69-83 | a missing namespace is filled with a usable free name, with an error and an untouched object exactly when the search has no first free name; labels are the defaulted ones |
| AdmissionRuns.CreateExactly | internal/webhook/v1alpha1/workspace_webhook.go:177-203 | a create goes through if and only if the name is new and short enough, the namespace is valid and claimed by no other workspace, the caller is entitled by the new object, and the namespace does not exist or is one that is not going away and that reconcile will take |
| AdmissionRuns.CreateStores | internal/webhook/v1alpha1/workspace_webhook.go:69-83 | a create stores what was asked for with its label index and changes no other workspace |
| AdmissionRuns.UpdateExactly | internal/webhook/v1alpha1/workspace_webhook.go:205-217 | an update goes through if and only if the members are valid, the namespace is unchanged and the caller is entitled by the old object, and then replaces members and labels only |
| AdmissionRuns.DeleteExactly | internal/webhook/v1alpha1/workspace_webhook.go:219-230 | a delete removes exactly this workspace, if and only if the caller is entitled by it |
| AdmissionRuns.AlwaysInv | internal/webhook/v1alpha1/workspace_webhook.go:69-230 | over all runs of requests: distinct, non-empty, unreserved namespaces, an admin each, a correct label index, and every version written by someone entitled by the version before |
| AdmissionRuns.NamespaceNeverChanges | api/v1alpha1/workspace_types.go:105-109 | a workspace that is not deleted keeps its namespace and UID through any run |
| AdmissionRuns.OutsidersChangeNothing | internal/workspace/authorization.go:62-91 | no sequence of requests by callers without standing changes a workspace |
| AdmissionRuns.BackfillNeedsStanding | internal/workspace/authorization.go:71-91 | the operator's own label update is rejected if and only if its identity has no standing |
| Fixpoint.ReferencesTellTheTruth | internal/controller/workspace_controller.go:418-484 | after a successful reconcile every derived and every observed reference is present exactly when its object exists and carries that object's name; every object is this workspace's, with one RoleBinding for exactly the roles in use |
| Fixpoint.SecondPassWritesNothing | internal/controller/workspace_controller.go:107-186 | a second undisturbed reconcile changes no object, membership, robot or status |
| NetworkIsolation.CompilePreservesMeaning | internal/workspace/network_isolation.go:36-84 | the policy admits a namespace if and only if isolation is off, it is the own one, or it is listed |
| NetworkIsolation.LastArrivedSpecIsInForce | internal/workspace/network_isolation.go:36-92 | over any edits, reconciles and meddling by others, until somebody meddles again what is in force is what the last spec whose write took effect asked for |
| NetworkIsolation.OccupiedUntilSwitchedOff | internal/workspace/network_isolation.go:41-84 | a policy controlled by another owner stays as it is exactly until a reconcile with isolation off deletes it |
| NetworkIsolation.UncontestedWritesArrive | internal/workspace/network_isolation.go:36-92 | where nobody else controls or edits the policy, a reconcile takes effect if and only if its write is not lost |
| NetworkIsolation.PolicyStore.ReconcileNetworkIsolation | internal/workspace/network_isolation.go:36-92 | stopped anywhere it is one attempt of the run model; success means the policy is the wanted one under this workspace's control; a policy controlled by an owner of another kind or name is not overwritten, and that or a failing call is the only reason to fail |

## Left out

- RobotDriver.Reconciler.SyncProjectMembers: one step here; its calls are modelled one by one in `MemberSync`, since they touch neither robot nor Secret.
- Ownership.StateAfter: the sync of the objects is any list of create, share and delete operations, not the fixed list the code makes; the gate does not depend on which they are.
- WorkQueue.Step: informer delivery and handler calls are one step for workspaces and two for the operator inputs; finer interleavings of a single delivery are not modelled.
- Fixpoint.Pass: describes an undisturbed reconcile only; interrupted ones are covered component by component.
- MemberSync.Project.ListMembers: Harbor users are provisioned between syncs, not in the middle of one.
- WorkspaceStatus.MergePatch: works on whole status fields; nested fields of a reference cannot differ in part because names are fixed and spec.namespace is immutable.
- Namespaces.ApiServer.ReconcileNamespace: reads what is stored; reads through a lagging cache are in `Ownership` and `OwnershipDriver`.
- Projections.Bindings.ReconcileRoleBinding: reads what is stored, and so does `NetworkIsolation.PolicyStore.ReconcileNetworkIsolation`; a copy that lags there costs a refused write or leaves somebody else's edit until the event of that edit brings the workspace back.
- HTTP transport, JSON, query escaping, authentication and timeouts of the Harbor client: each call is a step with its outcomes.
- Docker config JSON, labels and controller reference of the pull Secret, and Helm repository URL parsing: settled by reading one branch.
- The credentials Secret's contents: only that reading it may fail, and that changes to it are watched.
- Condition transition times, events, logging and message texts: no state depends on them.
- Flags, leader election, TLS, CRD-served checks and start-up wiring.
- Label-key syntax limits of the API server, and byte length against character length for non-ASCII names.
- The randomness of generated names: any byte and any suffix of the charset.
