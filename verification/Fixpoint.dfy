/** A whole undisturbed reconcile over everything it manages, and what it leaves:
    status references that tell the truth, and nothing for a second reconcile to do. */
module Fixpoint {
  import opened Common
  import Ns = Namespaces
  import Robot = RobotProtocol
  import opened MemberSync
  import opened Projections
  import opened WorkspaceStatus

  /** The fixed-name objects of the workspace namespace, in the order they are
      reconciled; the pull Secret and default ServiceAccount are Harbor's part. */
  datatype Kind =
    | HelmRepository | LibraryRepository
    | RoleBinding(role: Role)
    | DeployerAccount | DeployerBinding
    | ResourceQuota | LimitRange | NetworkPolicy

  const KINDS := [HelmRepository, LibraryRepository,
                  RoleBinding(Admin), RoleBinding(Edit), RoleBinding(View),
                  DeployerAccount, DeployerBinding, ResourceQuota, LimitRange, NetworkPolicy]

  /** The object names; one RoleBinding per role. */
  function NameOf(k: Kind): string {
    match k
    case HelmRepository => "workspace-helm-repository"
    case LibraryRepository => "library"
    case RoleBinding(role) => "workspace-role-binding-" + RoleName(role)
    case DeployerAccount => "workspace-deployer"
    case DeployerBinding => "workspace-deployer"
    case ResourceQuota => "workspace-resource-quota"
    case LimitRange => "workspace-limit-range"
    case NetworkPolicy => "workspace-network-policy"
  }

  datatype Content =
    | Repository(url: string)
    | Subjects(role: Role, names: seq<string>)
    | Account
    | Limits(text: string)
    | Allowed(namespaces: seq<string>)

  datatype Body = Body(labels: map<string, string>, content: Content)

  datatype Object = Object(controller: Option<Ns.OwnerRef>, body: Body)

  type Objects = map<Kind, Object>

  /** What one reconcile works from. */
  datatype Inputs = Inputs(
    claim: Ns.Claim, generation: nat, spec: Spec,
    version: string, rancher: string, url: string, users: set<string>)

  /** What the spec asks for of each object; `None` means it should not be there. */
  function Want(i: Inputs, k: Kind): Option<Body> {
    var labels := Ns.LabelsForWorkspace(i.claim.name, i.version);
    match k
    case HelmRepository =>
      Some(Body(labels["tenant.otterscale.io/from-harbor" := "true"]["tenant.otterscale.io/internal" := "true"],
                Repository(i.url + "/" + i.spec.ns)))
    case LibraryRepository =>
      Some(Body(labels["tenant.otterscale.io/from-harbor" := "true"], Repository(i.url + "/library")))
    case RoleBinding(role) =>
      var names := SubjectsOf(i.spec.members, role);
      if names == [] then None else Some(Body(labels, Subjects(role, names)))
    case DeployerAccount => Some(Body(labels, Account))
    case DeployerBinding => Some(Body(labels, Subjects(Admin, ["workspace-deployer"])))
    case ResourceQuota => if i.spec.quota.Some? then Some(Body(labels, Limits(i.spec.quota.value))) else None
    case LimitRange => if i.spec.limits.Some? then Some(Body(labels, Limits(i.spec.limits.value))) else None
    case NetworkPolicy => if i.spec.isolated then Some(Body(labels, Allowed(i.spec.allowed))) else None
  }

  /** Create, update or delete one object; `None` when another controller owns it. */
  function Put(objects: Objects, i: Inputs, k: Kind): Option<Objects> {
    match Want(i, k)
    case None => Some(objects - {k})
    case Some(body) =>
      if k in objects && Ns.Foreign(objects[k].controller, i.claim) then None
      else Some(objects[k := Object(Some(Ns.RefTo(i.claim)), body)])
  }

  function PutAll(objects: Objects, i: Inputs, kinds: seq<Kind>): Option<Objects> {
    if kinds == [] then Some(objects)
    else
      match PutAll(objects, i, kinds[..|kinds| - 1])
      case None => None
      case Some(done) => Put(done, i, kinds[|kinds| - 1])
  }

  /** Everything the operator keeps for one workspace. */
  datatype Everything = Everything(
    namespace: Option<Ns.Namespace>,
    members: map<string, int>,
    harbor: Robot.World,
    objects: Objects,
    status: Status)

  /** Enough undisturbed calls for Harbor's part. */
  ghost predicate CalmTape(tape: seq<Robot.Tick>) {
    Robot.AllCalm(tape) && |tape| >= Robot.Rank(Robot.START)
  }

  /** One undisturbed reconcile, `None` if it ends in an error. */
  ghost function Pass(e: Everything, i: Inputs, tape: seq<Robot.Tick>): Option<Everything> {
    match Ns.Mutate(e.namespace, i.claim, i.version, i.rancher)
    case Conflict => None
    case AlreadyOwned => None
    case Mutated(namespace) =>
      var wanted := HarborMembers(i.spec.members);
      var harbor := Robot.Attempt(i.spec.ns, e.harbor, tape).world;
      match PutAll(e.objects, i, KINDS)
      case None => None
      case Some(objects) =>
        Some(Everything(
          Some(namespace),
          Target(wanted, i.users),
          harbor,
          objects,
          NewStatus(e.status, i.spec, i.generation, Missing(wanted, i.users),
                    harbor.pull.Some?, HelmRepository in objects)))
  }

  // ---------------------------------------------------------------- objects

  ghost predicate InPlace(objects: Objects, i: Inputs, k: Kind) {
    match Want(i, k)
    case None => k !in objects
    case Some(body) => k in objects && objects[k] == Object(Some(Ns.RefTo(i.claim)), body)
  }

  lemma {:induction false} PutAllPlaces(objects: Objects, i: Inputs, kinds: seq<Kind>)
    requires PutAll(objects, i, kinds).Some?
    ensures forall k :: k in kinds ==> InPlace(PutAll(objects, i, kinds).value, i, k)
  {
    if kinds != [] {
      var n := |kinds| - 1;
      PutAllPlaces(objects, i, kinds[..n]);
      assert kinds == kinds[..n] + [kinds[n]];
    }
  }

  lemma {:induction false} PutAllSettles(objects: Objects, i: Inputs, kinds: seq<Kind>)
    requires forall k :: k in kinds ==> InPlace(objects, i, k)
    ensures PutAll(objects, i, kinds) == Some(objects)
  {
    if kinds != [] {
      var n := |kinds| - 1;
      assert kinds == kinds[..n] + [kinds[n]];
      PutAllSettles(objects, i, kinds[..n]);
      assert InPlace(objects, i, kinds[n]);
      match Want(i, kinds[n])
      case None => assert objects - {kinds[n]} == objects;
      case Some(body) => assert objects[kinds[n] := Object(Some(Ns.RefTo(i.claim)), body)] == objects;
    }
  }

  lemma AllKinds(k: Kind)
    ensures k in KINDS
  {
    match k
    case HelmRepository => assert KINDS[0] == k;
    case LibraryRepository => assert KINDS[1] == k;
    case RoleBinding(role) => assert k == KINDS[if role == Admin then 2 else if role == Edit then 3 else 4];
    case DeployerAccount => assert KINDS[5] == k;
    case DeployerBinding => assert KINDS[6] == k;
    case ResourceQuota => assert KINDS[7] == k;
    case LimitRange => assert KINDS[8] == k;
    case NetworkPolicy => assert KINDS[9] == k;
  }

  // ---------------------------------------------------------------- the theorems

  lemma HarborSettles(ns: string, w: Robot.World, first: seq<Robot.Tick>, second: seq<Robot.Tick>)
    requires Robot.Harbor(ns, w) && CalmTape(first) && CalmTape(second)
    ensures var v := Robot.Attempt(ns, w, first).world;
            v.pull.Some? && Robot.Attempt(ns, v, second).world == v
  {
    Robot.CalmAttempt(ns, w, first);
    var v := Robot.Attempt(ns, w, first).world;
    Robot.CalmIsFair(ns, Robot.Machine(v, Robot.START), second);
    Robot.QuietExec(ns, Robot.Machine(v, Robot.START), second);
  }

  lemma {:induction false} NobodyOrSomebody(members: seq<Member>, role: Role)
    ensures SubjectsOf(members, role) == [] <==> !RoleInUse(members, role)
  {
    if members != [] {
      var n := |members| - 1;
      NobodyOrSomebody(members[..n], role);
      if i :| 0 <= i < |members| && members[i].role == role {
        assert i < n ==> members[..n][i].role == role;
      }
    }
  }

  lemma BindingRefsMatch(objects: Objects, i: Inputs, role: Role)
    requires InPlace(objects, i, RoleBinding(role))
    ensures Ref(BindingName(role), i.spec.ns) in BindingRefs(i.spec.members, i.spec.ns, ALL_ROLES) <==>
            RoleBinding(role) in objects
  {
    BindingRefsAre(i.spec.members, i.spec.ns, ALL_ROLES, role);
    NobodyOrSomebody(i.spec.members, role);
    assert ALL_ROLES[if role == Admin then 0 else if role == Edit then 1 else 2] == role;
  }

  lemma BindingIsWanted(objects: Objects, i: Inputs, role: Role)
    requires InPlace(objects, i, RoleBinding(role))
    ensures RoleBinding(role) in objects <==> exists m :: m in i.spec.members && m.role == role
  {
    NobodyOrSomebody(i.spec.members, role);
    if j :| 0 <= j < |i.spec.members| && i.spec.members[j].role == role {
      assert i.spec.members[j] in i.spec.members;
    }
  }

  /** The reference an object of that name should have. */
  function RefIf(present: bool, name: string, ns: string): Option<Ref> {
    if present then Some(Ref(name, ns)) else None
  }

  /** Each reference of a status against the objects there are, by name. */
  ghost predicate Truthful(status: Status, ns: string, objects: Objects, pull: bool) {
    && status.namespaceRef == Some(Ref(ns, ""))
    && (forall ref :: ref in status.bindingRefs <==>
          exists role :: RoleBinding(role) in objects && ref == Ref(NameOf(RoleBinding(role)), ns))
    && status.quotaRef == RefIf(ResourceQuota in objects, NameOf(ResourceQuota), ns)
    && status.limitsRef == RefIf(LimitRange in objects, NameOf(LimitRange), ns)
    && status.policyRef == RefIf(NetworkPolicy in objects, NameOf(NetworkPolicy), ns)
    && status.helmRef == RefIf(HelmRepository in objects, NameOf(HelmRepository), ns)
    && status.secretRef == RefIf(pull, Robot.PULL_SECRET, ns)
  }

  lemma BindingRefsTruthful(objects: Objects, i: Inputs)
    requires forall k :: InPlace(objects, i, k)
    ensures forall ref :: ref in BindingRefs(i.spec.members, i.spec.ns, ALL_ROLES) <==>
              exists role :: RoleBinding(role) in objects && ref == Ref(NameOf(RoleBinding(role)), i.spec.ns)
  {
    BindingRefsOnly(i.spec.members, i.spec.ns, ALL_ROLES);
    forall role ensures Ref(BindingName(role), i.spec.ns) in BindingRefs(i.spec.members, i.spec.ns, ALL_ROLES) <==>
                        RoleBinding(role) in objects {
      BindingRefsMatch(objects, i, role);
    }
    assert forall role :: NameOf(RoleBinding(role)) == BindingName(role);
  }

  lemma NewStatusIsTruthful(old_: Status, objects: Objects, i: Inputs, missing: seq<string>, pull: bool)
    requires forall k :: InPlace(objects, i, k)
    ensures Truthful(NewStatus(old_, i.spec, i.generation, missing, pull, HelmRepository in objects),
                     i.spec.ns, objects, pull)
  {
    BindingRefsTruthful(objects, i);
    assert InPlace(objects, i, ResourceQuota) && InPlace(objects, i, LimitRange) && InPlace(objects, i, NetworkPolicy);
  }

  /** After a successful reconcile every status reference is present exactly when the
      object it names exists, whether the reference was derived from the spec or
      observed, and carries its name; the namespace, pull Secret and HelmRepository all
      exist; every object is controlled by the workspace; and there is a RoleBinding for
      exactly the roles members have. */
  lemma ReferencesTellTheTruth(e: Everything, i: Inputs, tape: seq<Robot.Tick>)
    requires Robot.Harbor(i.spec.ns, e.harbor) && CalmTape(tape) && Pass(e, i, tape).Some?
    ensures var t := Pass(e, i, tape).value;
            && Truthful(t.status, i.spec.ns, t.objects, t.harbor.pull.Some?)
            && t.namespace.Some? && t.status.secretRef.Some? && t.status.helmRef.Some?
            && (forall k :: k in t.objects ==>
                  t.objects[k].controller == Some(Ns.OwnerRef(i.claim.uid, Ns.WorkspaceKind, i.claim.name, true)))
            && (forall role :: RoleBinding(role) in t.objects <==> exists m :: m in i.spec.members && m.role == role)
  {
    var t := Pass(e, i, tape).value;
    HarborSettles(i.spec.ns, e.harbor, tape, tape);
    PutAllPlaces(e.objects, i, KINDS);
    forall k ensures InPlace(t.objects, i, k) {
      AllKinds(k);
    }
    NewStatusIsTruthful(e.status, t.objects, i, Missing(HarborMembers(i.spec.members), i.users), t.harbor.pull.Some?);
    assert InPlace(t.objects, i, HelmRepository);
    forall k | k in t.objects
      ensures t.objects[k].controller == Some(Ns.OwnerRef(i.claim.uid, Ns.WorkspaceKind, i.claim.name, true))
    {
      assert InPlace(t.objects, i, k);
    }
    forall role ensures RoleBinding(role) in t.objects <==> exists m :: m in i.spec.members && m.role == role {
      BindingIsWanted(t.objects, i, role);
    }
  }

  /** The reconcile is a projection: a second undisturbed one writes no object, no
      membership, no robot and no status. */
  lemma SecondPassWritesNothing(e: Everything, i: Inputs, first: seq<Robot.Tick>, second: seq<Robot.Tick>)
    requires Robot.Harbor(i.spec.ns, e.harbor) && UniqueKinds(e.status.conditions)
    requires CalmTape(first) && CalmTape(second) && Pass(e, i, first).Some?
    ensures Pass(Pass(e, i, first).value, i, second) == Pass(e, i, first)
  {
    var t := Pass(e, i, first).value;
    var missing := Missing(HarborMembers(i.spec.members), i.users);
    Ns.MutationSettles(e.namespace, i.claim, i.version, i.rancher);
    HarborSettles(i.spec.ns, e.harbor, first, second);
    PutAllPlaces(e.objects, i, KINDS);
    PutAllSettles(t.objects, i, KINDS);
    NewStatusSettles(e.status, i.spec, i.generation, missing, t.harbor.pull.Some?, HelmRepository in t.objects);
  }
}
