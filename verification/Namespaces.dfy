/** Who may own a namespace: admission's availability check and the reconciler's
    create, adopt or refuse decision. */
module Namespaces {
  import opened Common

  datatype OwnerKind = WorkspaceKind | OtherKind

  datatype OwnerRef = OwnerRef(uid: nat, kind: OwnerKind, name: string, controller: bool)

  /** `version` is the resourceVersion the API server stamps on every write. */
  datatype Namespace = Namespace(
    owners: seq<OwnerRef>,
    labels: map<string, string>,
    annotations: map<string, string>,
    terminating: bool,
    version: nat)

  /** A Workspace as the reconciler sees it here. */
  datatype Claim = Claim(uid: nat, name: string, ns: string)

  const NAME := "app.kubernetes.io/name"
  const COMPONENT := "app.kubernetes.io/component"
  const PART_OF := "app.kubernetes.io/part-of"
  const MANAGED_BY := "app.kubernetes.io/managed-by"
  const VERSION := "app.kubernetes.io/version"
  const RANCHER_PROJECT := "field.cattle.io/projectId"

  function LabelsForWorkspace(name: string, version: string): map<string, string> {
    map[NAME := name, COMPONENT := "workspace", PART_OF := "otterscale-system", MANAGED_BY := "tenant-operator"] +
    if version != "" then map[VERSION := version] else map[]
  }

  function PodSecurityLabels(): map<string, string> {
    map["pod-security.kubernetes.io/enforce" := "baseline",
        "pod-security.kubernetes.io/warn" := "restricted",
        "pod-security.kubernetes.io/audit" := "restricted"]
  }

  predicate HasIdentity(labels: map<string, string>, name: string) {
    forall k :: k in LabelsForWorkspace(name, "") ==> Lookup(labels, k) == LabelsForWorkspace(name, "")[k]
  }

  predicate IsOwned(refs: seq<OwnerRef>, uid: nat) {
    exists i :: 0 <= i < |refs| && refs[i].uid == uid
  }

  /** An ownerless namespace stamped for this workspace: back from a backup. */
  predicate Adoptable(ns: Namespace, name: string) {
    ns.owners == [] && HasIdentity(ns.labels, name)
  }

  // ---------------------------------------------------------------- owner references

  function RefTo(w: Claim): OwnerRef {
    OwnerRef(w.uid, WorkspaceKind, w.name, true)
  }

  predicate SameObject(ref: OwnerRef, w: Claim) {
    ref.kind == WorkspaceKind && ref.name == w.name
  }

  /** `SetControllerReference` refuses an object that something else controls.  Kind
      and name decide, not the UID: an earlier workspace of the same name is the same
      owner to it. */
  predicate Foreign(controller: Option<OwnerRef>, w: Claim) {
    controller.Some? && !SameObject(controller.value, w)
  }

  function Upsert(refs: seq<OwnerRef>, w: Claim): seq<OwnerRef> {
    if refs == [] then [RefTo(w)]
    else if SameObject(refs[0], w) then [RefTo(w)] + refs[1..]
    else [refs[0]] + Upsert(refs[1..], w)
  }

  /** `SetControllerReference` on a whole list of references. */
  function SetController(refs: seq<OwnerRef>, w: Claim): Option<seq<OwnerRef>> {
    if exists i :: 0 <= i < |refs| && refs[i].controller && Foreign(Some(refs[i]), w) then None
    else Some(Upsert(refs, w))
  }

  // ---------------------------------------------------------------- the decisions

  const NO_NAMESPACE := Namespace([], map[], map[], false, 0)

  datatype Mutation = Mutated(ns: Namespace) | Conflict | AlreadyOwned

  /** What the mutate function of `ReconcileNamespace` makes of what was read. */
  function Mutate(seen: Option<Namespace>, w: Claim, version: string, rancher: string): Mutation {
    var ns := match seen
              case Some(existing) => existing
              case None => NO_NAMESPACE;
    if seen.Some? && !IsOwned(ns.owners, w.uid) && !Adoptable(ns, w.name) then Conflict
    else
      match SetController(ns.owners, w)
      case None => AlreadyOwned
      case Some(owners) =>
        Mutated(ns.(owners := owners,
                    labels := ns.labels + LabelsForWorkspace(w.name, version) + PodSecurityLabels(),
                    annotations := if rancher == "" then ns.annotations
                                   else ns.annotations[RANCHER_PROJECT := rancher]))
  }

  datatype Availability = Available | Terminating | Taken

  /** `ValidateNamespaceAvailable`, the admission-time counterpart. */
  function CheckAvailable(existing: Option<Namespace>, w: Claim): Availability {
    match existing
    case None => Available
    case Some(ns) =>
      if ns.terminating then Terminating
      else if Adoptable(ns, w.name) then Available
      else Taken
  }

  // ---------------------------------------------------------------- lemmas

  lemma StampedLabels(labels: map<string, string>, name: string, version: string)
    ensures HasIdentity(labels + LabelsForWorkspace(name, version) + PodSecurityLabels(), name)
  {
    var all := labels + LabelsForWorkspace(name, version) + PodSecurityLabels();
    assert VERSION[18] == 'v' && NAME[18] == 'n' && COMPONENT[18] == 'c' && PART_OF[18] == 'p' && MANAGED_BY[18] == 'm';
    forall k | k in LabelsForWorkspace(name, "") ensures Lookup(all, k) == LabelsForWorkspace(name, "")[k] {
      assert k[0] == 'a';
      assert k !in PodSecurityLabels() by {
        forall p | p in PodSecurityLabels() ensures p[0] == 'p' {}
      }
      assert k != VERSION;
    }
  }

  lemma {:induction false} UpsertOwns(refs: seq<OwnerRef>, w: Claim)
    ensures IsOwned(Upsert(refs, w), w.uid)
  {
    if refs != [] && !SameObject(refs[0], w) {
      UpsertOwns(refs[1..], w);
      var i :| 0 <= i < |Upsert(refs[1..], w)| && Upsert(refs[1..], w)[i].uid == w.uid;
      assert Upsert(refs, w)[i + 1].uid == w.uid;
    } else {
      assert Upsert(refs, w)[0].uid == w.uid;
    }
  }

  /** A namespace as its workspace wants it, key by key. */
  ghost predicate Stamped(ns: Namespace, w: Claim, version: string, rancher: string) {
    && OwnerRef(w.uid, WorkspaceKind, w.name, true) in ns.owners
    && Labelled(ns.labels, w.name, version)
    && (rancher != "" ==> Has(ns.annotations, "field.cattle.io/projectId", rancher))
  }

  ghost predicate Labelled(labels: map<string, string>, name: string, version: string) {
    && Has(labels, "app.kubernetes.io/name", name)
    && Has(labels, "app.kubernetes.io/component", "workspace")
    && Has(labels, "app.kubernetes.io/part-of", "otterscale-system")
    && Has(labels, "app.kubernetes.io/managed-by", "tenant-operator")
    && (version != "" ==> Has(labels, "app.kubernetes.io/version", version))
    && Has(labels, "pod-security.kubernetes.io/enforce", "baseline")
    && Has(labels, "pod-security.kubernetes.io/warn", "restricted")
    && Has(labels, "pod-security.kubernetes.io/audit", "restricted")
  }

  predicate Has(m: map<string, string>, key: string, value: string) {
    key in m && m[key] == value
  }

  predicate IsStampedLabel(key: string) {
    key in {"app.kubernetes.io/name", "app.kubernetes.io/component", "app.kubernetes.io/part-of",
            "app.kubernetes.io/managed-by", "app.kubernetes.io/version", "pod-security.kubernetes.io/enforce",
            "pod-security.kubernetes.io/warn", "pod-security.kubernetes.io/audit"}
  }

  /** Everything that is not this workspace's to write is as it was, and nothing else
      was put in. */
  ghost predicate KeepsTheRest(before: Namespace, after: Namespace, w: Claim, version: string, rancher: string) {
    && LabelsKept(before.labels, after.labels, version)
    && (forall k :: k != "field.cattle.io/projectId" || rancher == "" ==>
          (k in after.annotations <==> k in before.annotations) &&
          (k in after.annotations ==> after.annotations[k] == before.annotations[k]))
    && (forall ref :: ref in before.owners && !SameObject(ref, w) ==> ref in after.owners)
    && (forall ref :: ref in after.owners ==>
          ref == OwnerRef(w.uid, WorkspaceKind, w.name, true) || ref in before.owners)
    && after.terminating == before.terminating
  }

  ghost predicate LabelsKept(before: map<string, string>, after: map<string, string>, version: string) {
    forall k :: !IsStampedLabel(k) || (k == "app.kubernetes.io/version" && version == "") ==>
      (k in after <==> k in before) && (k in after ==> after[k] == before[k])
  }

  lemma {:induction false} UpsertMembers(refs: seq<OwnerRef>, w: Claim)
    ensures RefTo(w) in Upsert(refs, w)
    ensures forall ref :: ref in refs && !SameObject(ref, w) ==> ref in Upsert(refs, w)
    ensures forall ref :: ref in Upsert(refs, w) ==> ref == RefTo(w) || ref in refs
  {
    if refs != [] {
      assert refs == [refs[0]] + refs[1..];
      if !SameObject(refs[0], w) {
        UpsertMembers(refs[1..], w);
      }
    }
  }

  lemma LabelKeysDiffer()
    ensures VERSION !in {NAME, COMPONENT, PART_OF, MANAGED_BY}
    ensures NAME !in {COMPONENT, PART_OF, MANAGED_BY} && COMPONENT !in {PART_OF, MANAGED_BY} && PART_OF != MANAGED_BY
  {
    assert VERSION[18] == 'v' && NAME[18] == 'n' && COMPONENT[18] == 'c' && PART_OF[18] == 'p' && MANAGED_BY[18] == 'm';
  }

  lemma PodKeysDiffer()
    ensures "pod-security.kubernetes.io/enforce" != "pod-security.kubernetes.io/warn"
    ensures "pod-security.kubernetes.io/enforce" != "pod-security.kubernetes.io/audit"
    ensures "pod-security.kubernetes.io/warn" != "pod-security.kubernetes.io/audit"
  {
    var e, w, a := "pod-security.kubernetes.io/enforce", "pod-security.kubernetes.io/warn",
                   "pod-security.kubernetes.io/audit";
    assert e[27] == 'e' && w[27] == 'w' && a[27] == 'a';
  }

  lemma LabelsStamped(labels: map<string, string>, name: string, version: string)
    ensures Labelled(labels + LabelsForWorkspace(name, version) + PodSecurityLabels(), name, version)
  {
    LabelKeysDiffer();
    PodKeysDiffer();
    StampsDisjoint(name, version);
  }

  lemma OtherLabelsKept(labels: map<string, string>, name: string, version: string)
    ensures LabelsKept(labels, labels + LabelsForWorkspace(name, version) + PodSecurityLabels(), version)
  {
    LabelKeysDiffer();
    assert VERSION[0] == 'a' && forall k :: k in PodSecurityLabels() ==> k[0] == 'p';
  }

  /** The mutated namespace, field by field. */
  lemma MutationFields(seen: Option<Namespace>, w: Claim, version: string, rancher: string)
    requires Mutate(seen, w, version, rancher).Mutated?
    ensures var before := if seen.Some? then seen.value else NO_NAMESPACE;
            var ns := Mutate(seen, w, version, rancher).ns;
            && ns.owners == Upsert(before.owners, w)
            && ns.labels == before.labels + LabelsForWorkspace(w.name, version) + PodSecurityLabels()
            && ns.annotations == (if rancher == "" then before.annotations
                                  else before.annotations[RANCHER_PROJECT := rancher])
            && ns.terminating == before.terminating
  {
  }

  lemma MutationMarks(seen: Option<Namespace>, w: Claim, version: string, rancher: string)
    requires Mutate(seen, w, version, rancher).Mutated?
    ensures var ns := Mutate(seen, w, version, rancher).ns;
            IsOwned(ns.owners, w.uid) && HasIdentity(ns.labels, w.name)
  {
    var before := if seen.Some? then seen.value else NO_NAMESPACE;
    UpsertOwns(before.owners, w);
    StampedLabels(before.labels, w.name, version);
  }

  lemma MutationLabels(seen: Option<Namespace>, w: Claim, version: string, rancher: string)
    requires Mutate(seen, w, version, rancher).Mutated?
    ensures var before := if seen.Some? then seen.value else NO_NAMESPACE;
            var ns := Mutate(seen, w, version, rancher).ns;
            Labelled(ns.labels, w.name, version) && LabelsKept(before.labels, ns.labels, version)
  {
    var before := if seen.Some? then seen.value else NO_NAMESPACE;
    MutationFields(seen, w, version, rancher);
    LabelsStamped(before.labels, w.name, version);
    OtherLabelsKept(before.labels, w.name, version);
  }

  /** Taken over from what was seen: stamped, and the rest as it was. */
  ghost predicate TakenFrom(seen: Option<Namespace>, ns: Namespace, w: Claim, version: string, rancher: string) {
    && Stamped(ns, w, version, rancher)
    && KeepsTheRest(if seen.Some? then seen.value else NO_NAMESPACE, ns, w, version, rancher)
  }

  lemma TakenAtAnyVersion(seen: Option<Namespace>, ns: Namespace, w: Claim, version: string, rancher: string, at: nat)
    requires TakenFrom(seen, ns, w, version, rancher)
    ensures TakenFrom(seen, ns.(version := at), w, version, rancher)
  {
  }

  lemma FieldsStamp(before: Namespace, ns: Namespace, w: Claim, version: string, rancher: string)
    requires ns.owners == Upsert(before.owners, w) && ns.terminating == before.terminating
    requires Labelled(ns.labels, w.name, version) && LabelsKept(before.labels, ns.labels, version)
    requires ns.annotations == if rancher == "" then before.annotations
                               else before.annotations[RANCHER_PROJECT := rancher]
    ensures Stamped(ns, w, version, rancher) && KeepsTheRest(before, ns, w, version, rancher)
  {
    UpsertMembers(before.owners, w);
  }

  /** A successful mutation leaves the namespace owned by this workspace, with its
      identity, version, Pod Security and Rancher stamps, and everything else as it was. */
  lemma MutationStamps(seen: Option<Namespace>, w: Claim, version: string, rancher: string)
    requires Mutate(seen, w, version, rancher).Mutated?
    ensures TakenFrom(seen, Mutate(seen, w, version, rancher).ns, w, version, rancher)
  {
    var before := if seen.Some? then seen.value else NO_NAMESPACE;
    MutationFields(seen, w, version, rancher);
    MutationLabels(seen, w, version, rancher);
    FieldsStamp(before, Mutate(seen, w, version, rancher).ns, w, version, rancher);
  }

  lemma {:induction false} UpsertSettles(refs: seq<OwnerRef>, w: Claim)
    ensures Upsert(Upsert(refs, w), w) == Upsert(refs, w)
    ensures forall i :: 0 <= i < |Upsert(refs, w)| ==> Upsert(refs, w)[i] == RefTo(w) || Upsert(refs, w)[i] in refs
  {
    if refs != [] && !SameObject(refs[0], w) {
      UpsertSettles(refs[1..], w);
      assert Upsert(refs, w)[1..] == Upsert(refs[1..], w);
    }
  }

  lemma SetControllerSettles(refs: seq<OwnerRef>, w: Claim)
    requires SetController(refs, w).Some?
    ensures SetController(SetController(refs, w).value, w) == SetController(refs, w)
  {
    UpsertSettles(refs, w);
  }

  lemma StampsDisjoint(name: string, version: string)
    ensures LabelsForWorkspace(name, version).Keys !! PodSecurityLabels().Keys
  {
    forall k | k in LabelsForWorkspace(name, version) ensures k[0] == 'a' {}
    forall k | k in PodSecurityLabels() ensures k[0] == 'p' {}
  }

  lemma OverlaySettles(m: map<string, string>, a: map<string, string>, b: map<string, string>)
    requires a.Keys !! b.Keys
    ensures m + a + b + a + b == m + a + b
  {
  }

  /** Reconciling again with nothing changed asks for no write. */
  lemma MutationSettles(seen: Option<Namespace>, w: Claim, version: string, rancher: string)
    requires Mutate(seen, w, version, rancher).Mutated?
    ensures var ns := Mutate(seen, w, version, rancher).ns;
            Mutate(Some(ns), w, version, rancher) == Mutated(ns)
  {
    var before := if seen.Some? then seen.value else NO_NAMESPACE;
    UpsertOwns(before.owners, w);
    SetControllerSettles(before.owners, w);
    StampsDisjoint(w.name, version);
    OverlaySettles(before.labels, LabelsForWorkspace(w.name, version), PodSecurityLabels());
  }

  /** The four labels that mark a namespace as a workspace's own. */
  lemma IdentityMeans(labels: map<string, string>, name: string)
    ensures HasIdentity(labels, name) <==>
            && Lookup(labels, "app.kubernetes.io/name") == name
            && Lookup(labels, "app.kubernetes.io/component") == "workspace"
            && Lookup(labels, "app.kubernetes.io/part-of") == "otterscale-system"
            && Lookup(labels, "app.kubernetes.io/managed-by") == "tenant-operator"
  {
    LabelKeysDiffer();
    var want := LabelsForWorkspace(name, "");
    assert want[NAME] == name && want[COMPONENT] == "workspace";
    assert want[PART_OF] == "otterscale-system" && want[MANAGED_BY] == "tenant-operator";
  }

  /** The two refusals, from the owner references and labels alone. */
  lemma RefusalsExactly(ns: Namespace, w: Claim, version: string, rancher: string)
    ensures Mutate(Some(ns), w, version, rancher).Conflict? <==>
            && (forall ref :: ref in ns.owners ==> ref.uid != w.uid)
            && (ns.owners == [] ==> !HasIdentity(ns.labels, w.name))
    ensures Mutate(Some(ns), w, version, rancher).AlreadyOwned? <==>
            && (exists ref :: ref in ns.owners && ref.uid == w.uid)
            && (exists ref :: ref in ns.owners && ref.controller && !(ref.kind.WorkspaceKind? && ref.name == w.name))
    ensures Mutate(None, w, version, rancher).Mutated?
  {
    assert forall i :: 0 <= i < |ns.owners| ==> ns.owners[i] in ns.owners;
  }

  /** Admission and reconcile agree.  For a workspace whose UID nothing refers to
      yet, admission accepts an existing namespace exactly when it is not being
      deleted and reconcile will take it; and reconcile's only refusal is the
      conflict. */
  lemma AdmissionAgreesWithReconcile(ns: Namespace, w: Claim, version: string, rancher: string)
    requires !IsOwned(ns.owners, w.uid)
    ensures CheckAvailable(Some(ns), w).Available? <==>
            !ns.terminating && Mutate(Some(ns), w, version, rancher).Mutated?
    ensures Mutate(Some(ns), w, version, rancher).Conflict? <==> !Adoptable(ns, w.name)
    ensures !Mutate(Some(ns), w, version, rancher).AlreadyOwned?
  {
  }

  /** What restore tooling gives back: everything but the owners. */
  function Restored(ns: Namespace): Namespace {
    ns.(owners := [], terminating := false)
  }

  /** Backup and restore: reconciled at one operator version, brought back without
      owners, a namespace is accepted by admission for the workspace of the same name
      under a fresh UID, and re-owned by it alone at whatever version runs then. */
  lemma RestoreRoundTrip(seen: Option<Namespace>, w: Claim, version: string, rancher: string,
                         again: Claim, version': string, rancher': string)
    requires Mutate(seen, w, version, rancher).Mutated?
    requires again.name == w.name && again.ns == w.ns
    ensures var back := Restored(Mutate(seen, w, version, rancher).ns);
            && CheckAvailable(Some(back), again).Available?
            && Mutate(Some(back), again, version', rancher').Mutated?
            && Mutate(Some(back), again, version', rancher').ns.owners == [RefTo(again)]
            && HasIdentity(Mutate(Some(back), again, version', rancher').ns.labels, w.name)
  {
    MutationMarks(seen, w, version, rancher);
    var back := Restored(Mutate(seen, w, version, rancher).ns);
    StampedLabels(back.labels, w.name, version');
  }

  /** A workspace of another name gets neither: the identity labels tell them apart. */
  lemma RestoreIsForOneName(seen: Option<Namespace>, w: Claim, version: string, rancher: string,
                            other: Claim, version': string, rancher': string)
    requires Mutate(seen, w, version, rancher).Mutated?
    requires other.name != w.name
    ensures var back := Restored(Mutate(seen, w, version, rancher).ns);
            && CheckAvailable(Some(back), other).Taken?
            && Mutate(Some(back), other, version', rancher').Conflict?
  {
    MutationMarks(seen, w, version, rancher);
    var back := Restored(Mutate(seen, w, version, rancher).ns);
    assert NAME in LabelsForWorkspace(w.name, "") && NAME in LabelsForWorkspace(other.name, "");
    assert LabelsForWorkspace(w.name, "")[NAME] == w.name && LabelsForWorkspace(other.name, "")[NAME] == other.name;
    assert Lookup(back.labels, NAME) == w.name;
  }

  // ---------------------------------------------------------------- the code

  datatype Verdict = Reconciled | NamespaceConflict | Failed

  class ApiServer {
    var namespaces: map<string, Namespace>
    var clock: nat
    /** tenant-operator-config's Rancher project, empty when not configured. */
    const rancher: string
    const faults: seq<Fault>
    var pos: nat

    constructor (namespaces: map<string, Namespace>, clock: nat, rancher: string, faults: seq<Fault>)
      ensures this.namespaces == namespaces && this.rancher == rancher && this.faults == faults
    {
      this.namespaces, this.clock, this.rancher, this.faults, pos := namespaces, clock, rancher, faults, 0;
    }

    function Stored(name: string): Option<Namespace>
      reads this
    {
      if name in namespaces then Some(namespaces[name]) else None
    }

    /** Why a call can end in an error: the last call made did not go through, or the
        process died before the next. */
    ghost predicate Halted(from: nat)
      reads this`pos
    {
      pos >= |faults| || (from < pos && faults[pos - 1] != Fine)
    }

    method NextFault() returns (r: Reply<Fault>)
      modifies this`pos
      ensures r.Err? ==> old(pos) >= |faults| && pos == old(pos)
      ensures r.Ok? ==> old(pos) < |faults| && pos == old(pos) + 1 && r.value == faults[old(pos)]
    {
      if pos >= |faults| {
        return Err;
      }
      r := Ok(faults[pos]);
      pos := pos + 1;
    }

    /** The mutate function handed to CreateOrUpdate. */
    method MutateNamespace(seen: Option<Namespace>, w: Claim, version: string) returns (m: Mutation)
      ensures m == Mutate(seen, w, version, rancher)
    {
      var ns := if seen.Some? then seen.value else NO_NAMESPACE;
      if !IsOwned(ns.owners, w.uid) && seen.Some? {
        if !Adoptable(ns, w.name) {
          return Conflict;
        }
      }
      ns := ns.(labels := ns.labels + LabelsForWorkspace(w.name, version));
      ns := ns.(labels := ns.labels + PodSecurityLabels());
      if rancher != "" {
        ns := ns.(annotations := ns.annotations[RANCHER_PROJECT := rancher]);
      }
      var owners := SetController(ns.owners, w);
      if owners.None? {
        return AlreadyOwned;
      }
      return Mutated(ns.(owners := owners.value));
    }

    /** What CreateOrUpdate does with the mutated object: no write if nothing changed. */
    method PutNamespace(name: string, seen: Option<Namespace>, ns: Namespace) returns (v: Verdict)
      requires seen == Stored(name)
      modifies this
      ensures forall n :: n != name ==> (n in namespaces <==> n in old(namespaces))
      ensures forall n :: n != name && n in namespaces ==> namespaces[n] == old(namespaces)[n]
      ensures old(pos) <= pos && (v.Failed? ==> Halted(old(pos))) && !v.NamespaceConflict?
      ensures namespaces == old(namespaces) || Stored(name) == Some(ns.(version := old(clock)))
      ensures v.Reconciled? ==> Stored(name).Some? && Stored(name).value == ns.(version := Stored(name).value.version)
    {
      if seen == Some(ns) {
        return Reconciled;
      }
      var written := NextFault();
      if written.Err? {
        return Failed;
      }
      if !written.value.Before? {
        namespaces := namespaces[name := ns.(version := clock)];
        clock := clock + 1;
      }
      return if written.value.Fine? then Reconciled else Failed;
    }

    /** Create, adopt or refuse.  Only this workspace's namespace is ever written, and
        only as `Mutate` says; a refusal writes nothing and is told apart from failures,
        which only failing calls or another controller cause; success means owned and
        stamped. */
    method ReconcileNamespace(w: Claim, version: string) returns (v: Verdict)
      modifies this
      ensures forall n :: n != w.ns ==> (n in namespaces <==> n in old(namespaces))
      ensures forall n :: n != w.ns && n in namespaces ==> namespaces[n] == old(namespaces)[n]
      ensures Obeys(Mutate(old(Stored(w.ns)), w, version, rancher), old(Stored(w.ns)), Stored(w.ns), v, old(clock))
      ensures v.Reconciled? ==>
                && w.ns in namespaces && IsOwned(namespaces[w.ns].owners, w.uid)
                && TakenFrom(old(Stored(w.ns)), namespaces[w.ns], w, version, rancher)
      ensures v.Failed? ==> Halted(old(pos)) || Mutate(old(Stored(w.ns)), w, version, rancher).AlreadyOwned?
    {
      var config := NextFault();
      if config.Err? || !config.value.Fine? {
        return Failed;
      }
      var read := NextFault();
      if read.Err? || !read.value.Fine? {
        return Failed;
      }
      var seen := Stored(w.ns);
      var decision := MutateNamespace(seen, w, version);
      if decision.Conflict? {
        return NamespaceConflict;
      }
      if decision.AlreadyOwned? {
        return Failed;
      }
      v := PutNamespace(w.ns, seen, decision.ns);
      if v.Reconciled? {
        MutationMarks(seen, w, version, rancher);
        MutationStamps(seen, w, version, rancher);
        TakenAtAnyVersion(seen, decision.ns, w, version, rancher, namespaces[w.ns].version);
      }
    }
  }

  /** What becomes of a namespace under a decision. */
  ghost predicate Obeys(m: Mutation, was: Option<Namespace>, now: Option<Namespace>, v: Verdict, clock: nat) {
    match m
    case Conflict => now == was && !v.Reconciled?
    case AlreadyOwned => now == was && v.Failed?
    case Mutated(next) =>
      && !v.NamespaceConflict?
      && (now == was || now == Some(next.(version := clock)))
      && (v.Reconciled? ==> now.Some? && now.value == next.(version := now.value.version))
  }
}
