/** `Reconcile` itself: fetch, backfill, sync, classify the error, report. */
module Controller {
  import opened Common
  import opened Projections
  import opened WorkspaceStatus
  import opened Admission
  import Queue = WorkQueue
  import Runs = ReadyRuns

  /** The Workspace as fetched. */
  datatype Copy = Copy(generation: nat, spec: Spec, labels: map<string, string>, status: Status)

  /** What `errors.AsType` and `apierrors.IsConflict` would say of an error. */
  datatype Error = Error(namespaceConflict: bool, writeConflict: bool, message: string)

  /** How `reconcileResources` came out: the members Harbor has no user for, or an error. */
  datatype Resources = Complete(missing: seq<string>) | Broke(error: Error)

  /** ctrl.Result and the error next to it; `after` is RequeueAfter in seconds. */
  datatype Verdict = Verdict(after: Option<nat>, failed: bool)

  predicate ComesBack(v: Verdict) {
    v.after.Some? || v.failed
  }

  class Reconciler {
    /** The stored object's labels and status. */
    var labels: map<string, string>
    var status: Status
    const faults: seq<Fault>
    var pos: nat

    constructor (labels: map<string, string>, status: Status, faults: seq<Fault>)
      ensures this.labels == labels && this.status == status && this.faults == faults
    {
      this.labels, this.status, this.faults, pos := labels, status, faults, 0;
    }

    /** A status patch that may be lost on the way there or back. */
    method PatchStatus(copy: Status, new_: Status) returns (ok: bool)
      modifies this`status, this`pos
      ensures status == old(status) || status == MergePatch(old(status), copy, new_)
      ensures ok ==> status == MergePatch(old(status), copy, new_)
      ensures ok <==> old(pos) < |faults| && faults[old(pos)].Fine?
    {
      if pos >= |faults| {
        return false;
      }
      var fault := faults[pos];
      pos := pos + 1;
      if !fault.Before? {
        status := MergePatch(status, copy, new_);
      }
      return fault.Fine?;
    }

    method SetReadyConditionFalse(w: Copy, reason: Reason, detail: string) returns (ok: bool)
      modifies this`status, this`pos
      ensures var merged := MergePatch(old(status), w.status, FailedStatus(w.status, w.generation, reason, detail));
              (status == old(status) || status == merged) && (ok ==> status == merged)
      ensures ok <==> old(pos) < |faults| && faults[old(pos)].Fine?
    {
      var conditions := SetCondition(w.status.conditions, Condition(READY, false, reason, detail, w.generation));
      var new_ := w.status.(conditions := conditions);
      new_ := new_.(observedGeneration := w.generation);
      ok := PatchStatus(w.status, new_);
    }

    /** The references that follow from the spec, then the two that are observed. */
    method ComputeStatus(w: Copy, missing: seq<string>, secret: bool, helm: bool) returns (new_: Status)
      ensures new_ == NewStatus(w.status, w.spec, w.generation, missing, secret, helm)
    {
      new_ := w.status.(observedGeneration := w.generation, namespaceRef := Some(Ref(w.spec.ns, "")));
      var rolesInUse: set<Role> := {};
      for i := 0 to |w.spec.members|
        invariant forall r :: r in rolesInUse <==> RoleInUse(w.spec.members[..i], r)
      {
        assert forall r :: RoleInUse(w.spec.members[..i + 1], r) <==>
                           RoleInUse(w.spec.members[..i], r) || w.spec.members[i].role == r by {
          assert w.spec.members[..i + 1] == w.spec.members[..i] + [w.spec.members[i]];
          RoleInUseGrows(w.spec.members[..i], w.spec.members[i]);
        }
        rolesInUse := rolesInUse + {w.spec.members[i].role};
      }
      assert w.spec.members[..|w.spec.members|] == w.spec.members;
      var refs: seq<Ref> := [];
      for i := 0 to 3
        invariant refs == BindingRefs(w.spec.members, w.spec.ns, ALL_ROLES[..i])
      {
        assert ALL_ROLES[..i + 1][..i] == ALL_ROLES[..i];
        if ALL_ROLES[i] in rolesInUse {
          refs := refs + [Ref(BindingName(ALL_ROLES[i]), w.spec.ns)];
        }
      }
      assert ALL_ROLES[..3] == ALL_ROLES;
      new_ := new_.(bindingRefs := refs);
      new_ := new_.(quotaRef := if w.spec.quota.Some? then Some(Ref("workspace-resource-quota", w.spec.ns)) else None);
      new_ := new_.(limitsRef := if w.spec.limits.Some? then Some(Ref("workspace-limit-range", w.spec.ns)) else None);
      new_ := new_.(secretRef := if secret then Some(Ref("workspace-image-pull-secret", w.spec.ns)) else None);
      new_ := new_.(helmRef := if helm then Some(Ref("workspace-helm-repository", w.spec.ns)) else None);
      new_ := new_.(policyRef := if w.spec.isolated then Some(Ref("workspace-network-policy", w.spec.ns)) else None);
      new_ := new_.(conditions := SetCondition(new_.conditions, ReadyCondition(w.generation, missing)));
      new_ := new_.(conditions := Sort(new_.conditions));
    }

    /** Nothing to store, or the patch meets no fault. */
    predicate StatusGoesThrough(w: Copy, missing: seq<string>, secret: bool, helm: bool, at: nat) {
      || NewStatus(w.status, w.spec, w.generation, missing, secret, helm) == w.status
      || (at < |faults| && faults[at].Fine?)
    }

    /** `secret` and `helm` are what the two lookups report; a failed lookup clears
        nothing. */
    method UpdateStatus(w: Copy, missing: seq<string>, secret: Reply<bool>, helm: Reply<bool>) returns (ok: bool)
      modifies this`status, this`pos
      ensures secret.Err? || helm.Err? ==> !ok && status == old(status)
      ensures secret.Ok? && helm.Ok? ==>
                var merged := MergePatch(old(status), w.status,
                                         NewStatus(w.status, w.spec, w.generation, missing, secret.value, helm.value));
                && (status == old(status) || status == merged) && (ok ==> status == merged)
                && (ok <==> StatusGoesThrough(w, missing, secret.value, helm.value, old(pos)))
    {
      if secret.Err? || helm.Err? {
        return false;
      }
      var new_ := ComputeStatus(w, missing, secret.value, helm.value);
      if new_ == w.status {
        return true;
      }
      ok := PatchStatus(w.status, new_);
    }

    method HandleReconcileError(w: Copy, e: Error) returns (v: Verdict, ghost o: Queue.Outcome)
      modifies this`status, this`pos
      ensures ComesBack(v) == Queue.Requeues(o)
      ensures e.namespaceConflict ==> o.Conflicted? && v == Verdict(if o.patched then None else Some(30), false)
      ensures !e.namespaceConflict ==> o.Errored? && v == Verdict(None, true)
      ensures !e.namespaceConflict && e.writeConflict ==> status == old(status)
      ensures e.namespaceConflict || !e.writeConflict ==>
                var reason := if e.namespaceConflict then NamespaceConflict else ReconcileError;
                var failed := FailedStatus(w.status, w.generation, reason, e.message);
                var merged := MergePatch(old(status), w.status, failed);
                && (status == old(status) || status == merged)
                // the report is attempted: it is stored unless its call fails
                && (old(pos) < |faults| && faults[old(pos)].Fine? ==> status == merged)
                && (e.namespaceConflict ==> o == Queue.Conflicted(old(pos) < |faults| && faults[old(pos)].Fine?))
    {
      if e.namespaceConflict {
        var ok := SetReadyConditionFalse(w, NamespaceConflict, e.message);
        if !ok {
          return Verdict(Some(30), false), Queue.Conflicted(false);
        }
        return Verdict(None, false), Queue.Conflicted(true);
      }
      if e.writeConflict {
        return Verdict(None, true), Queue.Errored;
      }
      var _ := SetReadyConditionFalse(w, ReconcileError, e.message);
      return Verdict(None, true), Queue.Errored;
    }

    /** One reconcile.  Its verdict brings the workspace back exactly for the outcomes
        the queue model says it does, and the stored status is either untouched or the
        old one patched with what `ReadyRuns` says this outcome writes. */
    method Reconcile(w: Option<Copy>, resources: Resources, secret: Reply<bool>, helm: Reply<bool>)
      returns (v: Verdict, ghost o: Queue.Outcome)
      modifies this
      ensures ComesBack(v) == Queue.Requeues(o)
      ensures match o
              case Gone => v == Verdict(None, false)
              case Backfilled => v == Verdict(None, false)
              case Succeeded(pending) => v == Verdict(if pending then Some(300) else None, false)
              case Conflicted(patched) => v == Verdict(if patched then None else Some(30), false)
              case Errored => v == Verdict(None, true)
      ensures w.None? ==> o.Gone? && labels == old(labels) && status == old(status)
      ensures w.Some? && Lookup(w.value.labels, NAMESPACE_LABEL) != w.value.spec.ns ==>
                && status == old(status)
                && (o.Backfilled? || o.Errored?)
                && (o.Backfilled? ==> labels == w.value.labels[NAMESPACE_LABEL := w.value.spec.ns])
                && (o.Backfilled? <==> old(pos) < |faults| && faults[old(pos)].Fine?)
      ensures w.Some? && Lookup(w.value.labels, NAMESPACE_LABEL) == w.value.spec.ns ==>
                && labels == old(labels)
                && (var result := ResultOf(resources, secret, helm);
                    var new_ := Runs.StatusFor(w.value.status, w.value.spec, w.value.generation, result);
                    && (status == old(status) ||
                        (new_.Some? && status == MergePatch(old(status), w.value.status, new_.value)))
                    && (o.Succeeded? ==> result.Done? && o.pending == (result.missing != []))
                    && (o.Succeeded? <==> result.Done? && StatusGoesThrough(w.value, result.missing, result.secret,
                                                                            result.helm, old(pos)))
                    && (o.Succeeded? ==> status == MergePatch(old(status), w.value.status, new_.value))
                    && (o.Conflicted? <==> result.Conflict?)
                    && (o == Queue.Conflicted(true) ==> status == MergePatch(old(status), w.value.status, new_.value))
                    && (o.Succeeded? || o.Conflicted? || o.Errored?))
    {
      if w.None? {
        return Verdict(None, false), Queue.Gone;
      }
      var copy := w.value;
      if Lookup(copy.labels, NAMESPACE_LABEL) != copy.spec.ns {
        if pos >= |faults| {
          return Verdict(None, true), Queue.Errored;
        }
        var fault := faults[pos];
        pos := pos + 1;
        if !fault.Before? {
          labels := copy.labels[NAMESPACE_LABEL := copy.spec.ns];
        }
        if !fault.Fine? {
          return Verdict(None, true), Queue.Errored;
        }
        return Verdict(None, false), Queue.Backfilled;
      }
      if resources.Broke? {
        v, o := HandleReconcileError(copy, resources.error);
        return;
      }
      var ok := UpdateStatus(copy, resources.missing, secret, helm);
      if !ok {
        return Verdict(None, true), Queue.Errored;
      }
      if |resources.missing| > 0 {
        return Verdict(Some(300), false), Queue.Succeeded(true);
      }
      return Verdict(None, false), Queue.Succeeded(false);
    }
  }

  /** The same attempt in the vocabulary of `ReadyRuns`. */
  function ResultOf(resources: Resources, secret: Reply<bool>, helm: Reply<bool>): Runs.Result {
    match resources
    case Broke(e) =>
      if e.namespaceConflict then Runs.Conflict(e.message)
      else if e.writeConflict then Runs.Collision
      else Runs.Failure(e.message)
    case Complete(missing) =>
      if secret.Err? || helm.Err? then Runs.Unobserved else Runs.Done(missing, secret.value, helm.value)
  }

  lemma RoleInUseGrows(members: seq<Member>, m: Member)
    ensures forall r :: RoleInUse(members + [m], r) <==> RoleInUse(members, r) || m.role == r
  {
    var all := members + [m];
    assert all[|members|] == m;
    forall r | RoleInUse(members, r) ensures RoleInUse(all, r) {
      var i :| 0 <= i < |members| && members[i].role == r;
      assert all[i].role == r;
    }
  }
}
