/** The Workspace status: how reconcile computes it, patches it, and what a reader may
    conclude from it over a whole run. */
module WorkspaceStatus {
  import opened Common
  import opened Projections

  datatype Reason = Reconciled | HarborMembersPending | NamespaceConflict | ReconcileError | Foreign(reason: string)

  /** `detail` is the variable part of the message. */
  datatype Condition = Condition(kind: string, status: bool, reason: Reason, detail: string, generation: nat)

  datatype Ref = Ref(name: string, ns: string)

  datatype Spec = Spec(
    ns: string, members: seq<Member>,
    quota: Option<string>, limits: Option<string>,
    isolated: bool, allowed: seq<string>)

  datatype Status = Status(
    observedGeneration: nat,
    namespaceRef: Option<Ref>,
    bindingRefs: seq<Ref>,
    quotaRef: Option<Ref>, limitsRef: Option<Ref>, policyRef: Option<Ref>,
    secretRef: Option<Ref>, helmRef: Option<Ref>,
    conditions: seq<Condition>)

  const READY := "Ready"

  // ---------------------------------------------------------------- condition lists

  /** Bytewise order on strings. */
  predicate Leq(a: string, b: string) {
    a == "" || (b != "" && (a[0] < b[0] || (a[0] == b[0] && Leq(a[1..], b[1..]))))
  }

  lemma {:induction false} LeqOrder(a: string, b: string, c: string)
    ensures Leq(a, b) || Leq(b, a)
    ensures Leq(a, b) && Leq(b, c) ==> Leq(a, c)
    ensures Leq(a, b) && Leq(b, a) ==> a == b
  {
    if a != "" && b != "" {
      LeqOrder(a[1..], b[1..], if c != "" then c[1..] else c);
      assert a == [a[0]] + a[1..] && b == [b[0]] + b[1..];
    }
  }

  function KindsOf(cs: seq<Condition>): set<string> {
    set i | 0 <= i < |cs| :: cs[i].kind
  }

  /** A list keyed by condition type, as the CRD declares it. */
  predicate UniqueKinds(cs: seq<Condition>) {
    forall i, j :: 0 <= i < j < |cs| ==> cs[i].kind != cs[j].kind
  }

  predicate Sorted(cs: seq<Condition>) {
    forall i :: 0 < i < |cs| ==> Leq(cs[i - 1].kind, cs[i].kind)
  }

  function Find(cs: seq<Condition>, kind: string): Option<Condition> {
    if cs == [] then None
    else if cs[0].kind == kind then Some(cs[0])
    else Find(cs[1..], kind)
  }

  /** `SetStatusCondition`: the first of that type is replaced, or it is appended. */
  function SetCondition(cs: seq<Condition>, c: Condition): seq<Condition> {
    if cs == [] then [c]
    else if cs[0].kind == c.kind then [c] + cs[1..]
    else [cs[0]] + SetCondition(cs[1..], c)
  }

  function Insert(cs: seq<Condition>, c: Condition): seq<Condition> {
    if cs == [] || Leq(c.kind, cs[0].kind) then [c] + cs
    else [cs[0]] + Insert(cs[1..], c)
  }

  function Sort(cs: seq<Condition>): seq<Condition> {
    if cs == [] then [] else Insert(Sort(cs[1..]), cs[0])
  }

  lemma ConsKinds(c: Condition, cs: seq<Condition>)
    ensures KindsOf([c] + cs) == {c.kind} + KindsOf(cs)
    ensures UniqueKinds([c] + cs) <==> UniqueKinds(cs) && c.kind !in KindsOf(cs)
  {
    var all := [c] + cs;
    assert forall i :: 0 <= i < |cs| ==> all[i + 1] == cs[i];
    forall k | k in KindsOf(cs) ensures k in KindsOf(all) {
      var i :| 0 <= i < |cs| && cs[i].kind == k;
      assert all[i + 1].kind == k;
    }
    assert all[0].kind == c.kind;
    if UniqueKinds(all) {
      forall i | 0 <= i < |cs| ensures cs[i].kind != c.kind {
        assert all[0].kind != all[i + 1].kind;
      }
      forall i, j | 0 <= i < j < |cs| ensures cs[i].kind != cs[j].kind {
        assert all[i + 1].kind != all[j + 1].kind;
      }
    }
  }

  lemma {:induction false} SetConditionKeepsKinds(cs: seq<Condition>, c: Condition)
    ensures KindsOf(SetCondition(cs, c)) == KindsOf(cs) + {c.kind}
    ensures UniqueKinds(cs) ==> UniqueKinds(SetCondition(cs, c))
  {
    if cs == [] {
      ConsKinds(c, []);
    } else {
      assert cs == [cs[0]] + cs[1..];
      ConsKinds(cs[0], cs[1..]);
      ConsKinds(c, cs[1..]);
      ConsKinds(cs[0], SetCondition(cs[1..], c));
      SetConditionKeepsKinds(cs[1..], c);
    }
  }

  lemma {:induction false} SetConditionFinds(cs: seq<Condition>, c: Condition, kind: string)
    ensures Find(SetCondition(cs, c), kind) == if kind == c.kind then Some(c) else Find(cs, kind)
  {
    if cs != [] && cs[0].kind != c.kind {
      SetConditionFinds(cs[1..], c, kind);
      assert SetCondition(cs, c)[1..] == SetCondition(cs[1..], c);
    }
  }

  lemma {:induction false} FindAbsent(cs: seq<Condition>, kind: string)
    requires kind !in KindsOf(cs)
    ensures Find(cs, kind).None?
  {
    if cs != [] {
      assert cs == [cs[0]] + cs[1..];
      ConsKinds(cs[0], cs[1..]);
      FindAbsent(cs[1..], kind);
    }
  }

  lemma {:induction false} InsertInserts(cs: seq<Condition>, c: Condition, kind: string)
    requires UniqueKinds(cs) && c.kind !in KindsOf(cs)
    ensures UniqueKinds(Insert(cs, c)) && KindsOf(Insert(cs, c)) == KindsOf(cs) + {c.kind}
    ensures Find(Insert(cs, c), kind) == if kind == c.kind then Some(c) else Find(cs, kind)
  {
    ConsKinds(c, cs);
    assert ([c] + cs)[1..] == cs;
    if cs != [] && !Leq(c.kind, cs[0].kind) {
      assert cs == [cs[0]] + cs[1..];
      ConsKinds(cs[0], cs[1..]);
      InsertInserts(cs[1..], c, kind);
      ConsKinds(cs[0], Insert(cs[1..], c));
      assert Insert(cs, c)[1..] == Insert(cs[1..], c);
    }
  }

  lemma {:induction false} InsertSorts(cs: seq<Condition>, c: Condition)
    requires Sorted(cs)
    ensures Sorted(Insert(cs, c))
    ensures Insert(cs, c) != [] && (Insert(cs, c)[0] == c || (cs != [] && Insert(cs, c)[0] == cs[0]))
  {
    if cs != [] && !Leq(c.kind, cs[0].kind) {
      LeqOrder(c.kind, cs[0].kind, "");
      assert forall i :: 0 < i < |cs[1..]| ==> cs[1..][i - 1] == cs[i] && cs[1..][i] == cs[i + 1];
      InsertSorts(cs[1..], c);
      var rest := Insert(cs[1..], c);
      assert Leq(cs[0].kind, rest[0].kind);
      var all := Insert(cs, c);
      forall i | 0 < i < |all| ensures Leq(all[i - 1].kind, all[i].kind) {
        assert all[i] == rest[i - 1] && (i > 1 ==> all[i - 1] == rest[i - 2]);
      }
    }
  }

  /** Sorting a list keyed by type loses and invents nothing. */
  lemma {:induction false} SortSorts(cs: seq<Condition>, kind: string)
    requires UniqueKinds(cs)
    ensures Sorted(Sort(cs)) && UniqueKinds(Sort(cs)) && KindsOf(Sort(cs)) == KindsOf(cs)
    ensures Find(Sort(cs), kind) == Find(cs, kind)
  {
    if cs != [] {
      assert cs == [cs[0]] + cs[1..];
      ConsKinds(cs[0], cs[1..]);
      SortSorts(cs[1..], kind);
      InsertInserts(Sort(cs[1..]), cs[0], kind);
      InsertSorts(Sort(cs[1..]), cs[0]);
    }
  }

  // ---------------------------------------------------------------- computing the status

  predicate RoleInUse(members: seq<Member>, role: Role) {
    exists i :: 0 <= i < |members| && members[i].role == role
  }

  function BindingRefs(members: seq<Member>, ns: string, roles: seq<Role>): seq<Ref> {
    if roles == [] then []
    else BindingRefs(members, ns, roles[..|roles| - 1]) +
         if RoleInUse(members, roles[|roles| - 1]) then [Ref(BindingName(roles[|roles| - 1]), ns)] else []
  }

  function ReadyCondition(generation: nat, missing: seq<string>): Condition {
    if missing == [] then
      Condition(READY, true, Reconciled, "", generation)
    else
      Condition(READY, false, HarborMembersPending, Join(missing), generation)
  }

  function Join(parts: seq<string>): string {
    if parts == [] then "" else if |parts| == 1 then parts[0] else parts[0] + ", " + Join(parts[1..])
  }

  predicate MentionedAt(part: string, text: string, i: nat) {
    i + |part| <= |text| && text[i..i + |part|] == part
  }

  predicate MentionedIn(part: string, text: string) {
    exists i: nat | i <= |text| :: MentionedAt(part, text, i)
  }

  lemma {:induction false} JoinMentions(parts: seq<string>)
    ensures forall part :: part in parts ==> MentionedIn(part, Join(parts))
  {
    forall part | part in parts ensures MentionedIn(part, Join(parts)) {
      var text := Join(parts);
      if part == parts[0] {
        assert MentionedAt(part, text, 0);
      } else {
        assert parts == [parts[0]] + parts[1..] && part in parts[1..];
        JoinMentions(parts[1..]);
        var rest := Join(parts[1..]);
        var i: nat :| i <= |rest| && MentionedAt(part, rest, i);
        var head := parts[0] + ", ";
        assert text == head + rest;
        assert text[|head| + i..|head| + i + |part|] == rest[i..i + |part|];
        assert MentionedAt(part, text, |parts[0]| + 2 + i);
      }
    }
  }

  /** The status of a completed reconcile. */
  function NewStatus(old_: Status, spec: Spec, generation: nat, missing: seq<string>, secret: bool, helm: bool): Status
  {
    Status(
      generation,
      Some(Ref(spec.ns, "")),
      BindingRefs(spec.members, spec.ns, ALL_ROLES),
      if spec.quota.Some? then Some(Ref("workspace-resource-quota", spec.ns)) else None,
      if spec.limits.Some? then Some(Ref("workspace-limit-range", spec.ns)) else None,
      if spec.isolated then Some(Ref("workspace-network-policy", spec.ns)) else None,
      if secret then Some(Ref("workspace-image-pull-secret", spec.ns)) else None,
      if helm then Some(Ref("workspace-helm-repository", spec.ns)) else None,
      Sort(SetCondition(old_.conditions, ReadyCondition(generation, missing))))
  }

  /** The status of a reconcile that failed. */
  function FailedStatus(old_: Status, generation: nat, reason: Reason, detail: string): Status {
    old_.(observedGeneration := generation,
          conditions := SetCondition(old_.conditions, Condition(READY, false, reason, detail, generation)))
  }

  /** A JSON merge patch: the fields in which `new_` differs from the copy the patch
      was computed against, applied to whatever is stored by now. */
  function MergePatch(stored: Status, copy: Status, new_: Status): Status {
    Status(
      if new_.observedGeneration != copy.observedGeneration then new_.observedGeneration else stored.observedGeneration,
      if new_.namespaceRef != copy.namespaceRef then new_.namespaceRef else stored.namespaceRef,
      if new_.bindingRefs != copy.bindingRefs then new_.bindingRefs else stored.bindingRefs,
      if new_.quotaRef != copy.quotaRef then new_.quotaRef else stored.quotaRef,
      if new_.limitsRef != copy.limitsRef then new_.limitsRef else stored.limitsRef,
      if new_.policyRef != copy.policyRef then new_.policyRef else stored.policyRef,
      if new_.secretRef != copy.secretRef then new_.secretRef else stored.secretRef,
      if new_.helmRef != copy.helmRef then new_.helmRef else stored.helmRef,
      if new_.conditions != copy.conditions then new_.conditions else stored.conditions)
  }

  /** What a patch does: all of the new status onto the status it was computed from, and
      elsewhere only what the attempt changed. */
  lemma PatchMeans(stored: Status, copy: Status, new_: Status)
    ensures MergePatch(copy, copy, new_) == new_
    ensures MergePatch(stored, copy, copy) == stored
    ensures MergePatch(MergePatch(stored, copy, new_), copy, new_) == MergePatch(stored, copy, new_)
  {
  }

  /** Condition types stay unique, the list comes out sorted, the Ready condition is
      this reconcile's and every other condition is the one that was there. */
  lemma NewStatusConditions(old_: Status, spec: Spec, generation: nat, missing: seq<string>, secret: bool, helm: bool)
    requires UniqueKinds(old_.conditions)
    ensures var cs := NewStatus(old_, spec, generation, missing, secret, helm).conditions;
            && UniqueKinds(cs) && Sorted(cs)
            && (forall kind :: Find(cs, kind) ==
                  if kind == READY then Some(ReadyCondition(generation, missing)) else Find(old_.conditions, kind))
            && ReadyCondition(generation, missing).status == (missing == [])
            && ReadyCondition(generation, missing).generation == generation
            && ReadyCondition(generation, missing).reason ==
                 (if missing == [] then Reason.Reconciled else HarborMembersPending)
            && (forall user :: user in missing ==> MentionedIn(user, ReadyCondition(generation, missing).detail))
  {
    var c := ReadyCondition(generation, missing);
    SetConditionKeepsKinds(old_.conditions, c);
    SortSorts(SetCondition(old_.conditions, c), READY);
    JoinMentions(missing);
    forall kind ensures Find(Sort(SetCondition(old_.conditions, c)), kind) ==
                        if kind == READY then Some(c) else Find(old_.conditions, kind) {
      SetConditionFinds(old_.conditions, c, kind);
      SortSorts(SetCondition(old_.conditions, c), kind);
    }
  }

  /** A failure report changes the Ready condition and the observed generation, and
      nothing else: no reference is cleared. */
  lemma FailedStatusConditions(old_: Status, generation: nat, reason: Reason, detail: string)
    requires UniqueKinds(old_.conditions)
    ensures var s := FailedStatus(old_, generation, reason, detail);
            && s.observedGeneration == generation
            && s.(observedGeneration := old_.observedGeneration, conditions := old_.conditions) == old_
    ensures var cs := FailedStatus(old_, generation, reason, detail).conditions;
            && UniqueKinds(cs)
            && (forall kind :: Find(cs, kind) ==
                  if kind == READY then Some(Condition(READY, false, reason, detail, generation))
                  else Find(old_.conditions, kind))
  {
    var c := Condition(READY, false, reason, detail, generation);
    SetConditionKeepsKinds(old_.conditions, c);
    forall kind ensures Find(SetCondition(old_.conditions, c), kind) ==
                        if kind == READY then Some(c) else Find(old_.conditions, kind)
    {
      SetConditionFinds(old_.conditions, c, kind);
    }
  }

  lemma {:induction false} SortedStays(cs: seq<Condition>)
    requires Sorted(cs)
    ensures Sort(cs) == cs
  {
    if cs != [] {
      var rest := cs[1..];
      forall i | 0 < i < |rest| ensures Leq(rest[i - 1].kind, rest[i].kind) {
        assert rest[i - 1] == cs[i] && rest[i] == cs[i + 1];
      }
      SortedStays(rest);
      if |cs| > 1 {
        assert Leq(cs[1 - 1].kind, cs[1].kind);
      }
    }
  }

  lemma {:induction false} SettingAgainStays(cs: seq<Condition>, c: Condition)
    requires Find(cs, c.kind) == Some(c)
    ensures SetCondition(cs, c) == cs
  {
    if cs[0].kind != c.kind {
      SettingAgainStays(cs[1..], c);
    }
  }

  /** Computing the status again from itself changes nothing, so nothing is patched. */
  lemma NewStatusSettles(old_: Status, spec: Spec, generation: nat, missing: seq<string>, secret: bool, helm: bool)
    requires UniqueKinds(old_.conditions)
    ensures var s := NewStatus(old_, spec, generation, missing, secret, helm);
            NewStatus(s, spec, generation, missing, secret, helm) == s
  {
    var s := NewStatus(old_, spec, generation, missing, secret, helm);
    NewStatusConditions(old_, spec, generation, missing, secret, helm);
    SettingAgainStays(s.conditions, ReadyCondition(generation, missing));
    SortedStays(s.conditions);
  }

  lemma {:induction false} BindingRefsOnly(members: seq<Member>, ns: string, roles: seq<Role>)
    ensures forall ref :: ref in BindingRefs(members, ns, roles) ==>
              exists role :: RoleInUse(members, role) && ref == Ref(BindingName(role), ns)
  {
    if roles != [] {
      BindingRefsOnly(members, ns, roles[..|roles| - 1]);
    }
  }

  lemma {:induction false} BindingRefsAre(members: seq<Member>, ns: string, roles: seq<Role>, role: Role)
    ensures Ref(BindingName(role), ns) in BindingRefs(members, ns, roles) <==> role in roles && RoleInUse(members, role)
  {
    if roles != [] {
      var n := |roles| - 1;
      assert roles == roles[..n] + [roles[n]];
      BindingRefsAre(members, ns, roles[..n], role);
      if roles[n] != role {
        BindingNamesDiffer(roles[n], role);
      }
    }
  }
}
