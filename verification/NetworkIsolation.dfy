/** The allowed-namespace list compiled into a NetworkPolicy, read back with the
    ingress semantics of networking.k8s.io/v1. */
module NetworkIsolation {
  import opened Common
  import opened Namespaces

  datatype Isolation = Isolation(enabled: bool, allowed: seq<string>)

  /** A peer of an ingress rule: every pod of the policy's own namespace, or every pod
      of the namespaces whose `kubernetes.io/metadata.name` label is `name`. */
  datatype Peer = PodsHere | NamespaceNamed(name: string)

  datatype Rule = Rule(from: seq<Peer>)

  /** Selects every pod of its namespace, for ingress. */
  datatype Policy = Policy(controller: Option<OwnerRef>, ingress: seq<Rule>)

  // ---------------------------------------------------------------- what a policy means

  predicate Matches(p: Peer, own: string, source: string) {
    match p
    case PodsHere => source == own
    case NamespaceNamed(name) => source == name
  }

  /** An ingress rule without `from` lets everybody in. */
  predicate RuleAdmits(r: Rule, own: string, source: string) {
    r.from == [] || exists i :: 0 <= i < |r.from| && Matches(r.from[i], own, source)
  }

  predicate AnyAdmits(rules: seq<Rule>, own: string, source: string) {
    exists i :: 0 <= i < |rules| && RuleAdmits(rules[i], own, source)
  }

  /** Traffic from a pod of namespace `source`, as far as this policy is concerned: a
      policy that selects the pods denies what none of its rules admits. */
  predicate Admits(policy: Option<Policy>, own: string, source: string) {
    policy.None? || AnyAdmits(policy.value.ingress, own, source)
  }

  // ---------------------------------------------------------------- compilation

  function RulesFor(allowed: seq<string>): seq<Rule> {
    if allowed == [] then [Rule([PodsHere])]
    else RulesFor(allowed[..|allowed| - 1]) + [Rule([NamespaceNamed(allowed[|allowed| - 1])])]
  }

  function Compile(s: Isolation, w: Claim): Option<Policy> {
    if s.enabled then Some(Policy(Some(RefTo(w)), RulesFor(s.allowed))) else None
  }

  /** A policy `SetControllerReference` will not take over. */
  predicate Occupied(policy: Option<Policy>, w: Claim) {
    policy.Some? && Foreign(policy.value.controller, w)
  }

  predicate Meant(s: Isolation, own: string, source: string) {
    !s.enabled || source == own || source in s.allowed
  }

  lemma OneMoreRule(rules: seq<Rule>, peer: Peer, own: string, source: string)
    ensures AnyAdmits(rules + [Rule([peer])], own, source) <==>
            AnyAdmits(rules, own, source) || Matches(peer, own, source)
  {
    var all := rules + [Rule([peer])];
    assert all[|rules|].from[0] == peer;
    assert RuleAdmits(all[|rules|], own, source) <==> Matches(peer, own, source);
    if i :| 0 <= i < |rules| && RuleAdmits(rules[i], own, source) {
      assert RuleAdmits(all[i], own, source);
    }
  }

  lemma {:induction false} RulesAdmit(allowed: seq<string>, own: string, source: string)
    ensures AnyAdmits(RulesFor(allowed), own, source) <==> source == own || source in allowed
  {
    if allowed == [] {
      OneMoreRule([], PodsHere, own, source);
      assert [] + [Rule([PodsHere])] == RulesFor(allowed);
    } else {
      var n := |allowed| - 1;
      RulesAdmit(allowed[..n], own, source);
      OneMoreRule(RulesFor(allowed[..n]), NamespaceNamed(allowed[n]), own, source);
      assert allowed == allowed[..n] + [allowed[n]];
    }
  }

  /** Compilation preserves meaning: this workspace's policy admits a namespace exactly
      when isolation is off, it is the workspace's own, or it is on the list. */
  lemma CompilePreservesMeaning(s: Isolation, w: Claim, own: string, source: string)
    ensures Admits(Compile(s, w), own, source) <==> Meant(s, own, source)
  {
    RulesAdmit(s.allowed, own, source);
  }

  // ---------------------------------------------------------------- whole runs

  /** One reconcile of the policy, with the spec it worked from and what became of its
      write; or somebody else creating, editing or deleting the policy. */
  datatype Move = Attempt(spec: Isolation, fault: Fault) | Meddle(to: Option<Policy>)

  /** A write takes effect unless it is lost, or refused because of who controls the
      policy; deleting asks nobody. */
  predicate Arrives(policy: Option<Policy>, w: Claim, m: Move) {
    m.Attempt? && !m.fault.Before? && !(m.spec.enabled && Occupied(policy, w))
  }

  function Next(policy: Option<Policy>, w: Claim, m: Move): Option<Policy> {
    match m
    case Attempt(spec, _) => if Arrives(policy, w, m) then Compile(spec, w) else policy
    case Meddle(to) => to
  }

  function InForce(policy: Option<Policy>, w: Claim, moves: seq<Move>): Option<Policy> {
    if moves == [] then policy else Next(InForce(policy, w, moves[..|moves| - 1]), w, moves[|moves| - 1])
  }

  lemma OneAttempt(policy: Option<Policy>, w: Claim, m: Move)
    ensures InForce(policy, w, [m]) == Next(policy, w, m)
  {
    assert [m][..0] == [];
  }

  /** The i-th move of a run is a reconcile whose write takes effect. */
  predicate ArrivesAt(policy: Option<Policy>, w: Claim, moves: seq<Move>, i: nat) {
    i < |moves| && Arrives(InForce(policy, w, moves[..i]), w, moves[i])
  }

  /** Over any sequence of edits, reconciles and meddling: until somebody meddles again,
      what is in force is exactly what the last spec that arrived asked for.  A spec
      that was lost or refused neither opens nor closes anything. */
  lemma {:induction false} LastArrivedSpecIsInForce(policy: Option<Policy>, w: Claim, moves: seq<Move>, last: nat,
                                                    own: string, source: string)
    requires ArrivesAt(policy, w, moves, last)
    requires forall i :: last < i < |moves| ==> moves[i].Attempt? && !ArrivesAt(policy, w, moves, i)
    ensures Admits(InForce(policy, w, moves), own, source) <==> Meant(moves[last].spec, own, source)
    decreases |moves|
  {
    var n := |moves| - 1;
    if last == n {
      CompilePreservesMeaning(moves[n].spec, w, own, source);
    } else {
      var init := moves[..n];
      forall i | 0 <= i < n ensures ArrivesAt(policy, w, init, i) <==> ArrivesAt(policy, w, moves, i) {
        assert init[..i] == moves[..i];
      }
      LastArrivedSpecIsInForce(policy, w, init, last, own, source);
      assert !ArrivesAt(policy, w, moves, n);
    }
  }

  /** A policy another controller owns stays, and keeps every reconcile from taking
      effect, exactly until a reconcile with isolation off removes it. */
  lemma {:induction false} OccupiedUntilSwitchedOff(policy: Option<Policy>, w: Claim, moves: seq<Move>)
    requires Occupied(policy, w) && forall i :: 0 <= i < |moves| ==> moves[i].Attempt?
    ensures Occupied(InForce(policy, w, moves), w) <==>
            forall i :: 0 <= i < |moves| ==> moves[i].spec.enabled || moves[i].fault.Before?
    ensures Occupied(InForce(policy, w, moves), w) ==> InForce(policy, w, moves) == policy
    decreases |moves|
  {
    if moves != [] {
      var n := |moves| - 1;
      OccupiedUntilSwitchedOff(policy, w, moves[..n]);
      assert forall i :: 0 <= i < n ==> moves[..n][i] == moves[i];
      assert !Foreign(Some(RefTo(w)), w);
    }
  }

  /** Where nobody else controls the policy and nobody meddles, nothing is refused: a
      reconcile takes effect exactly when its write is not lost. */
  lemma {:induction false} UncontestedWritesArrive(policy: Option<Policy>, w: Claim, moves: seq<Move>)
    requires !Occupied(policy, w) && forall i :: 0 <= i < |moves| ==> moves[i].Attempt?
    ensures !Occupied(InForce(policy, w, moves), w)
    ensures forall i: nat :: i < |moves| ==> (ArrivesAt(policy, w, moves, i) <==> !moves[i].fault.Before?)
    decreases |moves|
  {
    if moves != [] {
      var n := |moves| - 1;
      var init := moves[..n];
      UncontestedWritesArrive(policy, w, init);
      forall i: nat | i < n ensures ArrivesAt(policy, w, init, i) <==> ArrivesAt(policy, w, moves, i) {
        assert init[..i] == moves[..i];
      }
      assert !Foreign(Some(RefTo(w)), w);
    }
  }

  // ---------------------------------------------------------------- the code

  class PolicyStore {
    var policy: Option<Policy>
    const faults: seq<Fault>
    var pos: nat

    constructor (policy: Option<Policy>, faults: seq<Fault>)
      ensures this.policy == policy && this.faults == faults && pos == 0
    {
      this.policy, this.faults, pos := policy, faults, 0;
    }

    /** Why a call can end in an error: the last call made did not go through, or the
        process died before the next. */
    ghost predicate Halted(from: nat)
      reads this`pos
    {
      pos >= |faults| || (from < pos && faults[pos - 1] != Fine)
    }

    method NextFault() returns (r: Reply<Fault>)
      modifies this`pos
      ensures r.Err? ==> old(pos) >= |faults| && pos == old(pos)
      ensures r.Ok? ==> old(pos) < |faults| && pos == old(pos) + 1 && r.value == faults[old(pos)]
    {
      if pos >= |faults| {
        return Err;
      }
      r := Ok(faults[pos]);
      pos := pos + 1;
    }

    /** Stopped anywhere, this is one attempt of a run; `fault` says what became of its
        write (`Before` also when it was never made).  Success means the policy is the
        wanted one; a policy another controller owns is not overwritten. */
    method ReconcileNetworkIsolation(s: Isolation, w: Claim) returns (r: Reply<()>, ghost fault: Fault)
      modifies this
      ensures policy == InForce(old(policy), w, [Attempt(s, fault)])
      ensures r.Ok? ==> fault.Fine? && policy == Compile(s, w)
      ensures r.Err? ==> !fault.Fine? || (s.enabled && Occupied(old(policy), w))
      ensures r.Err? ==> Halted(old(pos)) || (s.enabled && Occupied(old(policy), w))
      ensures fault.Before? ==> Halted(old(pos))
      ensures fault.After? ==> old(pos) < pos <= |faults| && faults[pos - 1].After?
      ensures fault.Fine? ==> old(pos) < pos <= |faults| && faults[pos - 1].Fine?
      ensures r.Ok? && s.enabled ==>
                policy.Some? && policy.value.controller == Some(OwnerRef(w.uid, WorkspaceKind, w.name, true))
      ensures r.Ok? && !s.enabled ==> policy.None?
      ensures s.enabled && Occupied(old(policy), w) ==> r.Err? && policy == old(policy)
      ensures policy == old(policy) || policy == Compile(s, w)
    {
      assert forall f :: InForce(old(policy), w, [Attempt(s, f)]) == Next(old(policy), w, Attempt(s, f)) by {
        forall f { OneAttempt(old(policy), w, Attempt(s, f)); }
      }
      if !s.enabled {
        var deleted := NextFault();
        if deleted.Err? {
          return Err, Before;
        }
        if !deleted.value.Before? {
          policy := None;
        }
        return if deleted.value.Fine? then Ok(()) else Err, deleted.value;
      }
      var read := NextFault();
      if read.Err? || !read.value.Fine? {
        return Err, Before;
      }
      var ingressRules := [Rule([PodsHere])];
      for i := 0 to |s.allowed|
        invariant ingressRules == RulesFor(s.allowed[..i])
        invariant policy == old(policy) && old(pos) < pos <= |faults| && faults[pos - 1].Fine?
      {
        assert s.allowed[..i + 1][..i] == s.allowed[..i];
        ingressRules := ingressRules + [Rule([NamespaceNamed(s.allowed[i])])];
      }
      assert s.allowed[..|s.allowed|] == s.allowed;
      if Occupied(policy, w) {
        return Err, Fine;
      }
      var want := Policy(Some(RefTo(w)), ingressRules);
      if policy == Some(want) {
        return Ok(()), Fine;
      }
      var written := NextFault();
      if written.Err? {
        return Err, Before;
      }
      if !written.value.Before? {
        policy := Some(want);
      }
      return if written.value.Fine? then Ok(()) else Err, written.value;
    }
  }
}
