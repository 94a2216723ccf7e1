/** `reconcileResources` for one workspace, against a cluster that everybody else keeps
    changing: what it does is one of the runs of `Ownership`, so what is proved there
    about all runs is proved of this code. */
module OwnershipDriver {
  import opened Common
  import opened Namespaces
  import opened Ownership

  lemma OthersKeepMyPhase(claims: Claims, c: Cluster, m: Move, uid: nat)
    requires !MoveOf(m, uid)
    ensures PhaseOf(Next(claims, c, m), uid) == PhaseOf(c, uid)
  {
  }

  /** What an attempt has tried to do to the objects, in order. */
  function Acts(moves: seq<Move>, uid: nat): seq<Op> {
    if moves == [] then []
    else
      var m := moves[|moves| - 1];
      Acts(moves[..|moves| - 1], uid) + if m.Act? && m.uid == uid then [m.op] else []
  }

  lemma ExecOneMore(claims: Claims, c: Cluster, moves: seq<Move>, m: Move)
    ensures Exec(claims, c, moves + [m]) == Next(claims, Exec(claims, c, moves), m)
    ensures forall uid :: Acts(moves + [m], uid) ==
              if m.Act? && m.uid == uid then Acts(moves, uid) + [m.op] else Acts(moves, uid)
  {
    assert (moves + [m])[..|moves|] == moves;
  }

  class Attempt {
    var cluster: Cluster
    const claims: Claims
    const uid: nat
    /** What others do just before each of our calls, and how the call goes; the
        process dies where the faults end. */
    const others: seq<seq<Move>>
    const faults: seq<Fault>
    var pos: nat

    ghost const start: Cluster
    ghost var trace: seq<Move>

    ghost predicate Valid()
      reads this
    {
      && uid in claims && claims[uid].uid == uid
      && cluster == Exec(claims, start, trace)
      && (forall i, j :: 0 <= i < |others| && 0 <= j < |others[i]| ==> !MoveOf(others[i][j], uid))
    }

    ghost predicate In(phase: Phase)
      reads this
    {
      PhaseOf(cluster, uid) == phase
    }

    /** Why the cluster can turn down an attempt whose calls all go through: it does not
        give it the namespace, the namespace is no longer what was read, or an object
        belongs to another controller. */
    ghost predicate TurnedDown()
      requires uid in claims
      reads this
    {
      && trace != []
      && var before, w := Exec(claims, start, trace[..|trace| - 1]), claims[uid];
         match trace[|trace| - 1]
         case Begin(u, version, rancher) => u == uid && !Mutate(Cached(before, w.ns), w, version, rancher).Mutated?
         case Commit(u, _) => u == uid && PhaseOf(before, uid).Pending? && !StillAsRead(before)
         case Act(u, op, _) => u == uid && Refused(before, w, op)
         case _ => false
    }

    /** The namespace is what the pending write was computed from. */
    predicate StillAsRead(c: Cluster)
      requires uid in claims && PhaseOf(c, uid).Pending?
    {
      var seen, now := PhaseOf(c, uid).seen, At(c, claims[uid].ns);
      if seen.None? then now.None? else now.Some? && now.value.version == seen.value.version
    }

    /** Or the last call made did not go through, or the process died before the next. */
    ghost predicate Halted(from: nat)
      reads this`pos
    {
      pos >= |faults| || (from < pos && faults[pos - 1] != Fine)
    }

    constructor (claims: Claims, uid: nat, c: Cluster, others: seq<seq<Move>>, faults: seq<Fault>)
      requires uid in claims && claims[uid].uid == uid
      requires forall i, j :: 0 <= i < |others| && 0 <= j < |others[i]| ==> !MoveOf(others[i][j], uid)
      ensures Valid() && cluster == c && start == c && trace == []
      ensures this.uid == uid && this.claims == claims
    {
      this.cluster, this.claims, this.uid, this.others, this.faults := c, claims, uid, others, faults;
      pos, start, trace := 0, c, [];
    }

    /** One call begins: others may have moved, and the call may never be made. */
    method Arrive() returns (r: Reply<Fault>)
      requires Valid()
      modifies this
      ensures Valid() && old(trace) <= trace && Acts(trace, uid) == old(Acts(trace, uid))
      ensures PhaseOf(cluster, uid) == old(PhaseOf(cluster, uid))
      ensures r.Err? ==> Halted(old(pos)) && old(pos) == pos
      ensures r.Ok? ==> pos == old(pos) + 1 && pos <= |faults| && r.value == faults[pos - 1]
    {
      if pos >= |faults| {
        return Err;
      }
      r := Ok(faults[pos]);
      if pos < |others| {
        for i := 0 to |others[pos]|
          invariant Valid() && pos == old(pos) && old(trace) <= trace && Acts(trace, uid) == old(Acts(trace, uid))
          invariant PhaseOf(cluster, uid) == old(PhaseOf(cluster, uid))
        {
          OthersKeepMyPhase(claims, cluster, others[pos][i], uid);
          ExecOneMore(claims, start, trace, others[pos][i]);
          cluster := Next(claims, cluster, others[pos][i]);
          trace := trace + [others[pos][i]];
        }
      }
      pos := pos + 1;
    }

    /** The Get of CreateOrUpdate, answered by the cache, and what its mutate function
        decides. */
    method ReadNamespace(version: string, rancher: string) returns (m: Reply<Option<Namespace>>)
      requires Valid() && In(Idle)
      modifies this
      ensures Valid() && old(trace) <= trace && Acts(trace, uid) == old(Acts(trace, uid))
      ensures m.Err? ==> In(Idle) && (Halted(old(pos)) || TurnedDown())
      ensures old(pos) <= pos
      ensures m.Ok? && m.value.None? ==> In(Passed)
      ensures m.Ok? && m.value.Some? ==> PhaseOf(cluster, uid).Pending? && PhaseOf(cluster, uid).next == m.value.value
    {
      var fault := Arrive();
      if fault.Err? || !fault.value.Fine? {
        return Err;
      }
      var w := claims[uid];
      var seen := Cached(cluster, w.ns);
      ExecOneMore(claims, start, trace, Begin(uid, version, rancher));
      trace := trace + [Begin(uid, version, rancher)];
      var decision := Mutate(seen, w, version, rancher);
      if !decision.Mutated? {
        return Err;
      }
      if seen == Some(decision.ns) {
        cluster := SetPhase(cluster, uid, Passed);
        return Ok(None);
      }
      cluster := SetPhase(cluster, uid, Pending(seen, decision.ns, cluster.seen));
      return Ok(Some(decision.ns));
    }

    /** The Create or Update, refused when the namespace is no longer what was read. */
    method WriteNamespace(next: Namespace) returns (ok: bool)
      requires Valid() && PhaseOf(cluster, uid).Pending? && PhaseOf(cluster, uid).next == next
      modifies this
      ensures Valid() && old(trace) <= trace && Acts(trace, uid) == old(Acts(trace, uid))
      ensures ok ==> In(Passed)
      ensures !ok ==> !In(Passed) && (Halted(old(pos)) || TurnedDown())
      ensures old(pos) <= pos
    {
      var fault := Arrive();
      if fault.Err? {
        return false;
      }
      var name, seen := claims[uid].ns, PhaseOf(cluster, uid).seen;
      var now := At(cluster, name);
      ExecOneMore(claims, start, trace, Commit(uid, fault.value));
      trace := trace + [Commit(uid, fault.value)];
      var current := if seen.None? then now.None? else now.Some? && now.value.version == seen.value.version;
      if !current || fault.value.Before? {
        cluster := SetPhase(cluster, uid, Idle);
        return false;
      }
      cluster := PutNamespace(cluster, name, next);
      cluster := SetPhase(cluster, uid, if fault.value.Fine? then Passed else Idle);
      return fault.value.Fine?;
    }

    method ReconcileNamespace(version: string, rancher: string) returns (ok: bool)
      requires Valid() && In(Idle)
      modifies this
      ensures Valid() && old(trace) <= trace && Acts(trace, uid) == old(Acts(trace, uid))
      ensures ok <==> In(Passed)
      ensures old(pos) <= pos && (!ok ==> Halted(old(pos)) || TurnedDown())
    {
      var next := ReadNamespace(version, rancher);
      if next.Err? {
        return false;
      }
      if next.value.None? {
        return true;
      }
      ok := WriteNamespace(next.value.value);
    }

    /** One step of the sync of the objects inside the namespace or of the Harbor
        project.  It can only be called past the gate. */
    method Sync(op: Op) returns (ok: bool, ghost tried: bool)
      requires Valid() && In(Passed)
      modifies this
      ensures Valid() && old(trace) <= trace
      ensures Acts(trace, uid) == old(Acts(trace, uid)) + if tried then [op] else []
      ensures ok ==> In(Passed) && tried
      ensures old(pos) <= pos && (!ok ==> Halted(old(pos)) || TurnedDown())
    {
      var fault := Arrive();
      if fault.Err? {
        return false, false;
      }
      ExecOneMore(claims, start, trace, Act(uid, op, fault.value));
      trace := trace + [Act(uid, op, fault.value)];
      if fault.value.Before? || Refused(cluster, claims[uid], op) {
        cluster := SetPhase(cluster, uid, Idle);
        return false, true;
      }
      cluster := Apply(cluster, claims[uid], op);
      cluster := SetPhase(cluster, uid, if fault.value.Fine? then Passed else Idle);
      return fault.value.Fine?, true;
    }

    method SyncAll(ops: seq<Op>) returns (ok: bool, ghost tried: nat)
      requires Valid() && In(Passed)
      modifies this
      ensures Valid() && old(trace) <= trace
      ensures tried <= |ops| && Acts(trace, uid) == old(Acts(trace, uid)) + ops[..tried]
      ensures ok ==> In(Passed) && tried == |ops|
      ensures old(pos) <= pos && (!ok ==> Halted(old(pos)) || TurnedDown())
    {
      tried := 0;
      for i := 0 to |ops|
        invariant Valid() && old(trace) <= trace && In(Passed) && old(pos) <= pos
        invariant tried == i && Acts(trace, uid) == old(Acts(trace, uid)) + ops[..i]
      {
        ghost var reached;
        ok, reached := Sync(ops[i]);
        assert ops[..i + 1] == ops[..i] + [ops[i]];
        tried := if reached then i + 1 else i;
        if !ok {
          return false, tried;
        }
      }
      return true, tried;
    }

    /** The namespace first; then, and only if that succeeded, everything else in
        order, up to the first error: what is tried is a prefix of `ops`, all of it if
        this succeeds, and nothing unless the gate was passed.  It fails only if a call
        fails, the process dies, or the cluster turns it down. */
    method ReconcileResources(version: string, rancher: string, ops: seq<Op>) returns (ok: bool, ghost tried: nat)
      requires Valid() && In(Idle)
      modifies this
      ensures Valid() && old(trace) <= trace
      ensures tried <= |ops| && Acts(trace, uid) == old(Acts(trace, uid)) + ops[..tried]
      ensures ok ==> In(Passed) && tried == |ops|
      ensures old(pos) <= pos && (!ok ==> Halted(old(pos)) || TurnedDown())
    {
      ok := ReconcileNamespace(version, rancher);
      if !ok {
        return false, 0;
      }
      ok, tried := SyncAll(ops);
    }

    /** The same, started on a cluster nobody is at work on: if it succeeds, the copy it
        went through the gate on was taken at a moment the namespace was this
        workspace's; no namespace has two workspace owners at the end; and with one
        worker and no namespace created blind, none of its calls changed what another
        workspace owned. */
    method ReconcileResourcesFromRest(version: string, rancher: string, ops: seq<Op>)
      returns (ok: bool, ghost gate: nat, ghost taken: nat)
      requires Valid() && trace == [] && Inv(claims, cluster) && cluster.past == [cluster.namespaces]
      requires forall u :: u in cluster.phases ==> cluster.phases[u].Idle?
      modifies this
      ensures cluster == Exec(claims, old(cluster), trace)
      ensures forall n :: n in cluster.namespaces ==> |WorkspaceRefs(cluster.namespaces[n].owners)| <= 1
      ensures ok ==> Acts(trace, uid) == ops
      ensures ok ==> && 0 < gate <= |trace| && taken <= gate
                     && OwnedBy(StateAfter(claims, old(cluster), trace, taken), claims[uid].ns, uid)
      ensures AlwaysOneWorker(claims, old(cluster), trace) && NeverBlind(claims, old(cluster), trace) ==>
                forall i, owner, name :: 0 <= i < |trace| ==>
                  !Trespasses(claims, StateAfter(claims, old(cluster), trace, i), trace[i], uid, owner, name)
    {
      ghost var tried;
      ok, tried := ReconcileResources(version, rancher, ops);
      AlwaysOneOwner(claims, start, trace);
      if AlwaysOneWorker(claims, start, trace) && NeverBlind(claims, start, trace) {
        RestIsExclusive(claims, start);
        NobodyTrespasses(claims, start, trace);
      }
      if ok {
        gate, taken := ActorsPassedTheGate(claims, start, trace, uid);
      } else {
        gate, taken := 0, 0;
      }
    }
  }
}
