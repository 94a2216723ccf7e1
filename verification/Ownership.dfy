/** Any number of workspaces reconciling at once, one API call at a time, while
    others edit, strip and delete namespaces: who may touch what.

    A run is any sequence of moves from any sound cluster.  A reconcile attempt reads
    its namespace from the manager's cache (`Begin`), writes it under the API server's
    optimistic lock (`Commit`), and only then acts on the fixed-name objects inside it
    and on the Harbor project (`Act`).  The cache shows some earlier state of all
    namespaces and only moves forward. */
module Ownership {
  import opened Common
  import opened Namespaces

  /** Where a workspace's current attempt stands. */
  datatype Phase =
    | Idle
    | Pending(seen: Option<Namespace>, next: Namespace, at: nat)   // read when the cache showed `past[at]`
    | Passed

  /** A fixed-name object in a namespace, or the Harbor project of that name. */
  datatype Item = Object(name: string) | HarborProject

  datatype Key = Key(ns: string, item: Item)

  datatype Child = Child(controller: Option<OwnerRef>, body: string)

  type Snapshot = map<string, Namespace>

  /** `past` holds every state the namespaces have been in, the present one last, and
      `seen` is the one the cache shows. */
  datatype Cluster = Cluster(
    namespaces: Snapshot,
    past: seq<Snapshot>,
    seen: nat,
    children: map<Key, Child>,
    phases: map<nat, Phase>,
    clock: nat)

  /** `Upsert` sets itself as controller, `Share` (default ServiceAccount, Harbor
      project) does not, `Remove` asks nobody. */
  datatype Op = Upsert(item: Item, body: string) | Share(item: Item, body: string) | Remove(item: Item)

  datatype Move =
    | Begin(uid: nat, version: string, rancher: string)
    | Commit(uid: nat, fault: Fault)
    | Act(uid: nat, op: Op, fault: Fault)
    | Stop(uid: nat)
    // everybody else: create or edit a namespace (strip its owners, relabel it,
    // mark it terminating), or remove it with every object in it (the Harbor project
    // has no finalizer and stays behind for the next claimant of the name)
    | Edit(name: string, to: Namespace)
    | Vanish(name: string)
    // the watch brings the cache forward
    | Deliver(upTo: nat)

  type Claims = map<nat, Claim>

  function PhaseOf(c: Cluster, uid: nat): Phase {
    if uid in c.phases then c.phases[uid] else Idle
  }

  function At(c: Cluster, name: string): Option<Namespace> {
    if name in c.namespaces then Some(c.namespaces[name]) else None
  }

  function Shown(past: seq<Snapshot>, k: nat, name: string): Option<Namespace> {
    if k < |past| && name in past[k] then Some(past[k][name]) else None
  }

  /** What a read answers. */
  function Cached(c: Cluster, name: string): Option<Namespace> {
    Shown(c.past, c.seen, name)
  }

  predicate OwnedBy(c: Cluster, name: string, uid: nat) {
    name in c.namespaces && IsOwned(c.namespaces[name].owners, uid)
  }

  function WorkspaceRefs(refs: seq<OwnerRef>): seq<OwnerRef> {
    if refs == [] then []
    else (if refs[0].kind.WorkspaceKind? then [refs[0]] else []) + WorkspaceRefs(refs[1..])
  }

  /** Nobody but the operator makes a Workspace the owner of a namespace: an edit may
      keep the workspace references that are there or drop them, and the references
      of other kinds it puts in carry other objects' UIDs. */
  predicate MayEdit(claims: Claims, before: Option<Namespace>, to: Namespace) {
    && multiset(WorkspaceRefs(to.owners)) <=
       multiset(if before.Some? then WorkspaceRefs(before.value.owners) else [])
    && KindsTrue(claims, to.owners)
  }

  /** A call of this workspace's own reconcile. */
  predicate MoveOf(m: Move, uid: nat) {
    (m.Begin? || m.Commit? || m.Act? || m.Stop?) && m.uid == uid
  }

  function PutNamespace(c: Cluster, name: string, ns: Namespace): Cluster {
    var namespaces := c.namespaces[name := ns.(version := c.clock)];
    c.(namespaces := namespaces, past := c.past + [namespaces], clock := c.clock + 1)
  }

  function SetPhase(c: Cluster, uid: nat, phase: Phase): Cluster {
    c.(phases := c.phases[uid := phase])
  }

  predicate Refused(c: Cluster, w: Claim, op: Op) {
    op.Upsert? && Key(w.ns, op.item) in c.children && Foreign(c.children[Key(w.ns, op.item)].controller, w)
  }

  function Apply(c: Cluster, w: Claim, op: Op): Cluster {
    match op
    case Upsert(item, body) => c.(children := c.children[Key(w.ns, item) := Child(Some(RefTo(w)), body)])
    case Share(item, body) =>
      var key := Key(w.ns, item);
      c.(children := c.children[key := Child(if key in c.children then c.children[key].controller else None, body)])
    case Remove(item) => c.(children := c.children - {Key(w.ns, item)})
  }

  /** One move.  A move that is not possible changes nothing. */
  function Next(claims: Claims, c: Cluster, m: Move): Cluster {
    match m
    case Begin(uid, version, rancher) =>
      if uid !in claims || !PhaseOf(c, uid).Idle? then c
      else
        var seen := Cached(c, claims[uid].ns);
        (match Mutate(seen, claims[uid], version, rancher)
         case Conflict => c
         case AlreadyOwned => c
         case Mutated(next) => SetPhase(c, uid, if seen == Some(next) then Passed else Pending(seen, next, c.seen)))
    case Commit(uid, fault) =>
      if uid !in claims || !PhaseOf(c, uid).Pending? then c
      else
        var p, now := PhaseOf(c, uid), At(c, claims[uid].ns);
        var current := if p.seen.None? then now.None? else now.Some? && now.value.version == p.seen.value.version;
        if !current || fault.Before? then SetPhase(c, uid, Idle)
        else SetPhase(PutNamespace(c, claims[uid].ns, p.next), uid, if fault.Fine? then Passed else Idle)
    case Act(uid, op, fault) =>
      if uid !in claims || !PhaseOf(c, uid).Passed? then c
      else if fault.Before? || Refused(c, claims[uid], op) then SetPhase(c, uid, Idle)
      else SetPhase(Apply(c, claims[uid], op), uid, if fault.Fine? then Passed else Idle)
    case Stop(uid) => SetPhase(c, uid, Idle)
    case Edit(name, to) =>
      if MayEdit(claims, At(c, name), to) then PutNamespace(c, name, to) else c
    case Vanish(name) =>
      c.(namespaces := c.namespaces - {name},
         past := c.past + [c.namespaces - {name}],
         children := map k | k in c.children && (k.ns != name || k.item.HarborProject?) :: c.children[k])
    case Deliver(upTo) => if c.seen <= upTo < |c.past| then c.(seen := upTo) else c
  }

  function Exec(claims: Claims, c: Cluster, moves: seq<Move>): Cluster {
    if moves == [] then c
    else Next(claims, Exec(claims, c, moves[..|moves| - 1]), moves[|moves| - 1])
  }

  // ---------------------------------------------------------------- the invariant

  /** UIDs are unique for all time and name the object they belong to. */
  ghost predicate NamesTrue(claims: Claims, refs: seq<OwnerRef>) {
    forall i :: 0 <= i < |refs| && refs[i].kind.WorkspaceKind? ==>
      refs[i].uid in claims && claims[refs[i].uid].name == refs[i].name
  }

  /** References of other kinds carry other objects' UIDs. */
  predicate KindsTrue(claims: Claims, refs: seq<OwnerRef>) {
    forall i :: 0 <= i < |refs| && refs[i].uid in claims ==> refs[i].kind.WorkspaceKind?
  }

  ghost predicate OneOwner(claims: Claims, ns: Namespace) {
    && |WorkspaceRefs(ns.owners)| <= 1
    && NamesTrue(claims, ns.owners)
    && KindsTrue(claims, ns.owners)
  }

  ghost predicate ClaimsTrue(claims: Claims) {
    forall uid :: uid in claims ==> claims[uid].uid == uid
  }

  /** Versions are never used twice: a namespace that has the version it once had has
      been there, unchanged, all the time. */
  ghost predicate Steady(past: seq<Snapshot>) {
    forall j: nat, l: nat, k: nat, n :: j <= l <= k && SameVersion(Shown(past, j, n), Shown(past, k, n)) ==>
      Shown(past, l, n) == Shown(past, j, n)
  }

  predicate SameVersion(a: Option<Namespace>, b: Option<Namespace>) {
    a.Some? && b.Some? && a.value.version == b.value.version
  }

  ghost predicate LogSound(claims: Claims, past: seq<Snapshot>, clock: nat) {
    && (forall k: nat, n :: Shown(past, k, n).Some? ==>
          OneOwner(claims, Shown(past, k, n).value) && Shown(past, k, n).value.version < clock)
    && Steady(past)
  }

  /** What a pending write was computed from. */
  ghost predicate PendingSound(claims: Claims, c: Cluster, uid: nat) {
    PhaseOf(c, uid).Pending? ==>
      var p := PhaseOf(c, uid);
      && uid in claims
      && OneOwner(claims, p.next)
      && IsOwned(p.next.owners, uid)
      && p.at <= c.seen && p.seen == Shown(c.past, p.at, claims[uid].ns)
      && (p.seen.Some? ==>
            && p.seen.value.version < c.clock
            && (IsOwned(p.seen.value.owners, uid) || Adoptable(p.seen.value, claims[uid].name))
            && (At(c, claims[uid].ns).Some? && At(c, claims[uid].ns).value.version == p.seen.value.version ==>
                  At(c, claims[uid].ns) == p.seen))
  }

  ghost predicate Inv(claims: Claims, c: Cluster) {
    && ClaimsTrue(claims)
    && c.seen < |c.past| && c.past[|c.past| - 1] == c.namespaces
    && LogSound(claims, c.past, c.clock)
    && (forall n :: n in c.namespaces ==> OneOwner(claims, c.namespaces[n]) && c.namespaces[n].version < c.clock)
    && (forall uid :: uid in c.phases ==> PendingSound(claims, c, uid))
    && (forall uid :: uid in c.phases && !c.phases[uid].Idle? ==> uid in claims)
  }

  lemma {:induction false} WorkspaceRefsAre(refs: seq<OwnerRef>)
    ensures forall r :: r in WorkspaceRefs(refs) <==> r in refs && r.kind.WorkspaceKind?
  {
    if refs != [] {
      WorkspaceRefsAre(refs[1..]);
      assert refs == [refs[0]] + refs[1..];
    }
  }

  lemma {:induction false} UpsertReplaces(refs: seq<OwnerRef>, w: Claim, i: nat)
    requires i < |refs| && SameObject(refs[i], w)
    ensures |WorkspaceRefs(Namespaces.Upsert(refs, w))| == |WorkspaceRefs(refs)|
    ensures forall r :: r in Namespaces.Upsert(refs, w) ==> r == RefTo(w) || r in refs
  {
    if !SameObject(refs[0], w) {
      UpsertReplaces(refs[1..], w, i - 1);
    }
  }

  lemma UpsertKeepsOneOwner(claims: Claims, refs: seq<OwnerRef>, uid: nat)
    requires ClaimsTrue(claims) && uid in claims
    requires |WorkspaceRefs(refs)| <= 1 && NamesTrue(claims, refs) && KindsTrue(claims, refs)
    requires refs == [] || IsOwned(refs, uid)
    ensures var after := Namespaces.Upsert(refs, claims[uid]);
            |WorkspaceRefs(after)| <= 1 && NamesTrue(claims, after) && KindsTrue(claims, after)
  {
    var w := claims[uid];
    var after := Namespaces.Upsert(refs, w);
    if refs == [] {
      assert WorkspaceRefs([RefTo(w)]) == [RefTo(w)] + WorkspaceRefs([]);
    } else {
      var i :| 0 <= i < |refs| && refs[i].uid == uid;
      UpsertReplaces(refs, w, i);
      forall j | 0 <= j < |after| ensures after[j] == RefTo(w) || after[j] in refs {
        assert after[j] in after;
      }
    }
  }

  lemma MutateKeepsOneOwner(claims: Claims, seen: Option<Namespace>, uid: nat, version: string, rancher: string)
    requires ClaimsTrue(claims) && uid in claims
    requires seen.Some? ==> OneOwner(claims, seen.value)
    requires Mutate(seen, claims[uid], version, rancher).Mutated?
    ensures OneOwner(claims, Mutate(seen, claims[uid], version, rancher).ns)
    ensures IsOwned(Mutate(seen, claims[uid], version, rancher).ns.owners, uid)
  {
    var refs := if seen.Some? then seen.value.owners else [];
    UpsertOwns(refs, claims[uid]);
    UpsertKeepsOneOwner(claims, refs, uid);
  }

  lemma EditKeepsOneOwner(claims: Claims, before: Option<Namespace>, to: Namespace)
    requires MayEdit(claims, before, to)
    requires before.Some? ==> OneOwner(claims, before.value)
    ensures OneOwner(claims, to)
  {
    var was, now := if before.Some? then WorkspaceRefs(before.value.owners) else [], WorkspaceRefs(to.owners);
    assert |now| == |multiset(now)| && |was| == |multiset(was)|;
    assert multiset(was) == multiset(now) + (multiset(was) - multiset(now));
    WorkspaceRefsAre(to.owners);
    if before.Some? {
      WorkspaceRefsAre(before.value.owners);
    }
    forall i | 0 <= i < |to.owners| && to.owners[i].kind.WorkspaceKind?
      ensures to.owners[i].uid in claims && claims[to.owners[i].uid].name == to.owners[i].name
    {
      var r := to.owners[i];
      assert r in now && r in multiset(now) && r in multiset(was) && r in was;
    }
  }

  lemma LogGrows(claims: Claims, past: seq<Snapshot>, clock: nat, next: Snapshot, clock': nat)
    requires past != [] && LogSound(claims, past, clock) && clock <= clock'
    requires forall n :: n in next ==>
               || Shown(past, |past| - 1, n) == Some(next[n])
               || (OneOwner(claims, next[n]) && clock <= next[n].version < clock')
    ensures LogSound(claims, past + [next], clock')
  {
    var all, last := past + [next], |past| - 1;
    forall k: nat, n ensures k <= last ==> Shown(all, k, n) == Shown(past, k, n) {}
    forall j: nat, l: nat, k: nat, n | j <= l <= k && SameVersion(Shown(all, j, n), Shown(all, k, n))
      ensures Shown(all, l, n) == Shown(all, j, n)
    {
      if j <= last && k == |past| {
        assert Shown(past, last, n) == Some(next[n]);
        assert SameVersion(Shown(past, j, n), Shown(past, last, n));
        if l <= last {
          assert Shown(past, l, n) == Shown(past, j, n);
        } else {
          assert Shown(past, last, n) == Shown(past, j, n);
        }
      }
    }
  }

  lemma PutKeepsInv(claims: Claims, c: Cluster, name: string, ns: Namespace)
    requires Inv(claims, c) && OneOwner(claims, ns)
    ensures Inv(claims, PutNamespace(c, name, ns))
  {
    var d := PutNamespace(c, name, ns);
    LogGrows(claims, c.past, c.clock, d.namespaces, d.clock);
    forall uid | uid in d.phases ensures PendingSound(claims, d, uid) {
      assert PendingSound(claims, c, uid);
    }
  }

  lemma PhaseKeepsInv(claims: Claims, c: Cluster, uid: nat, phase: Phase)
    requires Inv(claims, c)
    requires !phase.Idle? ==> uid in claims
    requires PendingSound(claims, SetPhase(c, uid, phase), uid)
    ensures Inv(claims, SetPhase(c, uid, phase))
  {
    var d := SetPhase(c, uid, phase);
    forall u | u in d.phases ensures PendingSound(claims, d, u) {
      assert u != uid ==> PendingSound(claims, c, u);
    }
  }

  lemma VanishKeepsInv(claims: Claims, c: Cluster, name: string)
    requires Inv(claims, c)
    ensures Inv(claims, Next(claims, c, Vanish(name)))
  {
    var d := Next(claims, c, Vanish(name));
    LogGrows(claims, c.past, c.clock, d.namespaces, d.clock);
    forall u | u in c.phases ensures PendingSound(claims, d, u) {
      assert PendingSound(claims, c, u);
    }
  }

  lemma ChildrenKeepInv(claims: Claims, c: Cluster, children: map<Key, Child>)
    requires Inv(claims, c)
    ensures Inv(claims, c.(children := children))
  {
    forall u | u in c.phases ensures PendingSound(claims, c.(children := children), u) {
      assert PendingSound(claims, c, u);
    }
  }

  lemma DeliverKeepsInv(claims: Claims, c: Cluster, upTo: nat)
    requires Inv(claims, c)
    ensures Inv(claims, Next(claims, c, Deliver(upTo)))
  {
    forall u | u in c.phases ensures PendingSound(claims, Next(claims, c, Deliver(upTo)), u) {
      assert PendingSound(claims, c, u);
    }
  }

  lemma BeginKeepsInv(claims: Claims, c: Cluster, uid: nat, version: string, rancher: string)
    requires Inv(claims, c)
    ensures Inv(claims, Next(claims, c, Begin(uid, version, rancher)))
  {
    if uid in claims && Mutate(Cached(c, claims[uid].ns), claims[uid], version, rancher).Mutated? {
      var seen := Cached(c, claims[uid].ns);
      var next := Mutate(seen, claims[uid], version, rancher).ns;
      MutateKeepsOneOwner(claims, seen, uid, version, rancher);
      assert At(c, claims[uid].ns) == Shown(c.past, |c.past| - 1, claims[uid].ns);
      PhaseKeepsInv(claims, c, uid, if seen == Some(next) then Passed else Pending(seen, next, c.seen));
    }
  }

  lemma CommitKeepsInv(claims: Claims, c: Cluster, uid: nat, fault: Fault)
    requires Inv(claims, c)
    ensures Inv(claims, Next(claims, c, Commit(uid, fault)))
  {
    PhaseKeepsInv(claims, c, uid, Idle);
    if PhaseOf(c, uid).Pending? && uid in claims {
      assert PendingSound(claims, c, uid);
      PutKeepsInv(claims, c, claims[uid].ns, PhaseOf(c, uid).next);
      var d := PutNamespace(c, claims[uid].ns, PhaseOf(c, uid).next);
      PhaseKeepsInv(claims, d, uid, Idle);
      PhaseKeepsInv(claims, d, uid, Passed);
    }
  }

  lemma ActKeepsInv(claims: Claims, c: Cluster, uid: nat, op: Op, fault: Fault)
    requires Inv(claims, c)
    ensures Inv(claims, Next(claims, c, Act(uid, op, fault)))
  {
    PhaseKeepsInv(claims, c, uid, Idle);
    if uid in claims {
      var d := Apply(c, claims[uid], op);
      ChildrenKeepInv(claims, c, d.children);
      PhaseKeepsInv(claims, d, uid, Idle);
      PhaseKeepsInv(claims, d, uid, Passed);
    }
  }

  lemma NextKeepsInv(claims: Claims, c: Cluster, m: Move)
    requires Inv(claims, c)
    ensures Inv(claims, Next(claims, c, m))
  {
    match m
    case Begin(uid, version, rancher) => BeginKeepsInv(claims, c, uid, version, rancher);
    case Commit(uid, fault) => CommitKeepsInv(claims, c, uid, fault);
    case Act(uid, op, fault) => ActKeepsInv(claims, c, uid, op, fault);
    case Stop(uid) => PhaseKeepsInv(claims, c, uid, Idle);
    case Edit(name, to) =>
      if MayEdit(claims, At(c, name), to) {
        EditKeepsOneOwner(claims, At(c, name), to);
        PutKeepsInv(claims, c, name, to);
      }
    case Vanish(name) => VanishKeepsInv(claims, c, name);
    case Deliver(upTo) => DeliverKeepsInv(claims, c, upTo);
  }

  /** Over every run, with races, deletions, re-creations under a new UID and restores
      that strip owners: no namespace ever has two workspace owners. */
  lemma {:induction false} AlwaysOneOwner(claims: Claims, c: Cluster, moves: seq<Move>)
    requires Inv(claims, c)
    ensures Inv(claims, Exec(claims, c, moves))
    ensures forall n :: n in Exec(claims, c, moves).namespaces ==>
              |WorkspaceRefs(Exec(claims, c, moves).namespaces[n].owners)| <= 1
  {
    if moves != [] {
      AlwaysOneOwner(claims, c, moves[..|moves| - 1]);
      NextKeepsInv(claims, Exec(claims, c, moves[..|moves| - 1]), moves[|moves| - 1]);
    }
  }

  // ---------------------------------------------------------------- the ownership gate

  /** The state after the first `i` moves. */
  function StateAfter(claims: Claims, c: Cluster, moves: seq<Move>, i: nat): Cluster
    requires i <= |moves|
  {
    Exec(claims, c, moves[..i])
  }

  lemma OneMore(claims: Claims, c: Cluster, moves: seq<Move>, i: nat)
    requires i < |moves|
    ensures StateAfter(claims, c, moves, i + 1) == Next(claims, StateAfter(claims, c, moves, i), moves[i])
  {
    assert moves[..i + 1][..i] == moves[..i];
  }

  /** How an attempt gets past `ReconcileNamespace`: with a write, owning the namespace
      there and then, or without, on a copy that shows it as the owner. */
  lemma PassingMeansOwning(claims: Claims, c: Cluster, m: Move, uid: nat)
    requires Inv(claims, c)
    requires !PhaseOf(c, uid).Passed? && PhaseOf(Next(claims, c, m), uid).Passed?
    ensures uid in claims && (m.Begin? || m.Commit?) && m.uid == uid
    ensures m.Commit? ==> OwnedBy(Next(claims, c, m), claims[uid].ns, uid)
    ensures m.Begin? ==> PassesOn(claims, uid, Cached(c, claims[uid].ns))
  {
    if m.Commit? && m.uid == uid {
      assert PendingSound(claims, c, uid);
    }
    if m.Begin? && m.uid == uid {
      assert Finished(Cached(c, claims[uid].ns).value, claims[uid], m.version, m.rancher);
    }
  }

  predicate Finished(ns: Namespace, w: Claim, version: string, rancher: string) {
    Mutate(Some(ns), w, version, rancher) == Mutated(ns)
  }

  /** A copy that needs no write for `uid`. */
  ghost predicate PassesOn(claims: Claims, uid: nat, copy: Option<Namespace>) {
    uid in claims && copy.Some? && exists version, rancher :: Finished(copy.value, claims[uid], version, rancher)
  }

  lemma PassedCopyIsOwned(claims: Claims, uid: nat, copy: Option<Namespace>)
    requires ClaimsTrue(claims) && PassesOn(claims, uid, copy) && OneOwner(claims, copy.value)
    ensures IsOwned(copy.value.owners, uid)
  {
    var version, rancher :| Finished(copy.value, claims[uid], version, rancher);
    MutateKeepsOneOwner(claims, copy, uid, version, rancher);
  }

  lemma NextMovesOn(claims: Claims, c: Cluster, m: Move)
    requires c.past != [] && c.past[|c.past| - 1] == c.namespaces
    ensures var d := Next(claims, c, m);
            && c.seen <= d.seen
            && ((d.past == c.past && d.namespaces == c.namespaces) || d.past == c.past + [d.namespaces])
  {
  }

  lemma {:induction false} PastEndsNow(claims: Claims, c: Cluster, moves: seq<Move>)
    requires c.past == [c.namespaces]
    ensures var d := Exec(claims, c, moves);
            d.past != [] && d.past[|d.past| - 1] == d.namespaces
  {
    if moves != [] {
      PastEndsNow(claims, c, moves[..|moves| - 1]);
      NextMovesOn(claims, Exec(claims, c, moves[..|moves| - 1]), moves[|moves| - 1]);
    }
  }

  /** Every copy the cache can show was once the present. */
  lemma {:induction false} CopyOfTheRun(claims: Claims, c: Cluster, moves: seq<Move>, k: nat) returns (taken: nat)
    requires c.past == [c.namespaces] && k < |Exec(claims, c, moves).past|
    ensures taken <= |moves| && StateAfter(claims, c, moves, taken).namespaces == Exec(claims, c, moves).past[k]
    decreases |moves|
  {
    assert moves[..|moves|] == moves;
    if moves == [] {
      return 0;
    }
    var init := moves[..|moves| - 1];
    var before := Exec(claims, c, init);
    PastEndsNow(claims, c, init);
    NextMovesOn(claims, before, moves[|moves| - 1]);
    if k < |before.past| {
      taken := CopyOfTheRun(claims, c, init, k);
      assert init[..taken] == moves[..taken];
    } else {
      taken := |moves|;
    }
  }

  /** The moment the copy was taken on which the move after the first `n` passes the
      gate. */
  lemma TakenForThePass(claims: Claims, c: Cluster, moves: seq<Move>, n: nat, uid: nat) returns (taken: nat)
    requires Inv(claims, c) && c.past == [c.namespaces] && n < |moves|
    requires !PhaseOf(StateAfter(claims, c, moves, n), uid).Passed?
    requires PhaseOf(StateAfter(claims, c, moves, n + 1), uid).Passed?
    ensures (moves[n].Begin? || moves[n].Commit?) && moves[n].uid == uid && uid in claims
    ensures taken <= n + 1 && (moves[n].Commit? ==> taken == n + 1)
    ensures OwnedBy(StateAfter(claims, c, moves, taken), claims[uid].ns, uid)
  {
    var before := StateAfter(claims, c, moves, n);
    AlwaysOneOwner(claims, c, moves[..n]);
    OneMore(claims, c, moves, n);
    PassingMeansOwning(claims, before, moves[n], uid);
    taken := n + 1;
    if moves[n].Begin? {
      PassedCopyIsOwned(claims, uid, Cached(before, claims[uid].ns));
      taken := CopyOfTheRun(claims, c, moves[..n], before.seen);
      assert moves[..n][..taken] == moves[..taken];
    }
  }

  lemma {:induction false} GateBefore(claims: Claims, c: Cluster, moves: seq<Move>, uid: nat, n: nat)
    returns (gate: nat)
    requires forall u :: u in c.phases ==> c.phases[u].Idle?
    requires n <= |moves| && PhaseOf(StateAfter(claims, c, moves, n), uid).Passed?
    ensures gate < n && !PhaseOf(StateAfter(claims, c, moves, gate), uid).Passed?
    ensures forall i :: gate < i <= n ==> PhaseOf(StateAfter(claims, c, moves, i), uid).Passed?
    decreases n
  {
    assert n > 0;
    gate := n - 1;
    if PhaseOf(StateAfter(claims, c, moves, n - 1), uid).Passed? {
      gate := GateBefore(claims, c, moves, uid, n - 1);
    }
  }

  /** Whoever can act on the objects of a namespace passed the gate earlier in this
      attempt, and the namespace was owned by their UID at the moment the copy they
      passed on was taken: the moment of the write itself, if there was one. */
  lemma ActorsPassedTheGate(claims: Claims, c: Cluster, moves: seq<Move>, uid: nat) returns (gate: nat, taken: nat)
    requires Inv(claims, c) && c.past == [c.namespaces] && (forall u :: u in c.phases ==> c.phases[u].Idle?)
    requires PhaseOf(Exec(claims, c, moves), uid).Passed?
    ensures 0 < gate <= |moves| && taken <= gate && uid in claims
    ensures (moves[gate - 1].Begin? || moves[gate - 1].Commit?) && moves[gate - 1].uid == uid
    ensures OwnedBy(StateAfter(claims, c, moves, taken), claims[uid].ns, uid)
    ensures moves[gate - 1].Commit? ==> taken == gate
    ensures forall i :: gate <= i <= |moves| ==> PhaseOf(StateAfter(claims, c, moves, i), uid).Passed?
  {
    assert moves[..|moves|] == moves;
    gate := GateBefore(claims, c, moves, uid, |moves|);
    taken := TakenForThePass(claims, c, moves, gate, uid);
    gate := gate + 1;
  }

  /** Everything a workspace's own moves could change for a namespace: the namespace,
      the objects in it, its Harbor project. */
  ghost function View(c: Cluster, name: string): (Option<Namespace>, map<Key, Child>) {
    (At(c, name), map k | k in c.children && k.ns == name :: c.children[k])
  }

  /** A namespace that is neither owned by a workspace nor adoptable by it is left
      exactly as it was by any call of that workspace's reconcile. */
  lemma ForeignNamespaceUntouched(claims: Claims, c: Cluster, m: Move, uid: nat, name: string)
    requires Inv(claims, c) && uid in claims
    requires MoveOf(m, uid)
    requires name in c.namespaces
    requires !OwnedBy(c, name, uid) && !(claims[uid].ns == name && Adoptable(c.namespaces[name], claims[uid].name))
    ensures At(Next(claims, c, m), name) == At(c, name)
  {
    if m.Commit? && PhaseOf(c, uid).Pending? {
      assert PendingSound(claims, c, uid);
    }
  }

  lemma SoleOwner(claims: Claims, ns: Namespace, a: nat, b: nat)
    requires OneOwner(claims, ns) && a in claims && b in claims
    ensures IsOwned(ns.owners, a) && IsOwned(ns.owners, b) ==> a == b
  {
    WorkspaceRefsAre(ns.owners);
    forall i, j | 0 <= i < |ns.owners| && 0 <= j < |ns.owners| && ns.owners[i].uid == a && ns.owners[j].uid == b
      ensures a == b
    {
      assert ns.owners[i] in WorkspaceRefs(ns.owners);
      assert ns.owners[j] in WorkspaceRefs(ns.owners);
    }
  }

  /** The cache shows, or has still to show, a copy on which `uid` passes. */
  ghost predicate MayPass(claims: Claims, c: Cluster, uid: nat) {
    uid in claims && exists k: nat :: c.seen <= k && PassesOn(claims, uid, Shown(c.past, k, claims[uid].ns))
  }

  lemma ChanceGrows(claims: Claims, c: Cluster, d: Cluster, uid: nat)
    requires ClaimsTrue(claims) && forall n :: n in d.namespaces ==> OneOwner(claims, d.namespaces[n])
    requires c.seen <= d.seen && (d.past == c.past || d.past == c.past + [d.namespaces])
    requires !MayPass(claims, c, uid) && MayPass(claims, d, uid)
    ensures OwnedBy(d, claims[uid].ns, uid)
  {
    var name := claims[uid].ns;
    forall k: nat | k < |c.past| ensures Shown(d.past, k, name) == Shown(c.past, k, name) {}
    var k: nat :| d.seen <= k && PassesOn(claims, uid, Shown(d.past, k, name));
    assert k == |c.past|;
    PassedCopyIsOwned(claims, uid, Shown(d.past, k, name));
  }

  /** A new chance to pass only comes with owning the namespace. */
  lemma NextChance(claims: Claims, c: Cluster, m: Move, uid: nat)
    requires Inv(claims, c) && !MayPass(claims, c, uid) && MayPass(claims, Next(claims, c, m), uid)
    ensures OwnedBy(Next(claims, c, m), claims[uid].ns, uid)
  {
    NextKeepsInv(claims, c, m);
    NextMovesOn(claims, c, m);
    ChanceGrows(claims, c, Next(claims, c, m), uid);
  }

  /** Neither past the gate nor to be led past it by the cache. */
  ghost predicate Outside(claims: Claims, c: Cluster, uid: nat) {
    !PhaseOf(c, uid).Passed? && !MayPass(claims, c, uid)
  }

  lemma LoserStaysOut(claims: Claims, c: Cluster, m: Move, name: string, winner: nat, loser: nat)
    requires Inv(claims, c) && winner in claims && loser in claims && winner != loser && claims[loser].ns == name
    requires OwnedBy(c, name, winner) && OwnedBy(Next(claims, c, m), name, winner) && Outside(claims, c, loser)
    ensures Inv(claims, Next(claims, c, m)) && Outside(claims, Next(claims, c, m), loser)
    ensures MoveOf(m, loser) ==> View(Next(claims, c, m), name) == View(c, name)
  {
    SoleOwner(claims, c.namespaces[name], winner, loser);
    NextKeepsInv(claims, c, m);
    SoleOwner(claims, Next(claims, c, m).namespaces[name], winner, loser);
    if PhaseOf(Next(claims, c, m), loser).Passed? {
      PassingMeansOwning(claims, c, m, loser);
    }
    if MayPass(claims, Next(claims, c, m), loser) {
      NextChance(claims, c, m, loser);
    }
    if MoveOf(m, loser) {
      UnexposedKeepTheView(claims, c, m, loser, winner, name);
    }
  }

  ghost predicate WinnerHolds(claims: Claims, c: Cluster, moves: seq<Move>, name: string, winner: nat) {
    forall i :: 0 <= i <= |moves| ==> OwnedBy(StateAfter(claims, c, moves, i), name, winner)
  }

  lemma {:induction false} LoserStaysOutside(claims: Claims, c: Cluster, moves: seq<Move>,
                                             name: string, winner: nat, loser: nat, i: nat)
    requires Inv(claims, c) && winner in claims && loser in claims && winner != loser && claims[loser].ns == name
    requires Outside(claims, c, loser) && WinnerHolds(claims, c, moves, name, winner) && i <= |moves|
    ensures Inv(claims, StateAfter(claims, c, moves, i)) && Outside(claims, StateAfter(claims, c, moves, i), loser)
    decreases i
  {
    if i == 0 {
      assert StateAfter(claims, c, moves, 0) == c;
    } else {
      var before, after := StateAfter(claims, c, moves, i - 1), StateAfter(claims, c, moves, i);
      assert OwnedBy(before, name, winner) && OwnedBy(after, name, winner);
      LoserStaysOutside(claims, c, moves, name, winner, loser, i - 1);
      OneMore(claims, c, moves, i - 1);
      LoserStaysOut(claims, before, moves[i - 1], name, winner, loser);
    }
  }

  /** Two workspaces that raced past admission onto one namespace: for as long as the
      winner holds it, and once the cache is past any copy that shows it as the loser's,
      nothing the loser does changes the namespace, anything in it, or its Harbor
      project. */
  lemma LosersAlterNothing(claims: Claims, c: Cluster, moves: seq<Move>, name: string, winner: nat, loser: nat)
    requires Inv(claims, c) && winner in claims && loser in claims && winner != loser && claims[loser].ns == name
    requires Outside(claims, c, loser) && WinnerHolds(claims, c, moves, name, winner)
    ensures forall i :: 0 <= i <= |moves| ==> !PhaseOf(StateAfter(claims, c, moves, i), loser).Passed?
    ensures forall i :: 0 <= i < |moves| && MoveOf(moves[i], loser) ==>
              View(StateAfter(claims, c, moves, i + 1), name) == View(StateAfter(claims, c, moves, i), name)
  {
    forall i | 0 <= i <= |moves| ensures !PhaseOf(StateAfter(claims, c, moves, i), loser).Passed? {
      LoserStaysOutside(claims, c, moves, name, winner, loser, i);
    }
    forall i | 0 <= i < |moves| && MoveOf(moves[i], loser)
      ensures View(StateAfter(claims, c, moves, i + 1), name) == View(StateAfter(claims, c, moves, i), name)
    {
      var now, after := StateAfter(claims, c, moves, i), StateAfter(claims, c, moves, i + 1);
      assert OwnedBy(now, name, winner) && OwnedBy(after, name, winner);
      LoserStaysOutside(claims, c, moves, name, winner, loser, i);
      OneMore(claims, c, moves, i);
      LoserStaysOut(claims, now, moves[i], name, winner, loser);
    }
  }

  // ---------------------------------------------------------------- who controls what

  /** What can happen to an object a workspace of another name controls: removed by
      anybody past the gate, or rewritten with the same controller, but never taken over. */
  lemma NobodyTakesOver(claims: Claims, c: Cluster, m: Move, k: Key)
    requires ClaimsTrue(claims) && k in c.children && k in Next(claims, c, m).children
    requires c.children[k].controller.Some? && c.children[k].controller.value.kind == WorkspaceKind
    ensures var now := Next(claims, c, m).children[k].controller;
            now.Some? && now.value.kind == WorkspaceKind && now.value.name == c.children[k].controller.value.name
  {
  }

  /** And whoever writes an object of their own ends up controlling it, at their UID. */
  lemma WritersControl(claims: Claims, c: Cluster, uid: nat, item: Item, body: string)
    requires uid in claims && PhaseOf(c, uid).Passed? && !Refused(c, claims[uid], Op.Upsert(item, body))
    ensures var d := Next(claims, c, Act(uid, Op.Upsert(item, body), Fine));
            && Key(claims[uid].ns, item) in d.children
            && d.children[Key(claims[uid].ns, item)] ==
               Child(Some(OwnerRef(claims[uid].uid, WorkspaceKind, claims[uid].name, true)), body)
            && forall k :: k != Key(claims[uid].ns, item) ==>
                 (k in d.children <==> k in c.children) && (k in d.children ==> d.children[k] == c.children[k])
  {
  }

  // ---------------------------------------------------------------- what a call may reach

  /** A call of one workspace that changes a namespace another one owns, something in
      it, or its Harbor project. */
  ghost predicate Trespasses(claims: Claims, c: Cluster, m: Move, uid: nat, owner: nat, name: string) {
    && MoveOf(m, uid)
    && owner in claims && owner != uid && OwnedBy(c, name, owner)
    && View(Next(claims, c, m), name) != View(c, name)
  }

  /** Past the gate of a namespace that has since become somebody else's. */
  ghost predicate Exposed(claims: Claims, c: Cluster, uid: nat, owner: nat) {
    && uid in claims && owner in claims && uid != owner
    && PhaseOf(c, uid).Passed? && OwnedBy(c, claims[uid].ns, owner)
  }

  lemma CallsStayHome(claims: Claims, c: Cluster, m: Move, uid: nat, name: string)
    requires MoveOf(m, uid) && (uid in claims && claims[uid].ns == name ==> !PhaseOf(c, uid).Passed?)
    ensures View(Next(claims, c, m), name).1 == View(c, name).1
  {
    var d := Next(claims, c, m);
    assert forall k: Key :: k.ns == name ==>
      (k in d.children <==> k in c.children) && (k in c.children ==> d.children[k] == c.children[k]);
  }

  lemma UnexposedKeepTheView(claims: Claims, c: Cluster, m: Move, uid: nat, owner: nat, name: string)
    requires Inv(claims, c) && MoveOf(m, uid)
    requires owner in claims && owner != uid && OwnedBy(c, name, owner)
    requires uid in claims && claims[uid].ns == name ==> !PhaseOf(c, uid).Passed?
    ensures View(Next(claims, c, m), name) == View(c, name)
  {
    if uid in claims {
      SoleOwner(claims, c.namespaces[name], owner, uid);
      ForeignNamespaceUntouched(claims, c, m, uid, name);
    }
    CallsStayHome(claims, c, m, uid, name);
  }

  lemma TrespassersAreExposed(claims: Claims, c: Cluster, m: Move, uid: nat, owner: nat, name: string)
    requires Inv(claims, c) && Trespasses(claims, c, m, uid, owner, name)
    ensures Exposed(claims, c, uid, owner) && claims[uid].ns == name
  {
    if uid in claims && claims[uid].ns == name ==> !PhaseOf(c, uid).Passed? {
      UnexposedKeepTheView(claims, c, m, uid, owner, name);
    }
  }

  /** The gate leaks exactly where someone is exposed: some call of `uid` changes what
      `owner` owns if and only if `uid` is past the gate of a namespace `owner` owns. */
  lemma TrespassExactly(claims: Claims, c: Cluster, uid: nat, owner: nat)
    requires Inv(claims, c)
    ensures (exists m, name :: Trespasses(claims, c, m, uid, owner, name)) <==> Exposed(claims, c, uid, owner)
  {
    if m, name :| Trespasses(claims, c, m, uid, owner, name) {
      TrespassersAreExposed(claims, c, m, uid, owner, name);
    }
    if Exposed(claims, c, uid, owner) {
      var name := claims[uid].ns;
      var key := Key(name, HarborProject);
      var body := if key in c.children then c.children[key].body + "!" else "";
      var m := Act(uid, Share(HarborProject, body), Fine);
      var d := Next(claims, c, m);
      assert key in View(d, name).1 && View(d, name).1[key].body == body;
      assert key in View(c, name).1 ==> View(c, name).1[key].body != body;
      assert Trespasses(claims, c, m, uid, owner, name);
    }
  }

  /** What is one's own namespace to the cache is already another's in the cluster. */
  ghost predicate Haunted(claims: Claims, c: Cluster, uid: nat, owner: nat) {
    && owner in claims && owner != uid
    && MayPass(claims, c, uid) && OwnedBy(c, claims[uid].ns, owner)
  }

  lemma ExposureWasHaunting(claims: Claims, c: Cluster, k: nat, version: string, rancher: string, uid: nat, owner: nat)
    requires Inv(claims, c) && PhaseOf(c, uid).Idle?
    requires Exposed(claims, Next(claims, Next(claims, c, Deliver(k)), Begin(uid, version, rancher)), uid, owner)
    ensures Haunted(claims, c, uid, owner)
  {
    var d := Next(claims, c, Deliver(k));
    DeliverKeepsInv(claims, c, k);
    PassingMeansOwning(claims, d, Begin(uid, version, rancher), uid);
    assert c.seen <= d.seen && PassesOn(claims, uid, Shown(c.past, d.seen, claims[uid].ns));
  }

  lemma BeginPasses(claims: Claims, c: Cluster, uid: nat, version: string, rancher: string)
    requires uid in claims && PhaseOf(c, uid).Idle? && Cached(c, claims[uid].ns).Some?
    requires Finished(Cached(c, claims[uid].ns).value, claims[uid], version, rancher)
    ensures Next(claims, c, Begin(uid, version, rancher)) == SetPhase(c, uid, Passed)
  {
  }

  lemma PassingExposes(claims: Claims, c: Cluster, k: nat, version: string, rancher: string, uid: nat, owner: nat)
    requires uid in claims && owner in claims && uid != owner && PhaseOf(c, uid).Idle?
    requires OwnedBy(c, claims[uid].ns, owner) && c.seen <= k && Shown(c.past, k, claims[uid].ns).Some?
    requires Finished(Shown(c.past, k, claims[uid].ns).value, claims[uid], version, rancher)
    ensures Exposed(claims, Next(claims, Next(claims, c, Deliver(k)), Begin(uid, version, rancher)), uid, owner)
  {
    assert Next(claims, c, Deliver(k)) == c.(seen := k);
    BeginPasses(claims, c.(seen := k), uid, version, rancher);
  }

  /** The next attempt of `uid` can become exposed exactly then. */
  lemma HauntedExactly(claims: Claims, c: Cluster, uid: nat, owner: nat)
    requires Inv(claims, c) && PhaseOf(c, uid).Idle?
    ensures (exists k, version, rancher ::
              Exposed(claims, Next(claims, Next(claims, c, Deliver(k)), Begin(uid, version, rancher)), uid, owner))
            <==> Haunted(claims, c, uid, owner)
  {
    if k, version, rancher :|
      Exposed(claims, Next(claims, Next(claims, c, Deliver(k)), Begin(uid, version, rancher)), uid, owner)
    {
      ExposureWasHaunting(claims, c, k, version, rancher, uid, owner);
    }
    if Haunted(claims, c, uid, owner) {
      var k: nat :| c.seen <= k && PassesOn(claims, uid, Shown(c.past, k, claims[uid].ns));
      var version, rancher :| Finished(Shown(c.past, k, claims[uid].ns).value, claims[uid], version, rancher);
      PassingExposes(claims, c, k, version, rancher, uid, owner);
    }
  }

  // ---------------------------------------------------------------- one worker

  /** An attempt begins only when no other is under way: what controller-runtime does
      unless it is told to run more workers. */
  predicate OneWorker(c: Cluster, m: Move) {
    m.Begin? ==> forall uid :: uid in c.phases && uid != m.uid ==> c.phases[uid].Idle?
  }

  ghost predicate AlwaysOneWorker(claims: Claims, c: Cluster, moves: seq<Move>) {
    forall i :: 0 <= i < |moves| ==> OneWorker(StateAfter(claims, c, moves, i), moves[i])
  }

  /** At most one attempt is under way; if it is past the gate nobody else owns its
      namespace (which may have been taken from it meanwhile); and the cache leads nobody
      into a namespace somebody else owns. */
  ghost predicate Exclusive(claims: Claims, c: Cluster) {
    && (forall a, b :: a in c.phases && b in c.phases && !c.phases[a].Idle? && !c.phases[b].Idle? ==> a == b)
    && (forall uid, owner :: !Exposed(claims, c, uid, owner))
    && (forall uid, owner :: !Haunted(claims, c, uid, owner))
  }

  /** A namespace is created by an attempt whose cache had not yet shown that another
      claimant had owned one of that name before it went away. */
  ghost predicate Blind(claims: Claims, c: Cluster, m: Move) {
    && m.Commit? && !m.fault.Before? && m.uid in claims
    && PhaseOf(c, m.uid).Pending? && PhaseOf(c, m.uid).seen.None? && At(c, claims[m.uid].ns).None?
    && exists uid :: uid != m.uid && MayPass(claims, c, uid) && claims[uid].ns == claims[m.uid].ns
  }

  ghost predicate NeverBlind(claims: Claims, c: Cluster, moves: seq<Move>) {
    forall i :: 0 <= i < |moves| ==> !Blind(claims, StateAfter(claims, c, moves, i), moves[i])
  }

  /** An edit by others makes nobody an owner. */
  lemma EditAddsNoOwner(claims: Claims, before: Option<Namespace>, to: Namespace, uid: nat)
    requires MayEdit(claims, before, to) && uid in claims && IsOwned(to.owners, uid)
    ensures before.Some? && IsOwned(before.value.owners, uid)
  {
    var i :| 0 <= i < |to.owners| && to.owners[i].uid == uid;
    var r := to.owners[i];
    WorkspaceRefsAre(to.owners);
    assert r in multiset(WorkspaceRefs(to.owners));
    assert before.Some?;
    WorkspaceRefsAre(before.value.owners);
    assert r in WorkspaceRefs(before.value.owners);
  }

  /** How ownership comes about: only by one's own write. */
  lemma NewOwnersCommitted(claims: Claims, c: Cluster, m: Move, name: string, owner: nat)
    requires Inv(claims, c) && owner in claims
    requires OwnedBy(Next(claims, c, m), name, owner) && !OwnedBy(c, name, owner)
    ensures m.Commit? && !m.fault.Before? && PhaseOf(c, m.uid).Pending? && m.uid == owner && claims[owner].ns == name
    ensures PhaseOf(c, owner).seen == At(c, name)
  {
    if m.Edit? && m.name == name && MayEdit(claims, At(c, name), m.to) {
      EditAddsNoOwner(claims, At(c, name), m.to, owner);
    }
    if m.Commit? && m.uid in claims && PhaseOf(c, m.uid).Pending? {
      assert PendingSound(claims, c, m.uid);
      NextKeepsInv(claims, c, m);
      if claims[m.uid].ns == name {
        SoleOwner(claims, Next(claims, c, m).namespaces[name], m.uid, owner);
      }
    }
  }

  lemma NextExposesNobody(claims: Claims, c: Cluster, m: Move, uid: nat, owner: nat)
    requires Inv(claims, c) && Exclusive(claims, c)
    ensures !Exposed(claims, Next(claims, c, m), uid, owner)
  {
    var d := Next(claims, c, m);
    assert !Exposed(claims, c, uid, owner) && !Haunted(claims, c, uid, owner);
    if Exposed(claims, d, uid, owner) {
      var name := claims[uid].ns;
      NextKeepsInv(claims, c, m);
      if !OwnedBy(c, name, owner) {
        NewOwnersCommitted(claims, c, m, name, owner);
      } else if !PhaseOf(c, uid).Passed? {
        PassingMeansOwning(claims, c, m, uid);
        SoleOwner(claims, d.namespaces[name], uid, owner);
      }
    }
  }

  lemma ThereAllTheTime(past: seq<Snapshot>, at: nat, k: nat, name: string)
    requires past != [] && Steady(past) && at <= k < |past|
    requires SameVersion(Shown(past, at, name), Shown(past, |past| - 1, name))
    ensures Shown(past, k, name) == Shown(past, at, name)
  {
  }

  lemma NotBoth(claims: Claims, ns: Namespace, uid: nat, other: nat)
    requires ClaimsTrue(claims) && OneOwner(claims, ns) && uid in claims && other in claims && uid != other
    requires IsOwned(ns.owners, uid) || ns.owners == []
    ensures !PassesOn(claims, other, Some(ns))
  {
    if PassesOn(claims, other, Some(ns)) {
      PassedCopyIsOwned(claims, other, Some(ns));
      SoleOwner(claims, ns, uid, other);
    }
  }

  /** What a write is computed from, if it is still there, is what every copy still to be
      shown shows. */
  lemma PendingOutlasts(claims: Claims, c: Cluster, uid: nat, other: nat)
    requires Inv(claims, c) && uid in claims && other in claims && uid != other && claims[uid].ns == claims[other].ns
    requires PhaseOf(c, uid).Pending? && PhaseOf(c, uid).seen.Some? && PhaseOf(c, uid).seen == At(c, claims[uid].ns)
    ensures !MayPass(claims, c, other)
  {
    var p, name := PhaseOf(c, uid), claims[uid].ns;
    assert PendingSound(claims, c, uid);
    NotBoth(claims, p.seen.value, uid, other);
    forall k: nat | c.seen <= k ensures !PassesOn(claims, other, Shown(c.past, k, name)) {
      if k < |c.past| {
        ThereAllTheTime(c.past, p.at, k, name);
      }
    }
  }

  lemma NextHauntsNobody(claims: Claims, c: Cluster, m: Move, uid: nat, owner: nat)
    requires Inv(claims, c) && Exclusive(claims, c) && !Blind(claims, c, m)
    ensures !Haunted(claims, Next(claims, c, m), uid, owner)
  {
    var d := Next(claims, c, m);
    assert !Haunted(claims, c, uid, owner);
    if Haunted(claims, d, uid, owner) {
      var name := claims[uid].ns;
      NextKeepsInv(claims, c, m);
      if !MayPass(claims, c, uid) {
        NextChance(claims, c, m, uid);
        SoleOwner(claims, d.namespaces[name], uid, owner);
      } else if !OwnedBy(c, name, owner) {
        NewOwnersCommitted(claims, c, m, name, owner);
        if PhaseOf(c, owner).seen.Some? {
          PendingOutlasts(claims, c, owner, uid);
        }
      }
    }
  }

  lemma BlindHaunts(claims: Claims, c: Cluster, m: Move)
    requires Inv(claims, c) && Blind(claims, c, m)
    ensures !Exclusive(claims, Next(claims, c, m))
  {
    var d := Next(claims, c, m);
    var uid :| uid != m.uid && MayPass(claims, c, uid) && claims[uid].ns == claims[m.uid].ns;
    var k: nat :| c.seen <= k && PassesOn(claims, uid, Shown(c.past, k, claims[uid].ns));
    assert PendingSound(claims, c, m.uid);
    assert Shown(d.past, k, claims[uid].ns) == Shown(c.past, k, claims[uid].ns);
    assert Haunted(claims, d, uid, m.uid);
  }

  /** A single worker keeps out of other people's namespaces up to exactly this. */
  lemma NextKeepsExclusive(claims: Claims, c: Cluster, m: Move)
    requires Inv(claims, c) && Exclusive(claims, c) && OneWorker(c, m)
    ensures Exclusive(claims, Next(claims, c, m)) <==> !Blind(claims, c, m)
  {
    if Blind(claims, c, m) {
      BlindHaunts(claims, c, m);
    } else {
      forall uid, owner
        ensures !Exposed(claims, Next(claims, c, m), uid, owner) && !Haunted(claims, Next(claims, c, m), uid, owner)
      {
        NextExposesNobody(claims, c, m, uid, owner);
        NextHauntsNobody(claims, c, m, uid, owner);
      }
    }
  }

  lemma RestIsExclusive(claims: Claims, c: Cluster)
    requires Inv(claims, c) && c.seen == |c.past| - 1 && forall u :: u in c.phases ==> c.phases[u].Idle?
    ensures Exclusive(claims, c)
  {
    forall uid, owner | uid in claims && owner in claims && uid != owner && OwnedBy(c, claims[uid].ns, owner)
      ensures !MayPass(claims, c, uid)
    {
      NotBoth(claims, c.namespaces[claims[uid].ns], owner, uid);
      assert Shown(c.past, c.seen, claims[uid].ns) == Some(c.namespaces[claims[uid].ns]);
    }
  }

  lemma {:induction false} StaysExclusive(claims: Claims, c: Cluster, moves: seq<Move>, i: nat)
    requires Inv(claims, c) && Exclusive(claims, c) && AlwaysOneWorker(claims, c, moves)
    requires NeverBlind(claims, c, moves) && i <= |moves|
    ensures Inv(claims, StateAfter(claims, c, moves, i)) && Exclusive(claims, StateAfter(claims, c, moves, i))
    decreases i
  {
    if i > 0 {
      StaysExclusive(claims, c, moves, i - 1);
      OneMore(claims, c, moves, i - 1);
      NextKeepsInv(claims, StateAfter(claims, c, moves, i - 1), moves[i - 1]);
      NextKeepsExclusive(claims, StateAfter(claims, c, moves, i - 1), moves[i - 1]);
    }
  }

  /** Creating a namespace blind is the one way a single worker comes to stand, or to be
      led, inside somebody else's. */
  lemma ExclusiveExactly(claims: Claims, c: Cluster, moves: seq<Move>)
    requires Inv(claims, c) && Exclusive(claims, c) && AlwaysOneWorker(claims, c, moves)
    ensures NeverBlind(claims, c, moves) <==>
            forall i :: 0 <= i <= |moves| ==> Exclusive(claims, StateAfter(claims, c, moves, i))
  {
    if NeverBlind(claims, c, moves) {
      forall i | 0 <= i <= |moves| ensures Exclusive(claims, StateAfter(claims, c, moves, i)) {
        StaysExclusive(claims, c, moves, i);
      }
    }
    if forall i :: 0 <= i <= |moves| ==> Exclusive(claims, StateAfter(claims, c, moves, i)) {
      forall i | 0 <= i < |moves| ensures !Blind(claims, StateAfter(claims, c, moves, i), moves[i]) {
        AlwaysOneOwner(claims, c, moves[..i]);
        OneMore(claims, c, moves, i);
        assert Exclusive(claims, StateAfter(claims, c, moves, i + 1));
        NextKeepsExclusive(claims, StateAfter(claims, c, moves, i), moves[i]);
      }
    }
  }

  /** With one worker the gate is a lock.  Over every run, whatever others edit, strip
      or remove, however the cache lags and wherever attempts stop: no call of a
      workspace changes a namespace another workspace owns, anything in it, or its
      Harbor project, as long as no namespace is created blind. */
  lemma NobodyTrespasses(claims: Claims, c: Cluster, moves: seq<Move>)
    requires Inv(claims, c) && Exclusive(claims, c) && AlwaysOneWorker(claims, c, moves) && NeverBlind(claims, c, moves)
    ensures forall i, uid, owner, name :: 0 <= i < |moves| ==>
              !Trespasses(claims, StateAfter(claims, c, moves, i), moves[i], uid, owner, name)
  {
    forall i, uid, owner, name | 0 <= i < |moves|
      ensures !Trespasses(claims, StateAfter(claims, c, moves, i), moves[i], uid, owner, name)
    {
      StaysExclusive(claims, c, moves, i);
      var now := StateAfter(claims, c, moves, i);
      if Trespasses(claims, now, moves[i], uid, owner, name) {
        TrespassersAreExposed(claims, now, moves[i], uid, owner, name);
      }
    }
  }

  // ---------------------------------------------------------------- acting under the lock

  /** Others take a namespace away from its owner (strip the owners, remove it) only
      while that owner's attempt is not past the gate, and an attempt passes without a
      write only where it still is the owner. */
  ghost predicate Polite(claims: Claims, c: Cluster, m: Move) {
    match m
    case Begin(uid, version, rancher) =>
      uid in claims && PhaseOf(c, uid).Idle? && Cached(c, claims[uid].ns).Some? &&
      Finished(Cached(c, claims[uid].ns).value, claims[uid], version, rancher) ==>
        OwnedBy(c, claims[uid].ns, uid)
    case Edit(name, to) =>
      MayEdit(claims, At(c, name), to) ==>
        forall uid :: uid in claims && claims[uid].ns == name && PhaseOf(c, uid).Passed? ==> IsOwned(to.owners, uid)
    case Vanish(name) =>
      forall uid :: uid in claims && claims[uid].ns == name ==> !PhaseOf(c, uid).Passed?
    case _ => true
  }

  ghost predicate AllPolite(claims: Claims, c: Cluster, moves: seq<Move>) {
    moves != [] ==>
      var init := moves[..|moves| - 1];
      AllPolite(claims, c, init) && Polite(claims, Exec(claims, c, init), moves[|moves| - 1])
  }

  ghost predicate PassedOwn(claims: Claims, c: Cluster) {
    forall uid :: uid in claims && PhaseOf(c, uid).Passed? ==> OwnedBy(c, claims[uid].ns, uid)
  }

  lemma PoliteKeepsPassedOwn(claims: Claims, c: Cluster, m: Move)
    requires Inv(claims, c) && PassedOwn(claims, c) && Polite(claims, c, m)
    ensures PassedOwn(claims, Next(claims, c, m))
  {
    var d := Next(claims, c, m);
    forall uid | uid in claims && PhaseOf(d, uid).Passed? ensures OwnedBy(d, claims[uid].ns, uid) {
      if !PhaseOf(c, uid).Passed? {
        PassingMeansOwning(claims, c, m, uid);
      } else if m.Commit? && m.uid in claims && m.uid != uid && claims[m.uid].ns == claims[uid].ns {
        SoleOwner(claims, c.namespaces[claims[uid].ns], uid, m.uid);
        ForeignNamespaceUntouched(claims, c, m, m.uid, claims[uid].ns);
      }
    }
  }

  lemma NextKeepsPassedOwn(claims: Claims, c: Cluster, m: Move)
    requires Inv(claims, c) && PassedOwn(claims, c)
    ensures PassedOwn(claims, Next(claims, c, m)) <==> Polite(claims, c, m)
  {
    var d := Next(claims, c, m);
    if Polite(claims, c, m) {
      PoliteKeepsPassedOwn(claims, c, m);
    } else if m.Begin? {
      assert PhaseOf(d, m.uid).Passed? && !OwnedBy(d, claims[m.uid].ns, m.uid);
    } else {
      var name := m.name;
      var uid :| uid in claims && claims[uid].ns == name && PhaseOf(c, uid).Passed? &&
                 (m.Edit? ==> !IsOwned(m.to.owners, uid));
      assert PhaseOf(d, uid).Passed? && !OwnedBy(d, name, uid);
    }
  }

  /** At every moment of the run whoever can act owns what they act on. */
  ghost predicate AlwaysOwn(claims: Claims, c: Cluster, moves: seq<Move>) {
    forall i :: 0 <= i <= |moves| ==> PassedOwn(claims, StateAfter(claims, c, moves, i))
  }

  lemma AlwaysOwnGrows(claims: Claims, c: Cluster, init: seq<Move>, m: Move)
    ensures AlwaysOwn(claims, c, init + [m]) <==>
            AlwaysOwn(claims, c, init) && PassedOwn(claims, Exec(claims, c, init + [m]))
  {
    var n, moves := |init|, init + [m];
    forall i | 0 <= i <= n ensures StateAfter(claims, c, moves, i) == StateAfter(claims, c, init, i) {
      assert init[..i] == moves[..i];
    }
    assert moves[..n + 1] == moves;
    if AlwaysOwn(claims, c, moves) {
      assert PassedOwn(claims, StateAfter(claims, c, moves, n + 1));
      forall i | 0 <= i <= n ensures PassedOwn(claims, StateAfter(claims, c, init, i)) {
        assert PassedOwn(claims, StateAfter(claims, c, moves, i));
      }
    }
  }

  lemma {:induction false} PoliteMeansOwning(claims: Claims, c: Cluster, moves: seq<Move>)
    requires Inv(claims, c) && PassedOwn(claims, c)
    ensures AllPolite(claims, c, moves) <==> AlwaysOwn(claims, c, moves)
    ensures AllPolite(claims, c, moves) ==> PassedOwn(claims, Exec(claims, c, moves))
    decreases |moves|
  {
    if moves == [] {
      assert StateAfter(claims, c, moves, 0) == c;
    } else {
      var n := |moves| - 1;
      var init := moves[..n];
      assert moves == init + [moves[n]];
      PoliteMeansOwning(claims, c, init);
      AlwaysOneOwner(claims, c, init);
      AlwaysOwnGrows(claims, c, init, moves[n]);
      if AllPolite(claims, c, init) {
        NextKeepsPassedOwn(claims, Exec(claims, c, init), moves[n]);
      }
    }
  }

  /** Any number of workers.  Every write to the objects of a namespace happens while
      the writer owns it exactly when nobody takes a namespace away from an attempt
      that is past the gate and no attempt passes on a copy that is out of date about
      the owner; and then no two claimants are ever past it together. */
  lemma ActingMeansOwning(claims: Claims, c: Cluster, moves: seq<Move>)
    requires Inv(claims, c) && PassedOwn(claims, c)
    ensures AllPolite(claims, c, moves) <==> AlwaysOwn(claims, c, moves)
    ensures AllPolite(claims, c, moves) ==> AlonePastTheGate(claims, Exec(claims, c, moves))
  {
    PoliteMeansOwning(claims, c, moves);
    AlwaysOneOwner(claims, c, moves);
    if AllPolite(claims, c, moves) {
      PassedOwnIsAlone(claims, Exec(claims, c, moves));
    }
  }

  ghost predicate AlonePastTheGate(claims: Claims, c: Cluster) {
    forall a, b | a in claims && b in claims && claims[a].ns == claims[b].ns ::
      PhaseOf(c, a).Passed? && PhaseOf(c, b).Passed? ==> a == b
  }

  lemma PassedOwnIsAlone(claims: Claims, c: Cluster)
    requires Inv(claims, c) && PassedOwn(claims, c)
    ensures AlonePastTheGate(claims, c)
  {
    forall a, b | a in claims && b in claims && claims[a].ns == claims[b].ns &&
                  PhaseOf(c, a).Passed? && PhaseOf(c, b).Passed?
      ensures a == b
    {
      SoleOwner(claims, c.namespaces[claims[a].ns], a, b);
    }
  }

  /** A claimant finding its namespace free creates and owns it. */
  lemma ClaimFreeNamespace(claims: Claims, c: Cluster, uid: nat, version: string)
    requires uid in claims && claims[uid].uid == uid && PhaseOf(c, uid).Idle?
    requires claims[uid].ns !in c.namespaces && Cached(c, claims[uid].ns).None?
    ensures var d := Next(claims, Next(claims, c, Begin(uid, version, "")), Commit(uid, Fine));
            && d.phases == c.phases[uid := Passed]
            && d.children == c.children
            && d.seen == c.seen && d.past == c.past + [d.namespaces]
            && OwnedBy(d, claims[uid].ns, uid)
            && Finished(d.namespaces[claims[uid].ns], claims[uid], version, "")
  {
    UpsertOwns([], claims[uid]);
    MutationSettles(None, claims[uid], version, "");
    var next := Mutate(None, claims[uid], version, "").ns;
    var b := Next(claims, c, Begin(uid, version, ""));
    assert b == SetPhase(c, uid, Pending(None, next, c.seen));
    assert Next(claims, b, Commit(uid, Fine)) == SetPhase(PutNamespace(b, claims[uid].ns, next), uid, Passed);
    assert Finished(next, claims[uid], version, "");
  }

  lemma CreatingBlind(claims: Claims, c: Cluster, first: nat, second: nat, k: nat)
    requires first in claims && second in claims && first != second && claims[first].ns == claims[second].ns
    requires claims[second].uid == second && PhaseOf(c, second).Idle?
    requires claims[first].ns !in c.namespaces && Cached(c, claims[first].ns).None?
    requires c.seen <= k && PassesOn(claims, first, Shown(c.past, k, claims[first].ns))
    ensures var f := Next(claims, c, Begin(second, "v", ""));
            && Blind(claims, f, Commit(second, Fine))
            && Haunted(claims, Next(claims, f, Commit(second, Fine)), first, second)
  {
    ClaimFreeNamespace(claims, c, second, "v");
    var f := Next(claims, c, Begin(second, "v", ""));
    var g := Next(claims, f, Commit(second, Fine));
    var name := claims[first].ns;
    assert Shown(f.past, k, name) == Shown(g.past, k, name) == Shown(c.past, k, name);
    assert MayPass(claims, f, first) && MayPass(claims, g, first);
  }

  /** A namespace can be created blind, and by a single worker: the first claimant
      creates it and is done, it is removed, and the second claimant creates it anew,
      all while the cache shows none.  From then on the cache will show the first one
      its own old namespace, in the second one's place. */
  lemma OneWorkerCanBeHaunted(claims: Claims, c: Cluster, first: nat, second: nat)
    requires Inv(claims, c) && first in claims && second in claims && first != second
    requires claims[first].ns == claims[second].ns
    requires claims[first].ns !in c.namespaces && Cached(c, claims[first].ns).None?
    requires forall u :: u in c.phases ==> c.phases[u].Idle?
    ensures var d := Next(claims, Next(claims, c, Begin(first, "v", "")), Commit(first, Fine));
            var e := Next(claims, Next(claims, d, Stop(first)), Vanish(claims[first].ns));
            var f := Next(claims, e, Begin(second, "v", ""));
            && OneWorker(c, Begin(first, "v", "")) && OneWorker(e, Begin(second, "v", ""))
            && Blind(claims, f, Commit(second, Fine))
            && Haunted(claims, Next(claims, f, Commit(second, Fine)), first, second)
  {
    var name := claims[first].ns;
    ClaimFreeNamespace(claims, c, first, "v");
    var d := Next(claims, Next(claims, c, Begin(first, "v", "")), Commit(first, Fine));
    var e := Next(claims, Next(claims, d, Stop(first)), Vanish(name));
    assert Shown(e.past, |c.past|, name) == Some(d.namespaces[name]);
    CreatingBlind(claims, e, first, second, |c.past|);
  }

  lemma ExecOfSix(claims: Claims, c: Cluster, moves: seq<Move>)
    requires |moves| == 6
    ensures StateAfter(claims, c, moves, 2) == Next(claims, Next(claims, c, moves[0]), moves[1])
    ensures StateAfter(claims, c, moves, 5) ==
            Next(claims, Next(claims, Next(claims, StateAfter(claims, c, moves, 2), moves[2]), moves[3]), moves[4])
    ensures StateAfter(claims, c, moves, 6) == Next(claims, StateAfter(claims, c, moves, 5), moves[5])
  {
    assert StateAfter(claims, c, moves, 0) == c;
    forall i | 0 <= i < 6
      ensures StateAfter(claims, c, moves, i + 1) == Next(claims, StateAfter(claims, c, moves, i), moves[i])
    {
      OneMore(claims, c, moves, i);
    }
  }

  /** Where the run below is before its last move: the second workspace owns the name,
      has an object in it, and the first is still past the gate. */
  lemma OvertakenOwner(claims: Claims, c: Cluster, first: nat, second: nat, item: string)
    requires Inv(claims, c) && first in claims && second in claims && first != second
    requires claims[first].ns == claims[second].ns
    requires PhaseOf(c, first).Passed? && PhaseOf(c, second).Idle?
    ensures var c2 := Next(claims, Next(claims, c, Vanish(claims[first].ns)), Deliver(|c.past|));
            var c4 := Next(claims, Next(claims, c2, Begin(second, "v", "")), Commit(second, Fine));
            var c5 := Next(claims, c4, Act(second, Op.Upsert(Object(item), "x"), Fine));
            && OwnedBy(c5, claims[first].ns, second)
            && Key(claims[first].ns, Object(item)) in c5.children
            && PhaseOf(c5, first).Passed?
            && PhaseOf(c2, first).Passed?
  {
    var c2 := Next(claims, Next(claims, c, Vanish(claims[first].ns)), Deliver(|c.past|));
    ClaimFreeNamespace(claims, c2, second, "v");
    var c4 := Next(claims, Next(claims, c2, Begin(second, "v", "")), Commit(second, Fine));
    assert Key(claims[first].ns, Object(item)) !in c4.children;
  }

  lemma RemovalTrespasses(claims: Claims, c: Cluster, uid: nat, owner: nat, item: string)
    requires Exposed(claims, c, uid, owner) && Key(claims[uid].ns, Object(item)) in c.children
    ensures var m := Act(uid, Remove(Object(item)), Fine);
            && Trespasses(claims, c, m, uid, owner, claims[uid].ns)
            && Key(claims[uid].ns, Object(item)) !in Next(claims, c, m).children
  {
    var d := Next(claims, c, Act(uid, Remove(Object(item)), Fine));
    var key := Key(claims[uid].ns, Object(item));
    assert key in View(c, claims[uid].ns).1 && key !in View(d, claims[uid].ns).1;
  }

  lemma LeakingRun(claims: Claims, c: Cluster, first: nat, second: nat, item: string, moves: seq<Move>)
    requires Inv(claims, c) && first in claims && second in claims && first != second
    requires claims[first].ns == claims[second].ns
    requires PhaseOf(c, first).Passed? && PhaseOf(c, second).Idle?
    requires |moves| == 6 && moves[0] == Vanish(claims[first].ns) && moves[1] == Deliver(|c.past|)
    requires moves[2] == Begin(second, "v", "") && moves[3] == Commit(second, Fine)
    requires moves[4] == Act(second, Op.Upsert(Object(item), "x"), Fine)
    requires moves[5] == Act(first, Remove(Object(item)), Fine)
    ensures Trespasses(claims, StateAfter(claims, c, moves, 5), moves[5], first, second, claims[first].ns)
    ensures Key(claims[first].ns, Object(item)) in StateAfter(claims, c, moves, 5).children
    ensures Key(claims[first].ns, Object(item)) !in StateAfter(claims, c, moves, 6).children
    ensures !OneWorker(StateAfter(claims, c, moves, 2), moves[2])
  {
    ExecOfSix(claims, c, moves);
    OvertakenOwner(claims, c, first, second, item);
    RemovalTrespasses(claims, StateAfter(claims, c, moves, 5), first, second, item);
  }

  /** Why one worker.  From every state in which one claimant is past the gate and
      another at rest, a second worker is enough, the cache being up to date: the
      namespace is removed, the second workspace builds its own (the one move a single
      worker does not make), and the first attempt deletes an object of it. */
  lemma OverlappingAttemptsCanLeak(claims: Claims, c: Cluster, first: nat, second: nat, item: string)
    returns (moves: seq<Move>)
    requires Inv(claims, c) && first in claims && second in claims && first != second
    requires claims[first].ns == claims[second].ns
    requires PhaseOf(c, first).Passed? && PhaseOf(c, second).Idle?
    ensures |moves| == 6 && moves[5] == Act(first, Remove(Object(item)), Fine)
    ensures Trespasses(claims, StateAfter(claims, c, moves, 5), moves[5], first, second, claims[first].ns)
    ensures Key(claims[first].ns, Object(item)) in StateAfter(claims, c, moves, 5).children
    ensures Key(claims[first].ns, Object(item)) !in StateAfter(claims, c, moves, 6).children
    ensures !OneWorker(StateAfter(claims, c, moves, 2), moves[2])
    ensures forall i :: 0 <= i < 6 && i != 2 ==> !moves[i].Begin?
  {
    moves := [Vanish(claims[first].ns), Deliver(|c.past|), Begin(second, "v", ""), Commit(second, Fine),
              Act(second, Op.Upsert(Object(item), "x"), Fine), Act(first, Remove(Object(item)), Fine)];
    LeakingRun(claims, c, first, second, item, moves);
  }
}
