/** Every run of serialised requests through defaulting, the CRD rules and the
    validating webhook. */
module AdmissionRuns {
  import opened Common
  import opened Namespaces
  import opened Projections
  import opened Admission

  // ---------------------------------------------------------------- authorisation

  /** The cluster authorizer's answer about cluster-wide access. */
  datatype Access = Allowed | Denied | Unanswered

  datatype Caller = Caller(name: string, groups: seq<string>)

  const PRIVILEGED_GROUPS := ["system:masters", "kubeadm:cluster-admins"]

  predicate InPrivilegedGroup(c: Caller) {
    exists i :: 0 <= i < |c.groups| && c.groups[i] in PRIVILEGED_GROUPS
  }

  predicate IsWorkspaceAdmin(user: string, members: seq<Member>) {
    exists i :: 0 <= i < |members| && members[i].subject == user && members[i].role == Admin
  }

  /** The one check behind creation and modification; what differs is whose member
      list it is given. */
  predicate Authorized(c: Caller, access: Access, members: seq<Member>) {
    InPrivilegedGroup(c) || IsWorkspaceAdmin(c.name, members) || access == Allowed
  }

  // ---------------------------------------------------------------- the store

  /** One stored version: its members, and the request that wrote it. */
  datatype Version = Version(members: seq<Member>, writer: Caller, access: Access)

  datatype Workspace = Workspace(
    uid: nat, ns: string, members: seq<Member>, labels: map<string, string>, history: seq<Version>)

  type Store = map<string, Workspace>

  datatype Request =
    | Create(name: string, uid: nat, ns: string, members: seq<Member>, labels: map<string, string>)
    | Update(name: string, ns: string, members: seq<Member>, labels: map<string, string>)
    | Delete(name: string)

  /** A request, who makes it, the namespaces the cluster holds at that moment, and
      what the bounded name search would come back with. */
  datatype Call = Call(
    req: Request, caller: Caller, access: Access,
    namespaces: map<string, Namespace>, generated: Option<string>)

  /** The search hands out usable names no namespace holds (see `Admission`). */
  predicate SearchSound(c: Call) {
    c.generated.Some? ==> UsableNamespace(c.generated.value) && c.generated.value !in c.namespaces
  }

  predicate HasAdmin(members: seq<Member>) {
    exists i :: 0 <= i < |members| && members[i].role == Admin
  }

  /** The CRD rules on spec.namespace and spec.members. */
  predicate CrdAccepts(ns: string, members: seq<Member>) {
    && |ns| <= 63 && MatchesPattern(ns) && ns !in RESERVED
    && HasAdmin(members)
    && forall i :: 0 <= i < |members| ==> 1 <= |members[i].subject| <= 253
  }

  predicate Unique(store: Store, name: string, ns: string) {
    forall other :: other in store && store[other].ns == ns ==> other == name
  }

  /** spec.namespace after defaulting. */
  function DefaultedNs(c: Call): Option<string>
    requires !c.req.Delete?
  {
    if c.req.ns == "" then c.generated else Some(c.req.ns)
  }

  function Stored(namespaces: map<string, Namespace>, ns: string): Option<Namespace> {
    if ns in namespaces then Some(namespaces[ns]) else None
  }

  predicate Admits(store: Store, c: Call) {
    match c.req
    case Create(name, uid, _, members, labels) =>
      && name !in store && |name| <= 63
      && DefaultedNs(c).Some?
      && var ns := DefaultedNs(c).value;
      && CrdAccepts(ns, members)
      && Unique(store, name, ns)
      && CheckAvailable(Stored(c.namespaces, ns), Claim(uid, name, ns)).Available?
      && Authorized(c.caller, c.access, members)
    case Update(name, _, members, labels) =>
      && name in store
      && DefaultedNs(c).Some?
      && CrdAccepts(DefaultedNs(c).value, members)
      && DefaultedNs(c).value == store[name].ns
      && Authorized(c.caller, c.access, store[name].members)
    case Delete(name) =>
      && name in store
      && Authorized(c.caller, c.access, store[name].members)
  }

  function Serve(store: Store, c: Call): Store {
    if !Admits(store, c) then store
    else
      match c.req
      case Create(name, uid, _, members, labels) =>
        var ns := DefaultedNs(c).value;
        store[name := Workspace(uid, ns, members, DefaultedLabels(labels, members, ns),
                                [Version(members, c.caller, c.access)])]
      case Update(name, _, members, labels) =>
        var old_ := store[name];
        store[name := old_.(members := members,
                            labels := DefaultedLabels(labels, members, old_.ns),
                            history := old_.history + [Version(members, c.caller, c.access)])]
      case Delete(name) => store - {name}
  }

  function Exec(store: Store, calls: seq<Call>): Store
    decreases |calls|
  {
    if calls == [] then store else Exec(Serve(store, calls[0]), calls[1..])
  }

  // ---------------------------------------------------------------- what each request does

  /** Who may write, read off the member entries and the groups themselves. */
  ghost predicate Entitled(c: Call, members: seq<Member>) {
    || (exists m :: m in members && m.subject == c.caller.name && m.role == Admin)
    || "system:masters" in c.caller.groups || "kubeadm:cluster-admins" in c.caller.groups
    || c.access == Allowed
  }

  lemma EntitledIsAuthorized(c: Call, members: seq<Member>)
    ensures Entitled(c, members) <==> Authorized(c.caller, c.access, members)
  {
    if IsWorkspaceAdmin(c.caller.name, members) {
      var i :| 0 <= i < |members| && members[i].subject == c.caller.name && members[i].role == Admin;
      assert members[i] in members;
    }
    if InPrivilegedGroup(c.caller) {
      var i :| 0 <= i < |c.caller.groups| && c.caller.groups[i] in PRIVILEGED_GROUPS;
      assert c.caller.groups[i] in c.caller.groups;
      assert c.caller.groups[i] == PRIVILEGED_GROUPS[0] || c.caller.groups[i] == PRIVILEGED_GROUPS[1];
    }
    assert PRIVILEGED_GROUPS[0] in PRIVILEGED_GROUPS && PRIVILEGED_GROUPS[1] in PRIVILEGED_GROUPS;
  }

  /** A spec the API server takes, written out. */
  ghost predicate Valid(ns: string, members: seq<Member>) {
    && |ns| <= 63 && MatchesPattern(ns)
    && ns != "default" && ns != "kube-system" && ns != "kube-public" && ns != "kube-node-lease"
    && ns != "otterscale-system"
    && (exists m :: m in members && m.role == Admin)
    && (forall m :: m in members ==> m.subject != "" && |m.subject| <= 253)
  }

  lemma ValidIsAccepted(ns: string, members: seq<Member>)
    ensures Valid(ns, members) <==> CrdAccepts(ns, members)
  {
    if HasAdmin(members) {
      var i :| 0 <= i < |members| && members[i].role == Admin;
      assert members[i] in members;
    }
    assert forall i :: 0 <= i < |members| ==> members[i] in members;
  }

  /** The API server gives every new object a UID nothing refers to yet. */
  predicate FreshUid(c: Call) {
    c.req.Create? && forall n :: n in c.namespaces ==> !IsOwned(c.namespaces[n].owners, c.req.uid)
  }

  /** A create goes through exactly when the name is new and short enough, the namespace
      asked for or found is valid and claimed by no other workspace, the caller is
      entitled by the new object, and the namespace does not exist or is one that is not
      going away and that reconcile will take for this workspace. */
  lemma CreateExactly(store: Store, c: Call, version: string, rancher: string)
    requires FreshUid(c)
    ensures var ns := if c.req.ns != "" then Some(c.req.ns) else c.generated;
            (c.req.name !in store && c.req.name in Serve(store, c)) <==>
              && c.req.name !in store && |c.req.name| <= 63
              && ns.Some? && Valid(ns.value, c.req.members) && Entitled(c, c.req.members)
              && (forall other :: other in store ==> store[other].ns != ns.value)
              && (ns.value in c.namespaces ==>
                    && !c.namespaces[ns.value].terminating
                    && Mutate(Some(c.namespaces[ns.value]), Claim(c.req.uid, c.req.name, ns.value),
                              version, rancher).Mutated?)
  {
    var ns := if c.req.ns != "" then Some(c.req.ns) else c.generated;
    EntitledIsAuthorized(c, c.req.members);
    if ns.Some? {
      ValidIsAccepted(ns.value, c.req.members);
      if ns.value in c.namespaces {
        var claim := Claim(c.req.uid, c.req.name, ns.value);
        AdmissionAgreesWithReconcile(c.namespaces[ns.value], claim, version, rancher);
      }
    }
  }

  /** What a create stores, and that it changes nothing else. */
  lemma CreateStores(store: Store, c: Call)
    requires c.req.Create?
    ensures var after := Serve(store, c);
            && (c.req.name in store ==> after == store)
            && (forall n :: n != c.req.name ==> (n in after <==> n in store) && (n in store ==> after[n] == store[n]))
            && (c.req.name !in store && c.req.name in after ==>
                  var w := after[c.req.name];
                  && w.uid == c.req.uid && w.members == c.req.members && Indexed(w.labels, w.members, w.ns)
                  && (if c.req.ns != "" then w.ns == c.req.ns else c.generated == Some(w.ns)))
  {
    if Admits(store, c) {
      DefaultingIndexes(c.req.labels, c.req.members, DefaultedNs(c).value);
    }
  }

  /** An update goes through exactly when the new members are valid, the namespace is the
      old one and the caller is entitled by the OLD object; it replaces members and
      labels and changes nothing else. */
  lemma UpdateExactly(store: Store, c: Call)
    requires c.req.Update? && c.req.name in store
    ensures var old_, after := store[c.req.name], Serve(store, c);
            var ns := if c.req.ns != "" then Some(c.req.ns) else c.generated;
            if ns == Some(old_.ns) && Valid(old_.ns, c.req.members) && Entitled(c, old_.members) then
              && c.req.name in after && after == store[c.req.name := after[c.req.name]]
              && var w := after[c.req.name];
                 && w.uid == old_.uid && w.ns == old_.ns && w.members == c.req.members
                 && Indexed(w.labels, w.members, w.ns)
            else
              after == store
  {
    EntitledIsAuthorized(c, store[c.req.name].members);
    ValidIsAccepted(store[c.req.name].ns, c.req.members);
    DefaultingIndexes(c.req.labels, c.req.members, store[c.req.name].ns);
  }

  /** A delete removes exactly this workspace, exactly for callers entitled by it. */
  lemma DeleteExactly(store: Store, c: Call)
    requires c.req.Delete? && c.req.name in store
    ensures Serve(store, c) == if Entitled(c, store[c.req.name].members) then store - {c.req.name} else store
  {
    EntitledIsAuthorized(c, store[c.req.name].members);
  }

  // ---------------------------------------------------------------- what every run keeps

  /** Each version was written by someone who was privileged, cluster-wide, or an
      admin in the version just before it (in itself, for the first). */
  ghost predicate ChainOfAuthority(w: Workspace) {
    && w.history != []
    && w.history[|w.history| - 1].members == w.members
    && Authorized(w.history[0].writer, w.history[0].access, w.history[0].members)
    && forall i :: 0 < i < |w.history| ==>
         Authorized(w.history[i].writer, w.history[i].access, w.history[i - 1].members)
  }

  ghost predicate Sound(w: Workspace) {
    && w.ns != ""
    && CrdAccepts(w.ns, w.members)
    && Indexed(w.labels, w.members, w.ns)
    && ChainOfAuthority(w)
  }

  ghost predicate Inv(store: Store) {
    && (forall n :: n in store ==> Sound(store[n]))
    && (forall m, n :: m in store && n in store && store[m].ns == store[n].ns ==> m == n)
  }

  lemma FirstVersionIsSound(uid: nat, ns: string, members: seq<Member>, labels: map<string, string>, c: Call)
    requires ns != "" && CrdAccepts(ns, members) && Authorized(c.caller, c.access, members)
    ensures Sound(Workspace(uid, ns, members, DefaultedLabels(labels, members, ns),
                            [Version(members, c.caller, c.access)]))
  {
    DefaultingIndexes(labels, members, ns);
  }

  lemma NextVersionIsSound(w: Workspace, members: seq<Member>, labels: map<string, string>, c: Call)
    requires Sound(w) && CrdAccepts(w.ns, members) && Authorized(c.caller, c.access, w.members)
    ensures Sound(w.(members := members, labels := DefaultedLabels(labels, members, w.ns),
                     history := w.history + [Version(members, c.caller, c.access)]))
  {
    DefaultingIndexes(labels, members, w.ns);
  }

  lemma PutKeepsInv(store: Store, name: string, w: Workspace)
    requires Inv(store) && Sound(w) && Unique(store, name, w.ns)
    ensures Inv(store[name := w])
  {
  }

  lemma ServeKeepsInv(store: Store, c: Call)
    requires Inv(store) && SearchSound(c)
    ensures Inv(Serve(store, c))
  {
    if Admits(store, c) {
      var after := Serve(store, c);
      match c.req
      case Create(name, uid, _, members, labels) =>
        FirstVersionIsSound(uid, DefaultedNs(c).value, members, labels, c);
        PutKeepsInv(store, name, after[name]);
        assert after == store[name := after[name]];
      case Update(name, _, members, labels) =>
        NextVersionIsSound(store[name], members, labels, c);
        PutKeepsInv(store, name, after[name]);
        assert after == store[name := after[name]];
      case Delete(name) =>
    }
  }

  lemma ServeKeepsNames(store: Store, c: Call, name: string)
    requires name in store && c.req != Delete(name)
    ensures name in Serve(store, c)
    ensures Serve(store, c)[name].ns == store[name].ns && Serve(store, c)[name].uid == store[name].uid
  {
  }

  /** Over every run: namespaces are non-empty, unreserved, well-formed and pairwise
      distinct, each workspace has an admin, its label index matches its members, and
      every version was written by someone entitled to. */
  lemma {:induction false} AlwaysInv(store: Store, calls: seq<Call>)
    requires Inv(store) && forall i :: 0 <= i < |calls| ==> SearchSound(calls[i])
    ensures Inv(Exec(store, calls))
    ensures forall n :: n in Exec(store, calls) ==>
              Exec(store, calls)[n].ns != "" && Valid(Exec(store, calls)[n].ns, Exec(store, calls)[n].members)
    decreases |calls|
  {
    forall n | n in store && Sound(store[n]) ensures Valid(store[n].ns, store[n].members) {
      ValidIsAccepted(store[n].ns, store[n].members);
    }
    if calls != [] {
      ServeKeepsInv(store, calls[0]);
      AlwaysInv(Serve(store, calls[0]), calls[1..]);
    }
  }

  /** A workspace that is not deleted keeps its namespace (and its UID) for good. */
  lemma {:induction false} NamespaceNeverChanges(store: Store, calls: seq<Call>, name: string)
    requires name in store && forall i :: 0 <= i < |calls| ==> calls[i].req != Delete(name)
    ensures name in Exec(store, calls)
    ensures Exec(store, calls)[name].ns == store[name].ns && Exec(store, calls)[name].uid == store[name].uid
    decreases |calls|
  {
    if calls != [] {
      ServeKeepsNames(store, calls[0], name);
      NamespaceNeverChanges(Serve(store, calls[0]), calls[1..], name);
    }
  }

  /** Someone with no standing towards this workspace as it is. */
  predicate Outsider(c: Call, members: seq<Member>) {
    !InPrivilegedGroup(c.caller) && !IsWorkspaceAdmin(c.caller.name, members) && c.access != Allowed
  }

  /** No number of requests by outsiders, in any combination, changes a workspace:
      nobody can grant themselves admin and go on from there. */
  lemma {:induction false} OutsidersChangeNothing(store: Store, calls: seq<Call>, name: string)
    requires name in store
    requires forall i :: 0 <= i < |calls| && calls[i].req.name == name ==> Outsider(calls[i], store[name].members)
    ensures name in Exec(store, calls) && Exec(store, calls)[name] == store[name]
    decreases |calls|
  {
    if calls != [] {
      assert Serve(store, calls[0])[name] == store[name];
      OutsidersChangeNothing(Serve(store, calls[0]), calls[1..], name);
    }
  }

  /** The operator's own label backfill is an ordinary update to this webhook: it goes
      through exactly when the operator's identity has standing of its own. */
  lemma BackfillNeedsStanding(store: Store, name: string, c: Call)
    requires name in store && CrdAccepts(store[name].ns, store[name].members) && store[name].ns != ""
    requires c.req == Update(name, store[name].ns, store[name].members,
                             store[name].labels[NAMESPACE_LABEL := store[name].ns])
    ensures Serve(store, c) == store <==> Outsider(c, store[name].members)
  {
    if Admits(store, c) {
      assert |Serve(store, c)[name].history| == |store[name].history| + 1;
    }
  }
}
