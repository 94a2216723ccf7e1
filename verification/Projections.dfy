/** The member list compiled twice: into RBAC RoleBindings and into a Harbor
    membership list, and what the two say about each other. */
module Projections {
  import opened Common
  import opened MemberSync
  import opened Namespaces

  datatype Role = Admin | Edit | View

  datatype Member = Member(role: Role, subject: string, serviceAccount: bool)

  const ALL_ROLES := [Admin, Edit, View]

  function RoleName(r: Role): string {
    match r case Admin => "admin" case Edit => "edit" case View => "view"
  }

  function HarborRoleId(r: Role): int {
    match r case Admin => 1 case Edit => 2 case View => 3
  }

  /** What a Harbor project role lets its holder do. */
  datatype Right = Pull | Push | Manage

  /** Harbor's own role IDs: project admin, developer and guest. */
  function RightsOf(id: int): set<Right> {
    if id == 1 then {Pull, Push, Manage} else if id == 2 then {Pull, Push} else if id == 3 then {Pull} else {}
  }

  /** Everybody may pull, whoever may edit may push, and only admins manage the project;
      and no two roles share an ID. */
  lemma RolesMeanTheSame(r: Role, other: Role)
    ensures Pull in RightsOf(HarborRoleId(r))
    ensures Push in RightsOf(HarborRoleId(r)) <==> RoleName(r) == "admin" || RoleName(r) == "edit"
    ensures Manage in RightsOf(HarborRoleId(r)) <==> RoleName(r) == "admin"
    ensures HarborRoleId(r) == HarborRoleId(other) ==> r == other
  {
    assert "admin"[0] == 'a' && "edit"[0] == 'e' && "view"[0] == 'v';
  }

  /** Service accounts have no Harbor identity. */
  function HarborMembers(members: seq<Member>): seq<Wanted> {
    if members == [] then []
    else
      var m := members[|members| - 1];
      HarborMembers(members[..|members| - 1]) +
      if m.serviceAccount then [] else [Wanted(m.subject, HarborRoleId(m.role))]
  }

  /** The subjects of one role, in list order, repeats included. */
  function SubjectsOf(members: seq<Member>, role: Role): seq<string> {
    if members == [] then []
    else
      var m := members[|members| - 1];
      SubjectsOf(members[..|members| - 1], role) + if m.role == role then [m.subject] else []
  }

  method BuildHarborMembers(members: seq<Member>) returns (wanted: seq<Wanted>)
    ensures wanted == HarborMembers(members)
  {
    wanted := [];
    for i := 0 to |members|
      invariant wanted == HarborMembers(members[..i])
    {
      assert members[..i + 1][..i] == members[..i];
      if members[i].serviceAccount {
        continue;
      }
      wanted := wanted + [Wanted(members[i].subject, HarborRoleId(members[i].role))];
    }
    assert members[..|members|] == members;
  }

  method GroupByRole(members: seq<Member>) returns (membersByRole: map<Role, seq<Member>>)
    ensures forall role :: SubjectList(Grouped(membersByRole, role)) == SubjectsOf(members, role)
  {
    membersByRole := map[];
    for i := 0 to |members|
      invariant forall role :: SubjectList(Grouped(membersByRole, role)) == SubjectsOf(members[..i], role)
    {
      var m := members[i];
      assert members[..i + 1][..i] == members[..i];
      SubjectListGrows(Grouped(membersByRole, m.role), m);
      membersByRole := membersByRole[m.role := Grouped(membersByRole, m.role) + [m]];
    }
    assert members[..|members|] == members;
  }

  // ---------------------------------------------------------------- RoleBindings

  datatype Binding = Binding(controller: Option<OwnerRef>, role: Role, subjects: seq<string>)

  function BindingName(role: Role): string {
    "workspace-role-binding-" + RoleName(role)
  }

  predicate IsRoleBinding(name: string) {
    name == BindingName(Admin) || name == BindingName(Edit) || name == BindingName(View)
  }

  lemma BindingNamesDiffer(a: Role, b: Role)
    requires a != b
    ensures BindingName(a) != BindingName(b)
  {
    if |RoleName(a)| == |RoleName(b)| {
      assert BindingName(a)[23] == RoleName(a)[0] && BindingName(b)[23] == RoleName(b)[0];
    } else {
      assert |BindingName(a)| != |BindingName(b)|;
    }
  }

  /** The binding one role should have: none when nobody holds the role. */
  function BindingFor(w: Claim, role: Role, subjects: seq<string>): Option<Binding> {
    if subjects == [] then None else Some(Binding(Some(RefTo(w)), role, subjects))
  }

  function With(bindings: map<string, Binding>, role: Role, b: Option<Binding>): map<string, Binding> {
    match b
    case Some(binding) => bindings[BindingName(role) := binding]
    case None => bindings - {BindingName(role)}
  }

  /** A binding `SetControllerReference` will not take over. */
  predicate Occupied(b: Option<Binding>, w: Claim) {
    b.Some? && Foreign(b.value.controller, w)
  }

  function BindingAt(bindings: map<string, Binding>, role: Role): Option<Binding> {
    if BindingName(role) in bindings then Some(bindings[BindingName(role)]) else None
  }

  function SubjectList(members: seq<Member>): seq<string> {
    seq(|members|, i requires 0 <= i < |members| => members[i].subject)
  }

  lemma SubjectListGrows(members: seq<Member>, m: Member)
    ensures SubjectList(members + [m]) == SubjectList(members) + [m.subject]
  {
  }

  /** A Go map read: an absent role reads as no members. */
  function Grouped(membersByRole: map<Role, seq<Member>>, role: Role): seq<Member> {
    if role in membersByRole then membersByRole[role] else []
  }

  predicate Bound(bindings: map<string, Binding>, role: Role, user: string) {
    BindingAt(bindings, role).Some? && user in BindingAt(bindings, role).value.subjects
  }

  /** Some of the operator's bindings gives the user the ClusterRole of that name. */
  ghost predicate Grants(bindings: map<string, Binding>, role: Role, user: string) {
    exists k :: IsRoleBinding(k) && k in bindings && bindings[k].role == role && user in bindings[k].subjects
  }

  /** A user holds a ClusterRole exactly when some member entry says so, and every
      binding that grants one is controlled by this workspace. */
  ghost predicate GrantsExactly(bindings: map<string, Binding>, w: Claim, members: seq<Member>) {
    && (forall role, user :: Grants(bindings, role, user) <==>
          exists m :: m in members && m.subject == user && m.role == role)
    && (forall k :: IsRoleBinding(k) && k in bindings ==>
          bindings[k].controller == Some(OwnerRef(w.uid, WorkspaceKind, w.name, true)))
  }

  /** The RoleBindings of one namespace. */
  class Bindings {
    var bindings: map<string, Binding>
    const faults: seq<Fault>
    var pos: nat

    constructor (bindings: map<string, Binding>, faults: seq<Fault>)
      ensures this.bindings == bindings && this.faults == faults && pos == 0
    {
      this.bindings, this.faults, pos := bindings, faults, 0;
    }

    /** Why a call can end in an error: the last call made did not go through, or the
        process died before the next. */
    ghost predicate Halted(from: nat)
      reads this`pos
    {
      pos >= |faults| || (from < pos && faults[pos - 1] != Fine)
    }

    /** The fault the next call meets; no more faults, no more process. */
    method NextFault() returns (r: Reply<Fault>)
      modifies this`pos
      ensures r.Err? ==> old(pos) >= |faults| && pos == old(pos)
      ensures r.Ok? ==> old(pos) < |faults| && pos == old(pos) + 1 && r.value == faults[old(pos)]
    {
      if pos >= |faults| {
        return Err;
      }
      r := Ok(faults[pos]);
      pos := pos + 1;
    }

    /** Create, update or delete one role's binding.  A binding another controller
        owns is not taken over, but it is deleted when the role has no member. */
    method ReconcileRoleBinding(w: Claim, role: Role, members: seq<Member>) returns (r: Reply<()>)
      modifies this
      ensures var next := With(old(bindings), role, BindingFor(w, role, SubjectList(members)));
              if r.Ok? then bindings == next else bindings == old(bindings) || bindings == next
      ensures members != [] && Occupied(BindingAt(old(bindings), role), w) ==> r.Err? && bindings == old(bindings)
      ensures r.Err? ==> Halted(old(pos)) || (members != [] && Occupied(BindingAt(old(bindings), role), w))
      ensures r.Ok? && members != [] ==>
                var b := BindingAt(bindings, role);
                && b.Some? && b.value.role == role && b.value.subjects == SubjectList(members)
                && b.value.controller == Some(OwnerRef(w.uid, WorkspaceKind, w.name, true))
      ensures old(pos) <= pos
    {
      var name := BindingName(role);
      if members == [] {
        var deleted := NextFault();
        if deleted.Err? {
          return Err;
        }
        if !deleted.value.Before? {
          bindings := bindings - {name};
        }
        return if deleted.value.Fine? then Ok(()) else Err;
      }
      var read := NextFault();
      if read.Err? || !read.value.Fine? {
        return Err;
      }
      var subjects: seq<string> := [];
      for i := 0 to |members|
        invariant subjects == SubjectList(members[..i])
        invariant bindings == old(bindings) && old(pos) < pos
      {
        SubjectListGrows(members[..i], members[i]);
        assert members[..i + 1] == members[..i] + [members[i]];
        subjects := subjects + [members[i].subject];
      }
      assert members[..|members|] == members;
      if Occupied(BindingAt(bindings, role), w) {
        return Err;
      }
      var want := Binding(Some(RefTo(w)), role, subjects);
      if name in bindings && bindings[name] == want {
        assert bindings == bindings[name := want];
        return Ok(());
      }
      var written := NextFault();
      if written.Err? {
        return Err;
      }
      if !written.value.Before? {
        bindings := bindings[name := want];
      }
      return if written.value.Fine? then Ok(()) else Err;
    }

    /** Members grouped by role, then one binding per role: stopped anywhere, the
        first `reached` roles are as wanted and the others as they were. */
    method ReconcileRoleBindings(w: Claim, members: seq<Member>) returns (r: Reply<()>, ghost reached: nat)
      modifies this
      ensures reached <= 3 && (r.Ok? ==> reached == 3)
      ensures bindings == Compiled(old(bindings), w, members, reached)
      ensures r.Ok? ==> GrantsExactly(bindings, w, members)
      ensures r.Err? && !Halted(old(pos)) ==>
                exists role :: SubjectsOf(members, role) != [] && Occupied(BindingAt(old(bindings), role), w)
    {
      var membersByRole := GroupByRole(members);
      for i := 0 to 3
        invariant bindings == Compiled(old(bindings), w, members, i) && old(pos) <= pos
      {
        CompiledSoFar(old(bindings), w, members, i);
        var done := ReconcileRoleBinding(w, ALL_ROLES[i], Grouped(membersByRole, ALL_ROLES[i]));
        if done.Err? {
          return Err, if bindings == Compiled(old(bindings), w, members, i) then i else i + 1;
        }
      }
      CompiledMeans(old(bindings), w, members);
      return Ok(()), 3;
    }
  }

  /** The bindings once the first `n` roles have been compiled. */
  function Compiled(bindings: map<string, Binding>, w: Claim, members: seq<Member>, n: nat): map<string, Binding>
    requires n <= 3
  {
    if n == 0 then bindings
    else
      var role := ALL_ROLES[n - 1];
      With(Compiled(bindings, w, members, n - 1), role, BindingFor(w, role, SubjectsOf(members, role)))
  }

  /** The role whose turn it is still has the binding it had. */
  lemma CompiledSoFar(bindings: map<string, Binding>, w: Claim, members: seq<Member>, n: nat)
    requires n < 3
    ensures BindingAt(Compiled(bindings, w, members, n), ALL_ROLES[n]) == BindingAt(bindings, ALL_ROLES[n])
  {
    BindingNamesDiffer(Admin, Edit);
    BindingNamesDiffer(Admin, View);
    BindingNamesDiffer(Edit, View);
    assert Compiled(bindings, w, members, 0) == bindings;
    if n == 2 {
      assert Compiled(bindings, w, members, 1) ==
             With(bindings, Admin, BindingFor(w, Admin, SubjectsOf(members, Admin)));
    }
  }

  /** Each role's own binding, and nobody else's touched. */
  lemma CompiledBindings(bindings: map<string, Binding>, w: Claim, members: seq<Member>)
    ensures var after := Compiled(bindings, w, members, 3);
            && (forall role :: BindingAt(after, role) == BindingFor(w, role, SubjectsOf(members, role)))
            && (forall k :: !IsRoleBinding(k) ==> (k in after <==> k in bindings))
            && (forall k :: !IsRoleBinding(k) && k in after ==> after[k] == bindings[k])
  {
    BindingNamesDiffer(Admin, Edit);
    BindingNamesDiffer(Admin, View);
    BindingNamesDiffer(Edit, View);
    assert Compiled(bindings, w, members, 0) == bindings;
    var one := Compiled(bindings, w, members, 1);
    var two := Compiled(bindings, w, members, 2);
    var after := Compiled(bindings, w, members, 3);
    forall role ensures BindingAt(after, role) == BindingFor(w, role, SubjectsOf(members, role)) {
      match role
      case Admin => assert BindingAt(one, Admin) == BindingAt(two, Admin) == BindingAt(after, Admin);
      case Edit => assert BindingAt(two, Edit) == BindingAt(after, Edit);
      case View =>
    }
    forall k | !IsRoleBinding(k)
      ensures (k in after <==> k in bindings) && (k in after ==> after[k] == bindings[k])
    {
      assert k in one <==> k in bindings;
      assert k in two <==> k in one;
    }
  }

  lemma MentionedInEntries(members: seq<Member>, role: Role, user: string)
    ensures user in SubjectsOf(members, role) <==> exists m :: m in members && m.subject == user && m.role == role
  {
    SubjectsAreMentions(members, role, user);
    if m :| m in members && m.subject == user && m.role == role {
      var i :| 0 <= i < |members| && members[i] == m;
      assert Mentioned(members, i, user);
    }
  }

  /** What compilation leaves: the ClusterRoles the member entries say, through bindings
      of this workspace, and nobody else's bindings touched. */
  lemma CompiledMeans(bindings: map<string, Binding>, w: Claim, members: seq<Member>)
    ensures var after := Compiled(bindings, w, members, 3);
            && GrantsExactly(after, w, members)
            && (forall role, user :: Bound(after, role, user) <==> user in SubjectsOf(members, role))
            && (forall k :: !IsRoleBinding(k) ==> (k in after <==> k in bindings))
            && (forall k :: !IsRoleBinding(k) && k in after ==> after[k] == bindings[k])
  {
    CompiledBindings(bindings, w, members);
    var after := Compiled(bindings, w, members, 3);
    forall role, user
      ensures Grants(after, role, user) <==> exists m :: m in members && m.subject == user && m.role == role
    {
      MentionedInEntries(members, role, user);
      assert BindingAt(after, role) == BindingFor(w, role, SubjectsOf(members, role));
      if user in SubjectsOf(members, role) {
        assert IsRoleBinding(BindingName(role)) && BindingName(role) in after;
      }
      forall k | IsRoleBinding(k) && k in after && after[k].role == role ensures k == BindingName(role) {
        var own := if k == BindingName(Admin) then Admin else if k == BindingName(Edit) then Edit else View;
        assert BindingAt(after, own) == BindingFor(w, own, SubjectsOf(members, own));
      }
    }
    forall k | IsRoleBinding(k) && k in after
      ensures after[k].controller == Some(OwnerRef(w.uid, WorkspaceKind, w.name, true))
    {
      var own := if k == BindingName(Admin) then Admin else if k == BindingName(Edit) then Edit else View;
      assert BindingAt(after, own) == BindingFor(w, own, SubjectsOf(members, own));
    }
  }

  // ---------------------------------------------------------------- the two projections

  predicate Mentioned(members: seq<Member>, i: nat, user: string) {
    i < |members| && members[i].subject == user
  }

  predicate HumanMention(members: seq<Member>, i: nat, user: string) {
    Mentioned(members, i, user) && !members[i].serviceAccount
  }

  ghost predicate FirstHumanMention(members: seq<Member>, i: nat, user: string) {
    HumanMention(members, i, user) && forall j: nat :: j < i ==> !HumanMention(members, j, user)
  }

  /** RBAC binds a user to the union of the roles they are listed with. */
  lemma {:induction false} SubjectsAreMentions(members: seq<Member>, role: Role, user: string)
    ensures user in SubjectsOf(members, role) <==>
            exists i: nat :: Mentioned(members, i, user) && members[i].role == role
  {
    if members != [] {
      var n := |members| - 1;
      var init := members[..n];
      SubjectsAreMentions(init, role, user);
      assert forall i: nat :: i < n ==> (Mentioned(init, i, user) <==> Mentioned(members, i, user));
      if user in SubjectsOf(init, role) {
        var i: nat :| Mentioned(init, i, user) && init[i].role == role;
        assert Mentioned(members, i, user);
      } else if members[n].role == role && members[n].subject == user {
        assert Mentioned(members, n, user);
      }
    }
  }

  ghost predicate Human(members: seq<Member>, user: string) {
    exists i: nat :: HumanMention(members, i, user)
  }

  lemma HumanGrows(init: seq<Member>, m: Member, user: string)
    ensures Human(init + [m], user) <==> Human(init, user) || (m.subject == user && !m.serviceAccount)
    ensures forall i: nat :: FirstHumanMention(init + [m], i, user) <==>
              if i < |init| then FirstHumanMention(init, i, user)
              else i == |init| && !Human(init, user) && m.subject == user && !m.serviceAccount
  {
    var all := init + [m];
    assert forall i: nat :: i < |init| ==> (HumanMention(init, i, user) <==> HumanMention(all, i, user));
    assert HumanMention(all, |init|, user) <==> m.subject == user && !m.serviceAccount;
    if i: nat :| HumanMention(init, i, user) {
      assert HumanMention(all, i, user);
    }
  }

  /** Harbor gives a user it knows the role of their first non-service-account entry. */
  lemma {:induction false} HarborTakesTheFirst(members: seq<Member>, users: set<string>, user: string)
    requires user in users
    ensures var target := Target(HarborMembers(members), users);
            && (user in target <==> Human(members, user))
            && (forall i: nat :: FirstHumanMention(members, i, user) ==> target[user] == HarborRoleId(members[i].role))
  {
    if members != [] {
      var n := |members| - 1;
      var init, m := members[..n], members[n];
      assert members == init + [m];
      HarborTakesTheFirst(init, users, user);
      HumanGrows(init, m, user);
      if m.serviceAccount {
        assert HarborMembers(members) == HarborMembers(init);
      } else {
        TargetGrows(HarborMembers(init), Wanted(m.subject, HarborRoleId(m.role)), users);
      }
    }
  }

  /** Harbor and RBAC say the same about a user: in Harbor with a role ID exactly
      when RBAC binds them to the role mapping to it. */
  ghost predicate Agree(members: seq<Member>, users: set<string>, user: string) {
    forall role :: user in SubjectsOf(members, role) <==>
      user in Target(HarborMembers(members), users) && Target(HarborMembers(members), users)[user] == HarborRoleId(role)
  }

  ghost predicate OneRole(members: seq<Member>, user: string) {
    forall i: nat, j: nat :: Mentioned(members, i, user) && Mentioned(members, j, user) ==>
      members[i].role == members[j].role
  }

  lemma FirstHuman(members: seq<Member>, user: string, i: nat) returns (first: nat)
    requires HumanMention(members, i, user)
    ensures FirstHumanMention(members, first, user)
    decreases i
  {
    if j: nat :| j < i && HumanMention(members, j, user) {
      first := FirstHuman(members, user, j);
    } else {
      first := i;
    }
  }

  lemma OneRoleAgrees(members: seq<Member>, users: set<string>, user: string)
    requires user in users && OneRole(members, user)
    requires (exists i: nat :: Mentioned(members, i, user)) ==> Human(members, user)
    ensures Agree(members, users, user)
  {
    HarborTakesTheFirst(members, users, user);
    forall role ensures user in SubjectsOf(members, role) <==>
                        user in Target(HarborMembers(members), users) &&
                        Target(HarborMembers(members), users)[user] == HarborRoleId(role)
    {
      SubjectsAreMentions(members, role, user);
      if Human(members, user) {
        var i: nat :| HumanMention(members, i, user);
        var first := FirstHuman(members, user, i);
        assert Mentioned(members, first, user);
        if role == members[first].role {
          assert Mentioned(members, first, user) && members[first].role == role;
        }
      }
    }
  }

  lemma AgreeingMeansOneRole(members: seq<Member>, users: set<string>, user: string)
    requires user in users && Agree(members, users, user)
    ensures OneRole(members, user)
    ensures (exists i: nat :: Mentioned(members, i, user)) ==> Human(members, user)
  {
    HarborTakesTheFirst(members, users, user);
    forall i: nat | Mentioned(members, i, user)
      ensures Human(members, user) && Target(HarborMembers(members), users)[user] == HarborRoleId(members[i].role)
    {
      SubjectsAreMentions(members, members[i].role, user);
      assert user in SubjectsOf(members, members[i].role);
    }
  }

  /** For a user Harbor knows, the two projections agree exactly when every entry of
      the user carries the same role and, if there is one, some entry is not a
      service account.  Lists with distinct subjects and no service account entry for
      the user therefore always agree. */
  lemma ProjectionsAgreeExactly(members: seq<Member>, users: set<string>, user: string)
    requires user in users
    ensures Agree(members, users, user) <==>
            OneRole(members, user) && ((exists i: nat :: Mentioned(members, i, user)) ==> Human(members, user))
  {
    if Agree(members, users, user) {
      AgreeingMeansOneRole(members, users, user);
    }
    if OneRole(members, user) && ((exists i: nat :: Mentioned(members, i, user)) ==> Human(members, user)) {
      OneRoleAgrees(members, users, user);
    }
  }
}
