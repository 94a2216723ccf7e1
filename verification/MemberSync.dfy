/** `ReconcileProjectMembers`: the desired list against Harbor's member table.

    Every call may fail before or after taking effect, and the process may die
    between any two calls (the fault tape runs out).  Since a call that fails before
    its effect leaves exactly what the previous call left, the state in which the
    method can return an error ranges over every intermediate state. */
module MemberSync {
  import opened Common

  datatype Wanted = Wanted(user: string, role: int)

  /** A member as Harbor stores it: addressed by `id`. */
  datatype Entry = Entry(id: nat, role: int)

  datatype Listed = Listed(user: string, id: nat, role: int)

  type Table = map<string, Entry>

  // ---------------------------------------------------------------- what is wanted

  function Names(wanted: seq<Wanted>): set<string> {
    set i | 0 <= i < |wanted| :: wanted[i].user
  }

  /** The membership the list describes: the users Harbor has, first mention wins. */
  function Target(wanted: seq<Wanted>, users: set<string>): map<string, int> {
    if wanted == [] then map[]
    else
      var t, d := Target(wanted[..|wanted| - 1], users), wanted[|wanted| - 1];
      if d.user in users && d.user !in t then t[d.user := d.role] else t
  }

  /** Mentions of users Harbor does not have, in order. */
  function Missing(wanted: seq<Wanted>, users: set<string>): seq<string> {
    if wanted == [] then []
    else
      var d := wanted[|wanted| - 1];
      Missing(wanted[..|wanted| - 1], users) + if d.user in users then [] else [d.user]
  }

  /** How many of the first `i` mentions are of users Harbor does not have. */
  function MissingBefore(wanted: seq<Wanted>, users: set<string>, i: nat): nat
    requires i <= |wanted|
  {
    |Missing(wanted[..i], users)|
  }

  /** Every unprovisioned mention is reported, at the place its order gives it: later
      mentions come strictly after it. */
  lemma {:induction false} MissingHolds(wanted: seq<Wanted>, users: set<string>, i: nat, j: nat)
    requires i < j <= |wanted|
    ensures MissingBefore(wanted, users, i) + (if wanted[i].user in users then 0 else 1) <= MissingBefore(wanted, users, j)
    ensures wanted[i].user !in users ==>
              Missing(wanted[..j], users)[MissingBefore(wanted, users, i)] == wanted[i].user
    decreases j
  {
    assert wanted[..j][..j - 1] == wanted[..j - 1];
    if i < j - 1 {
      MissingHolds(wanted, users, i, j - 1);
    }
  }

  /** And nothing else is reported: the k-th report is an unprovisioned mention with k
      of them before it. */
  lemma {:induction false} MissingOnly(wanted: seq<Wanted>, users: set<string>, k: nat) returns (i: nat)
    requires k < |Missing(wanted, users)|
    ensures i < |wanted| && wanted[i].user !in users && MissingBefore(wanted, users, i) == k
    ensures Missing(wanted, users)[k] == wanted[i].user
  {
    var n := |wanted| - 1;
    if k < |Missing(wanted[..n], users)| {
      i := MissingOnly(wanted[..n], users, k);
      assert wanted[..n][..i] == wanted[..i];
    } else {
      i := n;
    }
  }

  predicate FirstMention(wanted: seq<Wanted>, i: nat) {
    i < |wanted| && wanted[i].user !in Names(wanted[..i])
  }

  /** `Target` is what its name says: exactly the mentioned users Harbor has, each in
      the role of the first mention. */
  lemma {:induction false} TargetMeans(wanted: seq<Wanted>, users: set<string>)
    ensures Target(wanted, users).Keys == Names(wanted) * users
    ensures forall i: nat :: FirstMention(wanted, i) && wanted[i].user in users ==>
              Target(wanted, users)[wanted[i].user] == wanted[i].role
  {
    if wanted != [] {
      var n := |wanted| - 1;
      TargetMeans(wanted[..n], users);
      assert wanted == wanted[..n] + [wanted[n]];
      assert Names(wanted) == Names(wanted[..n]) + {wanted[n].user};
      forall i: nat | FirstMention(wanted, i) && wanted[i].user in users
        ensures Target(wanted, users)[wanted[i].user] == wanted[i].role
      {
        if i < n {
          assert wanted[..n][..i] == wanted[..i];
          assert FirstMention(wanted[..n], i);
        }
      }
    }
  }

  lemma TargetGrows(wanted: seq<Wanted>, d: Wanted, users: set<string>)
    ensures Target(wanted + [d], users) ==
            var t := Target(wanted, users); if d.user in users && d.user !in t then t[d.user := d.role] else t
  {
    assert (wanted + [d])[..|wanted|] == wanted;
  }

  lemma {:induction false} TargetOfPrefix(wanted: seq<Wanted>, users: set<string>, i: nat)
    requires i <= |wanted|
    ensures forall u :: u in Target(wanted[..i], users) ==>
              u in Target(wanted, users) && Target(wanted, users)[u] == Target(wanted[..i], users)[u]
    decreases |wanted|
  {
    if i == |wanted| {
      assert wanted[..i] == wanted;
    } else {
      var n := |wanted| - 1;
      assert wanted[..n][..i] == wanted[..i];
      TargetOfPrefix(wanted[..n], users, i);
    }
  }

  // ---------------------------------------------------------------- safety

  /** What any intermediate membership may look like. */
  ghost predicate Safe(before: map<string, int>, target: map<string, int>, now: map<string, int>) {
    // nobody else gets in, and every role is the old one or the wanted one
    && (forall u :: u in now ==> (u in before && now[u] == before[u]) || (u in target && now[u] == target[u]))
    // a wanted existing member is never absent
    && (forall u :: u in before && u in target ==> u in now)
    // removals come after everything wanted is in place
    && ((exists u :: u in before && u !in target && u !in now) ==>
          forall u :: u in target ==> u in now && now[u] == target[u])
  }

  /** The same over several attempts, between which Harbor gets to know more users:
      `early` is what the first attempt could have put in place, `late` the last. */
  ghost predicate SafeBetween(before: map<string, int>, early: map<string, int>, late: map<string, int>,
                              now: map<string, int>)
  {
    && (forall u :: u in now ==> (u in before && now[u] == before[u]) || (u in late && now[u] == late[u]))
    && (forall u :: u in before && u in late ==> u in now)
    && ((exists u :: u in before && u !in late && u !in now) ==>
          forall u :: u in early ==> u in now && now[u] == early[u])
  }

  /** With more users known, what was wanted is still wanted, in the same role. */
  lemma {:induction false} TargetGrowsWithUsers(wanted: seq<Wanted>, users: set<string>, more: set<string>)
    requires users <= more
    ensures forall u :: u in Target(wanted, more) && u in users <==> u in Target(wanted, users)
    ensures forall u :: u in Target(wanted, users) ==> Target(wanted, users)[u] == Target(wanted, more)[u]
  {
    if wanted != [] {
      TargetGrowsWithUsers(wanted[..|wanted| - 1], users, more);
    }
  }

  /** Memberships left by attempt after attempt, each cut off anywhere, while Harbor's
      users (the members among them) only become more. */
  ghost predicate Retries(wanted: seq<Wanted>, users: seq<set<string>>, states: seq<map<string, int>>) {
    && |states| == |users| + 1 && users != []
    && states[0].Keys <= users[0]
    && (forall i :: 0 < i < |users| ==> users[i - 1] <= users[i])
    && (forall i :: 0 <= i < |users| ==> Safe(states[i], Target(wanted, users[i]), states[i + 1]))
  }

  lemma OneMoreRetry(before: map<string, int>, early: map<string, int>, mid: map<string, int>,
                     known: map<string, int>, late: map<string, int>, now: map<string, int>)
    requires SafeBetween(before, early, known, mid) && Safe(mid, late, now)
    requires forall u :: u in early ==> u in known && known[u] == early[u]
    requires forall u :: u in known ==> u in late && late[u] == known[u]
    requires forall u :: u in before && u in late ==> u in known
    ensures SafeBetween(before, early, late, now)
  {
    if u :| u in before && u !in late && u !in now {
      forall v | v in early ensures v in now && now[v] == early[v] {
        if u in mid {
          assert exists x :: x in mid && x !in late && x !in now;
        } else {
          assert exists x :: x in before && x !in known && x !in mid;
          assert mid[v] == early[v] == late[v];
        }
      }
    }
  }

  /** Retrying is as safe as not having failed: over any chain of attempts nobody but old
      and wanted members gets in, a wanted member is never lost, and nobody is removed
      before everyone wanted and known at the start is in place. */
  lemma {:induction false} SafeChains(wanted: seq<Wanted>, users: seq<set<string>>, states: seq<map<string, int>>)
    requires Retries(wanted, users, states)
    ensures states[|users|].Keys <= users[|users| - 1]
    ensures users[0] <= users[|users| - 1]
    ensures SafeBetween(states[0], Target(wanted, users[0]), Target(wanted, users[|users| - 1]), states[|users|])
    decreases |users|
  {
    var n := |users| - 1;
    TargetMeans(wanted, users[n]);
    assert Safe(states[n], Target(wanted, users[n]), states[n + 1]);
    if n > 0 {
      SafeChains(wanted, users[..n], states[..n + 1]);
      TargetGrowsWithUsers(wanted, users[0], users[n - 1]);
      TargetGrowsWithUsers(wanted, users[n - 1], users[n]);
      OneMoreRetry(states[0], Target(wanted, users[0]), states[n],
                   Target(wanted, users[n - 1]), Target(wanted, users[n]), states[n + 1]);
    }
  }

  // ---------------------------------------------------------------- the member table

  /** No two members share an ID: `who` reads the user off the ID. */
  ghost predicate Distinct(table: Table, who: map<nat, string>) {
    forall u :: u in table ==> table[u].id in who && who[table[u].id] == u
  }

  function Roles(table: Table): map<string, int> {
    map u | u in table :: table[u].role
  }

  /** Exactly the member with that ID is re-roled. */
  function Reroled(table: Table, id: nat, role: int): Table {
    map u | u in table :: if table[u].id == id then Entry(id, role) else table[u]
  }

  function Without(table: Table, id: nat): Table {
    map u | u in table && table[u].id != id :: table[u]
  }

  lemma RerolesOne(table: Table, who: map<nat, string>, u: string, role: int)
    requires Distinct(table, who) && u in table
    ensures Reroled(table, table[u].id, role) == table[u := Entry(table[u].id, role)]
    ensures Roles(Reroled(table, table[u].id, role)) == Roles(table)[u := role]
  {
  }

  lemma RemovesOne(table: Table, who: map<nat, string>, u: string)
    requires Distinct(table, who) && u in table
    ensures Without(table, table[u].id) == table - {u}
    ensures Roles(Without(table, table[u].id)) == Roles(table) - {u}
  {
  }

  lemma AddsOne(table: Table, u: string, e: Entry)
    ensures Roles(table[u := e]) == Roles(table)[u := e.role]
  {
  }

  /** Once everything wanted is in place, any part of the leftovers may be gone. */
  lemma LeftoversAreSafe(before: map<string, int>, target: map<string, int>, kept: Table)
    requires forall u :: u in kept ==> u in before && kept[u].role == before[u]
    ensures Safe(before, target, Roles(kept) + target)
  {
  }

  lemma NothingKept(target: map<string, int>)
    ensures Roles(map[]) + target == target
  {
  }

  lemma DropLeftover(kept: Table, target: map<string, int>, u: string)
    requires u !in target
    ensures (Roles(kept) + target) - {u} == Roles(kept - {u}) + target
  {
  }

  /** What is left in the lookup after the whole list is exactly what is not wanted. */
  lemma LeftoversAreTheRest(table: Table, before: map<string, int>, target: map<string, int>, left: Table)
    requires Roles(table) == before + target
    requires forall u :: u in left ==> u in table && table[u] == left[u]
    requires left.Keys == before.Keys - target.Keys
    ensures left.Keys !! target.Keys
    ensures Roles(table) == Roles(left) + target
    ensures forall u :: u in left ==> u in before && left[u].role == before[u]
    ensures before == target ==> left == map[]
  {
    forall u | u in left ensures left[u].role == before[u] {
      assert Roles(table)[u] == before[u];
    }
  }

  /** The membership after one more entry of the list. */
  lemma NamesGrow(wanted: seq<Wanted>, d: Wanted)
    ensures Names(wanted + [d]) == Names(wanted) + {d.user}
  {
    var all := wanted + [d];
    assert all[|wanted|] == d;
    forall u | u in Names(wanted) ensures u in Names(all) {
      var i :| 0 <= i < |wanted| && wanted[i].user == u;
      assert all[i].user == u;
    }
  }

  lemma NextPrefix(before: map<string, int>, wanted: seq<Wanted>, users: set<string>, i: nat)
    requires i < |wanted| && before.Keys <= users
    ensures var d, now := wanted[i], before + Target(wanted[..i], users);
            before + Target(wanted[..i + 1], users) ==
            if (d.user in before && d.user !in Names(wanted[..i])) || (d.user in users && d.user !in now)
            then now[d.user := d.role] else now
  {
    assert wanted[..i + 1][..i] == wanted[..i];
    TargetMeans(wanted[..i], users);
  }

  lemma MissingGrows(wanted: seq<Wanted>, users: set<string>, i: nat)
    requires i < |wanted|
    ensures Missing(wanted[..i + 1], users) ==
            if wanted[i].user in users then Missing(wanted[..i], users)
            else Missing(wanted[..i], users) + [wanted[i].user]
  {
    assert wanted[..i + 1][..i] == wanted[..i];
  }

  lemma UnnamedAreUnwanted(before: map<string, int>, wanted: seq<Wanted>, users: set<string>)
    requires before.Keys <= users
    ensures before.Keys - Names(wanted) == before.Keys - Target(wanted, users).Keys
  {
    TargetMeans(wanted, users);
  }

  /** Any prefix of the list leaves a safe membership. */
  lemma PrefixIsSafe(before: map<string, int>, wanted: seq<Wanted>, users: set<string>, i: nat)
    requires i <= |wanted|
    ensures Safe(before, Target(wanted, users), before + Target(wanted[..i], users))
  {
    TargetOfPrefix(wanted, users, i);
  }

  lemma PrefixOfSettled(before: map<string, int>, wanted: seq<Wanted>, users: set<string>, i: nat)
    requires i <= |wanted|
    ensures before == Target(wanted, users) ==> before + Target(wanted[..i], users) == before
  {
    TargetOfPrefix(wanted, users, i);
  }

  // ---------------------------------------------------------------- the code

  class Project {
    var table: Table
    ghost var who: map<nat, string>
    var nextId: nat
    /** The users Harbor has an account for. */
    const users: set<string>
    const faults: seq<Fault>
    var pos: nat

    ghost predicate Valid()
      reads this
    {
      && pos <= |faults|
      && Distinct(table, who)
      && (forall id :: id in who ==> id < nextId)
      && table.Keys <= users
    }

    /** Why a call can end in an error: the last call made did not go through, or the
        process died before the next. */
    ghost predicate Halted(from: nat)
      reads this`pos
    {
      pos == |faults| || (from < pos <= |faults| && faults[pos - 1] != Fine)
    }

    constructor (table: Table, ghost who: map<nat, string>, nextId: nat, users: set<string>, faults: seq<Fault>)
      requires Distinct(table, who) && table.Keys <= users && forall id :: id in who ==> id < nextId
      ensures Valid() && this.table == table && this.users == users && this.faults == faults
    {
      this.who, this.table, this.nextId, this.users, this.faults, pos := who, table, nextId, users, faults, 0;
    }

    method ListMembers() returns (r: Reply<seq<Listed>>)
      requires Valid()
      modifies this`pos
      ensures Valid() && old(pos) <= pos && (r.Err? ==> Halted(old(pos)))
      ensures r.Ok? ==> forall l :: l in r.value ==> l.user in table && table[l.user] == Entry(l.id, l.role)
      ensures r.Ok? ==> forall u :: u in table ==> Listed(u, table[u].id, table[u].role) in r.value
    {
      if pos == |faults| {
        return Err;
      }
      pos := pos + 1;
      if faults[pos - 1] != Fine {
        return Err;
      }
      var all: seq<Listed> := [];
      var todo := table.Keys;
      while todo != {}
        invariant todo <= table.Keys
        invariant forall l :: l in all ==> l.user in table && table[l.user] == Entry(l.id, l.role)
        invariant forall u :: u in table.Keys - todo ==> Listed(u, table[u].id, table[u].role) in all
      {
        var u :| u in todo;
        all := all + [Listed(u, table[u].id, table[u].role)];
        todo := todo - {u};
      }
      return Ok(all);
    }

    /** `Ok(false)` is 404, a user Harbor does not have; 201 and 409 (already a
        member, whose role stays) are the same answer. */
    method AddProjectMember(user: string, role: int) returns (r: Reply<bool>)
      requires Valid()
      modifies this`pos, this`table, this`nextId, this`who
      ensures Valid() && old(pos) <= pos && (r.Err? ==> Halted(old(pos)))
      ensures var added := if user in users && user !in old(table) then old(table)[user := Entry(old(nextId), role)]
                           else old(table);
              if r.Ok? then table == added && r.value == (user in users) else table in {old(table), added}
    {
      if pos == |faults| {
        return Err;
      }
      var fault := faults[pos];
      pos := pos + 1;
      if user in users && user !in table && !fault.Before? {
        table := table[user := Entry(nextId, role)];
        who := who[nextId := user];
        nextId := nextId + 1;
      }
      return if fault.Fine? then Ok(user in users) else Err;
    }

    method UpdateProjectMember(id: nat, role: int) returns (r: Reply<()>)
      requires Valid()
      modifies this`pos, this`table
      ensures Valid() && old(pos) <= pos && (r.Err? ==> Halted(old(pos)))
      ensures if r.Ok? then table == Reroled(old(table), id, role)
              else table in {old(table), Reroled(old(table), id, role)}
    {
      if pos == |faults| {
        return Err;
      }
      var fault := faults[pos];
      pos := pos + 1;
      if !fault.Before? {
        table := Reroled(table, id, role);
      }
      return if fault.Fine? then Ok(()) else Err;
    }

    method DeleteProjectMember(id: nat) returns (r: Reply<()>)
      requires Valid()
      modifies this`pos, this`table
      ensures Valid() && old(pos) <= pos && (r.Err? ==> Halted(old(pos)))
      ensures if r.Ok? then table == Without(old(table), id) else table in {old(table), Without(old(table), id)}
    {
      if pos == |faults| {
        return Err;
      }
      var fault := faults[pos];
      pos := pos + 1;
      if !fault.Before? {
        table := Without(table, id);
      }
      return if fault.Fine? then Ok(()) else Err;
    }

    /** The lookup keyed by user name that the loops consume. */
    method IndexByName(existing: seq<Listed>) returns (byName: Table)
      requires forall l :: l in existing ==> l.user in table && table[l.user] == Entry(l.id, l.role)
      requires forall u :: u in table ==> Listed(u, table[u].id, table[u].role) in existing
      ensures byName == table
    {
      byName := map[];
      for i := 0 to |existing|
        invariant forall u :: u in byName ==> u in table && byName[u] == table[u]
        invariant forall j :: 0 <= j < i ==> existing[j].user in byName
      {
        assert existing[i] in existing;
        byName := byName[existing[i].user := Entry(existing[i].id, existing[i].role)];
      }
    }

    /** The rows `byName` still lists are the table's own. */
    ghost predicate Current(byName: Table)
      reads this
    {
      forall u :: u in byName ==> u in table && table[u] == byName[u]
    }

    /** One entry of the list: re-role, leave alone, add, or find no such user.
        `Ok(false)` is the last of these. */
    method ReconcileMember(d: Wanted, byName: Table) returns (r: Reply<bool>)
      requires Valid() && Current(byName)
      modifies this`pos, this`table, this`nextId, this`who
      ensures Valid() && Current(byName - {d.user}) && old(pos) <= pos && (r.Err? ==> Halted(old(pos)))
      ensures var was := Roles(old(table));
              var now := if d.user in byName || (d.user in users && d.user !in was) then was[d.user := d.role] else was;
              && (if r.Ok? then Roles(table) == now && r.value == (d.user in users) else Roles(table) in {was, now})
              && (Roles(table) == was ==> table == old(table))
    {
      if d.user in byName {
        var cur := byName[d.user];
        if cur.role != d.role {
          RerolesOne(table, who, d.user, d.role);
          var updated := UpdateProjectMember(cur.id, d.role);
          if updated.Err? {
            return Err;
          }
        }
        return Ok(true);
      }
      AddsOne(table, d.user, Entry(nextId, d.role));
      r := AddProjectMember(d.user, d.role);
    }

    /** The same in terms of the list: one more entry of it is handled, or not. */
    method ReconcileEntry(wanted: seq<Wanted>, i: nat, ghost before: map<string, int>, byName: Table)
      returns (r: Reply<bool>)
      requires Valid() && Current(byName) && i < |wanted| && before.Keys <= users
      requires byName.Keys == before.Keys - Names(wanted[..i])
      requires Roles(table) == before + Target(wanted[..i], users)
      modifies this`pos, this`table, this`nextId, this`who
      ensures Valid() && Current(byName - {wanted[i].user}) && old(pos) <= pos && (r.Err? ==> Halted(old(pos)))
      ensures Roles(table) == before + Target(wanted[..i + 1], users) ||
              (r.Err? && Roles(table) == before + Target(wanted[..i], users))
      ensures r.Ok? ==> r.value == (wanted[i].user in users)
      ensures before == Target(wanted, users) ==> table == old(table)
      ensures (byName - {wanted[i].user}).Keys == before.Keys - Names(wanted[..i + 1])
    {
      NextPrefix(before, wanted, users, i);
      assert wanted[..i + 1] == wanted[..i] + [wanted[i]];
      NamesGrow(wanted[..i], wanted[i]);
      PrefixOfSettled(before, wanted, users, i);
      PrefixOfSettled(before, wanted, users, i + 1);
      r := ReconcileMember(wanted[i], byName);
    }

    /** The pass over the list.  Wherever it stops, it has handled a prefix. */
    method SyncWanted(wanted: seq<Wanted>, ghost before: map<string, int>, existing: Table)
      returns (r: Reply<(Table, seq<string>)>, ghost handled: nat)
      requires Valid() && existing == table && before == Roles(table)
      modifies this`pos, this`table, this`nextId, this`who
      ensures Valid() && handled <= |wanted| && old(pos) <= pos && (r.Err? ==> Halted(old(pos)))
      ensures Roles(table) == before + Target(wanted[..handled], users)
      ensures before == Target(wanted, users) ==> table == old(table)
      ensures r.Ok? ==> handled == |wanted| && r.value.1 == Missing(wanted, users)
      ensures r.Ok? ==> Current(r.value.0) && r.value.0.Keys == before.Keys - Target(wanted, users).Keys
    {
      var byName := existing;
      var missing: seq<string> := [];
      for i := 0 to |wanted|
        invariant Valid() && Current(byName) && old(pos) <= pos
        invariant byName.Keys == before.Keys - Names(wanted[..i])
        invariant Roles(table) == before + Target(wanted[..i], users)
        invariant missing == Missing(wanted[..i], users)
        invariant before == Target(wanted, users) ==> table == old(table)
      {
        MissingGrows(wanted, users, i);
        var done := ReconcileEntry(wanted, i, before, byName);
        if done.Err? {
          handled := if Roles(table) == before + Target(wanted[..i], users) then i else i + 1;
          return Err, handled;
        }
        byName := byName - {wanted[i].user};
        if !done.value {
          missing := missing + [wanted[i].user];
        }
      }
      assert wanted[..|wanted|] == wanted;
      UnnamedAreUnwanted(before, wanted, users);
      return Ok((byName, missing)), |wanted|;
    }

    /** What the list does not mention goes, in any order. */
    method RemoveLeftovers(leftovers: Table, ghost target: map<string, int>)
      returns (r: Reply<()>, ghost kept: Table)
      requires Valid() && Current(leftovers) && leftovers.Keys !! target.Keys
      requires Roles(table) == Roles(leftovers) + target
      modifies this`pos, this`table
      ensures Valid() && old(pos) <= pos && (r.Err? ==> Halted(old(pos)))
      ensures kept.Keys <= leftovers.Keys && forall u :: u in kept ==> kept[u] == leftovers[u]
      ensures Roles(table) == Roles(kept) + target
      ensures r.Ok? ==> kept == map[]
      ensures leftovers == map[] ==> table == old(table)
    {
      var byName := leftovers;
      while byName != map[]
        invariant Valid() && Current(byName) && old(pos) <= pos
        invariant byName.Keys <= leftovers.Keys && forall u :: u in byName ==> byName[u] == leftovers[u]
        invariant Roles(table) == Roles(byName) + target
        invariant leftovers == map[] ==> table == old(table)
        decreases |byName|
      {
        var u :| u in byName;
        RemovesOne(table, who, u);
        DropLeftover(byName, target, u);
        var removed := DeleteProjectMember(byName[u].id);
        if removed.Err? {
          return Err, if u in table then byName else byName - {u};
        }
        byName := byName - {u};
      }
      return Ok(()), map[];
    }

    /** Success leaves exactly the wanted membership and reports exactly the mentions
        Harbor has no user for; the order in which leftovers are deleted does not
        show.  It fails only if a call fails or the process dies, never because of a
        user Harbor lacks, and then leaves a safe membership.  A project already as
        wanted is not changed at all. */
    method ReconcileProjectMembers(wanted: seq<Wanted>) returns (r: Reply<seq<string>>)
      requires Valid()
      modifies this`pos, this`table, this`nextId, this`who
      ensures Valid()
      ensures r.Err? ==> Halted(old(pos))
      ensures r.Ok? ==> Roles(table) == Target(wanted, users) && r.value == Missing(wanted, users)
      ensures Safe(Roles(old(table)), Target(wanted, users), Roles(table))
      ensures Roles(old(table)) == Target(wanted, users) ==> table == old(table)
    {
      ghost var before, target := Roles(table), Target(wanted, users);
      var existing := ListMembers();
      if existing.Err? {
        PrefixIsSafe(before, wanted, users, 0);
        return Err;
      }
      var byName := IndexByName(existing.value);
      var synced, handled := SyncWanted(wanted, before, byName);
      PrefixIsSafe(before, wanted, users, handled);
      if synced.Err? {
        return Err;
      }
      assert wanted[..handled] == wanted;
      LeftoversAreTheRest(table, before, target, synced.value.0);
      var removed, kept := RemoveLeftovers(synced.value.0, target);
      LeftoversAreSafe(before, target, kept);
      NothingKept(target);
      return if removed.Ok? then Ok(synced.value.1) else Err;
    }
  }
}
