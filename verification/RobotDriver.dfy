/** `ReconcileHarbor` and the Harbor client's robot calls as the code makes them,
    against stores that change in place.

    A ghost program counter follows the calls; `Valid` says that stores and counter
    are exactly where `RobotProtocol` puts them, so every theorem proved there about
    all runs holds of this code wherever it is cut off. */
module RobotDriver {
  import opened Common
  import opened RobotProtocol

  datatype Listing = Listing(id: nat, name: string)

  lemma CreateCall(ns: string, w: World, again: bool, fault: Fault, view: View)
    ensures var m := Call(ns, w, Create(again), fault, view);
            if exists id | id in w.robots :: w.robots[id].name == FullName(ns) then
              m == Machine(w, if !fault.Fine? || again then Failed else CheckSecret)
            else
              && m.world == (if fault.Before? then w else Born(ns, w))
              && m.pc == if fault.Fine? then ReadSecret(Creds(FullName(ns), w.nextSecret)) else Failed
  {
    assert FindId(ns, w.robots).Some? <==> exists id | id in w.robots :: w.robots[id].name == FullName(ns) by {
      if id :| id in w.robots && w.robots[id].name == FullName(ns) {
        assert IsRobot(ns, w.robots, id);
      }
    }
  }

  class Reconciler {
    // Harbor
    var project: bool
    var robots: map<nat, Robot>
    var nextId: nat
    var nextSecret: nat
    // the workspace namespace
    var pull: Option<Creds>
    var account: Option<seq<string>>
    ghost var lost: nat

    const ns: string
    /** What each call will meet; the process dies where it ends. */
    const tape: seq<Tick>
    var pos: nat

    ghost const start: World
    ghost var pc: Pc

    ghost function State(): World
      reads this
    {
      World(project, robots, nextId, nextSecret, pull, account, lost)
    }

    ghost predicate Valid()
      reads this
    {
      && pos <= |tape|
      && Harbor(ns, State())
      && Exec(ns, Machine(start, START), tape[..pos]) == Machine(State(), pc)
    }

    /** Nothing further will be called: an error came back, or the process died. */
    ghost predicate Stopped()
      reads this
    {
      pc.Failed? || pos == |tape|
    }

    constructor (ns: string, w: World, tape: seq<Tick>)
      requires Harbor(ns, w)
      ensures Valid() && State() == w && pc == START && pos == 0
      ensures this.ns == ns && this.tape == tape && start == w
    {
      project, robots, nextId, nextSecret := w.project, w.robots, w.nextId, w.nextSecret;
      pull, account, lost := w.pull, w.account, w.lost;
      this.ns, this.tape, pos := ns, tape, 0;
      start, pc := w, START;
    }

    // -------------------------------------------------------------- the remote calls

    /** The moment before a call reaches a server. */
    method Arrive() returns (fault: Fault)
      requires pos < |tape| && Harbor(ns, State())
      modifies this`robots, this`pull, this`account, this`lost
      ensures State() == Disturb(ns, old(State()), tape[pos].env) && Harbor(ns, State())
      ensures fault == tape[pos].fault
    {
      StepKeepsHarbor(ns, Machine(State(), START), tape[pos]);
      match tape[pos].env {
        case Quiet =>
        case SecretGone =>
          if pull.Some? {
            pull, lost := None, lost + 1;
          }
        case AccountAppears =>
          if account.None? {
            account := Some([]);
          }
        case RobotGone =>
          ghost var found := FindId(ns, robots);
          var rest := map id | id in robots && robots[id].name != FullName(ns) :: robots[id];
          assert found.None? ==> forall id :: id in robots ==> !IsRobot(ns, robots, id);
          assert found.Some? ==> forall id :: id in robots && id != found.value ==> !IsRobot(ns, robots, id);
          assert rest == if found.Some? then robots - {found.value} else robots;
          robots := rest;
        case SecretBack(creds) =>
          pull := Some(creds);
      }
      fault := tape[pos].fault;
    }

    /** Time moves on by the tick the call has just used. */
    lemma Tock(i: nat, before: Machine, after: Machine)
      requires i < |tape| && Harbor(ns, before.world)
      requires Exec(ns, Machine(start, START), tape[..i]) == before
      requires after == Step(ns, before, tape[i])
      ensures Exec(ns, Machine(start, START), tape[..i + 1]) == after
      ensures Harbor(ns, after.world)
    {
      assert tape[..i + 1] == tape[..i] + [tape[i]];
      ExecExtends(ns, Machine(start, START), tape[..i], tape[i]);
      StepKeepsHarbor(ns, before, tape[i]);
    }

    /** One remote call: the counter and the stores take exactly one step, and an
        error answer means that nothing else will be called. */
    twostate predicate Called(failed: bool)
      reads this
    {
      && Valid()
      && (failed ==> Stopped())
      && (if old(pos) == |tape| then failed && unchanged(this)
          else
            && pos == old(pos) + 1
            && Machine(State(), pc) == Step(ns, Machine(old(State()), old(pc)), tape[old(pos)]))
    }

    method HeadProject() returns (r: Reply<bool>)
      requires Valid() && pc.CheckProject?
      modifies this
      ensures Called(r.Err?)
      ensures r.Ok? ==> pc == if r.value then SyncMembers else CreateProject
    {
      if pos == |tape| {
        return Err;
      }
      ghost var before := Machine(State(), pc);
      var fault := Arrive();
      r := if fault.Fine? then Ok(project) else Err;
      pc := Step(ns, before, tape[pos]).pc;
      Tock(pos, before, Machine(State(), pc));
      pos := pos + 1;
    }

    /** 201 and 409 are the same answer here. */
    method PostProject() returns (r: Reply<()>)
      requires Valid() && pc.CreateProject?
      modifies this
      ensures Called(r.Err?)
      ensures r.Ok? ==> pc == SyncMembers
    {
      if pos == |tape| {
        return Err;
      }
      ghost var before := Machine(State(), pc);
      var fault := Arrive();
      if !fault.Before? {
        project := true;
      }
      r := if fault.Fine? then Ok(()) else Err;
      pc := Step(ns, before, tape[pos]).pc;
      Tock(pos, before, Machine(State(), pc));
      pos := pos + 1;
    }

    /** The membership calls, which touch neither robot nor Secret; module MemberSync
        has them one by one. */
    method SyncProjectMembers() returns (r: Reply<()>)
      requires Valid() && pc.SyncMembers?
      modifies this
      ensures Called(r.Err?)
      ensures r.Ok? ==> pc == GetProjectId(false)
    {
      if pos == |tape| {
        return Err;
      }
      ghost var before := Machine(State(), pc);
      var fault := Arrive();
      r := if fault.Fine? then Ok(()) else Err;
      pc := Step(ns, before, tape[pos]).pc;
      Tock(pos, before, Machine(State(), pc));
      pos := pos + 1;
    }

    method FindProjectId() returns (r: Reply<()>)
      requires Valid() && pc.GetProjectId?
      modifies this
      ensures Called(r.Err?)
      ensures r.Ok? ==> pc == ListRobots(old(pc).again)
    {
      if pos == |tape| {
        return Err;
      }
      ghost var before := Machine(State(), pc);
      var fault := Arrive();
      r := if fault.Fine? && project then Ok(()) else Err;
      pc := Step(ns, before, tape[pos]).pc;
      Tock(pos, before, Machine(State(), pc));
      pos := pos + 1;
    }

    /** The narrowed listing, in whatever order Harbor likes. */
    method GetRobots() returns (r: Reply<seq<Listing>>)
      requires Valid() && pc.ListRobots?
      modifies this
      ensures Called(r.Err?)
      ensures r.Ok? ==> pc == match FindId(ns, robots)
                              case None => (if old(pc).again then Failed else Create(false))
                              case Some(id) => (if old(pc).again then Delete(id) else CheckSecret)
      ensures r.Ok? ==> forall l :: l in r.value ==> l.id in robots && robots[l.id].name == l.name
      ensures r.Ok? ==> forall id :: id in robots && Mentions(robots[id].name, Query(ns)) ==>
                          Listing(id, robots[id].name) in r.value
    {
      if pos == |tape| {
        return Err;
      }
      ghost var before := Machine(State(), pc);
      var fault := Arrive();
      if fault.Fine? {
        var found: seq<Listing> := [];
        var todo := robots.Keys;
        while todo != {}
          invariant todo <= robots.Keys
          invariant forall l :: l in found ==> l.id in robots && robots[l.id].name == l.name
          invariant forall id :: id in robots.Keys - todo && Mentions(robots[id].name, Query(ns)) ==>
                      Listing(id, robots[id].name) in found
        {
          var id :| id in todo;
          if Mentions(robots[id].name, Query(ns)) {
            found := found + [Listing(id, robots[id].name)];
          }
          todo := todo - {id};
        }
        r := Ok(found);
      } else {
        r := Err;
      }
      pc := Step(ns, before, tape[pos]).pc;
      Tock(pos, before, Machine(State(), pc));
      pos := pos + 1;
    }

    method PostRobot() returns (r: Reply<Option<Creds>>)
      requires Valid() && pc.Create?
      modifies this
      ensures Called(r.Err?)
      ensures r.Ok? && r.value.Some? ==> pc == ReadSecret(r.value.value)
      ensures r.Ok? && r.value.None? ==> pc == if old(pc).again then Failed else CheckSecret
    {
      if pos == |tape| {
        return Err;
      }
      ghost var before := Machine(State(), pc);
      var fault := Arrive();
      CreateCall(ns, State(), before.pc.again, fault, tape[pos].view);
      if exists id | id in robots :: robots[id].name == FullName(ns) {
        r := if fault.Fine? then Ok(None) else Err;
      } else {
        var creds := Creds(FullName(ns), nextSecret);
        if !fault.Before? {
          robots := robots[nextId := Robot(FullName(ns), nextSecret)];
          nextId, nextSecret := nextId + 1, nextSecret + 1;
        }
        r := if fault.Fine? then Ok(Some(creds)) else Err;
      }
      pc := Step(ns, before, tape[pos]).pc;
      Tock(pos, before, Machine(State(), pc));
      pos := pos + 1;
    }

    /** 200 and 404 are the same answer here. */
    method DeleteRobotCall(id: nat) returns (r: Reply<()>)
      requires Valid() && pc == Delete(id)
      modifies this
      ensures Called(r.Err?)
      ensures r.Ok? ==> pc == Create(true)
    {
      if pos == |tape| {
        return Err;
      }
      ghost var before := Machine(State(), pc);
      var fault := Arrive();
      if !fault.Before? {
        robots := robots - {id};
      }
      r := if fault.Fine? then Ok(()) else Err;
      pc := Step(ns, before, tape[pos]).pc;
      Tock(pos, before, Machine(State(), pc));
      pos := pos + 1;
    }

    /** Through the cache, like every read of the workspace namespace. */
    method GetPullSecret() returns (r: Reply<Option<Creds>>)
      requires Valid() && (pc.CheckSecret? || pc.ReadSecret?)
      modifies this
      ensures Called(r.Err?)
      ensures r.Ok? ==> r.value == ShownPull(pull, tape[old(pos)].view)
      ensures r.Ok? && old(pc).CheckSecret? ==> pc == if r.value.None? then GetProjectId(true) else ReadAccount
      ensures r.Ok? && old(pc).ReadSecret? ==>
                pc == if r.value == Some(old(pc).creds) then ReadAccount else WriteSecret(old(pc).creds, r.value)
    {
      if pos == |tape| {
        return Err;
      }
      ghost var before := Machine(State(), pc);
      var fault := Arrive();
      r := if fault.Fine? then Ok(ShownPull(pull, tape[pos].view)) else Err;
      pc := Step(ns, before, tape[pos]).pc;
      Tock(pos, before, Machine(State(), pc));
      pos := pos + 1;
    }

    /** Create or Update: refused when the Secret is no longer what was read. */
    method PutPullSecret(creds: Creds, seen: Option<Creds>) returns (r: Reply<()>)
      requires Valid() && pc == WriteSecret(creds, seen)
      modifies this
      ensures Called(r.Err?)
      ensures r.Ok? ==> pc == ReadAccount
    {
      if pos == |tape| {
        return Err;
      }
      ghost var before := Machine(State(), pc);
      var fault := Arrive();
      if pull != seen {
        r := Err;
      } else {
        if !fault.Before? {
          pull := Some(creds);
        }
        r := if fault.Fine? then Ok(()) else Err;
      }
      pc := Step(ns, before, tape[pos]).pc;
      Tock(pos, before, Machine(State(), pc));
      pos := pos + 1;
    }

    method GetAccount() returns (r: Reply<Option<seq<string>>>)
      requires Valid() && pc.ReadAccount?
      modifies this
      ensures Called(r.Err?)
      ensures r.Ok? ==> pc == if r.value.Some? && PULL_SECRET in r.value.value then Done else WriteAccount(r.value)
    {
      if pos == |tape| {
        return Err;
      }
      ghost var before := Machine(State(), pc);
      var fault := Arrive();
      r := if fault.Fine? then Ok(ShownAccount(account, tape[pos].view)) else Err;
      pc := Step(ns, before, tape[pos]).pc;
      Tock(pos, before, Machine(State(), pc));
      pos := pos + 1;
    }

    method PutAccount(refs: seq<string>, seen: Option<seq<string>>) returns (r: Reply<()>)
      requires Valid() && pc == WriteAccount(seen) && refs == Listed(seen)
      modifies this
      ensures Called(r.Err?)
      ensures r.Ok? ==> pc == Done
    {
      if pos == |tape| {
        return Err;
      }
      ghost var before := Machine(State(), pc);
      var fault := Arrive();
      if account != seen {
        r := Err;
      } else {
        if !fault.Before? {
          account := Some(refs);
        }
        r := if fault.Fine? then Ok(()) else Err;
      }
      pc := Step(ns, before, tape[pos]).pc;
      Tock(pos, before, Machine(State(), pc));
      pos := pos + 1;
    }

    // -------------------------------------------------------------- the Harbor client

    method EnsureProject() returns (r: Reply<()>)
      requires Valid() && pc.CheckProject?
      modifies this
      ensures Valid()
      ensures if r.Ok? then pc == SyncMembers else Stopped()
    {
      var exists_ := HeadProject();
      if exists_.Err? {
        return Err;
      }
      if exists_.value {
        return Ok(());
      }
      r := PostProject();
    }

    /** The exact-name comparison decides, whatever else the listing returns. */
    method FindRobot() returns (r: Reply<Option<nat>>)
      requires Valid() && pc.GetProjectId?
      modifies this
      ensures Valid()
      ensures r.Err? ==> Stopped()
      ensures r.Ok? ==> r.value == FindId(ns, robots)
      ensures r.Ok? ==> pc == match r.value
                              case None => (if old(pc).again then Failed else Create(false))
                              case Some(id) => (if old(pc).again then Delete(id) else CheckSecret)
    {
      var project := FindProjectId();
      if project.Err? {
        return Err;
      }
      var listing := GetRobots();
      if listing.Err? {
        return Err;
      }
      QueryKeepsTheRobot(ns);
      for i := 0 to |listing.value|
        invariant forall j :: 0 <= j < i ==> listing.value[j].name != FullName(ns)
      {
        if listing.value[i].name == FullName(ns) {
          assert listing.value[i] in listing.value;
          LiveOf(ns, State(), listing.value[i].id);
          return Ok(Some(listing.value[i].id));
        }
      }
      assert forall id :: id in robots ==> robots[id].name != FullName(ns);
      return Ok(None);
    }

    method EnsureRobot() returns (r: Reply<Option<Creds>>)
      requires Valid() && pc == GetProjectId(false)
      modifies this
      ensures Valid()
      ensures r.Err? ==> Stopped()
      ensures r.Ok? ==> pc == if r.value.Some? then ReadSecret(r.value.value) else CheckSecret
    {
      var existing := FindRobot();
      if existing.Err? {
        return Err;
      }
      if existing.value.Some? {
        return Ok(None);
      }
      r := PostRobot();
    }

    method RefreshRobotSecret() returns (r: Reply<Creds>)
      requires Valid() && pc == GetProjectId(true)
      modifies this
      ensures Valid()
      ensures if r.Ok? then pc == ReadSecret(r.value) else Stopped()
    {
      var existing := FindRobot();
      if existing.Err? || existing.value.None? {
        return Err;
      }
      var deleted := DeleteRobotCall(existing.value.value);
      if deleted.Err? {
        return Err;
      }
      var creds := PostRobot();
      if creds.Err? || creds.value.None? {
        return Err;
      }
      return Ok(creds.value.value);
    }

    // -------------------------------------------------------------- the reconciler

    method ReconcileImagePullSecret(creds: Creds) returns (r: Reply<()>)
      requires Valid() && pc == ReadSecret(creds)
      modifies this
      ensures Valid()
      ensures if r.Ok? then pc == ReadAccount else Stopped()
    {
      var seen := GetPullSecret();
      if seen.Err? {
        return Err;
      }
      if seen.value == Some(creds) {
        return Ok(());
      }
      r := PutPullSecret(creds, seen.value);
    }

    /** Scans what is listed and appends the pull Secret if it is not there. */
    method EnsureImagePullSecret() returns (r: Reply<()>)
      requires Valid() && pc == ReadAccount
      modifies this
      ensures Valid()
      ensures OnlyAppended(RefsOf(old(account)), RefsOf(account))
      ensures if r.Ok? then pc == Done else Stopped()
    {
      ghost var first := Machine(State(), pc);
      ghost var at := pos;
      var seen := GetAccount();
      if at < |tape| {
        StepKeepsReferences(ns, first, tape[at]);
      }
      if seen.Err? {
        return Err;
      }
      var refs := if seen.value.Some? then seen.value.value else [];
      for i := 0 to |refs|
        invariant PULL_SECRET !in refs[..i]
      {
        if refs[i] == PULL_SECRET {
          if seen.value.Some? {
            return Ok(());
          }
        }
      }
      assert refs[..|refs|] == refs;
      ghost var then_ := Machine(State(), pc);
      if pos < |tape| {
        StepKeepsReferences(ns, then_, tape[pos]);
      }
      r := PutAccount(refs + [PULL_SECRET], seen.value);
    }

    /** One attempt.  It walks `RobotProtocol`'s machine call by call: it returns with
        the machine at `Done`, at `Failed`, or where the process died. */
    method ReconcileHarbor() returns (r: Reply<()>)
      requires Valid() && pc == START && pos == 0 && State() == start
      modifies this
      ensures Valid() && Machine(State(), pc) == Attempt(ns, old(State()), tape[..pos])
      ensures if r.Ok? then pc == Done else Stopped()
      ensures Sound(ns, old(State())) && FairExec(ns, Machine(old(State()), START), tape[..pos]) ==>
                Sound(ns, State()) && (r.Ok? ==> Live(ns, State()).Some?)
      ensures Others(ns, robots) == Others(ns, old(robots))
      ensures OnlyAppended(RefsOf(old(account)), RefsOf(account))
      ensures r.Ok? && ExecWithoutForesight(ns, Machine(old(State()), START), tape[..pos]) ==> ListsIt(account)
      ensures nextSecret <= old(nextSecret) + 1
    {
      r := ReconcileHarborCalls();
      ghost var first := Machine(start, START);
      CreatesAtMostOne(ns, first, tape[..pos]);
      OthersUntouched(ns, first, tape[..pos]);
      ReferencesKept(ns, first, tape[..pos]);
      if ExecWithoutForesight(ns, first, tape[..pos]) {
        ExecLists(ns, first, tape[..pos]);
      }
      if Sound(ns, start) && FairExec(ns, first, tape[..pos]) {
        ExecKeepsRunning(ns, first, tape[..pos]);
      }
    }

    method ReconcileHarborCalls() returns (r: Reply<()>)
      requires Valid() && pc == START
      modifies this
      ensures Valid()
      ensures if r.Ok? then pc == Done else Stopped()
    {
      var project := EnsureProject();
      if project.Err? {
        return Err;
      }
      var members := SyncProjectMembers();
      if members.Err? {
        return Err;
      }
      var creds := EnsureRobot();
      if creds.Err? {
        return Err;
      }
      var obtained := creds.value;
      if obtained.None? {
        var secret := GetPullSecret();
        if secret.Err? {
          return Err;
        }
        if secret.value.None? {
          var renewed := RefreshRobotSecret();
          if renewed.Err? {
            return Err;
          }
          obtained := Some(renewed.value);
        }
      }
      if obtained.Some? {
        var written := ReconcileImagePullSecret(obtained.value);
        if written.Err? {
          return Err;
        }
      }
      r := EnsureImagePullSecret();
    }
  }
}
