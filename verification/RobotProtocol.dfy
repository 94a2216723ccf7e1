/** The robot / pull-Secret protocol of `ReconcileHarbor`, one remote call at a time.

    Harbor reveals a robot's secret once, when it sets it.  Creating the robot,
    deleting it and writing the Kubernetes Secret are separate calls, so an attempt
    can die between any two of them.  Harbor is read live; objects of the workspace
    namespace are read through the manager's cache, which may lag.  `Step` is one call
    together with whatever the rest of the world did just before it and what the cache
    shows; a tape that ends early is a crash. */
module RobotProtocol {
  import opened Common

  // ---------------------------------------------------------------- the stores

  datatype Robot = Robot(name: string, secret: nat)
  datatype Creds = Creds(name: string, secret: nat)

  /** Harbor's project and robots (by numeric ID), and the two objects of the
      workspace namespace the protocol writes.  `nextSecret` is the next secret
      Harbor will mint, so it also counts robot creations.  `lost` counts the
      times somebody else removed the pull Secret. */
  datatype World = World(
    project: bool,
    robots: map<nat, Robot>,
    nextId: nat,
    nextSecret: nat,
    pull: Option<Creds>,
    account: Option<seq<string>>,
    lost: nat)

  const PULL_SECRET := "workspace-image-pull-secret"

  function Query(ns: string): string { ns + "+" + ns }

  function FullName(ns: string): string { "robot$" + Query(ns) }

  /** Harbor's `name=~` filter: a substring match. */
  predicate MentionsAt(name: string, query: string, i: nat) {
    i + |query| <= |name| && name[i..i + |query|] == query
  }

  predicate Mentions(name: string, query: string) {
    exists i | 0 <= i <= |name| :: MentionsAt(name, query, i)
  }

  ghost predicate IsRobot(ns: string, robots: map<nat, Robot>, id: nat) {
    id in robots && robots[id].name == FullName(ns)
  }

  /** Harbor answers 409 to a second robot of the same name. */
  ghost predicate OneRobot(ns: string, robots: map<nat, Robot>) {
    forall i, j :: IsRobot(ns, robots, i) && IsRobot(ns, robots, j) ==> i == j
  }

  ghost function FindId(ns: string, robots: map<nat, Robot>): (r: Option<nat>)
    ensures r.Some? ==> IsRobot(ns, robots, r.value)
    ensures r.None? ==> forall id :: !IsRobot(ns, robots, id)
  {
    if exists id :: IsRobot(ns, robots, id) then
      var id :| IsRobot(ns, robots, id); Some(id)
    else None
  }

  /** The secret Harbor accepts for this workspace's robot right now. */
  ghost function Live(ns: string, w: World): Option<nat> {
    match FindId(ns, w.robots)
    case Some(id) => Some(w.robots[id].secret)
    case None => None
  }

  // ---------------------------------------------------------------- one attempt

  /** Which call comes next.  `again` tells the calls of `RefreshRobotSecret` from
      the same calls made by `EnsureRobot`. */
  datatype Pc =
    | CheckProject | CreateProject | SyncMembers
    | GetProjectId(again: bool) | ListRobots(again: bool)
    | Create(again: bool)
    | CheckSecret
    | Delete(id: nat)
    | ReadSecret(creds: Creds)
    | WriteSecret(creds: Creds, seen: Option<Creds>)
    | ReadAccount
    | WriteAccount(refs: Option<seq<string>>)
    | Done | Failed

  const START := CheckProject

  datatype Machine = Machine(world: World, pc: Pc)

  /** What the rest of the world does just before a call. */
  datatype Env =
    | Quiet
    | SecretGone
    | AccountAppears
    // the two the protocol does not withstand
    | RobotGone
    | SecretBack(creds: Creds)   // written by somebody else, for instance from a backup

  /** What the cache shows a read: the object as it is, or an older copy. */
  datatype View = Fresh | Copy(pull: Option<Creds>, account: Option<seq<string>>)

  function ShownPull(now: Option<Creds>, view: View): Option<Creds> {
    if view.Fresh? then now else view.pull
  }

  function ShownAccount(now: Option<seq<string>>, view: View): Option<seq<string>> {
    if view.Fresh? then now else view.account
  }

  datatype Tick = Tick(env: Env, fault: Fault, view: View)

  const CALM := Tick(Quiet, Fine, Fresh)

  ghost function Disturb(ns: string, w: World, e: Env): World {
    match e
    case Quiet => w
    case SecretGone => if w.pull.Some? then w.(pull := None, lost := w.lost + 1) else w
    case AccountAppears => if w.account.None? then w.(account := Some([])) else w
    case RobotGone =>
      (match FindId(ns, w.robots)
       case Some(id) => w.(robots := w.robots - {id})
       case None => w)
    case SecretBack(creds) => w.(pull := Some(creds))
  }

  /** A call that only reads. */
  function Read(w: World, fault: Fault, next: Pc): Machine {
    Machine(w, if fault.Fine? then next else Failed)
  }

  /** A call with an effect. */
  function Write(w: World, fault: Fault, after: World, next: Pc): Machine {
    match fault
    case Fine => Machine(after, next)
    case Before => Machine(w, Failed)
    case After => Machine(after, Failed)
  }

  function Born(ns: string, w: World): World {
    w.(robots := w.robots[w.nextId := Robot(FullName(ns), w.nextSecret)],
       nextId := w.nextId + 1,
       nextSecret := w.nextSecret + 1)
  }

  function Listed(seen: Option<seq<string>>): seq<string> {
    match seen
    case None => [PULL_SECRET]
    case Some(refs) => if PULL_SECRET in refs then refs else refs + [PULL_SECRET]
  }

  ghost function Call(ns: string, w: World, pc: Pc, fault: Fault, view: View): Machine {
    match pc
    case CheckProject =>
      Read(w, fault, if w.project then SyncMembers else CreateProject)
    case CreateProject =>
      Write(w, fault, w.(project := true), SyncMembers)
    case SyncMembers =>
      Read(w, fault, GetProjectId(false))
    case GetProjectId(again) =>
      Read(w, fault, if w.project then ListRobots(again) else Failed)
    case ListRobots(again) =>
      Read(w, fault, match FindId(ns, w.robots)
                     case None => if again then Failed else Create(false)
                     case Some(id) => if again then Delete(id) else CheckSecret)
    case Create(again) =>
      if FindId(ns, w.robots).Some? then
        Read(w, fault, if again then Failed else CheckSecret)
      else
        Write(w, fault, Born(ns, w), ReadSecret(Creds(FullName(ns), w.nextSecret)))
    case CheckSecret =>
      Read(w, fault, if ShownPull(w.pull, view).None? then GetProjectId(true) else ReadAccount)
    case Delete(id) =>
      Write(w, fault, w.(robots := w.robots - {id}), Create(true))
    case ReadSecret(creds) =>
      var shown := ShownPull(w.pull, view);
      Read(w, fault, if shown == Some(creds) then ReadAccount else WriteSecret(creds, shown))
    case WriteSecret(creds, seen) =>
      if w.pull != seen then Machine(w, Failed)
      else Write(w, fault, w.(pull := Some(creds)), ReadAccount)
    case ReadAccount =>
      var shown := ShownAccount(w.account, view);
      Read(w, fault, if shown.Some? && PULL_SECRET in shown.value then Done else WriteAccount(shown))
    case WriteAccount(refs) =>
      if w.account != refs then Machine(w, Failed)
      else Write(w, fault, w.(account := Some(Listed(refs))), Done)
    case Done => Machine(w, Done)
    case Failed => Machine(w, Failed)
  }

  ghost function Step(ns: string, m: Machine, t: Tick): Machine {
    Call(ns, Disturb(ns, m.world, t.env), m.pc, t.fault, t.view)
  }

  ghost function Exec(ns: string, m: Machine, tape: seq<Tick>): Machine
    decreases |tape|
  {
    if tape == [] then m else Exec(ns, Step(ns, m, tape[0]), tape[1..])
  }

  /** One attempt from the top, cut off where its tape ends. */
  ghost function Attempt(ns: string, w: World, tape: seq<Tick>): Machine {
    Exec(ns, Machine(w, START), tape)
  }

  /** Attempts one after the other, each cut off where its own tape ends. */
  ghost function Attempts(ns: string, w: World, tapes: seq<seq<Tick>>): World
    decreases |tapes|
  {
    if tapes == [] then w else Attempts(ns, Attempt(ns, w, tapes[0]).world, tapes[1..])
  }

  lemma {:induction false} ExecExtends(ns: string, m: Machine, tape: seq<Tick>, t: Tick)
    ensures Exec(ns, m, tape + [t]) == Step(ns, Exec(ns, m, tape), t)
    decreases |tape|
  {
    if tape == [] {
      assert Exec(ns, Step(ns, m, t), [t][1..]) == Step(ns, m, t);
    } else {
      assert (tape + [t])[1..] == tape[1..] + [t];
      ExecExtends(ns, Step(ns, m, tape[0]), tape[1..], t);
    }
  }

  /** Narrowing the listing on the server never hides the robot. */
  lemma QueryKeepsTheRobot(ns: string)
    ensures Mentions(FullName(ns), Query(ns))
  {
    assert MentionsAt(FullName(ns), Query(ns), 6);
  }

  // ---------------------------------------------------------------- safety

  /** The pull Secret, when there is one, carries the live robot's secret. */
  ghost predicate InStep(ns: string, w: World) {
    w.pull.Some? ==> Current(ns, w, w.pull.value)
  }

  /** The credentials the robot answers to right now. */
  ghost predicate Current(ns: string, w: World, creds: Creds) {
    Live(ns, w).Some? && creds == Creds(FullName(ns), Live(ns, w).value)
  }

  /** Between the answer "missing" and the deletion of the robot. */
  predicate Refreshing(pc: Pc) {
    pc == GetProjectId(true) || pc == ListRobots(true) || pc.Delete?
  }

  /** What the protocol relies on.  Nobody else removes the robot; nobody else writes
      the Secret, except to put the current credentials back while no refresh is under
      way; and the cache does not show an existing Secret as missing to the check that
      starts a refresh.  Everything else may happen, and may be shown late. */
  ghost predicate Fair(ns: string, m: Machine, t: Tick) {
    var now := Disturb(ns, m.world, t.env);
    && !t.env.RobotGone?
    && (t.env.SecretBack? ==> Current(ns, m.world, t.env.creds) && !Refreshing(m.pc))
    && (m.pc.CheckSecret? && ShownPull(now.pull, t.view).None? ==> now.pull.None?)
  }

  ghost predicate FairExec(ns: string, m: Machine, tape: seq<Tick>)
    decreases |tape|
  {
    tape != [] ==> Fair(ns, m, tape[0]) && FairExec(ns, Step(ns, m, tape[0]), tape[1..])
  }

  ghost predicate FairAttempts(ns: string, w: World, tapes: seq<seq<Tick>>)
    decreases |tapes|
  {
    tapes != [] ==>
      && FairExec(ns, Machine(w, START), tapes[0])
      && FairAttempts(ns, Attempt(ns, w, tapes[0]).world, tapes[1..])
  }

  ghost predicate Harbor(ns: string, w: World) {
    && OneRobot(ns, w.robots)
    && (forall id :: id in w.robots ==> id < w.nextId && w.robots[id].secret < w.nextSecret)
  }

  ghost predicate Sound(ns: string, w: World) {
    && Harbor(ns, w)
    && InStep(ns, w)
  }

  /** What the local variables of a running attempt add. */
  ghost predicate Running(ns: string, m: Machine) {
    && Sound(ns, m.world)
    && (match m.pc
        case GetProjectId(again) => again ==> m.world.pull.None?
        case ListRobots(again) => again ==> m.world.pull.None?
        case Create(again) => Live(ns, m.world).None?
        case Delete(id) => m.world.pull.None? && IsRobot(ns, m.world.robots, id)
        case CheckSecret => Live(ns, m.world).Some?
        case ReadAccount => Live(ns, m.world).Some?
        case WriteAccount(_) => Live(ns, m.world).Some?
        case Done => Live(ns, m.world).Some?
        case ReadSecret(creds) => Current(ns, m.world, creds)
        case WriteSecret(creds, _) => Current(ns, m.world, creds)
        case _ => true)
  }

  lemma LiveOf(ns: string, w: World, id: nat)
    requires OneRobot(ns, w.robots) && IsRobot(ns, w.robots, id)
    ensures FindId(ns, w.robots) == Some(id)
    ensures Live(ns, w) == Some(w.robots[id].secret)
  {
    assert FindId(ns, w.robots).Some?;
  }

  lemma BornIsLive(ns: string, w: World)
    requires Harbor(ns, w) && FindId(ns, w.robots).None?
    ensures Harbor(ns, Born(ns, w))
    ensures Live(ns, Born(ns, w)) == Some(w.nextSecret)
  {
    var b := Born(ns, w);
    forall i | IsRobot(ns, b.robots, i) ensures i == w.nextId {
      assert i == w.nextId || IsRobot(ns, w.robots, i);
    }
    LiveOf(ns, b, w.nextId);
  }

  lemma RemovedIsGone(ns: string, w: World, id: nat)
    requires Harbor(ns, w) && IsRobot(ns, w.robots, id)
    ensures Harbor(ns, w.(robots := w.robots - {id}))
    ensures FindId(ns, w.robots - {id}).None?
  {
    var rest := w.robots - {id};
    forall i ensures !IsRobot(ns, rest, i) {
      if IsRobot(ns, rest, i) { assert IsRobot(ns, w.robots, i); }
    }
    assert OneRobot(ns, rest);
  }

  lemma DisturbKeepsHarbor(ns: string, w: World, e: Env)
    requires Harbor(ns, w)
    ensures Harbor(ns, Disturb(ns, w, e))
  {
    assert forall id :: IsRobot(ns, Disturb(ns, w, e).robots, id) ==> IsRobot(ns, w.robots, id);
  }

  lemma CallKeepsHarbor(ns: string, w: World, pc: Pc, fault: Fault, view: View)
    requires Harbor(ns, w)
    ensures Harbor(ns, Call(ns, w, pc, fault, view).world)
  {
    match pc
    case Create(_) => if FindId(ns, w.robots).None? { BornIsLive(ns, w); }
    case Delete(id) => assert forall i :: IsRobot(ns, w.robots - {id}, i) ==> IsRobot(ns, w.robots, i);
    case _ =>
  }

  /** Harbor's own rules outlast any step, whoever else is at work. */
  lemma StepKeepsHarbor(ns: string, m: Machine, t: Tick)
    requires Harbor(ns, m.world)
    ensures Harbor(ns, Disturb(ns, m.world, t.env))
    ensures Harbor(ns, Step(ns, m, t).world)
  {
    DisturbKeepsHarbor(ns, m.world, t.env);
    CallKeepsHarbor(ns, Disturb(ns, m.world, t.env), m.pc, t.fault, t.view);
  }

  lemma FairDisturbance(ns: string, m: Machine, t: Tick)
    requires Running(ns, m) && Fair(ns, m, t)
    ensures Running(ns, Machine(Disturb(ns, m.world, t.env), m.pc))
    ensures Disturb(ns, m.world, t.env).robots == m.world.robots
    ensures Live(ns, Disturb(ns, m.world, t.env)) == Live(ns, m.world)
  {
  }

  lemma CallKeepsRunning(ns: string, w: World, pc: Pc, fault: Fault, view: View)
    requires Running(ns, Machine(w, pc))
    requires pc.CheckSecret? && ShownPull(w.pull, view).None? ==> w.pull.None?
    ensures Running(ns, Call(ns, w, pc, fault, view))
  {
    match pc
    case Create(_) => BornIsLive(ns, w);
    case Delete(id) => RemovedIsGone(ns, w, id);
    case _ =>
  }

  lemma StepKeepsRunning(ns: string, m: Machine, t: Tick)
    requires Running(ns, m) && Fair(ns, m, t)
    ensures Running(ns, Step(ns, m, t))
  {
    FairDisturbance(ns, m, t);
    CallKeepsRunning(ns, Disturb(ns, m.world, t.env), m.pc, t.fault, t.view);
  }

  lemma {:induction false} ExecKeepsRunning(ns: string, m: Machine, tape: seq<Tick>)
    requires Running(ns, m) && FairExec(ns, m, tape)
    ensures Running(ns, Exec(ns, m, tape))
    decreases |tape|
  {
    if tape != [] {
      StepKeepsRunning(ns, m, tape[0]);
      ExecKeepsRunning(ns, Step(ns, m, tape[0]), tape[1..]);
    }
  }

  /** A copy may be old, but it shows nothing that was never there: credentials just
      minted are not shown before they are stored, and (references being only ever
      added) a listing that is shown is still there. */
  ghost predicate NoForesight(ns: string, m: Machine, t: Tick) {
    var now := Disturb(ns, m.world, t.env);
    && (m.pc.ReadSecret? && ShownPull(now.pull, t.view) == Some(m.pc.creds) ==> now.pull == Some(m.pc.creds))
    && (m.pc.ReadAccount? && ListsIt(ShownAccount(now.account, t.view)) ==> ListsIt(now.account))
  }

  predicate ListsIt(account: Option<seq<string>>) {
    account.Some? && PULL_SECRET in account.value
  }

  ghost predicate ExecWithoutForesight(ns: string, m: Machine, tape: seq<Tick>)
    decreases |tape|
  {
    tape != [] ==> NoForesight(ns, m, tape[0]) && ExecWithoutForesight(ns, Step(ns, m, tape[0]), tape[1..])
  }

  ghost predicate AttemptsWithoutForesight(ns: string, w: World, tapes: seq<seq<Tick>>)
    decreases |tapes|
  {
    tapes != [] ==>
      && ExecWithoutForesight(ns, Machine(w, START), tapes[0])
      && AttemptsWithoutForesight(ns, Attempt(ns, w, tapes[0]).world, tapes[1..])
  }

  /** A finished attempt has listed the pull Secret on the default ServiceAccount. */
  lemma {:induction false} ExecLists(ns: string, m: Machine, tape: seq<Tick>)
    requires m.pc.Done? ==> ListsIt(m.world.account)
    requires ExecWithoutForesight(ns, m, tape)
    ensures Exec(ns, m, tape).pc.Done? ==> ListsIt(Exec(ns, m, tape).world.account)
    decreases |tape|
  {
    if tape != [] {
      var n := Step(ns, m, tape[0]);
      if m.pc.WriteAccount? && n.pc.Done? {
        assert PULL_SECRET in Listed(m.pc.refs);
      }
      ExecLists(ns, n, tape[1..]);
    }
  }

  /** In every reachable state of every run, attempts cut off anywhere, reads lagging
      and the pull Secret deleted by others at any time: a pull Secret that exists holds
      the live robot's current secret, and the project never holds two robots of that
      name. */
  lemma {:induction false} AlwaysInStep(ns: string, w: World, tapes: seq<seq<Tick>>)
    requires Sound(ns, w) && FairAttempts(ns, w, tapes)
    ensures Sound(ns, Attempts(ns, w, tapes))
    decreases |tapes|
  {
    if tapes != [] {
      ExecKeepsRunning(ns, Machine(w, START), tapes[0]);
      AlwaysInStep(ns, Attempt(ns, w, tapes[0]).world, tapes[1..]);
    }
  }

  /** No step invalidates a stored credential while its Secret stays in place. */
  lemma NeverInvalidated(ns: string, m: Machine, t: Tick)
    requires Running(ns, m) && Fair(ns, m, t)
    requires m.world.pull.Some? && Step(ns, m, t).world.pull.Some?
    ensures Step(ns, m, t).world.pull == m.world.pull
    ensures Live(ns, Step(ns, m, t).world) == Live(ns, m.world)
  {
    FairDisturbance(ns, m, t);
    StepKeepsRunning(ns, m, t);
  }

  // ---------------------------------------------------------------- other people's robots

  ghost function Others(ns: string, robots: map<nat, Robot>): map<nat, Robot> {
    map id | id in robots && robots[id].name != FullName(ns) :: robots[id]
  }

  /** The robot about to be deleted bears the workspace's name, if it is still there. */
  ghost predicate AimsAtItsOwn(ns: string, m: Machine) {
    m.pc.Delete? ==> m.pc.id < m.world.nextId && (m.pc.id in m.world.robots ==> IsRobot(ns, m.world.robots, m.pc.id))
  }

  lemma CallKeepsOthers(ns: string, w: World, pc: Pc, fault: Fault, view: View)
    requires Harbor(ns, w) && AimsAtItsOwn(ns, Machine(w, pc))
    ensures var n := Call(ns, w, pc, fault, view);
            Others(ns, n.world.robots) == Others(ns, w.robots) && AimsAtItsOwn(ns, n)
  {
  }

  lemma DisturbKeepsOthers(ns: string, m: Machine, e: Env)
    requires Harbor(ns, m.world) && AimsAtItsOwn(ns, m)
    ensures var w := Disturb(ns, m.world, e);
            Others(ns, w.robots) == Others(ns, m.world.robots) && AimsAtItsOwn(ns, Machine(w, m.pc))
  {
  }

  /** Whatever anybody does and whatever the cache shows. */
  lemma {:induction false} OthersUntouched(ns: string, m: Machine, tape: seq<Tick>)
    requires Harbor(ns, m.world) && AimsAtItsOwn(ns, m)
    ensures Others(ns, Exec(ns, m, tape).world.robots) == Others(ns, m.world.robots)
    decreases |tape|
  {
    if tape != [] {
      var w := Disturb(ns, m.world, tape[0].env);
      StepKeepsHarbor(ns, m, tape[0]);
      DisturbKeepsOthers(ns, m, tape[0].env);
      CallKeepsOthers(ns, w, m.pc, tape[0].fault, tape[0].view);
      OthersUntouched(ns, Step(ns, m, tape[0]), tape[1..]);
    }
  }

  // ---------------------------------------------------------------- other people's references

  function RefsOf(account: Option<seq<string>>): seq<string> {
    if account.Some? then account.value else []
  }

  /** All that was listed is listed still, in its place; the pull Secret may have been
      added at the end, once, if it was not there. */
  predicate OnlyAppended(before: seq<string>, after: seq<string>) {
    after == before || (PULL_SECRET !in before && after == before + [PULL_SECRET])
  }

  lemma CallKeepsReferences(ns: string, w: World, pc: Pc, fault: Fault, view: View)
    ensures OnlyAppended(RefsOf(w.account), RefsOf(Call(ns, w, pc, fault, view).world.account))
  {
  }

  lemma StepKeepsReferences(ns: string, m: Machine, t: Tick)
    ensures OnlyAppended(RefsOf(m.world.account), RefsOf(Step(ns, m, t).world.account))
  {
    assert RefsOf(Disturb(ns, m.world, t.env).account) == RefsOf(m.world.account);
    CallKeepsReferences(ns, Disturb(ns, m.world, t.env), m.pc, t.fault, t.view);
  }

  /** Whatever anybody does and whatever the cache shows. */
  lemma {:induction false} ReferencesKept(ns: string, m: Machine, tape: seq<Tick>)
    ensures OnlyAppended(RefsOf(m.world.account), RefsOf(Exec(ns, m, tape).world.account))
    decreases |tape|
  {
    if tape != [] {
      var n := Step(ns, m, tape[0]);
      StepKeepsReferences(ns, m, tape[0]);
      ReferencesKept(ns, n, tape[1..]);
    }
  }

  /** However many attempts there are, and wherever they stop. */
  lemma {:induction false} ReferencesAlwaysKept(ns: string, w: World, tapes: seq<seq<Tick>>)
    ensures OnlyAppended(RefsOf(w.account), RefsOf(Attempts(ns, w, tapes).account))
    decreases |tapes|
  {
    if tapes != [] {
      ReferencesKept(ns, Machine(w, START), tapes[0]);
      ReferencesAlwaysKept(ns, Attempt(ns, w, tapes[0]).world, tapes[1..]);
    }
  }

  // ---------------------------------------------------------------- convergence

  /** The failure the protocol cannot see: a pull Secret next to a live robot whose
      secret it does not carry. */
  ghost predicate Stale(ns: string, w: World) {
    && Live(ns, w).Some?
    && w.pull.Some?
    && !Current(ns, w, w.pull.value)
  }

  /** Everything in place. */
  ghost predicate Settled(ns: string, w: World) {
    && w.project
    && w.pull.Some?
    && Live(ns, w).Some?
    && InStep(ns, w)
    && w.account.Some?
    && PULL_SECRET in w.account.value
  }

  /** Nothing an attempt would touch, whether robot and Secret are in step or not. */
  ghost predicate Resting(ns: string, w: World) {
    w.project && w.pull.Some? && Live(ns, w).Some? && w.account.Some? && PULL_SECRET in w.account.value
  }

  /** An upper bound on the calls an attempt still makes. */
  function Rank(pc: Pc): nat {
    match pc
    case CheckProject => 15
    case CreateProject => 14
    case SyncMembers => 13
    case GetProjectId(again) => if again then 8 else 12
    case ListRobots(again) => if again then 7 else 11
    case Create(again) => if again then 5 else 10
    case CheckSecret => 9
    case Delete(_) => 6
    case ReadSecret(_) => 4
    case WriteSecret(_, _) => 3
    case ReadAccount => 2
    case WriteAccount(_) => 1
    case Done => 0
    case Failed => 0
  }

  predicate AllCalm(tape: seq<Tick>) {
    forall i :: 0 <= i < |tape| ==> tape[i] == CALM
  }

  /** Nobody else at work and no call fails; the cache may still lag. */
  predicate Undisturbed(tape: seq<Tick>) {
    forall i :: 0 <= i < |tape| ==> tape[i].env == Quiet && tape[i].fault == Fine
  }

  predicate AllQuiet(tape: seq<Tick>) {
    forall i :: 0 <= i < |tape| ==> tape[i].env == Quiet
  }

  /** Where an undisturbed attempt from `w` can be. */
  ghost predicate OnCourse(ns: string, w: World, m: Machine) {
    var now := m.world;
    && Harbor(ns, now)
    && now.account == (if m.pc.Done? then Some(Listed(w.account)) else w.account)
    && (m.pc.CheckProject? || m.pc.CreateProject? || now.project)
    && (Stale(ns, w) ==> now.robots == w.robots && now.pull == w.pull)
    && (match m.pc
        case CheckProject => now == w
        case CreateProject => now == w
        case SyncMembers => now.robots == w.robots && now.pull == w.pull
        case GetProjectId(again) => if again then !Stale(ns, w) && now.pull.None? && Live(ns, now).Some?
                                    else now.robots == w.robots && now.pull == w.pull
        case ListRobots(again) => if again then !Stale(ns, w) && now.pull.None? && Live(ns, now).Some?
                                  else now.robots == w.robots && now.pull == w.pull
        case CheckSecret => now.robots == w.robots && now.pull == w.pull && Live(ns, now).Some?
        case Delete(id) => !Stale(ns, w) && now.pull.None? && IsRobot(ns, now.robots, id)
        case Create(_) => !Stale(ns, w) && Live(ns, now).None?
        case ReadSecret(creds) =>
          !Stale(ns, w) && Current(ns, now, creds)
        case WriteSecret(creds, seen) =>
          !Stale(ns, w) && Current(ns, now, creds) && seen == now.pull
        case ReadAccount => Live(ns, now).Some? && now.pull.Some? && (!Stale(ns, w) ==> InStep(ns, now))
        case WriteAccount(refs) =>
          Live(ns, now).Some? && now.pull.Some? && (!Stale(ns, w) ==> InStep(ns, now)) && refs == now.account
        case Done => Live(ns, now).Some? && now.pull.Some? && (!Stale(ns, w) ==> InStep(ns, now))
        case Failed => false)
  }

  lemma CalmStep(ns: string, w: World, m: Machine)
    requires OnCourse(ns, w, m)
    ensures OnCourse(ns, w, Step(ns, m, CALM))
    ensures m.pc.Done? || Rank(Step(ns, m, CALM).pc) < Rank(m.pc)
  {
    if m.pc.Create? {
      BornIsLive(ns, m.world);
    } else if m.pc.Delete? {
      RemovedIsGone(ns, m.world, m.pc.id);
    } else if m.pc.ListRobots? && FindId(ns, m.world.robots).Some? {
      LiveOf(ns, m.world, FindId(ns, m.world.robots).value);
    }
  }

  lemma {:induction false} CalmExec(ns: string, w: World, m: Machine, tape: seq<Tick>)
    requires OnCourse(ns, w, m) && AllCalm(tape) && |tape| >= Rank(m.pc)
    ensures OnCourse(ns, w, Exec(ns, m, tape)) && Exec(ns, m, tape).pc == Done
    decreases |tape|
  {
    if tape != [] {
      CalmStep(ns, w, m);
      CalmExec(ns, w, Step(ns, m, CALM), tape[1..]);
    }
  }

  /** From ANY pair of stores, in step or not, an undisturbed attempt finishes, and
      it leaves a live robot, a pull Secret and the ServiceAccount listing it once
      more than before at most.  It puts robot and Secret back in step exactly when
      they were not a stale pair to begin with. */
  lemma CalmAttempt(ns: string, w: World, tape: seq<Tick>)
    requires Harbor(ns, w) && AllCalm(tape) && |tape| >= Rank(START)
    ensures var m := Attempt(ns, w, tape);
            && m.pc == Done
            && Harbor(ns, m.world) && Resting(ns, m.world)
            && m.world.account == Some(Listed(w.account))
            && (Settled(ns, m.world) <==> !Stale(ns, w))
  {
    CalmExec(ns, w, Machine(w, START), tape);
    assert PULL_SECRET in Listed(w.account);
  }

  /** The pull Secret is listed exactly once afterwards if it was listed at most once. */
  lemma ListedOnce(seen: Option<seq<string>>)
    ensures var before := if seen.Some? then seen.value else [];
            multiset(Listed(seen))[PULL_SECRET] ==
            if multiset(before)[PULL_SECRET] == 0 then 1 else multiset(before)[PULL_SECRET]
  {
  }

  lemma {:induction false} CalmIsFair(ns: string, m: Machine, tape: seq<Tick>)
    requires AllCalm(tape)
    ensures FairExec(ns, m, tape) && ExecWithoutForesight(ns, m, tape)
    decreases |tape|
  {
    if tape != [] {
      CalmIsFair(ns, Step(ns, m, tape[0]), tape[1..]);
    }
  }

  /** Where an attempt on a resting workspace can be. */
  ghost predicate Idling(m: Machine) {
    || m.pc in {CheckProject, SyncMembers, GetProjectId(false), ListRobots(false),
                CheckSecret, ReadAccount, Done, Failed}
    || (m.pc.WriteAccount? && m.pc.refs != m.world.account)
  }

  lemma {:induction false} QuietExec(ns: string, m: Machine, tape: seq<Tick>)
    requires Harbor(ns, m.world) && Resting(ns, m.world) && AllQuiet(tape) && FairExec(ns, m, tape)
    requires Idling(m)
    ensures Exec(ns, m, tape).world == m.world
    decreases |tape|
  {
    if tape != [] {
      QuietExec(ns, Step(ns, m, tape[0]), tape[1..]);
    }
  }

  lemma {:induction false} QuietAttempts(ns: string, w: World, tapes: seq<seq<Tick>>)
    requires Harbor(ns, w) && Resting(ns, w) && forall i :: 0 <= i < |tapes| ==> AllQuiet(tapes[i])
    requires FairAttempts(ns, w, tapes)
    ensures Attempts(ns, w, tapes) == w
    decreases |tapes|
  {
    if tapes != [] {
      QuietExec(ns, Machine(w, START), tapes[0]);
      QuietAttempts(ns, w, tapes[1..]);
    }
  }

  lemma {:induction false} AttemptsSplit(ns: string, w: World, a: seq<seq<Tick>>, b: seq<seq<Tick>>)
    ensures Attempts(ns, w, a + b) == Attempts(ns, Attempts(ns, w, a), b)
    decreases |a|
  {
    if a == [] {
      assert a + b == b;
    } else {
      assert (a + b)[1..] == a[1..] + b;
      AttemptsSplit(ns, Attempt(ns, w, a[0]).world, a[1..], b);
    }
  }

  /** Whatever interruptions, lagging reads and Secret deletions came first, one
      undisturbed attempt with current reads settles the workspace, and later attempts
      (failing or not, reads lagging or not) mutate nothing. */
  lemma Converges(ns: string, w: World, storm: seq<seq<Tick>>, calm: seq<Tick>, later: seq<seq<Tick>>)
    requires Sound(ns, w) && FairAttempts(ns, w, storm)
    requires AllCalm(calm) && |calm| >= Rank(START)
    requires forall i :: 0 <= i < |later| ==> AllQuiet(later[i])
    requires FairAttempts(ns, Attempts(ns, w, storm + [calm]), later)
    ensures Settled(ns, Attempts(ns, w, storm + [calm]))
    ensures Attempts(ns, w, storm + [calm] + later) == Attempts(ns, w, storm + [calm])
  {
    AlwaysInStep(ns, w, storm);
    var mid := Attempts(ns, w, storm);
    AttemptsSplit(ns, w, storm, [calm]);
    var settled := Attempt(ns, mid, calm).world;
    assert Attempts(ns, settled, [calm][1..]) == settled;
    assert Attempts(ns, mid, [calm]) == settled;
    CalmAttempt(ns, mid, calm);
    CalmExec(ns, mid, Machine(mid, START), calm);
    AttemptsSplit(ns, w, storm + [calm], later);
    QuietAttempts(ns, settled, later);
  }

  // ---------------------------------------------------------------- what nobody else may do

  predicate NobodyElse(tape: seq<Tick>) {
    forall i :: 0 <= i < |tape| ==> tape[i].env == Quiet || tape[i].env == AccountAppears
  }

  /** A stale pair is never repaired, however many attempts follow: only somebody
      else removing the Secret (or the robot) can end it, or a read that lags behind. */
  lemma {:induction false} StaleForever(ns: string, m: Machine, tape: seq<Tick>)
    requires Harbor(ns, m.world) && Stale(ns, m.world) && NobodyElse(tape) && FairExec(ns, m, tape)
    requires m.pc in {CheckProject, CreateProject, SyncMembers, GetProjectId(false), ListRobots(false),
                      CheckSecret, ReadAccount, Done, Failed} || m.pc.WriteAccount?
    ensures Stale(ns, Exec(ns, m, tape).world)
    ensures Exec(ns, m, tape).world.pull == m.world.pull
    ensures Exec(ns, m, tape).world.robots == m.world.robots
    decreases |tape|
  {
    if tape != [] {
      var n := Step(ns, m, tape[0]);
      assert Disturb(ns, m.world, tape[0].env).robots == m.world.robots;
      assert n.world.robots == m.world.robots && n.world.pull == m.world.pull;
      StaleForever(ns, n, tape[1..]);
    }
  }

  /** The witness: a settled workspace, the robot removed by someone else, and an
      attempt that dies after creating the new robot. */
  lemma RobotGoneStrandsTheSecret(ns: string, w: World) returns (tape: seq<Tick>)
    requires Sound(ns, w) && Settled(ns, w)
    ensures Stale(ns, Attempt(ns, w, tape).world)
    ensures forall i :: 1 <= i < |tape| ==> tape[i] == CALM
  {
    tape := [Tick(RobotGone, Fine, Fresh), CALM, CALM, CALM, CALM];
    var id := FindId(ns, w.robots).value;
    RemovedIsGone(ns, w, id);
    var gone := w.(robots := w.robots - {id});
    BornIsLive(ns, gone);
    var m0 := Machine(w, START);
    var m1 := Machine(gone, SyncMembers);
    var m2 := Machine(gone, GetProjectId(false));
    var m3 := Machine(gone, ListRobots(false));
    var m4 := Machine(gone, Create(false));
    var m5 := Machine(Born(ns, gone), ReadSecret(Creds(FullName(ns), gone.nextSecret)));
    assert Exec(ns, m5, tape[5..]) == m5;
    assert Exec(ns, m4, tape[4..]) == m5;
    assert Exec(ns, m3, tape[3..]) == m5;
    assert Exec(ns, m2, tape[2..]) == m5;
    assert Exec(ns, m1, tape[1..]) == m5;
    assert Exec(ns, m0, tape) == m5;
  }

  /** No stored or held credential is older than `since`. */
  ghost predicate NewSince(m: Machine, since: nat) {
    && m.world.nextSecret >= since
    && (m.world.pull.Some? ==> m.world.pull.value.secret >= since)
    && (m.pc.ReadSecret? || m.pc.WriteSecret? ==> m.pc.creds.secret >= since)
  }

  lemma {:induction false} RefreshedSecretsAreNew(ns: string, m: Machine, tape: seq<Tick>, since: nat)
    requires NewSince(m, since) && AllCalm(tape)
    ensures NewSince(Exec(ns, m, tape), since)
    decreases |tape|
  {
    if tape != [] {
      RefreshedSecretsAreNew(ns, Step(ns, m, tape[0]), tape[1..], since);
    }
  }

  /** Even the current credentials must not be put back in the middle of a refresh:
      the robot they belong to is about to go, and an attempt that then dies before its
      write leaves a stale pair. */
  lemma PutBackMidRefreshStrands(ns: string, m: Machine)
    requires Running(ns, m) && m.pc.Delete?
    ensures var creds := Creds(FullName(ns), m.world.robots[m.pc.id].secret);
            && Current(ns, m.world, creds)
            && Stale(ns, Exec(ns, m, [Tick(SecretBack(creds), Fine, Fresh), CALM]).world)
  {
    var w, id := m.world, m.pc.id;
    LiveOf(ns, w, id);
    var creds := Creds(FullName(ns), w.robots[id].secret);
    var tape := [Tick(SecretBack(creds), Fine, Fresh), CALM];
    RemovedIsGone(ns, w, id);
    var bare := w.(pull := Some(creds), robots := w.robots - {id});
    BornIsLive(ns, bare);
    var end := Machine(Born(ns, bare), ReadSecret(Creds(FullName(ns), w.nextSecret)));
    assert Exec(ns, end, tape[2..]) == end;
    assert Exec(ns, Machine(bare, Create(true)), tape[1..]) == end;
    assert Exec(ns, m, tape) == end;
  }

  /** The other witness, the repository's own restore flow.  From every settled state:
      the Secret is lost, an undisturbed attempt refreshes the robot and settles again,
      and a backup taken before brings the old Secret back. */
  lemma BackupStrandsTheSecret(ns: string, w: World, calm: seq<Tick>)
    requires Sound(ns, w) && Settled(ns, w) && AllCalm(calm) && |calm| >= Rank(START)
    ensures Settled(ns, Attempts(ns, w, [[Tick(SecretGone, Before, Fresh)], calm]))
    ensures Stale(ns, Attempts(ns, w, [[Tick(SecretGone, Before, Fresh)], calm,
                                       [Tick(SecretBack(w.pull.value), Before, Fresh)]]))
  {
    var lose, back := [Tick(SecretGone, Before, Fresh)], [Tick(SecretBack(w.pull.value), Before, Fresh)];
    var lost := w.(pull := None, lost := w.lost + 1);
    assert Attempt(ns, w, lose) == Exec(ns, Machine(lost, Failed), lose[1..]) == Machine(lost, Failed);
    CalmAttempt(ns, lost, calm);
    RefreshedSecretsAreNew(ns, Machine(lost, START), calm, w.nextSecret);
    var again := Attempt(ns, lost, calm).world;
    var old_ := Disturb(ns, again, SecretBack(w.pull.value));
    assert Attempt(ns, again, back) == Exec(ns, Machine(old_, Failed), back[1..]) == Machine(old_, Failed);
    assert Attempts(ns, w, [lose]) == lost by { assert Attempts(ns, lost, [lose][1..]) == lost; }
    assert Attempts(ns, lost, [calm]) == again by { assert Attempts(ns, again, [calm][1..]) == again; }
    assert Attempts(ns, again, [back]) == old_ by { assert Attempts(ns, old_, [back][1..]) == old_; }
    AttemptsSplit(ns, w, [lose], [calm]);
    AttemptsSplit(ns, w, [lose] + [calm], [back]);
    assert [lose] + [calm] == [lose, calm] && [lose, calm] + [back] == [lose, calm, back];
  }

  // ---------------------------------------------------------------- what a lagging cache does

  lemma {:induction false} AccountCallsOnly(ns: string, m: Machine, tape: seq<Tick>)
    requires Undisturbed(tape) && (m.pc in {ReadAccount, Done, Failed} || m.pc.WriteAccount?)
    ensures Exec(ns, m, tape).world.robots == m.world.robots && Exec(ns, m, tape).world.pull == m.world.pull
    decreases |tape|
  {
    if tape != [] {
      AccountCallsOnly(ns, Step(ns, m, tape[0]), tape[1..]);
    }
  }

  /** The write succeeds exactly when the copy read before it is what is stored. */
  lemma FromReadSecret(ns: string, w: World, creds: Creds, tape: seq<Tick>)
    requires Undisturbed(tape) && |tape| >= 2
    ensures var end := Exec(ns, Machine(w, ReadSecret(creds)), tape).world;
            && end.robots == w.robots
            && end.pull == if ShownPull(w.pull, tape[0].view) == w.pull then Some(creds) else w.pull
  {
    var n := Step(ns, Machine(w, ReadSecret(creds)), tape[0]);
    if n.pc.ReadAccount? {
      AccountCallsOnly(ns, n, tape[1..]);
    } else {
      AccountCallsOnly(ns, Step(ns, n, tape[1]), tape[1..][1..]);
    }
  }

  lemma FromCreate(ns: string, w: World, again: bool, tape: seq<Tick>)
    requires Harbor(ns, w) && Live(ns, w).None? && Undisturbed(tape) && |tape| >= 3
    ensures var end := Exec(ns, Machine(w, Create(again)), tape).world;
            && Live(ns, end) == Some(w.nextSecret)
            && end.pull == if ShownPull(w.pull, tape[1].view) == w.pull
                           then Some(Creds(FullName(ns), w.nextSecret)) else w.pull
  {
    BornIsLive(ns, w);
    FromReadSecret(ns, Born(ns, w), Creds(FullName(ns), w.nextSecret), tape[1..]);
  }

  lemma FromRefresh(ns: string, w: World, tape: seq<Tick>)
    requires Harbor(ns, w) && w.project && Live(ns, w).Some? && Undisturbed(tape) && |tape| >= 6
    ensures var end := Exec(ns, Machine(w, GetProjectId(true)), tape).world;
            && Live(ns, end) == Some(w.nextSecret)
            && end.pull == if ShownPull(w.pull, tape[4].view) == w.pull
                           then Some(Creds(FullName(ns), w.nextSecret)) else w.pull
  {
    var id := FindId(ns, w.robots).value;
    RemovedIsGone(ns, w, id);
    var bare := w.(robots := w.robots - {id});
    FromCreate(ns, bare, true, tape[3..]);
    assert tape[1..][1..] == tape[2..] && tape[2..][1..] == tape[3..];
    assert Exec(ns, Machine(w, Delete(id)), tape[2..]) == Exec(ns, Machine(bare, Create(true)), tape[3..]);
    assert Exec(ns, Machine(w, ListRobots(true)), tape[1..]) == Exec(ns, Machine(w, Delete(id)), tape[2..]);
  }

  lemma FromCheckSecret(ns: string, w: World, tape: seq<Tick>)
    requires Sound(ns, w) && w.project && Live(ns, w).Some? && Undisturbed(tape) && |tape| >= 7
    ensures Stale(ns, Exec(ns, Machine(w, CheckSecret), tape).world) <==>
            && w.pull.Some? && ShownPull(w.pull, tape[0].view).None?
            && ShownPull(w.pull, tape[5].view) != w.pull
  {
    if ShownPull(w.pull, tape[0].view).None? {
      FromRefresh(ns, w, tape[1..]);
    } else {
      AccountCallsOnly(ns, Machine(w, ReadAccount), tape[1..]);
    }
  }

  lemma FromListRobots(ns: string, w: World, tape: seq<Tick>)
    requires Sound(ns, w) && w.project && Undisturbed(tape) && |tape| >= 8
    ensures Stale(ns, Exec(ns, Machine(w, ListRobots(false)), tape).world) <==>
            && Live(ns, w).Some? && w.pull.Some? && ShownPull(w.pull, tape[1].view).None?
            && ShownPull(w.pull, tape[6].view) != w.pull
  {
    if Live(ns, w).Some? {
      FromCheckSecret(ns, w, tape[1..]);
    } else {
      FromCreate(ns, w, false, tape[1..]);
    }
  }

  /** How many calls an undisturbed attempt makes before the existence check. */
  function CheckAt(w: World): nat {
    if w.project then 4 else 5
  }

  /** The existence check is told "missing" of a Secret that exists, and the copy read
      before the write still is not the Secret that is stored. */
  ghost predicate Misled(ns: string, w: World, tape: seq<Tick>)
    requires |tape| >= Rank(START)
  {
    && Live(ns, w).Some? && w.pull.Some?
    && ShownPull(w.pull, tape[CheckAt(w)].view).None?
    && ShownPull(w.pull, tape[CheckAt(w) + 5].view) != w.pull
  }

  /** With nobody else at work and no call failing, lagging reads break an attempt that
      starts in step exactly in this way. */
  lemma LaggingReadsExactly(ns: string, w: World, tape: seq<Tick>)
    requires Sound(ns, w) && Undisturbed(tape) && |tape| >= Rank(START)
    ensures Stale(ns, Attempt(ns, w, tape).world) <==> Misled(ns, w, tape)
  {
    var k, v := CheckAt(w) - 1, w.(project := true);
    FromListRobots(ns, v, tape[k..]);
    assert tape[1..][1..] == tape[2..] && tape[2..][1..] == tape[3..] && tape[3..][1..] == tape[4..];
    var listing := Exec(ns, Machine(v, ListRobots(false)), tape[k..]);
    assert Exec(ns, Machine(v, GetProjectId(false)), tape[k - 1..]) == listing;
    assert Exec(ns, Machine(v, SyncMembers), tape[k - 2..]) == listing;
    if w.project {
      assert v == w;
    } else {
      assert Exec(ns, Machine(w, CreateProject), tape[1..]) == listing;
    }
  }

  /** The cache has not seen the Secret yet: every read shows it as missing. */
  predicate NeverSeen(tape: seq<Tick>) {
    forall i :: 0 <= i < |tape| ==> tape[i].view.Copy? && tape[i].view.pull.None?
  }

  /** The witness, with nobody else at work.  From any state without the Secret one
      attempt settles the workspace; if the next one reads the Secret as it was before,
      it replaces the robot and leaves the stored Secret stale. */
  lemma UnseenSecretIsInvalidated(ns: string, w: World, calm: seq<Tick>, again: seq<Tick>)
    requires Sound(ns, w) && w.pull.None? && AllCalm(calm) && |calm| >= Rank(START)
    requires Undisturbed(again) && NeverSeen(again) && |again| >= Rank(START)
    ensures Settled(ns, Attempts(ns, w, [calm])) && Stale(ns, Attempts(ns, w, [calm, again]))
  {
    CalmAttempt(ns, w, calm);
    var settled := Attempt(ns, w, calm).world;
    LaggingReadsExactly(ns, settled, again);
    var stale := Attempt(ns, settled, again).world;
    assert Attempts(ns, w, [calm]) == settled by { assert Attempts(ns, settled, [calm][1..]) == settled; }
    assert Attempts(ns, settled, [again]) == stale by { assert Attempts(ns, stale, [again][1..]) == stale; }
    assert [calm, again][1..] == [again];
  }

  // ---------------------------------------------------------------- accounting

  /** One robot creation a resting workspace is still owed. */
  ghost function Owed(ns: string, w: World): nat {
    if Live(ns, w).None? || w.pull.None? then 1 else 0
  }

  /** The same for an attempt under way; one that holds fresh credentials, or that
      has failed (its interruption is charged separately), is owed nothing. */
  ghost function OwedBy(ns: string, m: Machine): nat {
    match m.pc
    case ReadSecret(_) => 0
    case WriteSecret(_, _) => 0
    case Failed => 0
    case _ => Owed(ns, m.world)
  }

  lemma CallPays(ns: string, w: World, pc: Pc, fault: Fault, view: View)
    requires Running(ns, Machine(w, pc))
    requires pc.CheckSecret? && ShownPull(w.pull, view).None? ==> w.pull.None?
    requires pc.ReadSecret? && ShownPull(w.pull, view) == Some(pc.creds) ==> w.pull == Some(pc.creds)
    ensures var n := Call(ns, w, pc, fault, view);
            && n.world.lost == w.lost
            && n.world.nextSecret + OwedBy(ns, n) <= w.nextSecret + OwedBy(ns, Machine(w, pc))
  {
    match pc
    case Create(_) => BornIsLive(ns, w);
    case Delete(id) => RemovedIsGone(ns, w, id);
    case _ =>
  }

  lemma StepPays(ns: string, m: Machine, t: Tick)
    requires Running(ns, m) && Fair(ns, m, t) && NoForesight(ns, m, t)
    ensures var n := Step(ns, m, t);
            n.world.nextSecret + OwedBy(ns, n) - n.world.lost <= m.world.nextSecret + OwedBy(ns, m) - m.world.lost
  {
    FairDisturbance(ns, m, t);
    CallPays(ns, Disturb(ns, m.world, t.env), m.pc, t.fault, t.view);
  }

  lemma {:induction false} ExecPays(ns: string, m: Machine, tape: seq<Tick>)
    requires Running(ns, m) && FairExec(ns, m, tape) && ExecWithoutForesight(ns, m, tape)
    ensures var n := Exec(ns, m, tape);
            n.world.nextSecret + OwedBy(ns, n) - n.world.lost <= m.world.nextSecret + OwedBy(ns, m) - m.world.lost
    decreases |tape|
  {
    if tape != [] {
      StepPays(ns, m, tape[0]);
      StepKeepsRunning(ns, m, tape[0]);
      ExecPays(ns, Step(ns, m, tape[0]), tape[1..]);
    }
  }

  /** How many of the attempts did not run to their end. */
  ghost function Interrupted(ns: string, w: World, tapes: seq<seq<Tick>>): nat
    decreases |tapes|
  {
    if tapes == [] then 0 else
      var m := Attempt(ns, w, tapes[0]);
      (if m.pc.Done? then 0 else 1) + Interrupted(ns, m.world, tapes[1..])
  }

  lemma {:induction false} RunPays(ns: string, w: World, tapes: seq<seq<Tick>>)
    requires Sound(ns, w) && FairAttempts(ns, w, tapes) && AttemptsWithoutForesight(ns, w, tapes)
    ensures var v := Attempts(ns, w, tapes);
            v.nextSecret + Owed(ns, v) - v.lost <= w.nextSecret + Owed(ns, w) - w.lost + Interrupted(ns, w, tapes)
    decreases |tapes|
  {
    if tapes != [] {
      var m := Attempt(ns, w, tapes[0]);
      ExecPays(ns, Machine(w, START), tapes[0]);
      ExecKeepsRunning(ns, Machine(w, START), tapes[0]);
      RunPays(ns, m.world, tapes[1..]);
    }
  }

  /** Over any run: robots created are at most one, plus the Secrets others deleted,
      plus the attempts that were interrupted. */
  lemma CreationsAreAccountedFor(ns: string, w: World, tapes: seq<seq<Tick>>)
    requires Sound(ns, w) && FairAttempts(ns, w, tapes) && AttemptsWithoutForesight(ns, w, tapes)
    ensures var v := Attempts(ns, w, tapes);
            v.nextSecret - w.nextSecret <= 1 + (v.lost - w.lost) + Interrupted(ns, w, tapes)
  {
    RunPays(ns, w, tapes);
  }

  /** Whether the attempt may still create a robot. */
  function MayCreate(pc: Pc): nat {
    match pc
    case ReadSecret(_) => 0
    case WriteSecret(_, _) => 0
    case ReadAccount => 0
    case WriteAccount(_) => 0
    case Done => 0
    case Failed => 0
    case _ => 1
  }

  lemma CallCreatesAtMostOne(ns: string, w: World, pc: Pc, fault: Fault, view: View)
    ensures var n := Call(ns, w, pc, fault, view);
            w.nextSecret <= n.world.nextSecret && n.world.nextSecret + MayCreate(n.pc) <= w.nextSecret + MayCreate(pc)
  {
  }

  lemma {:induction false} CreatesAtMostOne(ns: string, m: Machine, tape: seq<Tick>)
    ensures m.world.nextSecret <= Exec(ns, m, tape).world.nextSecret <= m.world.nextSecret + MayCreate(m.pc)
    decreases |tape|
  {
    if tape != [] {
      CallCreatesAtMostOne(ns, Disturb(ns, m.world, tape[0].env), m.pc, tape[0].fault, tape[0].view);
      CreatesAtMostOne(ns, Step(ns, m, tape[0]), tape[1..]);
    }
  }
}
