/** What wakes the controller: watches, their predicates, the fan-out over all
    workspaces, the work queue, and what each kind of outcome does to it.

    The API server's state and the informer cache are kept apart: a reconcile reads
    the cache, an event is what happens when the cache catches up, and any number of
    changes may lie between. */
module WorkQueue {
  import opened Common

  /** A Workspace as far as waking up goes.  `generation` counts spec changes;
      `synced` says that its namespace label matches. */
  datatype Ws = Ws(uid: nat, generation: nat, synced: bool)

  /** A reconcile under way and what it has read so far. */
  datatype Run = Run(ws: Ws, config: Option<nat>, secret: Option<nat>)

  /** How a reconcile ends (see `Reconcile` and `handleReconcileError`). */
  datatype Outcome =
    | Gone                          // no such Workspace
    | Backfilled                    // the namespace label was written, nothing else
    | Succeeded(pending: bool)      // pending: some members have no Harbor user yet
    | Conflicted(patched: bool)     // namespace conflict; patched: Ready=False was stored
    | Errored                       // any other error, write conflicts included

  /** The outcomes after which controller-runtime calls again on its own. */
  predicate Requeues(o: Outcome) {
    match o
    case Gone => false
    case Backfilled => false
    case Succeeded(pending) => pending
    case Conflicted(patched) => !patched
    case Errored => true
  }

  /** What the last finished reconcile of a workspace amounts to. */
  datatype Rest =
    | Never
    | Synced(uid: nat, generation: nat, config: nat, secret: nat, pending: bool)
    | Parked(uid: nat, generation: nat, config: nat, reported: bool)
    | LabelOnly

  datatype State = State(
    live: map<string, Ws>, cached: map<string, Ws>,
    config: nat, cachedConfig: nat,
    secret: nat, cachedSecret: nat,
    owed: nat,                        // operator-input events whose fan-out is yet to run
    dirty: set<string>,               // the queue: an item added while it is processed stays here
    processing: map<string, Run>,
    timers: set<string>,              // delayed and rate-limited re-adds
    rest: map<string, Rest>)

  datatype Move =
    // users and operators of the cluster
    | Create(name: string, uid: nat, synced: bool)
    | UpdateSpec(name: string, synced: bool)
    | Relabel(name: string, synced: bool)
    | Delete(name: string)
    | SetConfig(data: nat)
    | SetSecret(data: nat)
    // informers
    | DeliverWs(name: string)
    | DeliverConfig
    | DeliverSecret
    | FanOut
    | FanOutFails                     // the List inside the fan-out returned an error
    | Poke(name: string)              // an event on an object the workspace owns
    // the controller
    | Start(name: string)
    | ReadConfig(name: string)
    | ReadSecret(name: string)
    | Finish(name: string, outcome: Outcome)
    | Fire(name: string)
    | Restart

  function RestOf(s: State, name: string): Rest {
    if name in s.rest then s.rest[name] else Never
  }

  /** Which outcomes a run can have. */
  predicate Possible(run: Run, o: Outcome) {
    match o
    case Gone => false
    case Backfilled => !run.ws.synced
    case Succeeded(_) => run.ws.synced && run.config.Some? && run.secret.Some?
    case Conflicted(_) => run.ws.synced && run.config.Some?
    case Errored => true
  }

  function RestAfter(run: Run, o: Outcome, before: Rest): Rest
    requires Possible(run, o)
  {
    match o
    case Gone => before
    case Backfilled => LabelOnly
    case Succeeded(pending) => Synced(run.ws.uid, run.ws.generation, run.config.value, run.secret.value, pending)
    case Conflicted(patched) => Parked(run.ws.uid, run.ws.generation, run.config.value, patched)
    case Errored => before
  }

  function Step(s: State, m: Move): State {
    match m
    case Create(name, uid, synced) =>
      if name in s.live then s else s.(live := s.live[name := Ws(uid, 1, synced)])
    case UpdateSpec(name, synced) =>
      if name !in s.live then s
      else s.(live := s.live[name := Ws(s.live[name].uid, s.live[name].generation + 1, synced)])
    case Relabel(name, synced) =>
      if name !in s.live then s else s.(live := s.live[name := s.live[name].(synced := synced)])
    case Delete(name) => s.(live := s.live - {name})
    case SetConfig(data) => s.(config := data)
    case SetSecret(data) => s.(secret := data)
    case DeliverWs(name) =>
      if name !in s.live && name !in s.cached then s
      else if name !in s.live then s.(cached := s.cached - {name}, dirty := s.dirty + {name})
      else
        // creations pass the predicate, updates only when the generation moved
        var passes := name in s.cached ==> s.cached[name].generation != s.live[name].generation;
        s.(cached := s.cached[name := s.live[name]], dirty := if passes then s.dirty + {name} else s.dirty)
    case DeliverConfig =>
      s.(cachedConfig := s.config, owed := if s.cachedConfig != s.config then s.owed + 1 else s.owed)
    case DeliverSecret =>
      s.(cachedSecret := s.secret, owed := if s.cachedSecret != s.secret then s.owed + 1 else s.owed)
    case FanOut =>
      if s.owed == 0 then s else s.(owed := s.owed - 1, dirty := s.dirty + s.cached.Keys)
    case FanOutFails =>
      if s.owed == 0 then s else s.(owed := s.owed - 1)
    case Poke(name) => s.(dirty := s.dirty + {name})
    case Start(name) =>
      if name !in s.dirty || name in s.processing then s
      else if name !in s.cached then s.(dirty := s.dirty - {name})
      else s.(dirty := s.dirty - {name}, processing := s.processing[name := Run(s.cached[name], None, None)])
    case ReadConfig(name) =>
      if name !in s.processing || s.processing[name].config.Some? then s
      else s.(processing := s.processing[name := s.processing[name].(config := Some(s.cachedConfig))])
    case ReadSecret(name) =>
      if name !in s.processing || s.processing[name].secret.Some? then s
      else s.(processing := s.processing[name := s.processing[name].(secret := Some(s.cachedSecret))])
    case Finish(name, o) =>
      if name !in s.processing || !Possible(s.processing[name], o) then s
      // the backfill is an optimistic-lock Update: it lands on the copy that was read
      else if o.Backfilled? && !(name in s.live && s.live[name] == s.processing[name].ws) then s
      else s.(processing := s.processing - {name},
              timers := if Requeues(o) then s.timers + {name} else s.timers,
              rest := s.rest[name := RestAfter(s.processing[name], o, RestOf(s, name))],
              live := if o.Backfilled? then s.live[name := s.live[name].(synced := true)] else s.live)
    case Fire(name) =>
      if name !in s.timers then s else s.(timers := s.timers - {name}, dirty := s.dirty + {name})
    case Restart =>
      s.(cached := s.live, cachedConfig := s.config, cachedSecret := s.secret, owed := 0,
         dirty := s.live.Keys, processing := map[], timers := {})
  }

  function Exec(s: State, moves: seq<Move>): State
    decreases |moves|
  {
    if moves == [] then s else Exec(Step(s, moves[0]), moves[1..])
  }

  // ---------------------------------------------------------------- no lost wake-ups

  /** A workspace deleted and created again, delivered as one update in which the
      generation did not move. */
  predicate Masked(s: State, name: string) {
    && name in s.live && name in s.cached
    && s.live[name].uid != s.cached[name].uid
    && s.live[name].generation == s.cached[name].generation
  }

  /** What the watches are relied on for: the fan-out's List answers, and no re-creation
      is masked when it is delivered. */
  predicate Reliable(s: State, m: Move) {
    && !m.FanOutFails?
    && (m.DeliverWs? ==> !Masked(s, m.name))
  }

  predicate AllReliable(s: State, moves: seq<Move>)
    decreases |moves|
  {
    moves != [] ==> Reliable(s, moves[0]) && AllReliable(Step(s, moves[0]), moves[1..])
  }

  predicate RunFresh(s: State, name: string) {
    && name in s.processing && name in s.cached
    && s.processing[name].ws.uid == s.cached[name].uid
    && s.processing[name].ws.generation == s.cached[name].generation
    && (s.owed == 0 ==>
          && (s.processing[name].config.Some? ==> s.processing[name].config.value == s.cachedConfig)
          && (s.processing[name].secret.Some? ==> s.processing[name].secret.value == s.cachedSecret))
  }

  predicate RestFresh(s: State, name: string)
    requires name in s.cached
  {
    match RestOf(s, name)
    case Never => false
    case LabelOnly => true
    case Synced(uid, generation, config, secret, pending) =>
      && !pending && uid == s.cached[name].uid && generation == s.cached[name].generation
      && (s.owed == 0 ==> config == s.cachedConfig && secret == s.cachedSecret)
    case Parked(uid, generation, config, reported) =>
      && reported && uid == s.cached[name].uid && generation == s.cached[name].generation
      && (s.owed == 0 ==> config == s.cachedConfig)
  }

  /** Queued, waiting on a timer, being handled with current inputs, or at rest on
      current inputs. */
  predicate Accounted(s: State, name: string)
    requires name in s.cached
  {
    name in s.dirty || name in s.timers || RunFresh(s, name) || (name !in s.processing && RestFresh(s, name))
  }

  ghost predicate Inv(s: State) {
    forall name :: name in s.cached ==> Accounted(s, name)
  }

  lemma StaysAccounted(s: State, m: Move, name: string)
    requires Inv(s) && Reliable(s, m) && name in Step(s, m).cached
    ensures Accounted(Step(s, m), name)
  {
    var t := Step(s, m);
    if name in s.cached {
      assert Accounted(s, name);
    }
    match m
    case DeliverWs(n) => assert n != name ==> t.cached[name] == s.cached[name];
    case Finish(n, o) => assert n != name ==> RestOf(t, name) == RestOf(s, name);
    case _ =>
  }

  lemma StepKeepsInv(s: State, m: Move)
    requires Inv(s) && Reliable(s, m)
    ensures Inv(Step(s, m))
  {
    forall name | name in Step(s, m).cached ensures Accounted(Step(s, m), name) {
      StaysAccounted(s, m, name);
    }
  }

  lemma {:induction false} ExecKeepsInv(s: State, moves: seq<Move>)
    requires Inv(s) && AllReliable(s, moves)
    ensures Inv(Exec(s, moves))
    decreases |moves|
  {
    if moves != [] {
      StepKeepsInv(s, moves[0]);
      ExecKeepsInv(Step(s, moves[0]), moves[1..]);
    }
  }

  /** Nothing is on its way to this workspace: no queue entry, no timer, no run, no
      event yet to be delivered. */
  predicate Asleep(s: State, name: string) {
    && name in s.live && name in s.cached
    && s.cached[name].uid == s.live[name].uid && s.cached[name].generation == s.live[name].generation
    && s.cachedConfig == s.config && s.cachedSecret == s.secret && s.owed == 0
    && name !in s.dirty && name !in s.timers && name !in s.processing
  }

  /** No lost wake-ups.  In every reachable state a workspace nothing is on its way to
      was last reconciled successfully at its current generation and the current
      operator inputs (changes that landed in the middle of that reconcile included)
      with no Harbor member pending, or is parked on a namespace conflict found at them
      and reported, or was only relabelled. */
  lemma NoLostWakeUps(s: State, moves: seq<Move>, name: string)
    requires Inv(s) && AllReliable(s, moves) && Asleep(Exec(s, moves), name)
    ensures var t := Exec(s, moves);
            match RestOf(t, name)
            case Never => false
            case LabelOnly => true
            case Synced(uid, generation, config, secret, pending) =>
              && !pending
              && t.live[name].uid == uid && t.live[name].generation == generation
              && t.config == config && t.secret == secret
            case Parked(uid, generation, config, reported) =>
              reported && t.live[name].uid == uid && t.live[name].generation == generation && t.config == config
  {
    ExecKeepsInv(s, moves);
    assert Accounted(Exec(s, moves), name);
  }

  /** Nothing wakes a workspace for no reason: from sleep, one move queues it exactly if
      that is an event on an object it owns or a restart.  Deliveries that bring nothing
      new, events of other workspaces and their reconciles do not. */
  lemma WokenExactly(s: State, m: Move, name: string)
    requires Asleep(s, name)
    ensures name in Step(s, m).dirty <==> m == Poke(name) || m == Restart
    ensures m.DeliverWs? || m.DeliverConfig? || m.DeliverSecret? || m.FanOut? || m.Fire? || m.Start? ==>
              Asleep(Step(s, m), name)
  {
  }

  // ---------------------------------------------------------------- the label backfill

  /** Every Workspace is written with its label in place (the webhook stamps it). */
  predicate Stamped(m: Move) {
    match m
    case Create(_, _, synced) => synced
    case UpdateSpec(_, synced) => synced
    case Relabel(_, synced) => synced
    case _ => true
  }

  ghost predicate NoBackfill(s: State) {
    && (forall name :: name in s.live ==> s.live[name].synced)
    && (forall name :: name in s.cached ==> s.cached[name].synced)
    && (forall name :: name in s.processing ==> s.processing[name].ws.synced)
    && (forall name :: name in s.rest ==> s.rest[name] != LabelOnly)
  }

  lemma StampedStep(s: State, m: Move)
    requires NoBackfill(s) && Stamped(m)
    ensures NoBackfill(Step(s, m))
  {
    match m
    case Finish(name, o) =>
      if name in s.processing && Possible(s.processing[name], o) {
        assert s.processing[name].ws.synced && !o.Backfilled?;
      }
    case Start(name) => assert name in s.cached ==> s.cached[name].synced;
    case DeliverWs(name) => assert name in s.live ==> s.live[name].synced;
    case _ =>
  }

  lemma {:induction false} StampedNeverBackfills(s: State, moves: seq<Move>)
    requires NoBackfill(s) && forall i :: 0 <= i < |moves| ==> Stamped(moves[i])
    ensures NoBackfill(Exec(s, moves))
    decreases |moves|
  {
    if moves != [] {
      StampedStep(s, moves[0]);
      StampedNeverBackfills(Step(s, moves[0]), moves[1..]);
    }
  }

  /** The exception.  A reconcile that only backfills the label does not bring itself
      back: once its own update has been delivered, the workspace is asleep without
      having been reconciled, exactly when nothing else had queued it meanwhile. */
  lemma BackfillDoesNotRequeue(s: State, name: string)
    requires name in s.processing && !s.processing[name].ws.synced
    requires name in s.live && s.live[name] == s.processing[name].ws
    requires name in s.cached && s.cached[name] == s.live[name]
    requires s.cachedConfig == s.config && s.cachedSecret == s.secret && s.owed == 0
    ensures var t := Exec(s, [Finish(name, Backfilled), DeliverWs(name)]);
            && name in t.live && name in t.cached && t.live[name].synced && t.cached[name] == t.live[name]
            && RestOf(t, name) == LabelOnly
            && (Asleep(t, name) <==> name !in s.dirty && name !in s.timers)
  {
    var a := Step(s, Finish(name, Backfilled));
    var b := Step(a, DeliverWs(name));
    assert Exec(b, []) == b;
    assert Exec(a, [DeliverWs(name)]) == b;
    assert [Finish(name, Backfilled), DeliverWs(name)][1..] == [DeliverWs(name)];
  }

  // ---------------------------------------------------------------- why the watches must be reliable

  /** A fan-out whose List fails is dropped: a workspace at rest stays asleep on
      operator inputs it never saw. */
  lemma FailedFanOutLosesTheWakeUp(s: State, name: string, data: nat)
    requires Asleep(s, name) && RestOf(s, name).Synced? && RestOf(s, name).config == s.config && data != s.config
    ensures var t := Exec(s, [SetConfig(data), DeliverConfig, FanOutFails]);
            Asleep(t, name) && RestOf(t, name) == RestOf(s, name) && RestOf(t, name).config != t.config
  {
    var moves := [SetConfig(data), DeliverConfig, FanOutFails];
    var c := Step(Step(Step(s, moves[0]), moves[1]), moves[2]);
    assert Exec(c, moves[3..]) == c;
    assert moves[1..][1..] == moves[2..] && moves[2..][1..] == moves[3..];
    assert Exec(Step(Step(s, moves[0]), moves[1]), moves[2..]) == c;
  }

  /** Delivering a re-creation puts the workspace to sleep, unreconciled, exactly when
      the generations coincide: that is when `Reliable` is needed. */
  lemma RecreationIsMissedExactly(s: State, name: string)
    requires name in s.live && name in s.cached && s.live[name].uid != s.cached[name].uid
    requires s.cachedConfig == s.config && s.cachedSecret == s.secret && s.owed == 0
    requires name !in s.dirty && name !in s.timers && name !in s.processing
    ensures var t := Step(s, DeliverWs(name));
            && RestOf(t, name) == RestOf(s, name) && t.live == s.live && t.cached[name] == t.live[name]
            && (Asleep(t, name) <==> Masked(s, name))
            && (Masked(s, name) <==> !Reliable(s, DeliverWs(name)))
  {
  }

  function Edits(name: string, n: nat): seq<Move> {
    seq(n, _ => UpdateSpec(name, true))
  }

  lemma {:induction false} ExecSplits(s: State, a: seq<Move>, b: seq<Move>)
    ensures Exec(s, a + b) == Exec(Exec(s, a), b)
    decreases |a|
  {
    if a == [] {
      assert a + b == b;
    } else {
      assert (a + b)[1..] == a[1..] + b;
      ExecSplits(Step(s, a[0]), a[1..], b);
    }
  }

  lemma {:induction false} EditsCount(s: State, name: string, n: nat)
    requires name in s.live && s.live[name].synced
    ensures Exec(s, Edits(name, n)) ==
            s.(live := s.live[name := s.live[name].(generation := s.live[name].generation + n)])
    decreases n
  {
    if n == 0 {
      assert s.live[name := s.live[name]] == s.live;
    } else {
      var t := Step(s, UpdateSpec(name, true));
      assert Edits(name, n)[1..] == Edits(name, n - 1);
      EditsCount(t, name, n - 1);
    }
  }

  /** The generation alone cannot tell a re-created workspace from the old one.  If the
      deletion is never delivered separately, the new one is left unreconciled exactly
      when its edits so far bring it to the generation the old one had. */
  lemma CompressedRecreationLosesTheWakeUp(s: State, name: string, uid: nat, edits: nat)
    requires Asleep(s, name) && uid != s.live[name].uid && RestOf(s, name).Synced?
    requires RestOf(s, name).uid == s.live[name].uid
    ensures var t := Exec(s, [Delete(name), Create(name, uid, true)] + Edits(name, edits) + [DeliverWs(name)]);
            && RestOf(t, name) == RestOf(s, name) && name in t.live && RestOf(t, name).uid != t.live[name].uid
            && (Asleep(t, name) <==> s.live[name].generation == 1 + edits)
  {
    var born := [Delete(name), Create(name, uid, true)];
    var b := Step(Step(s, born[0]), born[1]);
    assert born[1..][1..] == [] && Exec(Step(s, born[0]), born[1..]) == b && Exec(s, born) == b;
    EditsCount(b, name, edits);
    var e := Exec(b, Edits(name, edits));
    ExecSplits(s, born, Edits(name, edits));
    ExecSplits(s, born + Edits(name, edits), [DeliverWs(name)]);
    var t := Step(e, DeliverWs(name));
    assert [DeliverWs(name)][1..] == [] && Exec(e, [DeliverWs(name)]) == t;
    RecreationIsMissedExactly(e, name);
  }
}
