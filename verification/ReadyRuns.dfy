/** What Ready=True means over whole runs of spec edits and reconcile attempts, when
    the copy an attempt works on may lag behind and its status patch may be lost. */
module ReadyRuns {
  import opened Common
  import opened WorkspaceStatus

  /** How one attempt went. */
  datatype Result =
    | Done(missing: seq<string>, secret: bool, helm: bool)
    | Conflict(message: string)        // namespace conflict
    | Failure(message: string)         // any other error worth reporting
    | Collision                        // write conflict: status is not touched
    | Unobserved                       // resources done, but a status lookup failed

  datatype Move =
    | EditSpec(spec: Spec)
    // the generation and the status version the copy shows, the outcome, and what
    // becomes of the status patch
    | Attempt(at: nat, copy: nat, result: Result, patch: Fault)
    // the object is deleted and another one of its name created
    | Recreate(spec: Spec)
    // an attempt still at work on a deleted object: its patch is addressed by name
    | Late(life: nat, at: nat, copy: nat, result: Result, patch: Fault)

  /** A deleted object: its specs and its statuses. */
  datatype Former = Former(specs: seq<Spec>, statuses: seq<Status>)

  /** `specs[g - 1]` is the spec of generation g; `statuses` is every stored status in
      order; `last` the newest generation attempted; `completed` the generations some
      attempt reconciled completely with no member pending; all of the present object. */
  datatype Run = Run(specs: seq<Spec>, statuses: seq<Status>, last: nat, completed: set<nat>, former: seq<Former>)

  /** The status a new object starts from. */
  const BLANK := Status(0, None, [], None, None, None, None, None, [])

  function Current(r: Run): Status
    requires r.statuses != []
  {
    r.statuses[|r.statuses| - 1]
  }

  predicate Possible(r: Run, m: Move) {
    match m
    case EditSpec(_) => true
    case Recreate(_) => true
    case Attempt(at, copy, _, _) => 1 <= at <= |r.specs| && copy < |r.statuses|
    case Late(life, at, copy, _, _) =>
      life < |r.former| && 1 <= at <= |r.former[life].specs| && copy < |r.former[life].statuses|
  }

  function StatusFor(copy: Status, spec: Spec, at: nat, result: Result): Option<Status> {
    match result
    case Done(missing, secret, helm) => Some(NewStatus(copy, spec, at, missing, secret, helm))
    case Conflict(message) => Some(FailedStatus(copy, at, NamespaceConflict, message))
    case Failure(message) => Some(FailedStatus(copy, at, ReconcileError, message))
    case Collision => None
    case Unobserved => None
  }

  /** The status version an attempt adds, if its patch arrives. */
  function StoredBy(r: Run, at: nat, copy: nat, result: Result, patch: Fault): seq<Status>
    requires 1 <= at <= |r.specs| && copy < |r.statuses|
  {
    var new_ := StatusFor(r.statuses[copy], r.specs[at - 1], at, result);
    if new_.None? || patch.Before? then [] else [MergePatch(Current(r), r.statuses[copy], new_.value)]
  }

  /** The same for an attempt on a deleted object: nothing in the patch says which
      object it was computed for. */
  function StoredLate(r: Run, life: nat, at: nat, copy: nat, result: Result, patch: Fault): seq<Status>
    requires r.statuses != [] && Possible(r, Late(life, at, copy, result, patch))
  {
    var shown := r.former[life].statuses[copy];
    var new_ := StatusFor(shown, r.former[life].specs[at - 1], at, result);
    if new_.None? || patch.Before? then [] else [MergePatch(Current(r), shown, new_.value)]
  }

  function Next(r: Run, m: Move): Run
    requires r.statuses != []
    ensures Next(r, m).statuses != []
  {
    if !Possible(r, m) then r
    else
      match m
      case EditSpec(spec) => r.(specs := r.specs + [spec])
      case Attempt(at, copy, result, patch) =>
        Run(r.specs,
            r.statuses + StoredBy(r, at, copy, result, patch),
            at,
            if result.Done? && result.missing == [] then r.completed + {at} else r.completed,
            r.former)
      case Recreate(spec) => Run([spec], [BLANK], 0, {}, r.former + [Former(r.specs, r.statuses)])
      case Late(life, at, copy, result, patch) =>
        r.(statuses := r.statuses + StoredLate(r, life, at, copy, result, patch))
  }

  function Exec(r: Run, moves: seq<Move>): Run
    requires r.statuses != []
    ensures Exec(r, moves).statuses != []
    decreases |moves|
  {
    if moves == [] then r else Exec(Next(r, moves[0]), moves[1..])
  }

  /** Attempts never go back to an older generation (one worker, one cache that only
      moves forward), and the patch of an attempt on a deleted object does not land on
      another one of its name.  The status in a copy may be as old as it likes. */
  predicate Orderly(r: Run, m: Move)
    requires r.statuses != []
  {
    && (m.Attempt? ==> m.at >= r.last)
    && (m.Late? && Possible(r, m) ==> StoredLate(r, m.life, m.at, m.copy, m.result, m.patch) == [])
  }

  predicate Forward(r: Run, moves: seq<Move>)
    requires r.statuses != []
    decreases |moves|
  {
    moves != [] ==> Orderly(r, moves[0]) && Forward(Next(r, moves[0]), moves[1..])
  }

  /** The conditions agree with observedGeneration, and True was earned. */
  ghost predicate Honest(s: Status, completed: set<nat>) {
    && UniqueKinds(s.conditions)
    && (match Find(s.conditions, READY)
        case None => s.observedGeneration == 0
        case Some(c) => c.generation == s.observedGeneration && (c.status ==> c.generation in completed))
  }

  ghost predicate Inv(r: Run) {
    && r.statuses != []
    && (forall i :: 0 <= i < |r.statuses| ==> Honest(r.statuses[i], r.completed))
    && (forall i, j :: 0 <= i <= j < |r.statuses| ==>
          r.statuses[i].observedGeneration <= r.statuses[j].observedGeneration)
    && Current(r).observedGeneration <= r.last
    && (forall life, i :: 0 <= life < |r.former| && 0 <= i < |r.former[life].statuses| ==>
          UniqueKinds(r.former[life].statuses[i].conditions))
  }

  /** A status freshly computed for generation `at` is honest about it. */
  lemma StatusForIsHonest(copy: Status, spec: Spec, at: nat, result: Result, completed: set<nat>)
    requires UniqueKinds(copy.conditions) && StatusFor(copy, spec, at, result).Some?
    requires result.Done? && result.missing == [] ==> at in completed
    ensures var s := StatusFor(copy, spec, at, result).value;
            Honest(s, completed) && s.observedGeneration == at && Find(s.conditions, READY).Some?
  {
    match result
    case Done(missing, secret, helm) => NewStatusConditions(copy, spec, at, missing, secret, helm);
    case Conflict(message) => FailedStatusConditions(copy, at, NamespaceConflict, message);
    case Failure(message) => FailedStatusConditions(copy, at, ReconcileError, message);
    case Collision =>
    case Unobserved =>
  }

  /** Patching a newer stored status with a diff against an older copy still leaves an
      honest status, because the generations only move forward. */
  lemma PatchIsHonest(stored: Status, copy: Status, new_: Status, at: nat, completed: set<nat>)
    requires Honest(stored, completed) && Honest(copy, completed) && Honest(new_, completed)
    requires copy.observedGeneration <= stored.observedGeneration <= at
    requires new_.observedGeneration == at >= 1 && Find(new_.conditions, READY).Some?
    ensures Honest(MergePatch(stored, copy, new_), completed)
    ensures MergePatch(stored, copy, new_).observedGeneration == at
  {
  }

  lemma StoreKeepsInv(r: Run, stored: seq<Status>, at: nat, completed: set<nat>)
    requires Inv(r) && at >= r.last && r.completed <= completed
    requires stored == [] || (|stored| == 1 && Honest(stored[0], completed) && stored[0].observedGeneration == at)
    ensures Inv(Run(r.specs, r.statuses + stored, at, completed, r.former))
  {
    var all := r.statuses + stored;
    forall i | 0 <= i < |all| ensures Honest(all[i], completed) {
      assert i < |r.statuses| ==> Honest(r.statuses[i], r.completed);
    }
  }

  /** What an attempt stores, given what it saw and what is there by now. */
  lemma StoredIsHonest(r: Run, at: nat, copy: nat, result: Result, patch: Fault, completed: set<nat>)
    requires Inv(r) && at >= r.last && 1 <= at <= |r.specs| && copy < |r.statuses| && r.completed <= completed
    requires result.Done? && result.missing == [] ==> at in completed
    ensures var stored := StoredBy(r, at, copy, result, patch);
            stored == [] || (|stored| == 1 && Honest(stored[0], completed) && stored[0].observedGeneration == at)
  {
    var shown := r.statuses[copy];
    if StatusFor(shown, r.specs[at - 1], at, result).Some? {
      assert Honest(shown, r.completed) && Honest(Current(r), r.completed);
      assert shown.observedGeneration <= Current(r).observedGeneration;
      StatusForIsHonest(shown, r.specs[at - 1], at, result, completed);
      PatchIsHonest(Current(r), shown, StatusFor(shown, r.specs[at - 1], at, result).value, at, completed);
    }
  }

  lemma NextKeepsInv(r: Run, m: Move)
    requires Inv(r) && Orderly(r, m)
    ensures Inv(Next(r, m))
  {
    if m.Recreate? {
      forall i | 0 <= i < |r.statuses| ensures UniqueKinds(r.statuses[i].conditions) {
        assert Honest(r.statuses[i], r.completed);
      }
    }
    if Possible(r, m) && m.Late? {
      assert Next(r, m) == r;
    }
    if Possible(r, m) && m.Attempt? {
      var completed := Next(r, m).completed;
      StoredIsHonest(r, m.at, m.copy, m.result, m.patch, completed);
      StoreKeepsInv(r, StoredBy(r, m.at, m.copy, m.result, m.patch), m.at, completed);
    }
  }

  lemma {:induction false} AlwaysHonest(r: Run, moves: seq<Move>)
    requires Inv(r) && Forward(r, moves)
    ensures Inv(Exec(r, moves))
    decreases |moves|
  {
    if moves != [] {
      NextKeepsInv(r, moves[0]);
      AlwaysHonest(Next(r, moves[0]), moves[1..]);
    }
  }

  /** Ready=True is honest, re-creations included: whenever the stored status says Ready with observed
      generation g, some attempt reconciled generation g completely, with no Harbor
      member pending, and the two generation fields agree on g. */
  lemma ReadyMeansReconciled(r: Run, moves: seq<Move>)
    requires Inv(r) && Forward(r, moves)
    ensures var s := Current(Exec(r, moves));
            Find(s.conditions, READY).Some? && Find(s.conditions, READY).value.status ==>
              && Find(s.conditions, READY).value.generation == s.observedGeneration
              && s.observedGeneration in Exec(r, moves).completed
  {
    AlwaysHonest(r, moves);
    assert Honest(Current(Exec(r, moves)), Exec(r, moves).completed);
  }

  /** Ready=True next to an observed generation nobody reconciled. */
  ghost predicate MixedUp(r: Run) {
    && r.statuses != []
    && var s := Current(r);
    && Find(s.conditions, READY).Some? && Find(s.conditions, READY).value.status
    && s.observedGeneration !in r.completed
  }

  /** Going back is what must not happen.  A successful attempt on a copy older than
      the last one mixes the two exactly when the copy already showed its own
      generation (so the patch leaves the newer number alone) and the patch does carry
      the condition, while the newer generation was never reconciled. */
  lemma GoingBackMisreports(r: Run, at: nat, copy: nat, secret: bool, helm: bool)
    requires Inv(r) && 1 <= at <= |r.specs| && copy < |r.statuses|
    requires at < Current(r).observedGeneration
    ensures var shown := r.statuses[copy];
            MixedUp(Next(r, Attempt(at, copy, Done([], secret, helm), Fine))) <==>
            && shown.observedGeneration == at
            && NewStatus(shown, r.specs[at - 1], at, [], secret, helm).conditions != shown.conditions
            && Current(r).observedGeneration !in r.completed
  {
    assert Honest(r.statuses[copy], r.completed) && Honest(Current(r), r.completed);
    NewStatusConditions(r.statuses[copy], r.specs[at - 1], at, [], secret, helm);
    var n := Next(r, Attempt(at, copy, Done([], secret, helm), Fine));
    assert Current(n) == MergePatch(Current(r), r.statuses[copy],
                                    NewStatus(r.statuses[copy], r.specs[at - 1], at, [], secret, helm));
  }

  predicate SaysReady(s: Status) {
    Find(s.conditions, READY).Some? && Find(s.conditions, READY).value.status
  }

  /** What a patch that lands on another object of the same name does.  After a complete
      attempt on the deleted object, the living one says Ready about a generation nobody
      reconciled exactly when the condition is in the patch (or was True already) and
      the generation it then shows is not one of its completed ones. */
  lemma LatePatchMisreports(r: Run, life: nat, at: nat, copy: nat, secret: bool, helm: bool)
    requires Inv(r) && Possible(r, Late(life, at, copy, Done([], secret, helm), Fine))
    ensures var shown := r.former[life].statuses[copy];
            MixedUp(Next(r, Late(life, at, copy, Done([], secret, helm), Fine))) <==>
            && (NewStatus(shown, r.former[life].specs[at - 1], at, [], secret, helm).conditions != shown.conditions
                || SaysReady(Current(r)))
            && (if shown.observedGeneration == at then Current(r).observedGeneration else at) !in r.completed
  {
    var shown, spec := r.former[life].statuses[copy], r.former[life].specs[at - 1];
    NewStatusConditions(shown, spec, at, [], secret, helm);
    var n := Next(r, Late(life, at, copy, Done([], secret, helm), Fine));
    assert Current(n) == MergePatch(Current(r), shown, NewStatus(shown, spec, at, [], secret, helm));
  }

  /** So a namesake just created is reported Ready, unreconciled, exactly when the copy
      the late attempt worked on did not say so already. */
  lemma NamesakeMisreports(r: Run, spec: Spec, at: nat, copy: nat, secret: bool, helm: bool)
    requires Inv(r) && 1 <= at <= |r.specs| && copy < |r.statuses|
    ensures var n := Next(r, Recreate(spec));
            MixedUp(Next(n, Late(|r.former|, at, copy, Done([], secret, helm), Fine))) <==>
            NewStatus(r.statuses[copy], r.specs[at - 1], at, [], secret, helm).conditions != r.statuses[copy].conditions
  {
    var n := Next(r, Recreate(spec));
    NextKeepsInv(r, Recreate(spec));
    LatePatchMisreports(n, |r.former|, at, copy, secret, helm);
  }
}
