/** One live worker per host. The active map tells workers apart only by their launch hash, so this needs
    a host's hash not to recur while a superseded worker launched for it still runs. */
module HelmUniqueness {
  import opened Wrappers
  import opened HelmOperations
  import opened HelmProtocol
  import opened HelmSafety

  /** A started worker that is neither cancelled nor past clearing its entry. */
  predicate Current(w: Worker) {
    Live(w.pc) && !w.pc.Prepared? && !w.cancelled
  }

  /** The map of `h` is between two lock sections of its own reconcile, with a cancel still to come. */
  predicate Replacing(s: State, h: Key) {
    h in s.reconciles && (s.reconciles[h].Replace? || s.reconciles[h].SetEntry? || s.reconciles[h].CancelOperation?)
  }

  /** The one context that may still be current for `h`. */
  ghost predicate MayBeCurrent(s: State, h: Key, id: nat) {
    if !Replacing(s, h) then h in s.world.active && s.world.active[h].ctx == id
    else
      match s.reconciles[h]
      case Replace(_, _, _, superseded) => superseded.ctx == id
      case CancelOperation(_, op) => op.ctx == id
      case _ => false
  }

  ghost predicate SoleCurrent(s: State) {
    forall id :: id in s.workers && Current(s.workers[id]) ==> MayBeCurrent(s, s.workers[id].host, id)
  }

  /** No other unfinished worker shares the hash of an entry, and a launch keeps the entry it set. */
  ghost predicate HashOwners(s: State) {
    && (forall id :: id in s.workers && Live(s.workers[id].pc) && !s.workers[id].pc.Prepared?
                     && IsActive(s.world.active, s.workers[id].host, s.workers[id].hash)
                     ==> s.world.active[s.workers[id].host].ctx == id)
    && (forall h :: h in s.reconciles && s.reconciles[h].Launch? ==>
          h in s.world.active && s.world.active[h] == HelmOperation(s.reconciles[h].ctx, s.reconciles[h].hash))
  }

  ghost predicate Started(s: State, h: Key, ctx: nat) {
    ctx < s.nextCtx && (ctx in s.workers ==> s.workers[ctx].host == h && !s.workers[ctx].pc.Prepared?)
  }

  /** A reconcile cancels only started workers of its own host. */
  ghost predicate CancelTargets(s: State) {
    && (forall id :: id in s.workers && s.workers[id].pc.Prepared? ==> !s.workers[id].cancelled)
    && (forall h :: h in s.reconciles && s.reconciles[h].Replace? ==> Started(s, h, s.reconciles[h].superseded.ctx))
    && (forall h :: h in s.reconciles && s.reconciles[h].CancelOperation? ==> Started(s, h, s.reconciles[h].op.ctx))
  }

  ghost predicate Unique(c: Config, s: State) {
    Safe(c, s) && SoleCurrent(s) && HashOwners(s) && CancelTargets(s)
  }

  /** The step sets the map entry of its host. */
  predicate Claims(s: State, l: Label) {
    l.ReconcileStep? && l.host in s.reconciles
    && (s.reconciles[l.host].SetEntry? || (s.reconciles[l.host].TrySet? && l.host !in s.world.active))
  }

  /** The step does not claim the map for a hash that an unfinished worker of the same host was launched for. */
  ghost predicate HashIsNew(s: State, l: Label) {
    Claims(s, l) ==> forall id :: id in s.workers ==> !Working(s, l.host, s.reconciles[l.host].hash, id)
  }

  /** The hypothesis over a whole run. */
  ghost predicate NoRecurrence(c: Config, s: State, ls: seq<Label>)
    decreases |ls|
  {
    ls == [] || (HashIsNew(s, ls[0]) && (Next(c, s, ls[0]).Some? ==> NoRecurrence(c, Next(c, s, ls[0]).value, ls[1..])))
  }

  lemma WorkerKeepsUnique(c: Config, s: State, id: nat, r: WorkerResult)
    requires Unique(c, s) && id in s.workers && WorkerKept(c, s.world, s.workers[id], r)
    ensures SoleCurrent(CommitWorker(s, id, r)) && HashOwners(CommitWorker(s, id, r))
  {
  }

  lemma WorkerKeepsTargets(c: Config, s: State, id: nat, r: WorkerResult)
    requires Unique(c, s) && id in s.workers && WorkerKept(c, s.world, s.workers[id], r)
    ensures CancelTargets(CommitWorker(s, id, r))
  {
  }

  lemma CalmKeepsTargets(c: Config, s: State, h: Key, r: ReconcileResult)
    requires Unique(c, s) && h in s.reconciles && !Pending(s.reconciles[h])
    requires Calm(s.world, s.nextCtx, h, s.reconciles[h], r)
    ensures CancelTargets(CommitReconcile(s, h, r))
  {
  }

  lemma LaunchKeepsTargets(c: Config, s: State, h: Key, r: ReconcileResult)
    requires Unique(c, s) && h in s.reconciles && LaunchNext(s.world, h, s.reconciles[h]) == Some(r)
    ensures CancelTargets(CommitReconcile(s, h, r))
  {
  }

  lemma CalmKeepsSole(c: Config, s: State, h: Key, r: ReconcileResult)
    requires Unique(c, s) && h in s.reconciles && !Pending(s.reconciles[h])
    requires Calm(s.world, s.nextCtx, h, s.reconciles[h], r)
    ensures SoleCurrent(CommitReconcile(s, h, r))
  {
  }

  lemma CalmKeepsOwners(c: Config, s: State, h: Key, r: ReconcileResult)
    requires Unique(c, s) && h in s.reconciles && !Pending(s.reconciles[h])
    requires Calm(s.world, s.nextCtx, h, s.reconciles[h], r)
    ensures HashOwners(CommitReconcile(s, h, r))
  {
  }

  lemma LaunchKeepsSole(c: Config, s: State, h: Key, r: ReconcileResult, o: Outcome)
    requires Unique(c, s) && h in s.reconciles && LaunchNext(s.world, h, s.reconciles[h]) == Some(r)
    requires HashIsNew(s, ReconcileStep(h, o))
    ensures SoleCurrent(CommitReconcile(s, h, r))
  {
    var s' := CommitReconcile(s, h, r);
    forall id | id in s'.workers && Current(s'.workers[id])
      ensures MayBeCurrent(s', s'.workers[id].host, id)
    {
      OthersStayCurrent(c, s, h, r, id);
      LaunchMovesCurrent(c, s, h, r, id);
    }
  }

  lemma OthersStayCurrent(c: Config, s: State, h: Key, r: ReconcileResult, id: nat)
    requires Unique(c, s) && h in s.reconciles && LaunchNext(s.world, h, s.reconciles[h]) == Some(r)
    requires id in CommitReconcile(s, h, r).workers
    ensures id in s.workers && s.workers[id].host == CommitReconcile(s, h, r).workers[id].host
    ensures s.workers[id].host != h && MayBeCurrent(s, s.workers[id].host, id)
            ==> MayBeCurrent(CommitReconcile(s, h, r), s.workers[id].host, id)
    ensures s.workers[id].host != h ==> CommitReconcile(s, h, r).workers[id] == s.workers[id]
  {
  }

  lemma LaunchMovesCurrent(c: Config, s: State, h: Key, r: ReconcileResult, id: nat)
    requires Unique(c, s) && h in s.reconciles && LaunchNext(s.world, h, s.reconciles[h]) == Some(r)
    requires id in CommitReconcile(s, h, r).workers && Current(CommitReconcile(s, h, r).workers[id])
    ensures id in s.workers
    ensures s.workers[id].host == h ==> MayBeCurrent(CommitReconcile(s, h, r), h, id)
  {
  }

  lemma LaunchKeepsOwners(c: Config, s: State, h: Key, r: ReconcileResult, o: Outcome)
    requires Unique(c, s) && h in s.reconciles && LaunchNext(s.world, h, s.reconciles[h]) == Some(r)
    requires HashIsNew(s, ReconcileStep(h, o))
    ensures HashOwners(CommitReconcile(s, h, r))
  {
  }

  lemma StepKeepsUnique(c: Config, s: State, l: Label, s': State)
    requires Unique(c, s) && HashIsNew(s, l) && Next(c, s, l) == Some(s')
    ensures Unique(c, s')
  {
    StepKeepsSafe(c, s, l, s');
    match l
    case WorkerStep(id, o) => WorkerStepKeepsUnique(c, s, id, o, s');
    case ReconcileStep(h, o) =>
      if h in s.reconciles {
        ReconcileKeepsUnique(c, s, h, o, ReconcileNext(c, s.world, s.nextCtx, h, s.reconciles[h], o).value);
      } else {
        ReloadKeepsUnique(c, s, h, s');
      }
    case Restart =>
    case _ => EnvironmentKeepsUnique(c, s, l, s');
  }

  lemma ReloadKeepsUnique(c: Config, s: State, h: Key, s': State)
    requires Unique(c, s) && h !in s.reconciles && h in s.world.server
    requires s' == s.(reconciles := s.reconciles[h := Loaded(s.world.server[h])])
    ensures SoleCurrent(s') && HashOwners(s') && CancelTargets(s')
  {
  }

  lemma EnvironmentKeepsUnique(c: Config, s: State, l: Label, s': State)
    requires Unique(c, s) && EnvironmentNext(s.world, l) == Some(s'.world) && s' == s.(world := s'.world)
    ensures SoleCurrent(s') && HashOwners(s') && CancelTargets(s')
  {
    EnvironmentEffect(s.world, l, s'.world);
  }

  lemma WorkerStepKeepsUnique(c: Config, s: State, id: nat, o: Outcome, s': State)
    requires Unique(c, s) && Next(c, s, WorkerStep(id, o)) == Some(s')
    ensures SoleCurrent(s') && HashOwners(s') && CancelTargets(s')
  {
    var r := WorkerNext(c, s.world, s.workers[id], o).value;
    WorkerEffect(c, s.world, s.workers[id], o, r);
    WorkerKeepsUnique(c, s, id, r);
    WorkerKeepsTargets(c, s, id, r);
  }

  lemma ReconcileKeepsUnique(c: Config, s: State, h: Key, o: Outcome, r: ReconcileResult)
    requires Unique(c, s) && HashIsNew(s, ReconcileStep(h, o)) && h in s.reconciles
    requires ReconcileNext(c, s.world, s.nextCtx, h, s.reconciles[h], o) == Some(r)
    ensures SoleCurrent(CommitReconcile(s, h, r)) && HashOwners(CommitReconcile(s, h, r))
    ensures CancelTargets(CommitReconcile(s, h, r))
  {
    if Pending(s.reconciles[h]) {
      LaunchKeepsSole(c, s, h, r, o);
      LaunchKeepsOwners(c, s, h, r, o);
      LaunchKeepsTargets(c, s, h, r);
    } else {
      ReconcileEffect(c, s.world, s.nextCtx, h, s.reconciles[h], o, r);
      CalmKeepsSole(c, s, h, r);
      CalmKeepsOwners(c, s, h, r);
      CalmKeepsTargets(c, s, h, r);
    }
  }

  lemma {:induction false} UniqueAlways(c: Config, s: State, ls: seq<Label>, s': State)
    requires Unique(c, s) && NoRecurrence(c, s, ls) && Exec(c, s, ls) == Some(s')
    ensures Unique(c, s')
    decreases |ls|
  {
    if ls != [] {
      var m := Next(c, s, ls[0]).value;
      StepKeepsUnique(c, s, ls[0], m);
      UniqueAlways(c, m, ls[1..], s');
    }
  }

  /** In every run where no hash recurs under a running worker, outside the replace window a host has at
      most one live uncancelled worker and it owns the map entry; and a worker about to clear the map
      never removes its successor's entry. */
  lemma OneWorkerPerHost(c: Config, s0: State, ls: seq<Label>, s: State)
    requires Init(s0) && Exec(c, s0, ls) == Some(s) && NoRecurrence(c, s0, ls)
    ensures forall id :: id in s.workers && Current(s.workers[id]) && !Replacing(s, s.workers[id].host) ==>
              s.workers[id].host in s.world.active && s.world.active[s.workers[id].host].ctx == id
    ensures forall i, j :: i in s.workers && j in s.workers && s.workers[i].host == s.workers[j].host ==>
              Current(s.workers[i]) && Current(s.workers[j]) ==> i == j
    ensures forall id, h :: id in s.workers && s.workers[id].pc.Clear? && h in s.world.active
                            && (h != s.workers[id].host || s.world.active[h].ctx != id)
                            ==> h in ClearEntry(s.world.active, s.workers[id].host, s.workers[id].hash)
  {
    InitSafe(c, s0);
    UniqueAlways(c, s0, ls, s);
  }

  // ---------------------------------------------------------------- the hypothesis is exactly what is needed

  /** How far a worker is from clearing its entry when everything it calls fails. */
  function Distance(pc: WorkerPc): nat {
    match pc
    case DeferredRelease => 0
    case Clear => 1
    case WriteStatus(_, _) => 2
    case ReadStatus(_) => 2
    case ListStale(_) => 3
    case ReleaseSlot(_) => 4
    case Prune(_, todo) => 3 + |todo|
    case AwaitSlot => 6
    case FirstRead => 7
    case _ => 5
  }

  lemma FailingStep(c: Config, s: World, w: Worker) returns (r: WorkerResult)
    requires SlotAt(c, w) && Live(w.pc) && !w.pc.Prepared? && (w.slot ==> s.tokens > 0)
    requires w.pc.AwaitSlot? ==> w.cancelled
    ensures WorkerNext(c, s, w, Failed("", false)) == Some(r)
    ensures r.worker.Some? && Distance(r.worker.value.pc) < Distance(w.pc)
  {
    r := WorkerNext(c, s, w, Failed("", false)).value;
  }

  /** A cancelled worker may always end without touching anything but its own entry. */
  lemma {:induction false} CancelledWorkerMayClear(c: Config, s: State, id: nat) returns (ls: seq<Label>, s': State)
    requires Safe(c, s) && id in s.workers && s.workers[id].cancelled
    requires Live(s.workers[id].pc) && !s.workers[id].pc.Prepared?
    ensures Exec(c, s, ls) == Some(s') && NoRecurrence(c, s, ls)
    ensures s'.reconciles == s.reconciles
    ensures s'.world.active == ClearEntry(s.world.active, s.workers[id].host, s.workers[id].hash)
    ensures forall i :: i in s.workers && i != id ==> i in s'.workers && s'.workers[i] == s.workers[i]
    decreases Distance(s.workers[id].pc)
  {
    var w := s.workers[id];
    if w.slot {
      SubsetCardinality({id}, Holders(s));
    }
    var r := FailingStep(c, s.world, w);
    var l := WorkerStep(id, Failed("", false));
    var m := CommitWorker(s, id, r);
    WorkerEffect(c, s.world, w, Failed("", false), r);
    StepKeepsSafe(c, s, l, m);
    if w.pc.Clear? {
      ls, s' := [l], m;
      assert ls[1..] == [];
    } else {
      var rest;
      rest, s' := CancelledWorkerMayClear(c, m, id);
      ls := [l] + rest;
      assert ls[1..] == rest;
    }
  }

  /** One claim of the map keeps uniqueness in every later run (whose own claims are for new hashes) exactly
      when no unfinished worker of the host was launched for the claimed hash. */
  lemma ClaimKeepsUniqueIff(c: Config, s: State, l: Label, s1: State)
    requires Unique(c, s) && Claims(s, l) && Next(c, s, l) == Some(s1)
    ensures HashIsNew(s, l)
       <==> forall ls, s2 :: NoRecurrence(c, s1, ls) && Exec(c, s1, ls) == Some(s2) ==> SoleCurrent(s2)
  {
    if HashIsNew(s, l) {
      StepKeepsUnique(c, s, l, s1);
      forall ls, s2 | NoRecurrence(c, s1, ls) && Exec(c, s1, ls) == Some(s2)
        ensures SoleCurrent(s2)
      {
        UniqueAlways(c, s1, ls, s2);
      }
    } else {
      var ls, s2 := RecurrenceLosesEntry(c, s, l, s1);
    }
  }

  /** At a claim, every other unfinished worker of the host has been cancelled. */
  lemma ClaimAfterCancel(c: Config, s: State, l: Label, w: nat)
    requires Unique(c, s) && Claims(s, l)
    requires Working(s, l.host, s.reconciles[l.host].hash, w)
    ensures s.workers[w].cancelled && w != s.reconciles[l.host].ctx
  {
    assert !MayBeCurrent(s, l.host, w);
  }

  lemma ClaimSets(c: Config, s: State, l: Label, s1: State)
    requires Unique(c, s) && Claims(s, l) && Next(c, s, l) == Some(s1)
    ensures var h, ctx, hash := l.host, s.reconciles[l.host].ctx, s.reconciles[l.host].hash;
            && h in s1.reconciles && s1.reconciles[h].Launch? && s1.reconciles[h].ctx == ctx
            && ctx in s1.workers && s1.workers[ctx].host == h
            && s1.workers[ctx].pc.Prepared? && !s1.workers[ctx].cancelled
            && s1.world.active == s.world.active[h := HelmOperation(ctx, hash)]
            && s1.workers == s.workers
  {
  }

  /** A claim, then the go statement: the new worker is current and owns the entry. */
  lemma ClaimThenStart(c: Config, s: State, l: Label, s1: State) returns (s2: State)
    requires Unique(c, s) && Claims(s, l) && Next(c, s, l) == Some(s1)
    ensures Next(c, s1, ReconcileStep(l.host, Done)) == Some(s2) && Safe(c, s2)
    ensures var h, ctx, hash := l.host, s.reconciles[l.host].ctx, s.reconciles[l.host].hash;
            && s2.world.active == s.world.active[h := HelmOperation(ctx, hash)]
            && ctx in s2.workers && s2.workers[ctx].host == h && Current(s2.workers[ctx])
            && (forall id :: id in s.workers && id != ctx ==> id in s2.workers && s2.workers[id] == s.workers[id])
            && !Replacing(s2, h)
  {
    StepKeepsSafe(c, s, l, s1);
    ClaimSets(c, s, l, s1);
    s2 := StartLaunches(c, s1, l.host);
  }

  lemma StartLaunches(c: Config, s: State, h: Key) returns (s': State)
    requires Safe(c, s) && h in s.reconciles && s.reconciles[h].Launch?
    requires !s.workers[s.reconciles[h].ctx].cancelled
    ensures Next(c, s, ReconcileStep(h, Done)) == Some(s') && Safe(c, s') && !Replacing(s', h)
    ensures s'.world == s.world
    ensures var ctx := s.reconciles[h].ctx;
            && s'.workers == s.workers[ctx := s.workers[ctx].(pc := FirstRead)] && Current(s'.workers[ctx])
  {
    s' := Next(c, s, ReconcileStep(h, Done)).value;
    StepKeepsSafe(c, s, ReconcileStep(h, Done), s');
  }

  lemma RecurrenceLosesEntry(c: Config, s: State, l: Label, s1: State) returns (ls: seq<Label>, s3: State)
    requires Unique(c, s) && Claims(s, l) && Next(c, s, l) == Some(s1) && !HashIsNew(s, l)
    ensures NoRecurrence(c, s1, ls) && Exec(c, s1, ls) == Some(s3) && !SoleCurrent(s3)
  {
    var h := l.host;
    var ctx, hash := s.reconciles[h].ctx, s.reconciles[h].hash;
    var w :| w in s.workers && Working(s, h, hash, w);
    ClaimAfterCancel(c, s, l, w);
    var s2 := ClaimThenStart(c, s, l, s1);
    var rest;
    rest, s3 := CancelledWorkerMayClear(c, s2, w);
    NotAClaim(c, s, l, s1);
    ls := [ReconcileStep(h, Done)] + rest;
    assert ls[1..] == rest;
    assert s3.workers[ctx] == s2.workers[ctx];
    assert Current(s3.workers[ctx]) && !MayBeCurrent(s3, h, ctx);
  }

  lemma NotAClaim(c: Config, s: State, l: Label, s1: State)
    requires Claims(s, l) && Next(c, s, l) == Some(s1)
    ensures HashIsNew(s1, ReconcileStep(l.host, Done))
  {
    assert s1.reconciles[l.host].Launch?;
  }
}
