/** What every run of the protocol keeps: zombie detection is sound, and render slots are conserved. */
module HelmSafety {
  import opened Wrappers
  import opened HelmOperations
  import opened HelmProtocol

  // ---------------------------------------------------------------- the invariants

  /** The render slot a worker holds is fixed by where it stands, except while it is failing out. */
  predicate SlotAt(c: Config, w: Worker) {
    && (w.slot ==> c.concurrency > 0)
    && (w.pc.Prepared? || w.pc.FirstRead? || w.pc.AwaitSlot? || w.pc.ListStale? || w.pc.Prune? ==> !w.slot)
    && (w.pc.ReRead? || w.pc.BuildClient? || Rendering(w.pc) || w.pc.ReleaseSlot? ==> w.slot == (c.concurrency > 0))
  }

  ghost function Holders(s: State): set<nat> {
    set id | id in s.workers && s.workers[id].slot
  }

  /** The channel holds one token for every worker with an unreleased slot, and never overflows. */
  ghost predicate SlotsConserved(c: Config, s: State) {
    && (forall id :: id in s.workers ==> SlotAt(c, s.workers[id]))
    && s.world.tokens == |Holders(s)|
    && (if c.concurrency > 0 then s.world.tokens <= c.concurrency else s.world.tokens == 0)
  }

  /** Prepared contexts and pending launches correspond one to one. */
  ghost predicate PreparedPending(s: State) {
    && (forall id :: id in s.workers ==> id < s.nextCtx)
    && (forall id :: id in s.workers && s.workers[id].pc.Prepared? ==>
          var h := s.workers[id].host;
          h in s.reconciles && Pending(s.reconciles[h]) && s.reconciles[h].ctx == id)
    && (forall h :: h in s.reconciles && Pending(s.reconciles[h]) ==>
          var r := s.reconciles[h];
          && r.ctx in s.workers
          && s.workers[r.ctx].host == h && s.workers[r.ctx].hash == r.hash && s.workers[r.ctx].pc.Prepared?)
  }

  /** The entry of `h` belongs to a context of that host and hash whose worker has not finished; if the
      goroutine has not started, the reconcile of `h` is about to start it. */
  ghost predicate EntryLive(s: State, h: Key)
    requires h in s.world.active
  {
    var op := s.world.active[h];
    && op.ctx in s.workers
    && s.workers[op.ctx].host == h && s.workers[op.ctx].hash == op.hash
    && Live(s.workers[op.ctx].pc)
    && (s.workers[op.ctx].pc.Prepared? ==> h in s.reconciles && s.reconciles[h].Launch?)
  }

  ghost predicate EntriesLive(s: State) {
    forall h :: h in s.world.active ==> EntryLive(s, h)
  }

  ghost predicate Safe(c: Config, s: State) {
    SlotsConserved(c, s) && PreparedPending(s) && EntriesLive(s)
  }

  // ---------------------------------------------------------------- what one step may touch

  /** A worker that goes on keeps its identity, only Clear touches the map, and the channel changes
      with its slot. */
  predicate Moved(c: Config, s: World, w: Worker, s': World, w': Worker) {
    && w'.host == w.host && w'.hash == w.hash && w'.cancelled == w.cancelled
    && Live(w.pc) && !w.pc.Prepared? && !w'.pc.Prepared?
    && (if w.pc.Clear? then w'.pc.DeferredRelease? && s'.active == ClearEntry(s.active, w.host, w.hash)
        else Live(w'.pc) && s'.active == s.active)
    && s'.tokens == s.tokens + (if w'.slot then 1 else 0) - (if w.slot then 1 else 0)
    && (w'.slot && !w.slot ==> s.tokens < c.concurrency)
    && SlotAt(c, w')
  }

  ghost predicate WorkerKept(c: Config, s: World, w: Worker, r: WorkerResult) {
    match r.worker
    case Some(w') => Moved(c, s, w, r.world, w')
    case None => w.pc.DeferredRelease? && r.world.active == s.active
                 && r.world.tokens == s.tokens - (if w.slot then 1 else 0)
  }

  lemma QueueEffect(c: Config, s: World, w: Worker, o: Outcome, r: WorkerResult)
    requires QueueNext(c, s, w, o) == Some(r) && SlotAt(c, w)
    ensures WorkerKept(c, s, w, r)
  {
  }

  lemma CompanionEffect(c: Config, s: World, w: Worker, o: Outcome, r: WorkerResult)
    requires HelmNext(s, w, o) == Some(r) && SlotAt(c, w) && w.pc.InstallCompanion?
    ensures WorkerKept(c, s, w, r)
  {
  }

  lemma PruneEffect(c: Config, s: World, w: Worker, o: Outcome, r: WorkerResult)
    requires HelmNext(s, w, o) == Some(r) && SlotAt(c, w) && (w.pc.ListStale? || w.pc.Prune?)
    ensures WorkerKept(c, s, w, r)
  {
  }

  lemma HelmEffect(c: Config, s: World, w: Worker, o: Outcome, r: WorkerResult)
    requires HelmNext(s, w, o) == Some(r) && SlotAt(c, w)
    ensures WorkerKept(c, s, w, r)
  {
    if w.pc.InstallCompanion? {
      CompanionEffect(c, s, w, o, r);
    } else if w.pc.ListStale? || w.pc.Prune? {
      PruneEffect(c, s, w, o, r);
    }
  }

  lemma FinishEffect(c: Config, s: World, w: Worker, o: Outcome, r: WorkerResult)
    requires FinishNext(c, s, w, o) == Some(r) && SlotAt(c, w)
    ensures WorkerKept(c, s, w, r)
  {
  }

  lemma WorkerEffect(c: Config, s: World, w: Worker, o: Outcome, r: WorkerResult)
    requires WorkerNext(c, s, w, o) == Some(r) && SlotAt(c, w)
    ensures WorkerKept(c, s, w, r)
  {
    if HelmPhase(w.pc) {
      HelmEffect(c, s, w, o, r);
    } else if w.pc.ReadStatus? || w.pc.WriteStatus? || w.pc.Clear? || w.pc.DeferredRelease? {
      FinishEffect(c, s, w, o, r);
    } else {
      QueueEffect(c, s, w, o, r);
    }
  }

  /** Outside a launch, a reconcile touches the map and a context only to forget and then cancel its own
      host's operation, and it enters a launch only by creating a context. */
  predicate Calm(s: World, unused: nat, h: Key, r: Reconcile, res: ReconcileResult) {
    && res.world.tokens == s.tokens
    && (if r.ForgetOperation? && h in s.active
        then res.world.active == s.active - {h} && res.reconcile == Some(CancelOperation(r.mem, s.active[h]))
        else res.world.active == s.active && (res.reconcile.Some? ==> !res.reconcile.value.CancelOperation?))
    && (r.CancelOperation? <==> res.action.Cancel?)
    && match res.action
       case NoAction => res.reconcile.Some? ==> !Pending(res.reconcile.value)
       case Create(hash) =>
         && res.reconcile.Some? && res.reconcile.value.TrySet?
         && res.reconcile.value.ctx == unused && res.reconcile.value.hash == hash
       case Cancel(ctx) => ctx == r.op.ctx && (res.reconcile.Some? ==> !Pending(res.reconcile.value))
       case _ => false
  }

  lemma FrameEffect(s: World, unused: nat, h: Key, r: Reconcile, o: Outcome, res: ReconcileResult)
    requires FrameNext(s, h, r, o) == Some(res)
    ensures Calm(s, unused, h, r, res)
  {
  }

  lemma DecideEffect(c: Config, s: World, unused: nat, h: Key, r: Reconcile, o: Outcome, res: ReconcileResult)
    requires DecideNext(c, s, unused, h, r, o) == Some(res)
    ensures Calm(s, unused, h, r, res)
  {
  }

  lemma TeardownEffect(s: World, unused: nat, h: Key, r: Reconcile, o: Outcome, res: ReconcileResult)
    requires TeardownNext(s, h, r, o) == Some(res)
    ensures Calm(s, unused, h, r, res)
  {
  }

  lemma ReconcileEffect(c: Config, s: World, unused: nat, h: Key, r: Reconcile, o: Outcome, res: ReconcileResult)
    requires !Pending(r) && ReconcileNext(c, s, unused, h, r, o) == Some(res)
    ensures Calm(s, unused, h, r, res)
  {
    if Framing(r) {
      FrameEffect(s, unused, h, r, o, res);
    } else if Deciding(r) {
      DecideEffect(c, s, unused, h, r, o, res);
    } else {
      TeardownEffect(s, unused, h, r, o, res);
    }
  }

  lemma EnvironmentEffect(s: World, l: Label, s': World)
    requires EnvironmentNext(s, l) == Some(s')
    ensures s'.active == s.active && s'.tokens == s.tokens && s'.clients == s.clients && s'.releases == s.releases
  {
  }

  // ---------------------------------------------------------------- preservation

  lemma WorkerKeepsEntries(c: Config, s: State, id: nat, r: WorkerResult)
    requires Safe(c, s) && id in s.workers && WorkerKept(c, s.world, s.workers[id], r)
    ensures PreparedPending(CommitWorker(s, id, r)) && EntriesLive(CommitWorker(s, id, r))
  {
  }

  lemma WorkerKeepsSlots(c: Config, s: State, id: nat, r: WorkerResult)
    requires Safe(c, s) && id in s.workers && WorkerKept(c, s.world, s.workers[id], r)
    ensures SlotsConserved(c, CommitWorker(s, id, r))
  {
    var s' := CommitWorker(s, id, r);
    if r.worker.Some? && r.worker.value.slot {
      assert Holders(s') == Holders(s) + {id};
    } else {
      assert Holders(s') == Holders(s) - {id};
    }
  }

  lemma CalmKeepsSlots(c: Config, s: State, h: Key, r: ReconcileResult)
    requires Safe(c, s) && h in s.reconciles && !Pending(s.reconciles[h])
    requires Calm(s.world, s.nextCtx, h, s.reconciles[h], r)
    ensures SlotsConserved(c, CommitReconcile(s, h, r))
  {
    assert Holders(CommitReconcile(s, h, r)) == Holders(s);
  }

  lemma CalmKeepsPrepared(c: Config, s: State, h: Key, r: ReconcileResult)
    requires Safe(c, s) && h in s.reconciles && !Pending(s.reconciles[h])
    requires Calm(s.world, s.nextCtx, h, s.reconciles[h], r)
    ensures PreparedPending(CommitReconcile(s, h, r))
  {
  }

  lemma CalmKeepsEntries(c: Config, s: State, h: Key, r: ReconcileResult)
    requires Safe(c, s) && h in s.reconciles && !Pending(s.reconciles[h])
    requires Calm(s.world, s.nextCtx, h, s.reconciles[h], r)
    ensures EntriesLive(CommitReconcile(s, h, r))
  {
  }

  lemma LaunchKeepsSlots(c: Config, s: State, h: Key, r: ReconcileResult)
    requires Safe(c, s) && h in s.reconciles && LaunchNext(s.world, h, s.reconciles[h]) == Some(r)
    ensures SlotsConserved(c, CommitReconcile(s, h, r))
  {
    assert Holders(CommitReconcile(s, h, r)) == Holders(s);
  }

  lemma LaunchKeepsPrepared(c: Config, s: State, h: Key, r: ReconcileResult)
    requires Safe(c, s) && h in s.reconciles && LaunchNext(s.world, h, s.reconciles[h]) == Some(r)
    ensures PreparedPending(CommitReconcile(s, h, r))
  {
  }

  lemma ClaimKeepsEntries(c: Config, s: State, h: Key, r: ReconcileResult)
    requires Safe(c, s) && h in s.reconciles && LaunchNext(s.world, h, s.reconciles[h]) == Some(r)
    requires s.reconciles[h].TrySet? || s.reconciles[h].SetEntry?
    ensures EntriesLive(CommitReconcile(s, h, r))
  {
    var s' := CommitReconcile(s, h, r);
    forall g | g in s'.world.active
      ensures EntryLive(s', g)
    {
      assert g in s.world.active ==> EntryLive(s, g);
    }
  }

  lemma StartKeepsEntries(c: Config, s: State, h: Key, r: ReconcileResult)
    requires Safe(c, s) && h in s.reconciles && LaunchNext(s.world, h, s.reconciles[h]) == Some(r)
    requires s.reconciles[h].Replace? || s.reconciles[h].Launch?
    ensures EntriesLive(CommitReconcile(s, h, r))
  {
    var s' := CommitReconcile(s, h, r);
    forall g | g in s'.world.active
      ensures EntryLive(s', g)
    {
      assert EntryLive(s, g);
    }
  }

  lemma LaunchKeepsEntries(c: Config, s: State, h: Key, r: ReconcileResult)
    requires Safe(c, s) && h in s.reconciles && LaunchNext(s.world, h, s.reconciles[h]) == Some(r)
    ensures EntriesLive(CommitReconcile(s, h, r))
  {
    if s.reconciles[h].TrySet? || s.reconciles[h].SetEntry? {
      ClaimKeepsEntries(c, s, h, r);
    } else {
      StartKeepsEntries(c, s, h, r);
    }
  }

  lemma StepKeepsSafe(c: Config, s: State, l: Label, s': State)
    requires Safe(c, s) && Next(c, s, l) == Some(s')
    ensures Safe(c, s')
  {
    match l
    case WorkerStep(id, o) =>
      var r := WorkerNext(c, s.world, s.workers[id], o).value;
      WorkerEffect(c, s.world, s.workers[id], o, r);
      WorkerKeepsEntries(c, s, id, r);
      WorkerKeepsSlots(c, s, id, r);
    case ReconcileStep(h, o) =>
      if h !in s.reconciles {
        assert Holders(s') == Holders(s);
      } else {
        ReconcileKeepsSafe(c, s, h, o, ReconcileNext(c, s.world, s.nextCtx, h, s.reconciles[h], o).value);
      }
    case Restart =>
      assert Holders(s') == {};
    case _ =>
      EnvironmentEffect(s.world, l, s'.world);
      assert Holders(s') == Holders(s);
  }

  lemma ReconcileKeepsSafe(c: Config, s: State, h: Key, o: Outcome, r: ReconcileResult)
    requires Safe(c, s) && h in s.reconciles
    requires ReconcileNext(c, s.world, s.nextCtx, h, s.reconciles[h], o) == Some(r)
    ensures Safe(c, CommitReconcile(s, h, r))
  {
    if Pending(s.reconciles[h]) {
      LaunchKeepsSlots(c, s, h, r);
      LaunchKeepsPrepared(c, s, h, r);
      LaunchKeepsEntries(c, s, h, r);
    } else {
      ReconcileEffect(c, s.world, s.nextCtx, h, s.reconciles[h], o, r);
      CalmKeepsSlots(c, s, h, r);
      CalmKeepsPrepared(c, s, h, r);
      CalmKeepsEntries(c, s, h, r);
    }
  }

  // ---------------------------------------------------------------- main results over every run

  lemma {:induction false} SafeAlways(c: Config, s: State, ls: seq<Label>, s': State)
    requires Safe(c, s) && Exec(c, s, ls) == Some(s')
    ensures Safe(c, s')
    decreases |ls|
  {
    if ls != [] {
      var m := Next(c, s, ls[0]).value;
      StepKeepsSafe(c, s, ls[0], m);
      SafeAlways(c, m, ls[1..], s');
    }
  }

  lemma InitSafe(c: Config, s: State)
    requires Init(s)
    ensures Safe(c, s)
  {
    assert Holders(s) == {};
  }

  /** A worker of `h` launched for `hash` that has started and has not finished. */
  ghost predicate Working(s: State, h: Key, hash: string, id: nat) {
    && id in s.workers && s.workers[id].host == h && s.workers[id].hash == hash
    && Live(s.workers[id].pc) && !s.workers[id].pc.Prepared?
  }

  /** Zombie detection is sound. In every reachable state, the replace window included, an entry of the
      active map stands for a started and unfinished worker of that host and hash, or for the goroutine
      its own host's reconcile is about to start. So "still working" is never answered for dead work. */
  lemma ZombieDetectionSound(c: Config, s0: State, ls: seq<Label>, s: State)
    requires Init(s0) && Exec(c, s0, ls) == Some(s)
    ensures forall h :: h in s.world.active ==>
              || Working(s, h, s.world.active[h].hash, s.world.active[h].ctx)
              || (h in s.reconciles && s.reconciles[h].Launch? && s.reconciles[h].ctx == s.world.active[h].ctx)
    ensures forall h :: h in s.reconciles && s.reconciles[h].HelmCheck?
                        && StillWorking(s.world.active, h, s.reconciles[h].latest, s.reconciles[h].hash)
                        ==> exists id :: Working(s, h, s.reconciles[h].hash, id)
  {
    InitSafe(c, s0);
    SafeAlways(c, s0, ls, s);
    forall h | h in s.world.active
      ensures Working(s, h, s.world.active[h].hash, s.world.active[h].ctx)
           || (h in s.reconciles && s.reconciles[h].Launch? && s.reconciles[h].ctx == s.world.active[h].ctx)
    {
      assert EntryLive(s, h);
    }
  }

  ghost function Renderers(s: State): set<nat> {
    set id | id in s.workers && Rendering(s.workers[id].pc)
  }

  lemma SubsetCardinality<T>(a: set<T>, b: set<T>)
    requires a <= b
    ensures |a| <= |b|
  {
    assert b == a + (b - a);
  }

  /** Render slots are conserved: the channel always holds one token per worker with an unreleased slot,
      so concurrent renders never exceed a positive bound, a prune never holds a slot, the channel is
      empty once every worker is done, and draining it never blocks. */
  lemma SlotsAlwaysConserved(c: Config, s0: State, ls: seq<Label>, s: State)
    requires Init(s0) && Exec(c, s0, ls) == Some(s)
    ensures s.world.tokens == |Holders(s)|
    ensures c.concurrency > 0 ==> |Renderers(s)| <= s.world.tokens <= c.concurrency
    ensures c.concurrency <= 0 ==> s.world.tokens == 0
    ensures forall id :: id in s.workers && s.workers[id].pc.Prune? ==> !s.workers[id].slot
    ensures s.workers == map[] ==> s.world.tokens == 0
    ensures forall id :: id in s.workers && s.workers[id].slot ==> s.world.tokens > 0
  {
    InitSafe(c, s0);
    SafeAlways(c, s0, ls, s);
    if s.workers == map[] {
      assert Holders(s) == {};
    }
    if c.concurrency > 0 {
      assert Renderers(s) <= Holders(s);
      SubsetCardinality(Renderers(s), Holders(s));
    }
    forall id | id in s.workers && s.workers[id].slot
      ensures s.world.tokens > 0
    {
      SubsetCardinality({id}, Holders(s));
    }
  }

  /** No started worker is ever stuck, except in the queue for a slot while all are taken. */
  lemma WorkersNeverStuck(c: Config, s0: State, ls: seq<Label>, s: State, id: nat)
    requires Init(s0) && Exec(c, s0, ls) == Some(s) && id in s.workers && !s.workers[id].pc.Prepared?
    ensures (exists o :: Next(c, s, WorkerStep(id, o)).Some?)
        <==> !(s.workers[id].pc.AwaitSlot? && !s.workers[id].cancelled && 0 < c.concurrency == s.world.tokens)
  {
    InitSafe(c, s0);
    SafeAlways(c, s0, ls, s);
    SlotsAlwaysConserved(c, s0, ls, s);
    var w := s.workers[id];
    if w.pc.AwaitSlot? && !w.cancelled && 0 < c.concurrency == s.world.tokens {
      assert forall o :: WorkerNext(c, s.world, w, o).None?;
    } else if w.pc.AwaitSlot? && w.cancelled {
      assert Next(c, s, WorkerStep(id, Failed("", false))).Some?;
    } else if w.pc.WriteStatus? {
      assert Next(c, s, WorkerStep(id, At(""))).Some?;
    } else if w.pc.ListStale? {
      assert Next(c, s, WorkerStep(id, Failed("", false))).Some?;
    } else {
      assert Next(c, s, WorkerStep(id, Done)).Some?;
    }
  }
}
