/** One step of a worker or a reconcile, in short: what it did to the releases, and where it went. */
module HelmSteps {
  import opened Wrappers
  import opened HelmOperations
  import opened HelmProtocol
  import HelmTeardown

  /** What a step did to the release store. */
  datatype Change = Keep | Put(k: Key, owner: Option<string>) | Drop(k: Key)

  function Changed(m: Releases, ch: Change): Releases {
    match ch
    case Keep => m
    case Put(k, owner) => Install(m, k, owner)
    case Drop(k) => Remove(m, k)
  }

  /** What a worker at this point of its pass may change. */
  predicate MayChange(w: Worker, ch: Change) {
    match ch
    case Keep => true
    case Put(k, owner) =>
      || (w.pc.InstallHost? && k == w.host && owner == None)
      || (w.pc.InstallCompanion? && w.pc.next < |w.pc.spec.companions|
          && k == ReleaseKey(w.host, w.pc.spec.companions[w.pc.next]) && owner == Some(w.host.name))
    case Drop(k) =>
      w.pc.Prune? && w.pc.todo != [] && w.pc.todo[0] !in w.pc.spec.companions && k == ReleaseKey(w.host, w.pc.todo[0])
  }

  /** Where a worker may come from to reach `pc`, and what it must have done on the way. */
  predicate Reaches(s: World, w: Worker, ch: Change, pc: WorkerPc) {
    match pc
    case Prepared => false
    case FirstRead => false
    case AwaitSlot => w.pc.FirstRead?
    case ReRead => w.pc.AwaitSlot?
    case BuildClient(spec) =>
      w.pc.ReRead? && w.host in s.server && !s.server[w.host].deleting && spec == s.server[w.host].spec
    case InstallHost(spec) => w.pc == BuildClient(spec)
    case InstallCompanion(spec, n) =>
      || (n == 0 && w.pc == InstallHost(spec) && ch == Put(w.host, None))
      || (w.pc.InstallCompanion? && w.pc.spec == spec && n == w.pc.next + 1 && w.pc.next < |spec.companions|
          && ch == Put(ReleaseKey(w.host, spec.companions[w.pc.next]), Some(w.host.name)))
    case ReleaseSlot(spec) => w.pc.InstallCompanion? && w.pc.spec == spec && w.pc.next >= |spec.companions|
    case ListStale(spec) => w.pc == ReleaseSlot(spec)
    case Prune(spec, todo) =>
      || (w.pc == ListStale(spec) && ListsOwned(s.releases, w.host, todo))
      || (w.pc.Prune? && w.pc.spec == spec && w.pc.todo != [] && todo == w.pc.todo[1..]
          && (w.pc.todo[0] in spec.companions || ch == Drop(ReleaseKey(w.host, w.pc.todo[0]))))
    case ReadStatus(err) => err == None ==> w.pc.Prune? && w.pc.todo == []
    case WriteStatus(err, _) => err == None ==> w.pc == ReadStatus(None)
    case _ => true
  }

  /** The whole effect of a worker's step, the attributes of hosts and its own bookkeeping aside. */
  predicate Effect(s: World, w: Worker, ch: Change, r: WorkerResult) {
    && MayChange(w, ch)
    && r.world.releases == Changed(s.releases, ch)
    && r.world.rendered == (if ch.Put? && HelmPhase(w.pc) then s.rendered[ch.k := Inputs(w.pc.spec, s.configuration)]
                            else s.rendered)
    && r.world.configuration == s.configuration
    && (r.worker.Some? ==> r.worker.value.host == w.host && Reaches(s, w, ch, r.worker.value.pc))
  }

  lemma InstallEffect(s: World, w: Worker, o: Outcome, r: WorkerResult) returns (ch: Change)
    requires HelmNext(s, w, o) == Some(r) && (w.pc.BuildClient? || w.pc.InstallHost? || w.pc.ReleaseSlot?)
    ensures Effect(s, w, ch, r)
  {
    ch := if w.pc.InstallHost? && (!o.Failed? || o.applied) then Put(w.host, None) else Keep;
  }

  lemma CompanionEffect(s: World, w: Worker, o: Outcome, r: WorkerResult) returns (ch: Change)
    requires HelmNext(s, w, o) == Some(r) && w.pc.InstallCompanion?
    ensures Effect(s, w, ch, r)
  {
    ch := Keep;
    if w.pc.next < |w.pc.spec.companions| && (!o.Failed? || o.applied) {
      ch := Put(ReleaseKey(w.host, w.pc.spec.companions[w.pc.next]), Some(w.host.name));
    }
  }

  lemma PruneEffect(s: World, w: Worker, o: Outcome, r: WorkerResult) returns (ch: Change)
    requires HelmNext(s, w, o) == Some(r) && (w.pc.ListStale? || w.pc.Prune?)
    ensures Effect(s, w, ch, r)
  {
    ch := Keep;
    if w.pc.Prune? && w.pc.todo != [] && w.pc.todo[0] !in w.pc.spec.companions && (!o.Failed? || o.applied) {
      ch := Drop(ReleaseKey(w.host, w.pc.todo[0]));
    }
  }

  lemma FinishEffect(c: Config, s: World, w: Worker, o: Outcome, r: WorkerResult)
    requires FinishNext(c, s, w, o) == Some(r)
    ensures Effect(s, w, Keep, r)
  {
    HelmTeardown.FinishTouches(c, s, w, o, r);
    if r.worker.Some? {
      FinishKeepsError(c, s, w, o, r);
    }
  }

  lemma FinishKeepsError(c: Config, s: World, w: Worker, o: Outcome, r: WorkerResult)
    requires FinishNext(c, s, w, o) == Some(r) && r.worker.Some?
    ensures r.worker.value.pc.WriteStatus? ==> w.pc.ReadStatus? && r.worker.value.pc.err == w.pc.err
    ensures !r.worker.value.pc.ReadStatus?
  {
  }

  lemma QueueEffect(c: Config, s: World, w: Worker, o: Outcome, r: WorkerResult)
    requires QueueNext(c, s, w, o) == Some(r)
    ensures Effect(s, w, Keep, r)
  {
    HelmTeardown.QueueTouches(c, s, w, o, r);
    QueueKeepsOrder(c, s, w, o, r);
  }

  lemma QueueKeepsOrder(c: Config, s: World, w: Worker, o: Outcome, r: WorkerResult)
    requires QueueNext(c, s, w, o) == Some(r) && r.worker.Some?
    ensures !r.worker.value.pc.Prepared? && !r.worker.value.pc.WriteStatus? && !r.worker.value.pc.FirstRead?
    ensures r.worker.value.pc.AwaitSlot? ==> w.pc.FirstRead?
    ensures r.worker.value.pc.ReRead? ==> w.pc.AwaitSlot?
    ensures r.worker.value.pc.ReadStatus? ==> r.worker.value.pc.err.Some?
  {
  }

  lemma StepEffect(c: Config, s: World, w: Worker, o: Outcome, r: WorkerResult) returns (ch: Change)
    requires WorkerNext(c, s, w, o) == Some(r)
    ensures Effect(s, w, ch, r) && HelmTeardown.SameHosts(s, r.world)
  {
    HelmTeardown.WorkerTouches(c, s, w, o, r, w.host);
    if w.pc.InstallCompanion? {
      ch := CompanionEffect(s, w, o, r);
    } else if w.pc.ListStale? || w.pc.Prune? {
      ch := PruneEffect(s, w, o, r);
    } else if HelmPhase(w.pc) {
      ch := InstallEffect(s, w, o, r);
    } else if w.pc.ReadStatus? || w.pc.WriteStatus? || w.pc.Clear? || w.pc.DeferredRelease? {
      FinishEffect(c, s, w, o, r);
      ch := Keep;
    } else {
      QueueEffect(c, s, w, o, r);
      ch := Keep;
    }
  }

  // ---------------------------------------------------------------- reconciles

  /** The other hosts are as they were, and the reconcile's own is still there unless it was torn down. */
  ghost predicate KeepsHosts(s: World, g: Key, r: Reconcile, s': World) {
    && (forall h :: h in s'.server ==>
          h in s.server && s'.server[h].spec == s.server[h].spec && s'.server[h].deleting == s.server[h].deleting)
    && (forall h :: h in s.server && (h != g || !HelmTeardown.Tearing(r)) ==> h in s'.server)
  }

  /** What a reconcile that goes on remembers. */
  ghost predicate Remembers(s: World, g: Key, r: Reconcile, r': Reconcile) {
    && r'.mem.spec == r.mem.spec && r'.mem.deleting == r.mem.deleting && !r'.Loaded?
    && (HelmTeardown.Tearing(r') ==> HelmTeardown.Tearing(r) || (r.Loaded? && r.mem.deleting))
    && (r'.Uninstall? ==>
          || (r.Uninstall? && r.todo != [] && r'.todo == r.todo[1..])
          || (r.ListOwned? && exists names ::
                ListsOwned(s.releases, g, names) && r'.todo == names + Missing(r.mem.spec.companions, names)))
  }

  /** The whole effect of a reconcile's step, attributes and its own bookkeeping aside. */
  ghost predicate Brief(s: World, g: Key, r: Reconcile, ch: Change, res: ReconcileResult) {
    && (match ch
        case Keep => true
        case Put(_, _) => false
        case Drop(k) =>
          HelmTeardown.Tearing(r) && (k == g || (r.Uninstall? && r.todo != [] && k == ReleaseKey(g, r.todo[0]))))
    && res.world.releases == Changed(s.releases, ch)
    && res.world.rendered == s.rendered && res.world.configuration == s.configuration
    && KeepsHosts(s, g, r, res.world)
    && (res.reconcile.Some? ==> Remembers(s, g, r, res.reconcile.value))
  }

  lemma FrameBrief(s: World, g: Key, r: Reconcile, o: Outcome, res: ReconcileResult)
    requires FrameNext(s, g, r, o) == Some(res)
    ensures Brief(s, g, r, Keep, res)
  {
  }

  lemma DecideBrief(c: Config, s: World, unused: nat, g: Key, r: Reconcile, o: Outcome, res: ReconcileResult)
    requires DecideNext(c, s, unused, g, r, o) == Some(res)
    ensures Brief(s, g, r, Keep, res)
  {
  }

  lemma LaunchBrief(s: World, g: Key, r: Reconcile, res: ReconcileResult)
    requires LaunchNext(s, g, r) == Some(res)
    ensures Brief(s, g, r, Keep, res)
  {
  }

  lemma TeardownBrief(s: World, g: Key, r: Reconcile, o: Outcome, res: ReconcileResult) returns (ch: Change)
    requires TeardownNext(s, g, r, o) == Some(res)
    ensures Brief(s, g, r, ch, res)
  {
    ch := Keep;
    if r.UninstallHost? && (!o.Failed? || o.applied) {
      ch := Drop(g);
    } else if r.Uninstall? && r.todo != [] && (!o.Failed? || o.applied) {
      ch := Drop(ReleaseKey(g, r.todo[0]));
    }
  }

  lemma ReconcileBrief(c: Config, s: World, unused: nat, g: Key, r: Reconcile, o: Outcome, res: ReconcileResult)
    returns (ch: Change)
    requires ReconcileNext(c, s, unused, g, r, o) == Some(res)
    ensures Brief(s, g, r, ch, res)
  {
    ch := Keep;
    if Framing(r) {
      FrameBrief(s, g, r, o, res);
    } else if Deciding(r) {
      DecideBrief(c, s, unused, g, r, o, res);
    } else if Pending(r) {
      LaunchBrief(s, g, r, res);
    } else {
      ch := TeardownBrief(s, g, r, o, res);
    }
  }
}
