/** Teardown over whole runs: when a deleted host leaves nothing behind. */
module HelmTeardown {
  import opened Wrappers
  import opened HelmOperations
  import opened HelmProtocol
  import opened HelmSafety
  import opened HelmPass

  /** There is no host object of that name which a worker could still act for. */
  predicate Ending(s: World, h: Key) {
    h !in s.server || (s.server[h].deleting && s.server[h].finalizer)
  }

  predicate NoCreate(h: Key, ls: seq<Label>) {
    forall l :: l in ls ==> !(l.CreateHost? && l.host == h)
  }

  /** No worker of `h` has an InstallOrUpgrade ahead of it. */
  ghost predicate Quiet(s: State, h: Key) {
    forall id :: id in s.workers && s.workers[id].host == h ==> !MayInstall(s.workers[id].pc)
  }

  /** A release that belongs to `h`: it carries the host's owner label, or it is the host's own release. */
  predicate Remnant(m: Releases, h: Key, k: Key) {
    k in m && k.ns == h.ns && (m[k] == Some(h.name) || (k == h && m[k] == None))
  }

  ghost predicate TornDown(m: Releases, h: Key) {
    forall k :: !Remnant(m, h, k)
  }

  ghost predicate NoNewRemnant(m: Releases, m': Releases, h: Key) {
    forall k :: Remnant(m', h, k) ==> Remnant(m, h, k)
  }

  /** How much of the host the running teardown has removed, as long as nothing failed. */
  ghost predicate PassOk(s: State, h: Key) {
    h in s.reconciles ==>
      match s.reconciles[h]
      case ListOwned(_, failed) => !failed ==> !Remnant(s.world.releases, h, h)
      case Uninstall(_, todo, failed) =>
        !failed ==> forall k :: Remnant(s.world.releases, h, k) ==> k.name in todo
      case DropClient(_) => TornDown(s.world.releases, h)
      case RemoveFinalizer(_) => TornDown(s.world.releases, h)
      case _ => true
  }

  ghost predicate Clean(s: State, h: Key) {
    && Ending(s.world, h) && Quiet(s, h) && PassOk(s, h)
    && (h !in s.world.server ==> TornDown(s.world.releases, h))
  }

  // ---------------------------------------------------------------- what one step may touch

  /** Only the attributes of existing hosts may differ. */
  ghost predicate SameHosts(s: World, s': World) {
    && s'.server.Keys == s.server.Keys
    && forall h :: h in s.server ==> s'.server[h] == s.server[h].(attributes := s'.server[h].attributes)
  }

  lemma QueueTouches(c: Config, s: World, w: Worker, o: Outcome, r: WorkerResult)
    requires QueueNext(c, s, w, o) == Some(r)
    ensures r.world == s.(tokens := r.world.tokens)
    ensures r.worker.Some? && r.worker.value.host == w.host
    ensures HelmPhase(r.worker.value.pc) ==>
              w.pc.ReRead? && w.host in s.server && !s.server[w.host].deleting
              && r.worker.value.pc == BuildClient(s.server[w.host].spec)
  {
  }

  lemma FinishTouches(c: Config, s: World, w: Worker, o: Outcome, r: WorkerResult)
    requires FinishNext(c, s, w, o) == Some(r)
    ensures r.world == s.(server := r.world.server, active := r.world.active, tokens := r.world.tokens)
    ensures SameHosts(s, r.world)
    ensures r.worker.Some? ==>
              && r.worker.value.host == w.host
              && (r.worker.value.pc.WriteStatus? || r.worker.value.pc.Clear? || r.worker.value.pc.DeferredRelease?)
  {
  }

  lemma HelmTouches(s: World, w: Worker, o: Outcome, r: WorkerResult)
    requires HelmNext(s, w, o) == Some(r)
    ensures r.world.server == s.server && r.world.configuration == s.configuration
    ensures r.worker.Some? && r.worker.value.host == w.host && r.worker.value.hash == w.hash
    ensures MayInstall(r.worker.value.pc) ==> MayInstall(w.pc)
  {
    if w.pc.InstallCompanion? {
      CompanionTouches(s, w, o, r);
    }
  }

  lemma CompanionTouches(s: World, w: Worker, o: Outcome, r: WorkerResult)
    requires HelmNext(s, w, o) == Some(r) && w.pc.InstallCompanion?
    ensures r.world.server == s.server && r.world.configuration == s.configuration
    ensures r.worker.Some? && r.worker.value.host == w.host && r.worker.value.hash == w.hash
    ensures MayInstall(r.worker.value.pc) ==> MayInstall(w.pc)
  {
  }

  lemma HelmKeepsSpec(s: World, w: Worker, o: Outcome, r: WorkerResult)
    requires HelmNext(s, w, o) == Some(r)
    ensures r.worker.Some? && (HelmPhase(r.worker.value.pc) || r.worker.value.pc.ReadStatus?)
    ensures HelmPhase(r.worker.value.pc) ==> r.worker.value.pc.spec == w.pc.spec
  {
  }

  /** What a Helm step may do to the store: install the host or a companion of it, or remove a release. */
  ghost predicate StoreStep(m: Releases, m': Releases, h: Key, installs: bool) {
    || m' == m
    || (installs && m' == Install(m, h, None))
    || (installs && exists n :: m' == Install(m, ReleaseKey(h, n), Some(h.name)))
    || exists n :: m' == Remove(m, ReleaseKey(h, n))
  }

  lemma HelmStore(s: World, w: Worker, o: Outcome, r: WorkerResult)
    requires HelmNext(s, w, o) == Some(r)
    ensures StoreStep(s.releases, r.world.releases, w.host, MayInstall(w.pc))
  {
    match w.pc
    case InstallCompanion(spec, next) =>
      if next < |spec.companions| {
        var n := spec.companions[next];
        assert r.world.releases == s.releases
            || r.world.releases == Install(s.releases, ReleaseKey(w.host, n), Some(w.host.name));
      }
    case Prune(spec, todo) =>
      if todo != [] {
        assert r.world.releases == s.releases || r.world.releases == Remove(s.releases, ReleaseKey(w.host, todo[0]));
      }
    case _ =>
  }

  lemma HelmLeaves(s: World, w: Worker, o: Outcome, r: WorkerResult, h: Key)
    requires HelmNext(s, w, o) == Some(r) && (w.host != h || !MayInstall(w.pc))
    ensures NoNewRemnant(s.releases, r.world.releases, h)
  {
    HelmStore(s, w, o, r);
  }

  /** A worker of another host, or one with no install ahead, leaves no remnant of `h`; and once the host
      is ending no worker of it gets an install ahead. */
  lemma WorkerTouches(c: Config, s: World, w: Worker, o: Outcome, r: WorkerResult, h: Key)
    requires WorkerNext(c, s, w, o) == Some(r)
    ensures SameHosts(s, r.world)
    ensures r.worker.Some? ==> r.worker.value.host == w.host
    ensures r.worker.Some? && w.host == h && Ending(s, h) && MayInstall(r.worker.value.pc) ==> MayInstall(w.pc)
    ensures w.host != h || !MayInstall(w.pc) ==> NoNewRemnant(s.releases, r.world.releases, h)
  {
    if HelmPhase(w.pc) {
      HelmTouches(s, w, o, r);
      if w.host != h || !MayInstall(w.pc) {
        HelmLeaves(s, w, o, r, h);
      }
    } else if w.pc.ReadStatus? || w.pc.WriteStatus? || w.pc.Clear? || w.pc.DeferredRelease? {
      FinishTouches(c, s, w, o, r);
    } else {
      QueueTouches(c, s, w, o, r);
    }
  }

  /** Frame, decision and launch steps leave the releases alone and keep every host that is ending. */
  ghost predicate LeavesHost(s: World, s': World, h: Key) {
    && (Ending(s, h) ==> Ending(s', h) && (h in s'.server <==> h in s.server))
    && NoNewRemnant(s.releases, s'.releases, h)
  }

  predicate Tearing(r: Reconcile) {
    !Framing(r) && !Deciding(r) && !Pending(r)
  }

  lemma FrameLeaves(s: World, g: Key, r: Reconcile, o: Outcome, res: ReconcileResult, h: Key)
    requires FrameNext(s, g, r, o) == Some(res)
    ensures LeavesHost(s, res.world, h)
    ensures res.reconcile.Some? && Tearing(res.reconcile.value) ==> res.reconcile.value.GetClient?
  {
  }

  lemma DecideLeaves(c: Config, s: World, unused: nat, g: Key, r: Reconcile, o: Outcome, res: ReconcileResult, h: Key)
    requires DecideNext(c, s, unused, g, r, o) == Some(res)
    ensures LeavesHost(s, res.world, h)
    ensures res.reconcile.Some? ==> !Tearing(res.reconcile.value)
  {
  }

  lemma LaunchLeaves(s: World, g: Key, r: Reconcile, res: ReconcileResult, h: Key)
    requires LaunchNext(s, g, r) == Some(res)
    ensures LeavesHost(s, res.world, h)
    ensures res.reconcile.Some? ==> !Tearing(res.reconcile.value)
  {
  }

  lemma OthersTeardownLeaves(s: World, g: Key, r: Reconcile, o: Outcome, res: ReconcileResult, h: Key)
    requires TeardownNext(s, g, r, o) == Some(res) && (g != h || !r.RemoveFinalizer?)
    ensures LeavesHost(s, res.world, h)
  {
  }

  /** The teardown of `h` itself, one step on: what is still to be uninstalled covers every remnant. */
  lemma OwnTeardownStep(s: State, h: Key, o: Outcome, res: ReconcileResult)
    requires Clean(s, h) && h in s.reconciles && TeardownNext(s.world, h, s.reconciles[h], o) == Some(res)
    ensures PassOk(CommitReconcile(s, h, res), h)
    ensures NoNewRemnant(s.world.releases, res.world.releases, h)
    ensures Ending(res.world, h) && (h !in res.world.server ==> TornDown(res.world.releases, h))
  {
    var r := s.reconciles[h];
    if r.Uninstall? && r.todo != [] {
      forall k | Remnant(res.world.releases, h, k) && !o.Failed?
        ensures k.name in r.todo[1..] || r.failed
      {
      }
    }
  }

  // ---------------------------------------------------------------- preservation

  lemma WorkerKeepsClean(c: Config, s: State, id: nat, o: Outcome, s': State, h: Key)
    requires Clean(s, h) && Next(c, s, WorkerStep(id, o)) == Some(s')
    ensures Clean(s', h)
  {
    WorkerTouches(c, s.world, s.workers[id], o, WorkerNext(c, s.world, s.workers[id], o).value, h);
  }

  lemma CommitKeepsQuiet(s: State, g: Key, res: ReconcileResult, h: Key)
    requires Quiet(s, h)
    ensures Quiet(CommitReconcile(s, g, res), h)
  {
  }

  lemma LeavingKeepsClean(s: State, g: Key, res: ReconcileResult, h: Key)
    requires Clean(s, h) && LeavesHost(s.world, res.world, h)
    requires g == h && res.reconcile.Some? && Tearing(res.reconcile.value) ==> res.reconcile.value.GetClient?
    ensures Clean(CommitReconcile(s, g, res), h)
  {
    CommitKeepsQuiet(s, g, res, h);
  }

  lemma ReconcileKeepsClean(c: Config, s: State, g: Key, o: Outcome, res: ReconcileResult, h: Key)
    requires Clean(s, h) && g in s.reconciles
    requires ReconcileNext(c, s.world, s.nextCtx, g, s.reconciles[g], o) == Some(res)
    ensures Clean(CommitReconcile(s, g, res), h)
  {
    var r := s.reconciles[g];
    if Framing(r) {
      FrameLeaves(s.world, g, r, o, res, h);
    } else if Deciding(r) {
      DecideLeaves(c, s.world, s.nextCtx, g, r, o, res, h);
    } else if Pending(r) {
      LaunchLeaves(s.world, g, r, res, h);
    } else if g != h {
      OthersTeardownLeaves(s.world, g, r, o, res, h);
    }
    if Tearing(r) && g == h {
      OwnTeardownStep(s, h, o, res);
      CommitKeepsQuiet(s, g, res, h);
    } else {
      LeavingKeepsClean(s, g, res, h);
    }
  }

  lemma StepKeepsClean(c: Config, s: State, l: Label, s': State, h: Key)
    requires Clean(s, h) && Next(c, s, l) == Some(s') && !(l.CreateHost? && l.host == h)
    ensures Clean(s', h)
  {
    match l
    case WorkerStep(id, o) => WorkerKeepsClean(c, s, id, o, s', h);
    case ReconcileStep(g, o) =>
      if g in s.reconciles {
        ReconcileKeepsClean(c, s, g, o, ReconcileNext(c, s.world, s.nextCtx, g, s.reconciles[g], o).value, h);
      }
    case Restart =>
    case _ => EnvironmentEffect(s.world, l, s'.world);
  }

  lemma {:induction false} CleanAlways(c: Config, s: State, ls: seq<Label>, s': State, h: Key)
    requires Clean(s, h) && NoCreate(h, ls) && Exec(c, s, ls) == Some(s')
    ensures Clean(s', h)
    decreases |ls|
  {
    if ls != [] {
      var m := Next(c, s, ls[0]).value;
      StepKeepsClean(c, s, ls[0], m, h);
      CleanAlways(c, m, ls[1..], s', h);
    }
  }

  // ---------------------------------------------------------------- main results over every run

  /** A worker that has not yet re-read its host when deletion is requested makes no Helm call and builds
      no client in any later run, until a host of that name is created again. */
  lemma {:induction false} LateReReadIsHarmless(
    c: Config, s: State, ls: seq<Label>, s': State, id: nat, o: Outcome, s'': State)
    requires Safe(c, s) && id in s.workers && !HelmPhase(s.workers[id].pc) && Ending(s.world, s.workers[id].host)
    requires NoCreate(s.workers[id].host, ls) && Exec(c, s, ls) == Some(s')
    requires id in s'.workers && Next(c, s', WorkerStep(id, o)) == Some(s'')
    ensures s'.workers[id].host == s.workers[id].host && !HelmPhase(s'.workers[id].pc)
    ensures s''.world.releases == s'.world.releases && s''.world.clients == s'.world.clients
    decreases |ls|
  {
    if ls == [] {
      var w := s.workers[id];
      var r := WorkerNext(c, s.world, w, o).value;
      if w.pc.ReadStatus? || w.pc.WriteStatus? || w.pc.Clear? || w.pc.DeferredRelease? {
        FinishTouches(c, s.world, w, o, r);
      } else {
        QueueTouches(c, s.world, w, o, r);
      }
    } else {
      var m := Next(c, s, ls[0]).value;
      StepKeepsSafe(c, s, ls[0], m);
      StepKeepsLate(c, s, ls[0], m, id);
      if id in m.workers {
        LateReReadIsHarmless(c, m, ls[1..], s', id, o, s'');
      } else {
        EndedStaysEnded(c, m, ls[1..], s', id);
      }
    }
  }

  lemma StepKeepsLate(c: Config, s: State, l: Label, s': State, id: nat)
    requires Safe(c, s) && id in s.workers && !HelmPhase(s.workers[id].pc) && Ending(s.world, s.workers[id].host)
    requires Next(c, s, l) == Some(s') && !(l.CreateHost? && l.host == s.workers[id].host)
    ensures Ending(s'.world, s.workers[id].host) && s'.nextCtx >= s.nextCtx
    ensures id in s'.workers ==> s'.workers[id].host == s.workers[id].host && !HelmPhase(s'.workers[id].pc)
  {
    var h := s.workers[id].host;
    match l
    case WorkerStep(i, o) =>
      var r := WorkerNext(c, s.world, s.workers[i], o).value;
      WorkerTouches(c, s.world, s.workers[i], o, r, h);
      if i == id {
        LateStep(c, s.world, s.workers[id], o, r);
      }
    case ReconcileStep(g, o) =>
      if g in s.reconciles {
        ReconcileKeepsEnding(c, s, g, o, ReconcileNext(c, s.world, s.nextCtx, g, s.reconciles[g], o).value, h);
      }
    case Restart =>
    case _ =>
  }

  lemma LateStep(c: Config, s: World, w: Worker, o: Outcome, r: WorkerResult)
    requires WorkerNext(c, s, w, o) == Some(r) && !HelmPhase(w.pc) && Ending(s, w.host)
    ensures r.worker.Some? ==> !HelmPhase(r.worker.value.pc)
  {
    if w.pc.ReadStatus? || w.pc.WriteStatus? || w.pc.Clear? || w.pc.DeferredRelease? {
      FinishTouches(c, s, w, o, r);
    } else {
      QueueTouches(c, s, w, o, r);
    }
  }

  lemma ReconcileKeepsEnding(c: Config, s: State, g: Key, o: Outcome, res: ReconcileResult, h: Key)
    requires Ending(s.world, h) && g in s.reconciles
    requires ReconcileNext(c, s.world, s.nextCtx, g, s.reconciles[g], o) == Some(res)
    ensures Ending(res.world, h)
  {
    var r := s.reconciles[g];
    if Framing(r) {
      FrameLeaves(s.world, g, r, o, res, h);
    } else if Deciding(r) {
      DecideLeaves(c, s.world, s.nextCtx, g, r, o, res, h);
    } else if Pending(r) {
      LaunchLeaves(s.world, g, r, res, h);
    } else if g != h || !r.RemoveFinalizer? {
      OthersTeardownLeaves(s.world, g, r, o, res, h);
    }
  }

  /** Contexts are not reused, so a worker that ended does not come back. */
  lemma {:induction false} EndedStaysEnded(c: Config, s: State, ls: seq<Label>, s': State, id: nat)
    requires Safe(c, s) && id !in s.workers && id < s.nextCtx && Exec(c, s, ls) == Some(s')
    ensures id !in s'.workers
    decreases |ls|
  {
    if ls != [] {
      var m := Next(c, s, ls[0]).value;
      StepKeepsSafe(c, s, ls[0], m);
      EndedStaysEnded(c, m, ls[1..], s', id);
    }
  }

  /** The uninstall pass of a terminating host is about to start. */
  ghost predicate PassStarts(s: State, h: Key) {
    h in s.world.server && Ending(s.world, h) && h in s.reconciles && s.reconciles[h].UninstallHost?
  }

  /** Teardown safety, exactly. From the start of the uninstall pass, every run that ends with the host
      gone (and not created again) has left no release of it, if and only if no worker of the host still
      had an install ahead of it when the pass started. */
  lemma TeardownSafeIff(c: Config, s: State, h: Key)
    requires PassStarts(s, h)
    ensures Quiet(s, h)
       <==> forall ls, s' :: NoCreate(h, ls) && Exec(c, s, ls) == Some(s') && h !in s'.world.server
                             ==> TornDown(s'.world.releases, h)
  {
    if Quiet(s, h) {
      forall ls, s' | NoCreate(h, ls) && Exec(c, s, ls) == Some(s') && h !in s'.world.server
        ensures TornDown(s'.world.releases, h)
      {
        CleanAlways(c, s, ls, s', h);
      }
    } else {
      var id :| id in s.workers && s.workers[id].host == h && MayInstall(s.workers[id].pc);
      var ls, s' := LateInstallSurvives(c, s, h, id);
    }
  }

  /** The client of the host is dropped with it, and its reconcile is about to end. */
  ghost predicate AllGone(s: State, s': State, h: Key) {
    && s'.world.clients == s.world.clients - {h} && s'.world.active == s.world.active
    && h in s'.reconciles && s'.reconciles[h].DeferredRead?
  }

  /** The end of an uninstall pass in which nothing failed. */
  lemma FinalizerGoes(c: Config, s: State, h: Key) returns (ls: seq<Label>, s': State)
    requires h in s.world.server && Ending(s.world, h) && h in s.reconciles && s.reconciles[h].DropClient?
    ensures Exec(c, s, ls) == Some(s') && NoCreate(h, ls)
    ensures s'.workers == s.workers && h !in s'.world.server && s'.world.releases == s.world.releases
    ensures AllGone(s, s', h)
  {
    var l := ReconcileStep(h, Done);
    var m := Next(c, s, l).value;
    s' := Next(c, m, l).value;
    ls := [l] + ([l] + []);
    ExecCons(c, s, l, [l] + []);
    ExecCons(c, m, l, []);
  }

  /** The rest of an uninstall pass in which nothing fails. */
  lemma {:induction false} UninstallsSucceed(c: Config, s: State, h: Key) returns (ls: seq<Label>, s': State)
    requires h in s.world.server && Ending(s.world, h) && h in s.reconciles
    requires s.reconciles[h].Uninstall? && !s.reconciles[h].failed
    ensures Exec(c, s, ls) == Some(s') && NoCreate(h, ls)
    ensures s'.workers == s.workers && h !in s'.world.server && AllGone(s, s', h)
    ensures s'.world.releases == RemoveAll(s.world.releases, h, s.reconciles[h].todo)
    decreases |s.reconciles[h].todo|
  {
    var l := ReconcileStep(h, Done);
    var m := Next(c, s, l).value;
    var rest;
    RemoveFirst(s.world.releases, h, s.reconciles[h].todo);
    if s.reconciles[h].todo == [] {
      rest, s' := FinalizerGoes(c, m, h);
    } else {
      rest, s' := UninstallsSucceed(c, m, h);
    }
    ls := [l] + rest;
    ExecCons(c, s, l, rest);
  }

  lemma RemoveFirst(m: Releases, h: Key, todo: seq<string>)
    ensures todo == [] ==> RemoveAll(m, h, todo) == m
    ensures todo != [] ==> RemoveAll(m, h, todo) == RemoveAll(Remove(m, ReleaseKey(h, todo[0])), h, todo[1..])
  {
    if todo != [] {
      assert todo == [todo[0]] + todo[1..];
    }
  }

  lemma {:induction false} SetAsSeq(names: set<string>) returns (xs: seq<string>)
    ensures forall n :: n in xs <==> n in names
    decreases |names|
  {
    if names == {} {
      xs := [];
    } else {
      var n :| n in names;
      var rest := SetAsSeq(names - {n});
      xs := [n] + rest;
    }
  }

  lemma OwnedAsSeq(m: Releases, h: Key) returns (xs: seq<string>)
    ensures ListsOwned(m, h, xs)
  {
    xs := SetAsSeq(set k | k in m && k.ns == h.ns && m[k] == Some(h.name) :: k.name);
    forall n | n in xs
      ensures Owned(m, h, n)
    {
      var k :| k in m && k.ns == h.ns && m[k] == Some(h.name) && k.name == n;
      assert k == ReleaseKey(h, n);
    }
  }

  /** A pass in which nothing fails takes the host away; a worker past its re-read then installs anyway. */
  lemma LateInstallSurvives(c: Config, s: State, h: Key, id: nat) returns (ls: seq<Label>, s': State)
    requires PassStarts(s, h) && id in s.workers && s.workers[id].host == h && MayInstall(s.workers[id].pc)
    ensures NoCreate(h, ls) && Exec(c, s, ls) == Some(s') && h !in s'.world.server
    ensures !TornDown(s'.world.releases, h)
  {
    var pass, gone := PassSucceeds(c, s, h);
    var install;
    install, s' := WorkerInstalls(c, gone, id);
    ls := pass + install;
    ExecAppend(c, s, pass, install);
  }

  /** A teardown in which nothing fails: the protocol's steps leave the store that the deletion pass on mutable
      objects (HostDeletion.Host.DeletionPass) leaves. */
  lemma PassSucceeds(c: Config, s: State, h: Key) returns (ls: seq<Label>, s': State)
    requires PassStarts(s, h)
    ensures NoCreate(h, ls) && Exec(c, s, ls) == Some(s')
    ensures s'.workers == s.workers && h !in s'.world.server && AllGone(s, s', h)
    ensures s'.world.releases == Without(Remove(s.world.releases, h), h, s.reconciles[h].mem.spec.companions)
  {
    var first := ReconcileStep(h, Done);
    var m := Next(c, s, first).value;
    var names := OwnedAsSeq(m.world.releases, h);
    var second := ReconcileStep(h, Listed(names));
    var m2 := Next(c, m, second).value;
    var rest;
    rest, s' := UninstallsSucceed(c, m2, h);
    TargetsCover(m.world.releases, h, s.reconciles[h].mem.spec.companions, names);
    ls := [first] + ([second] + rest);
    ExecCons(c, s, first, [second] + rest);
    ExecCons(c, m, second, rest);
  }

  lemma WorkerInstalls(c: Config, s: State, id: nat) returns (ls: seq<Label>, s': State)
    requires id in s.workers && MayInstall(s.workers[id].pc)
    requires s.workers[id].host !in s.world.server && s.workers[id].host !in s.world.releases
    ensures NoCreate(s.workers[id].host, ls) && Exec(c, s, ls) == Some(s')
    ensures s.workers[id].host !in s'.world.server && !TornDown(s'.world.releases, s.workers[id].host)
  {
    var w := s.workers[id];
    var l := WorkerStep(id, Done);
    var m := Next(c, s, l).value;
    match w.pc
    case BuildClient(spec) =>
      s' := Next(c, m, l).value;
      ls := [l] + ([l] + []);
      ExecCons(c, m, l, []);
      ExecCons(c, s, l, [l] + []);
      assert Remnant(s'.world.releases, w.host, w.host);
    case InstallHost(spec) =>
      ls, s' := [l] + [], m;
      ExecCons(c, s, l, []);
      assert Remnant(s'.world.releases, w.host, w.host);
    case InstallCompanion(spec, next) =>
      ls, s' := [l] + [], m;
      ExecCons(c, s, l, []);
      assert Remnant(s'.world.releases, w.host, ReleaseKey(w.host, spec.companions[next]));
  }
}
