/** What protects the teardown of a host: the finalizer is there before anything is launched, every worker is cancelled
    before anything is uninstalled, and a deletion in which nothing fails leaves nothing. */
module HelmDeletion {
  import opened Wrappers
  import opened HelmOperations
  import opened HelmProtocol
  import opened HelmSafety
  import opened HelmPass
  import opened HelmTeardown
  import opened HelmUniqueness

  // ---------------------------------------------------------------- the finalizer comes first

  /** A reconcile that remembers a finalizer is right about it, and only such a reconcile gets to decide or launch. */
  ghost predicate Guarded(s: State) {
    forall h :: h in s.reconciles ==>
      && (s.reconciles[h].mem.finalizer ==> h in s.world.server && s.world.server[h].finalizer)
      && (Deciding(s.reconciles[h]) || Pending(s.reconciles[h]) ==> s.reconciles[h].mem.finalizer)
  }

  /** The hosts of the server keep their finalizers, all but the one a reconcile lets go. */
  ghost predicate KeepsFinalizers(s: World, s': World, g: Key, r: Reconcile) {
    forall h :: h in s.server && s.server[h].finalizer && !(h == g && r.RemoveFinalizer?) ==>
      h in s'.server && s'.server[h].finalizer
  }

  /** What the reconcile itself remembers afterwards. */
  ghost predicate StaysGuarded(g: Key, res: ReconcileResult) {
    res.reconcile.Some? ==>
      && (res.reconcile.value.mem.finalizer ==> g in res.world.server && res.world.server[g].finalizer)
      && (Deciding(res.reconcile.value) || Pending(res.reconcile.value) ==> res.reconcile.value.mem.finalizer)
  }

  lemma FrameGuards(s: World, g: Key, r: Reconcile, o: Outcome, res: ReconcileResult)
    requires FrameNext(s, g, r, o) == Some(res) && (r.mem.finalizer ==> g in s.server && s.server[g].finalizer)
    ensures KeepsFinalizers(s, res.world, g, r) && StaysGuarded(g, res)
  {
  }

  lemma DecideGuards(c: Config, s: World, unused: nat, g: Key, r: Reconcile, o: Outcome, res: ReconcileResult)
    requires DecideNext(c, s, unused, g, r, o) == Some(res) && r.mem.finalizer && g in s.server && s.server[g].finalizer
    ensures KeepsFinalizers(s, res.world, g, r) && StaysGuarded(g, res)
  {
  }

  lemma LaunchGuards(s: World, g: Key, r: Reconcile, res: ReconcileResult)
    requires LaunchNext(s, g, r) == Some(res) && r.mem.finalizer && g in s.server && s.server[g].finalizer
    ensures KeepsFinalizers(s, res.world, g, r) && StaysGuarded(g, res)
  {
  }

  lemma TeardownGuards(s: World, g: Key, r: Reconcile, o: Outcome, res: ReconcileResult)
    requires TeardownNext(s, g, r, o) == Some(res) && (r.mem.finalizer ==> g in s.server && s.server[g].finalizer)
    ensures KeepsFinalizers(s, res.world, g, r) && StaysGuarded(g, res)
  {
  }

  lemma ReconcileKeepsGuarded(c: Config, s: State, g: Key, o: Outcome, res: ReconcileResult)
    requires Guarded(s) && g in s.reconciles
    requires ReconcileNext(c, s.world, s.nextCtx, g, s.reconciles[g], o) == Some(res)
    ensures Guarded(CommitReconcile(s, g, res))
  {
    var r := s.reconciles[g];
    if Framing(r) {
      FrameGuards(s.world, g, r, o, res);
    } else if Deciding(r) {
      DecideGuards(c, s.world, s.nextCtx, g, r, o, res);
    } else if Pending(r) {
      LaunchGuards(s.world, g, r, res);
    } else {
      TeardownGuards(s.world, g, r, o, res);
    }
  }

  lemma StepKeepsGuarded(c: Config, s: State, l: Label, s': State)
    requires Guarded(s) && Next(c, s, l) == Some(s')
    ensures Guarded(s')
  {
    match l
    case WorkerStep(id, o) =>
      WorkerTouches(c, s.world, s.workers[id], o, WorkerNext(c, s.world, s.workers[id], o).value, s.workers[id].host);
    case ReconcileStep(g, o) =>
      if g in s.reconciles {
        ReconcileKeepsGuarded(c, s, g, o, ReconcileNext(c, s.world, s.nextCtx, g, s.reconciles[g], o).value);
      }
    case _ =>
  }

  lemma {:induction false} GuardedAlways(c: Config, s: State, ls: seq<Label>, s': State)
    requires Guarded(s) && Exec(c, s, ls) == Some(s')
    ensures Guarded(s')
    decreases |ls|
  {
    if ls != [] {
      var m := Next(c, s, ls[0]).value;
      StepKeepsGuarded(c, s, ls[0], m);
      GuardedAlways(c, m, ls[1..], s');
    }
  }

  /** No launch without a finalizer. In every run, whenever the context of a worker is created, its host is on the API
      server with the finalizer set, so it cannot go without a teardown. */
  lemma LaunchIsGuarded(c: Config, s0: State, ls: seq<Label>, s: State, l: Label, s': State)
    requires Init(s0) && Exec(c, s0, ls) == Some(s) && Next(c, s, l) == Some(s') && s.nextCtx in s'.workers
    ensures var h := s'.workers[s.nextCtx].host;
            && s.workers == s'.workers - {s.nextCtx}
            && h in s'.world.server && s'.world.server[h].finalizer
  {
    InitSafe(c, s0);
    SafeAlways(c, s0, ls, s);
    GuardedAlways(c, s0, ls, s);
    StepKeepsGuarded(c, s, l, s');
    OnlyPatchCreates(c, s, l, s');
  }

  lemma OnlyPatchCreates(c: Config, s: State, l: Label, s': State)
    requires Safe(c, s) && Next(c, s, l) == Some(s') && s.nextCtx in s'.workers
    ensures l.ReconcileStep? && l.host in s'.reconciles && s'.reconciles[l.host].TrySet?
    ensures s'.workers[s.nextCtx].host == l.host && s.workers == s'.workers - {s.nextCtx}
  {
    match l
    case WorkerStep(id, o) =>
    case ReconcileStep(h, o) =>
      if !Pending(s.reconciles[h]) {
        ReconcileEffect(c, s.world, s.nextCtx, h, s.reconciles[h], o,
                        ReconcileNext(c, s.world, s.nextCtx, h, s.reconciles[h], o).value);
      }
    case _ =>
  }

  // ---------------------------------------------------------------- cancelled before anything is uninstalled

  /** The teardown has forgotten the operation of its host. */
  predicate Forgetting(r: Reconcile) {
    r.CancelOperation? || Uninstalling(r)
  }

  predicate Uninstalling(r: Reconcile) {
    r.UninstallHost? || r.ListOwned? || r.Uninstall? || r.DropClient? || r.RemoveFinalizer?
  }

  ghost predicate Forgotten(s: State) {
    forall h :: h in s.reconciles && Forgetting(s.reconciles[h]) ==> h !in s.world.active
  }

  lemma TeardownForgets(s: World, g: Key, r: Reconcile, o: Outcome, res: ReconcileResult)
    requires TeardownNext(s, g, r, o) == Some(res) && (Forgetting(r) ==> g !in s.active)
    ensures res.world.active.Keys <= s.active.Keys
    ensures res.reconcile.Some? && Forgetting(res.reconcile.value) ==> g !in res.world.active
  {
  }

  lemma EarlierForgetsNothing(
    c: Config, s: World, unused: nat, g: Key, r: Reconcile, o: Outcome, res: ReconcileResult)
    requires ReconcileNext(c, s, unused, g, r, o) == Some(res) && !Tearing(r)
    ensures res.reconcile.Some? ==> !Forgetting(res.reconcile.value)
    ensures forall h :: h in res.world.active && h != g ==> h in s.active
  {
    if Framing(r) {
      FrameLeaves(s, g, r, o, res, g);
    } else if Deciding(r) {
      DecideLeaves(c, s, unused, g, r, o, res, g);
    }
    if !Pending(r) {
      ReconcileEffect(c, s, unused, g, r, o, res);
    }
  }

  lemma StepKeepsForgotten(c: Config, s: State, l: Label, s': State)
    requires Safe(c, s) && Forgotten(s) && Next(c, s, l) == Some(s')
    ensures Forgotten(s')
  {
    match l
    case WorkerStep(id, o) =>
      WorkerEffect(c, s.world, s.workers[id], o, WorkerNext(c, s.world, s.workers[id], o).value);
    case ReconcileStep(g, o) =>
      if g in s.reconciles {
        var res := ReconcileNext(c, s.world, s.nextCtx, g, s.reconciles[g], o).value;
        if Tearing(s.reconciles[g]) {
          TeardownForgets(s.world, g, s.reconciles[g], o, res);
        } else {
          EarlierForgetsNothing(c, s.world, s.nextCtx, g, s.reconciles[g], o, res);
        }
      }
    case Restart =>
    case _ => EnvironmentEffect(s.world, l, s'.world);
  }

  lemma {:induction false} ForgottenAlways(c: Config, s: State, ls: seq<Label>, s': State)
    requires Safe(c, s) && Forgotten(s) && Exec(c, s, ls) == Some(s')
    ensures Forgotten(s')
    decreases |ls|
  {
    if ls != [] {
      var m := Next(c, s, ls[0]).value;
      StepKeepsSafe(c, s, ls[0], m);
      StepKeepsForgotten(c, s, ls[0], m);
      ForgottenAlways(c, m, ls[1..], s');
    }
  }

  /** No teardown beside a live worker. In every run in which no hash recurs under a running worker, from the first
      uninstall of a host's teardown to its end the host has no active operation, and every worker of it that has not
      cleared its entry is cancelled. */
  lemma UninstallsAfterCancel(c: Config, s0: State, ls: seq<Label>, s: State, h: Key)
    requires Init(s0) && Exec(c, s0, ls) == Some(s) && NoRecurrence(c, s0, ls)
    requires h in s.reconciles && Uninstalling(s.reconciles[h])
    ensures h !in s.world.active
    ensures forall id :: id in s.workers && s.workers[id].host == h && Live(s.workers[id].pc) ==>
              s.workers[id].cancelled
  {
    InitSafe(c, s0);
    ForgottenAlways(c, s0, ls, s);
    UniqueAlways(c, s0, ls, s);
    forall id | id in s.workers && s.workers[id].host == h && Live(s.workers[id].pc)
      ensures s.workers[id].cancelled
    {
      assert Current(s.workers[id]) ==> MayBeCurrent(s, h, id);
    }
  }

  // ---------------------------------------------------------------- a deletion in which nothing fails

  /** From the start of its reconcile to the start of the uninstalls. */
  lemma ForgetsFirst(c: Config, s: State, h: Key) returns (ls: seq<Label>, s': State)
    requires h in s.world.server && s.world.server[h].deleting && s.world.server[h].finalizer && h !in s.reconciles
    ensures NoCreate(h, ls) && Exec(c, s, ls) == Some(s') && PassStarts(s', h)
    ensures s'.reconciles[h].mem == s.world.server[h]
    ensures s'.world == s.world.(active := s.world.active - {h}, clients := s.world.clients + {h})
    ensures h in s.world.active && s.world.active[h].ctx in s.workers ==>
              s.world.active[h].ctx in s'.workers && s'.workers[s.world.active[h].ctx].cancelled
  {
    var l, mem := ReconcileStep(h, Done), s.world.server[h];
    var m1 := s.(reconciles := s.reconciles[h := Loaded(mem)]);
    assert Next(c, s, l) == Some(m1);
    var m2 := m1.(reconciles := m1.reconciles[h := GetClient(mem)]);
    assert Next(c, m1, l) == Some(m2);
    var m3 := m2.(world := m2.world.(clients := m2.world.clients + {h}),
                  reconciles := m2.reconciles[h := ForgetOperation(mem)]);
    assert Next(c, m2, l) == Some(m3);
    var rest;
    rest, s' := CancelsFirst(c, m3, h);
    ls := [l] + ([l] + ([l] + rest));
    ExecCons(c, m2, l, rest);
    ExecCons(c, m1, l, [l] + rest);
    ExecCons(c, s, l, [l] + ([l] + rest));
  }

  lemma CancelsFirst(c: Config, s: State, h: Key) returns (ls: seq<Label>, s': State)
    requires h in s.reconciles && s.reconciles[h].ForgetOperation? && h in s.world.server && Ending(s.world, h)
    ensures NoCreate(h, ls) && Exec(c, s, ls) == Some(s') && PassStarts(s', h)
    ensures s'.reconciles[h].mem == s.reconciles[h].mem
    ensures s'.world == s.world.(active := s.world.active - {h})
    ensures h in s.world.active && s.world.active[h].ctx in s.workers ==>
              s.world.active[h].ctx in s'.workers && s'.workers[s.world.active[h].ctx].cancelled
  {
    var l := ReconcileStep(h, Done);
    var m := Next(c, s, l).value;
    if h in s.world.active {
      s' := Next(c, m, l).value;
      ls := [l] + ([l] + []);
      ExecCons(c, m, l, []);
      ExecCons(c, s, l, [l] + []);
    } else {
      assert s.world.active - {h} == s.world.active;
      s' := m;
      ls := [l] + [];
      ExecCons(c, s, l, []);
    }
  }

  /** A terminating host can always be deleted for good: one reconcile in which nothing fails cancels its operation,
      removes its release and all its companions, and leaves no client, no active operation and no host object. */
  lemma DeletionSucceeds(c: Config, s: State, h: Key) returns (ls: seq<Label>, s': State)
    requires h in s.world.server && s.world.server[h].deleting && s.world.server[h].finalizer && h !in s.reconciles
    ensures NoCreate(h, ls) && Exec(c, s, ls) == Some(s')
    ensures h !in s'.world.server && h !in s'.reconciles && h !in s'.world.active && h !in s'.world.clients
    ensures s'.world.releases
         == Without(Remove(s.world.releases, h), h, s.world.server[h].spec.companions)
    ensures h in s.world.active && s.world.active[h].ctx in s.workers ==>
              s.world.active[h].ctx in s'.workers && s'.workers[s.world.active[h].ctx].cancelled
  {
    var first, m := ForgetsFirst(c, s, h);
    var second, n := PassSucceeds(c, m, h);
    var l := ReconcileStep(h, Done);
    s' := Next(c, n, l).value;
    ExecCons(c, n, l, []);
    ls := first + second + ([l] + []);
    ExecAppend(c, s, first, second);
    ExecAppend(c, s, first + second, [l] + []);
  }
}
