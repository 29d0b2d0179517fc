/** When the releases of a host are what its spec says, and when they stay so, whatever else runs. */
module HelmConvergence {
  import opened Wrappers
  import opened HelmOperations
  import opened HelmProtocol
  import opened HelmSafety
  import opened HelmRuns
  import opened HelmSteps
  import HelmPass
  import HelmTeardown

  // ---------------------------------------------------------------- a host and its neighbours

  /** The release names that belong to a host of this spec. */
  function OwnNames(h: Key, spec: HostSpec): set<string> {
    {h.name} + set n | n in spec.companions
  }

  /** Another host that uses none of them. */
  predicate Apart(name: string, used: seq<string>, own: set<string>) {
    name !in own && forall n :: n in used ==> n !in own
  }

  /** The companions a worker or a reconcile may still touch. */
  function WorkerNames(pc: WorkerPc): seq<string> {
    if pc.Prune? then pc.spec.companions + pc.todo else if HelmPhase(pc) then pc.spec.companions else []
  }

  function ReconcileNames(r: Reconcile): seq<string> {
    r.mem.spec.companions + if r.Uninstall? then r.todo else []
  }

  ghost predicate HostsApart(s: World, h: Key, own: set<string>) {
    forall g :: g in s.server && g.ns == h.ns && g != h ==> Apart(g.name, s.server[g].spec.companions, own)
  }

  /** No worker of the host has a companion named like the host; the others of the namespace are apart. */
  predicate WorkerApart(w: Worker, h: Key, own: set<string>) {
    w.host.ns == h.ns ==>
      if w.host == h then h.name !in WorkerNames(w.pc) else Apart(w.host.name, WorkerNames(w.pc), own)
  }

  ghost predicate WorkersApart(s: State, h: Key, own: set<string>) {
    forall id :: id in s.workers ==> WorkerApart(s.workers[id], h, own)
  }

  ghost predicate ReconcilesApart(s: State, h: Key, own: set<string>) {
    forall g :: g in s.reconciles && g.ns == h.ns && g != h ==> Apart(g.name, ReconcileNames(s.reconciles[g]), own)
  }

  /** The host's own release carries no label, and its other names at most its own. */
  ghost predicate OwnLabels(m: Releases, h: Key, own: set<string>) {
    forall n :: n in own && ReleaseKey(h, n) in m && m[ReleaseKey(h, n)].Some? ==>
      n != h.name && m[ReleaseKey(h, n)] == Some(h.name)
  }

  /** The host is there to stay, and nobody is tearing it down. */
  ghost predicate Staying(s: State, h: Key, spec: HostSpec, configuration: string) {
    && h in s.world.server && s.world.server[h].spec == spec && !s.world.server[h].deleting
    && s.world.configuration == configuration
    && (h in s.reconciles ==>
          !HelmTeardown.Tearing(s.reconciles[h]) && !(s.reconciles[h].Loaded? && s.reconciles[h].mem.deleting))
  }

  /** No companion is named like the host, and no other host of the namespace uses its names. */
  ghost predicate Alone(c: Config, s: State, h: Key, spec: HostSpec, configuration: string) {
    var own := OwnNames(h, spec);
    && Safe(c, s) && Staying(s, h, spec, configuration) && h.name !in spec.companions
    && HostsApart(s.world, h, own) && WorkersApart(s, h, own) && ReconcilesApart(s, h, own)
    && OwnLabels(s.world.releases, h, own)
  }

  /** Steps that leave the inputs of the host alone: nobody edits or deletes it or reconfigures the cluster, and
      other hosts of the namespace that are created or edited stay apart. */
  predicate LeavesAlone(h: Key, own: set<string>, l: Label) {
    match l
    case Configure(_) => false
    case RequestDelete(g) => g != h
    case CreateHost(g, sp) => g != h && (g.ns == h.ns ==> Apart(g.name, sp.companions, own))
    case EditSpec(g, sp) => g != h && (g.ns == h.ns ==> Apart(g.name, sp.companions, own))
    case _ => true
  }

  predicate InputsAlone(h: Key, own: set<string>, ls: seq<Label>) {
    forall l :: l in ls ==> LeavesAlone(h, own, l)
  }

  // ---------------------------------------------------------------- what others cannot do

  /** The host's names, and what its release was rendered from, are untouched; no release becomes labelled for it. */
  ghost predicate Untouched(s: World, s': World, h: Key, own: set<string>) {
    && (forall n :: n in own ==>
          var k := ReleaseKey(h, n);
          (k in s'.releases <==> k in s.releases) && (k in s.releases ==> s'.releases[k] == s.releases[k]))
    && (h in s.rendered ==> h in s'.rendered && s'.rendered[h] == s.rendered[h])
    && (forall n :: Owned(s'.releases, h, n) ==> Owned(s.releases, h, n))
  }

  lemma OthersLeave(s: World, w: Worker, ch: Change, r: WorkerResult, h: Key, own: set<string>)
    requires Effect(s, w, ch, r) && w.host != h && WorkerApart(w, h, own) && h.name in own
    ensures Untouched(s, r.world, h, own)
  {
    if w.host.ns == h.ns {
      assert w.pc.InstallCompanion? || w.pc.Prune? ==> forall n :: n in w.pc.spec.companions ==> n in WorkerNames(w.pc);
      assert w.pc.Prune? ==> forall n :: n in w.pc.todo ==> n in WorkerNames(w.pc);
    }
  }

  lemma OtherReconcilesLeave(s: World, g: Key, r: Reconcile, ch: Change, res: ReconcileResult, h: Key, own: set<string>)
    requires Brief(s, g, r, ch, res) && g != h && h.name in own
    requires g.ns == h.ns ==> Apart(g.name, ReconcileNames(r), own)
    ensures Untouched(s, res.world, h, own)
  {
    assert r.Uninstall? ==> forall n :: n in r.todo ==> n in ReconcileNames(r);
  }

  lemma UntouchedKeepsLabels(s: World, s': World, h: Key, own: set<string>)
    requires Untouched(s, s', h, own) && OwnLabels(s.releases, h, own)
    ensures OwnLabels(s'.releases, h, own)
  {
  }

  // ---------------------------------------------------------------- being alone lasts

  lemma WorkerStaysApart(s: World, w: Worker, ch: Change, r: WorkerResult, h: Key, spec: HostSpec)
    requires Effect(s, w, ch, r) && r.worker.Some? && WorkerApart(w, h, OwnNames(h, spec))
    requires h in s.server && s.server[h].spec == spec && h.name !in spec.companions
    requires HostsApart(s, h, OwnNames(h, spec)) && OwnLabels(s.releases, h, OwnNames(h, spec))
    ensures WorkerApart(r.worker.value, h, OwnNames(h, spec))
  {
    var own, pc := OwnNames(h, spec), r.worker.value.pc;
    if w.host.ns == h.ns && pc.Prune? {
      if w.pc.ListStale? {
        forall n | n in pc.todo && n in own
          ensures w.host == h && n != h.name
        {
          assert Owned(s.releases, w.host, n);
        }
      } else {
        assert forall n :: n in pc.todo ==> n in w.pc.todo;
      }
    }
  }

  lemma OwnWorkerKeepsLabels(s: World, w: Worker, ch: Change, r: WorkerResult, h: Key, own: set<string>)
    requires Effect(s, w, ch, r) && w.host == h && WorkerApart(w, h, own) && OwnLabels(s.releases, h, own)
    ensures OwnLabels(r.world.releases, h, own)
  {
    if w.pc.InstallCompanion? && w.pc.next < |w.pc.spec.companions| {
      assert w.pc.spec.companions[w.pc.next] in WorkerNames(w.pc);
    }
  }

  lemma WorkerKeepsAlone(c: Config, s: State, id: nat, o: Outcome, s': State, h: Key, spec: HostSpec, cfg: string)
    requires Alone(c, s, h, spec, cfg) && Next(c, s, WorkerStep(id, o)) == Some(s')
    ensures Alone(c, s', h, spec, cfg)
  {
    var w, own := s.workers[id], OwnNames(h, spec);
    var r := WorkerNext(c, s.world, w, o).value;
    StepKeepsSafe(c, s, WorkerStep(id, o), s');
    var ch := StepEffect(c, s.world, w, o, r);
    assert WorkerApart(w, h, own);
    if r.worker.Some? {
      WorkerStaysApart(s.world, w, ch, r, h, spec);
    }
    if w.host == h {
      OwnWorkerKeepsLabels(s.world, w, ch, r, h, own);
    } else {
      OthersLeave(s.world, w, ch, r, h, own);
      UntouchedKeepsLabels(s.world, r.world, h, own);
    }
  }

  /** A reconcile's step gives no worker anything to touch. */
  lemma CommitKeepsApart(s: State, g: Key, res: ReconcileResult, h: Key, own: set<string>)
    requires WorkersApart(s, h, own) && (g != h && g.ns == h.ns ==> g.name !in own)
    ensures WorkersApart(CommitReconcile(s, g, res), h, own)
  {
  }

  lemma ReconcileStaysApart(s: World, g: Key, r: Reconcile, ch: Change, res: ReconcileResult, h: Key, spec: HostSpec)
    requires Brief(s, g, r, ch, res) && res.reconcile.Some? && g != h && g.ns == h.ns
    requires Apart(g.name, ReconcileNames(r), OwnNames(h, spec)) && OwnLabels(s.releases, h, OwnNames(h, spec))
    ensures Apart(g.name, ReconcileNames(res.reconcile.value), OwnNames(h, spec))
  {
    var own, r' := OwnNames(h, spec), res.reconcile.value;
    assert forall n :: n in r.mem.spec.companions ==> n in ReconcileNames(r);
    if r'.Uninstall? {
      if r.Uninstall? {
        assert forall n :: n in r'.todo ==> n in r.todo;
        assert forall n :: n in r.todo ==> n in ReconcileNames(r);
      } else {
        var names :|
          ListsOwned(s.releases, g, names) && r'.todo == names + Missing(r.mem.spec.companions, names);
        HelmPass.MissingIsDeclared(r.mem.spec.companions, names);
        forall n | n in names
          ensures n !in own
        {
          assert Owned(s.releases, g, n);
        }
      }
    }
  }

  lemma ReconcileKeepsAlone(c: Config, s: State, g: Key, o: Outcome, s': State, h: Key, spec: HostSpec, cfg: string)
    requires Alone(c, s, h, spec, cfg) && g in s.reconciles && Next(c, s, ReconcileStep(g, o)) == Some(s')
    ensures Alone(c, s', h, spec, cfg)
  {
    var r, own := s.reconciles[g], OwnNames(h, spec);
    var res := ReconcileNext(c, s.world, s.nextCtx, g, r, o).value;
    StepKeepsSafe(c, s, ReconcileStep(g, o), s');
    var ch := ReconcileBrief(c, s.world, s.nextCtx, g, r, o, res);
    CommitKeepsApart(s, g, res, h, own);
    if g == h {
      assert ch == Keep;
    } else {
      OtherReconcilesLeave(s.world, g, r, ch, res, h, own);
      UntouchedKeepsLabels(s.world, res.world, h, own);
      if g.ns == h.ns && res.reconcile.Some? {
        ReconcileStaysApart(s.world, g, r, ch, res, h, spec);
      }
    }
    ReconcileKeepsStaying(s, g, r, ch, res, h, spec, cfg);
  }

  lemma ReconcileKeepsStaying(
    s: State, g: Key, r: Reconcile, ch: Change, res: ReconcileResult, h: Key, spec: HostSpec, cfg: string)
    requires Staying(s, h, spec, cfg) && g in s.reconciles && s.reconciles[g] == r && Brief(s.world, g, r, ch, res)
    ensures Staying(CommitReconcile(s, g, res), h, spec, cfg)
  {
  }

  lemma LoadKeepsAlone(c: Config, s: State, g: Key, o: Outcome, s': State, h: Key, spec: HostSpec, cfg: string)
    requires Alone(c, s, h, spec, cfg) && g !in s.reconciles && Next(c, s, ReconcileStep(g, o)) == Some(s')
    ensures Alone(c, s', h, spec, cfg)
  {
    StepKeepsSafe(c, s, ReconcileStep(g, o), s');
  }

  lemma RestartKeepsAlone(c: Config, s: State, s': State, h: Key, spec: HostSpec, cfg: string)
    requires Alone(c, s, h, spec, cfg) && Next(c, s, Restart) == Some(s')
    ensures Alone(c, s', h, spec, cfg)
  {
    StepKeepsSafe(c, s, Restart, s');
  }

  lemma UserKeepsAlone(c: Config, s: State, l: Label, s': State, h: Key, spec: HostSpec, cfg: string)
    requires Alone(c, s, h, spec, cfg) && LeavesAlone(h, OwnNames(h, spec), l)
    requires !l.WorkerStep? && !l.ReconcileStep? && !l.Restart? && Next(c, s, l) == Some(s')
    ensures Alone(c, s', h, spec, cfg)
  {
    StepKeepsSafe(c, s, l, s');
    EnvironmentEffect(s.world, l, s'.world);
  }

  lemma StepKeepsAlone(c: Config, s: State, l: Label, s': State, h: Key, spec: HostSpec, cfg: string)
    requires Alone(c, s, h, spec, cfg) && LeavesAlone(h, OwnNames(h, spec), l) && Next(c, s, l) == Some(s')
    ensures Alone(c, s', h, spec, cfg)
  {
    match l
    case WorkerStep(id, o) => WorkerKeepsAlone(c, s, id, o, s', h, spec, cfg);
    case ReconcileStep(g, o) =>
      if g in s.reconciles {
        ReconcileKeepsAlone(c, s, g, o, s', h, spec, cfg);
      } else {
        LoadKeepsAlone(c, s, g, o, s', h, spec, cfg);
      }
    case Restart => RestartKeepsAlone(c, s, s', h, spec, cfg);
    case _ => UserKeepsAlone(c, s, l, s', h, spec, cfg);
  }

  // ---------------------------------------------------------------- the releases of a host, and what endangers them

  /** The host's release is there, and was rendered from its spec under the current configuration. */
  predicate HostCurrent(s: World, h: Key, spec: HostSpec) {
    h in s.releases && RenderedFrom(s, h, spec)
  }

  /** The releases labelled for the host are the companions that its spec declares. */
  ghost predicate DeclaredExactly(m: Releases, h: Key, spec: HostSpec) {
    forall n :: Owned(m, h, n) <==> n in spec.companions
  }

  /** No install of the host's release from another spec is ahead. */
  ghost predicate NoOtherRender(s: State, h: Key, spec: HostSpec) {
    forall id :: id in s.workers && s.workers[id].host == h ==>
      (s.workers[id].pc.BuildClient? || s.workers[id].pc.InstallHost? ==> s.workers[id].pc.spec == spec)
  }

  /** The companions whose install is ahead. */
  function Remaining(pc: WorkerPc): seq<string> {
    match pc
    case BuildClient(sp) => sp.companions
    case InstallHost(sp) => sp.companions
    case InstallCompanion(sp, n) => if n <= |sp.companions| then sp.companions[n..] else []
    case _ => []
  }

  /** A worker that installs no undeclared companion any more, and prunes no declared one. */
  predicate Harmless(pc: WorkerPc, spec: HostSpec) {
    HelmPhase(pc) ==>
      && (forall n :: n in Remaining(pc) ==> n in spec.companions)
      && (!pc.Prune? ==> forall n :: n in spec.companions ==> n in pc.spec.companions)
      && (pc.Prune? ==> forall n :: n in pc.todo && n in spec.companions ==> n in pc.spec.companions)
  }

  ghost predicate NoStaleWork(s: State, h: Key, spec: HostSpec) {
    forall id :: id in s.workers && s.workers[id].host == h ==> Harmless(s.workers[id].pc, spec)
  }

  lemma StaysHarmless(s: World, w: Worker, ch: Change, r: WorkerResult, spec: HostSpec)
    requires Effect(s, w, ch, r) && r.worker.Some? && Harmless(w.pc, spec)
    requires w.host in s.server ==> s.server[w.host].spec == spec
    ensures Harmless(r.worker.value.pc, spec)
  {
    var pc := r.worker.value.pc;
    if pc.InstallCompanion? {
      assert forall n :: n in Remaining(pc) ==> n in Remaining(w.pc);
    } else if pc.Prune? && w.pc.Prune? {
      assert forall n :: n in pc.todo ==> n in w.pc.todo;
    }
  }

  lemma StepKeepsHarmless(c: Config, s: State, l: Label, s': State, h: Key, spec: HostSpec)
    requires NoStaleWork(s, h, spec) && Next(c, s, l) == Some(s')
    requires h in s.world.server ==> s.world.server[h].spec == spec
    ensures NoStaleWork(s', h, spec)
  {
    match l
    case WorkerStep(id, o) =>
      var r := WorkerNext(c, s.world, s.workers[id], o).value;
      var ch := StepEffect(c, s.world, s.workers[id], o, r);
      if r.worker.Some? && s.workers[id].host == h {
        StaysHarmless(s.world, s.workers[id], ch, r, spec);
      }
    case _ =>
  }

  lemma StepKeepsRenders(c: Config, s: State, l: Label, s': State, h: Key, spec: HostSpec)
    requires NoOtherRender(s, h, spec) && Next(c, s, l) == Some(s')
    requires h in s.world.server ==> s.world.server[h].spec == spec
    ensures NoOtherRender(s', h, spec)
  {
    match l
    case WorkerStep(id, o) =>
      var r := WorkerNext(c, s.world, s.workers[id], o).value;
      var ch := StepEffect(c, s.world, s.workers[id], o, r);
    case _ =>
  }

  /** What a step can do to the releases of the host: others nothing, its own workers what they may. */
  lemma StepTouches(c: Config, s: State, l: Label, s': State, h: Key, spec: HostSpec, cfg: string)
    requires Alone(c, s, h, spec, cfg) && LeavesAlone(h, OwnNames(h, spec), l) && Next(c, s, l) == Some(s')
    ensures || Untouched(s.world, s'.world, h, OwnNames(h, spec))
            || (l.WorkerStep? && s.workers[l.id].host == h)
  {
    var own := OwnNames(h, spec);
    match l
    case WorkerStep(id, o) =>
      if s.workers[id].host != h {
        var r := WorkerNext(c, s.world, s.workers[id], o).value;
        var ch := StepEffect(c, s.world, s.workers[id], o, r);
        OthersLeave(s.world, s.workers[id], ch, r, h, own);
      }
    case ReconcileStep(g, o) =>
      if g in s.reconciles {
        var res := ReconcileNext(c, s.world, s.nextCtx, g, s.reconciles[g], o).value;
        var ch := ReconcileBrief(c, s.world, s.nextCtx, g, s.reconciles[g], o, res);
        if g != h {
          OtherReconcilesLeave(s.world, g, s.reconciles[g], ch, res, h, own);
        }
      }
    case _ => EnvironmentTouchesNothing(c, s, l, s', h, own);
  }

  lemma EnvironmentTouchesNothing(c: Config, s: State, l: Label, s': State, h: Key, own: set<string>)
    requires Next(c, s, l) == Some(s') && !l.WorkerStep? && !l.ReconcileStep?
    ensures Untouched(s.world, s'.world, h, own)
  {
  }

  lemma UntouchedKeepsRight(s: World, s': World, h: Key, spec: HostSpec, cfg: string)
    requires Untouched(s, s', h, OwnNames(h, spec)) && s.configuration == cfg == s'.configuration
    ensures HostCurrent(s, h, spec) ==> HostCurrent(s', h, spec)
    ensures DeclaredExactly(s.releases, h, spec) ==> DeclaredExactly(s'.releases, h, spec)
  {
    assert h == ReleaseKey(h, h.name);
    if DeclaredExactly(s.releases, h, spec) {
      forall n
        ensures Owned(s'.releases, h, n) <==> n in spec.companions
      {
        if n in spec.companions {
          assert n in OwnNames(h, spec) && Owned(s.releases, h, n);
        }
      }
    }
  }

  lemma OwnStepKeepsHost(s: World, w: Worker, ch: Change, r: WorkerResult, h: Key, spec: HostSpec)
    requires Effect(s, w, ch, r) && w.host == h && WorkerApart(w, h, OwnNames(h, spec))
    requires HostCurrent(s, h, spec) && (w.pc.InstallHost? ==> w.pc.spec == spec)
    ensures HostCurrent(r.world, h, spec)
  {
    assert w.pc.InstallCompanion? || w.pc.Prune? ==> forall n :: n in w.pc.spec.companions ==> n in WorkerNames(w.pc);
    assert w.pc.Prune? ==> forall n :: n in w.pc.todo ==> n in WorkerNames(w.pc);
  }

  lemma OwnStepKeepsDeclared(s: World, w: Worker, ch: Change, r: WorkerResult, h: Key, spec: HostSpec)
    requires Effect(s, w, ch, r) && w.host == h && Harmless(w.pc, spec) && h.name !in spec.companions
    requires DeclaredExactly(s.releases, h, spec) && OwnLabels(s.releases, h, OwnNames(h, spec))
    ensures DeclaredExactly(r.world.releases, h, spec)
  {
    if w.pc.InstallCompanion? && w.pc.next < |w.pc.spec.companions| {
      assert w.pc.spec.companions[w.pc.next] in Remaining(w.pc);
    }
    forall n
      ensures Owned(r.world.releases, h, n) <==> n in spec.companions
    {
      assert Owned(s.releases, h, n) <==> n in spec.companions;
    }
  }

  // ---------------------------------------------------------------- they stay right

  lemma StepKeepsHostCurrent(c: Config, s: State, l: Label, s': State, h: Key, spec: HostSpec, cfg: string)
    requires Alone(c, s, h, spec, cfg) && LeavesAlone(h, OwnNames(h, spec), l) && Next(c, s, l) == Some(s')
    requires NoOtherRender(s, h, spec) && HostCurrent(s.world, h, spec)
    ensures NoOtherRender(s', h, spec) && HostCurrent(s'.world, h, spec)
  {
    StepKeepsAlone(c, s, l, s', h, spec, cfg);
    StepKeepsRenders(c, s, l, s', h, spec);
    if l.WorkerStep? && s.workers[l.id].host == h {
      var r := WorkerNext(c, s.world, s.workers[l.id], l.o).value;
      var ch := StepEffect(c, s.world, s.workers[l.id], l.o, r);
      OwnStepKeepsHost(s.world, s.workers[l.id], ch, r, h, spec);
    } else {
      StepTouches(c, s, l, s', h, spec, cfg);
      UntouchedKeepsRight(s.world, s'.world, h, spec, cfg);
    }
  }

  lemma StepKeepsDeclared(c: Config, s: State, l: Label, s': State, h: Key, spec: HostSpec, cfg: string)
    requires Alone(c, s, h, spec, cfg) && LeavesAlone(h, OwnNames(h, spec), l) && Next(c, s, l) == Some(s')
    requires NoStaleWork(s, h, spec) && DeclaredExactly(s.world.releases, h, spec)
    ensures NoStaleWork(s', h, spec) && DeclaredExactly(s'.world.releases, h, spec)
  {
    StepKeepsAlone(c, s, l, s', h, spec, cfg);
    StepKeepsHarmless(c, s, l, s', h, spec);
    if l.WorkerStep? && s.workers[l.id].host == h {
      var r := WorkerNext(c, s.world, s.workers[l.id], l.o).value;
      var ch := StepEffect(c, s.world, s.workers[l.id], l.o, r);
      OwnStepKeepsDeclared(s.world, s.workers[l.id], ch, r, h, spec);
    } else {
      StepTouches(c, s, l, s', h, spec, cfg);
      UntouchedKeepsRight(s.world, s'.world, h, spec, cfg);
    }
  }

  lemma {:induction false} HostStaysCurrent(
    c: Config, s: State, ls: seq<Label>, s': State, h: Key, spec: HostSpec, cfg: string)
    requires Alone(c, s, h, spec, cfg) && InputsAlone(h, OwnNames(h, spec), ls) && Exec(c, s, ls) == Some(s')
    requires NoOtherRender(s, h, spec) && HostCurrent(s.world, h, spec)
    ensures HostCurrent(s'.world, h, spec)
    decreases |ls|
  {
    if ls != [] {
      var m := Next(c, s, ls[0]).value;
      assert ls[0] in ls;
      StepKeepsAlone(c, s, ls[0], m, h, spec, cfg);
      StepKeepsHostCurrent(c, s, ls[0], m, h, spec, cfg);
      HostStaysCurrent(c, m, ls[1..], s', h, spec, cfg);
    }
  }

  lemma {:induction false} CompanionsStayDeclared(
    c: Config, s: State, ls: seq<Label>, s': State, h: Key, spec: HostSpec, cfg: string)
    requires Alone(c, s, h, spec, cfg) && InputsAlone(h, OwnNames(h, spec), ls) && Exec(c, s, ls) == Some(s')
    requires NoStaleWork(s, h, spec) && DeclaredExactly(s.world.releases, h, spec)
    ensures DeclaredExactly(s'.world.releases, h, spec)
    decreases |ls|
  {
    if ls != [] {
      var m := Next(c, s, ls[0]).value;
      assert ls[0] in ls;
      StepKeepsAlone(c, s, ls[0], m, h, spec, cfg);
      StepKeepsDeclared(c, s, ls[0], m, h, spec, cfg);
      CompanionsStayDeclared(c, m, ls[1..], s', h, spec, cfg);
    }
  }

  // ---------------------------------------------------------------- and only then

  /** Worker `j` ran alone: nothing else moved. */
  ghost predicate Ran(s: State, s': State, j: nat, ls: seq<Label>) {
    && s'.workers - {j} == s.workers - {j} && s'.reconciles == s.reconciles
    && s'.world.server == s.world.server && s'.world.configuration == s.world.configuration
    && forall l :: l in ls ==> l.WorkerStep?
  }

  lemma RendersOther(c: Config, s: State, j: nat, h: Key, spec: HostSpec) returns (ls: seq<Label>, s': State)
    requires j in s.workers && s.workers[j].host == h
    requires (s.workers[j].pc.BuildClient? || s.workers[j].pc.InstallHost?) && s.workers[j].pc.spec != spec
    ensures Exec(c, s, ls) == Some(s') && Ran(s, s', j, ls) && !HostCurrent(s'.world, h, spec)
  {
    var l := WorkerStep(j, Done);
    var m := Next(c, s, l).value;
    if s.workers[j].pc.InstallHost? {
      s' := m;
      Nothing(c, s');
      Then(c, s, l, s', [], s');
      ls := [l] + [];
    } else {
      s' := Next(c, m, l).value;
      Nothing(c, s');
      Then(c, m, l, s', [], s');
      Then(c, s, l, m, [l] + [], s');
      ls := [l] + ([l] + []);
    }
  }

  predicate ListAhead(pc: WorkerPc) {
    HelmPhase(pc) && !pc.Prune?
  }

  function ListRank(pc: WorkerPc): nat {
    match pc
    case BuildClient(sp) => |sp.companions| + 5
    case InstallHost(sp) => |sp.companions| + 4
    case InstallCompanion(sp, n) => if n <= |sp.companions| then |sp.companions| - n + 2 else 2
    case ReleaseSlot(_) => 1
    case _ => 0
  }

  /** What a step towards the list call achieves: the worker is nearer, and what it need no longer install is there. */
  ghost predicate Nearer(s: State, m: State, j: nat) {
    && j in s.workers && j in m.workers && m.workers[j].host == s.workers[j].host
    && HelmPhase(s.workers[j].pc) && ListAhead(m.workers[j].pc) && m.workers[j].pc.spec == s.workers[j].pc.spec
    && ListRank(m.workers[j].pc) < ListRank(s.workers[j].pc)
    && (forall n :: n in Remaining(s.workers[j].pc) ==>
          n in Remaining(m.workers[j].pc) || Owned(m.world.releases, s.workers[j].host, n))
    && (forall n :: Owned(s.world.releases, s.workers[j].host, n) ==>
          Owned(m.world.releases, s.workers[j].host, n))
  }

  lemma InstallsCompanion(c: Config, s: State, j: nat) returns (m: State)
    requires j in s.workers && s.workers[j].pc.InstallCompanion?
    requires s.workers[j].pc.next < |s.workers[j].pc.spec.companions|
    ensures Next(c, s, WorkerStep(j, Done)) == Some(m) && Ran(s, m, j, []) && Nearer(s, m, j)
  {
    m := Next(c, s, WorkerStep(j, Done)).value;
    var h, pc := s.workers[j].host, s.workers[j].pc;
    var name := pc.spec.companions[pc.next];
    assert m.world.releases == s.world.releases[ReleaseKey(h, name) := Some(h.name)];
    assert m.workers[j].pc == InstallCompanion(pc.spec, pc.next + 1);
    forall n | n in Remaining(pc) && n != name
      ensures n in Remaining(m.workers[j].pc)
    {
      assert Remaining(pc) == [name] + pc.spec.companions[pc.next + 1..];
    }
  }

  lemma StartsInstalling(c: Config, s: State, j: nat) returns (m: State)
    requires j in s.workers && (s.workers[j].pc.BuildClient? || s.workers[j].pc.InstallHost?)
    ensures Next(c, s, WorkerStep(j, Done)) == Some(m) && Ran(s, m, j, []) && Nearer(s, m, j)
  {
    m := Next(c, s, WorkerStep(j, Done)).value;
  }

  lemma EndsInstalling(c: Config, s: State, j: nat) returns (m: State)
    requires Safe(c, s) && j in s.workers
    requires || s.workers[j].pc.ReleaseSlot?
             || (s.workers[j].pc.InstallCompanion?
                 && s.workers[j].pc.next >= |s.workers[j].pc.spec.companions|)
    ensures Next(c, s, WorkerStep(j, Done)) == Some(m) && Ran(s, m, j, []) && Nearer(s, m, j)
  {
    if s.workers[j].slot {
      SubsetCardinality({j}, Holders(s));
    }
    m := Next(c, s, WorkerStep(j, Done)).value;
    assert m.world.releases == s.world.releases;
  }

  /** One successful step towards the list call. */
  lemma StepsToList(c: Config, s: State, j: nat) returns (m: State)
    requires Safe(c, s) && j in s.workers && ListAhead(s.workers[j].pc) && !s.workers[j].pc.ListStale?
    ensures Next(c, s, WorkerStep(j, Done)) == Some(m) && Safe(c, m) && Ran(s, m, j, []) && Nearer(s, m, j)
  {
    var pc := s.workers[j].pc;
    if pc.BuildClient? || pc.InstallHost? {
      m := StartsInstalling(c, s, j);
    } else if pc.InstallCompanion? && pc.next < |pc.spec.companions| {
      m := InstallsCompanion(c, s, j);
    } else {
      m := EndsInstalling(c, s, j);
    }
    StepKeepsSafe(c, s, WorkerStep(j, Done), m);
  }

  /** A worker may always come to its list call, with everything that it still had to install labelled. */
  lemma {:induction false} MayList(c: Config, s: State, j: nat) returns (ls: seq<Label>, s': State)
    requires Safe(c, s) && j in s.workers && ListAhead(s.workers[j].pc)
    ensures Exec(c, s, ls) == Some(s') && Safe(c, s') && Ran(s, s', j, ls)
    ensures var h := s.workers[j].host;
            && j in s'.workers && s'.workers[j].host == h && s'.workers[j].pc == ListStale(s.workers[j].pc.spec)
            && (forall n :: n in Remaining(s.workers[j].pc) ==> Owned(s'.world.releases, h, n))
            && (forall n :: Owned(s.world.releases, h, n) ==> Owned(s'.world.releases, h, n))
    decreases ListRank(s.workers[j].pc)
  {
    if s.workers[j].pc.ListStale? {
      ls, s' := [], s;
      Nothing(c, s);
    } else {
      var m := StepsToList(c, s, j);
      var rest;
      rest, s' := MayList(c, m, j);
      Then(c, s, WorkerStep(j, Done), m, rest, s');
      ls := [WorkerStep(j, Done)] + rest;
    }
  }

  /** And prune all it lists: what it does not declare itself goes. */
  lemma {:induction false} MayPrune(c: Config, s: State, j: nat) returns (ls: seq<Label>, s': State)
    requires j in s.workers && s.workers[j].pc.Prune?
    ensures Exec(c, s, ls) == Some(s') && Ran(s, s', j, ls)
    ensures var h, pc := s.workers[j].host, s.workers[j].pc;
            && (forall n :: n in pc.todo && n !in pc.spec.companions ==> ReleaseKey(h, n) !in s'.world.releases)
            && s'.world.releases.Keys <= s.world.releases.Keys
    decreases |s.workers[j].pc.todo|
  {
    var l := WorkerStep(j, Done);
    var m := Next(c, s, l).value;
    var rest;
    if s.workers[j].pc.todo == [] {
      rest, s' := [], m;
      Nothing(c, m);
    } else {
      rest, s' := MayPrune(c, m, j);
    }
    Then(c, s, l, m, rest, s');
    ls := [l] + rest;
  }

  /** A worker that is not harmless can break what is declared. */
  lemma BreaksDeclared(c: Config, s: State, j: nat, h: Key, spec: HostSpec) returns (ls: seq<Label>, s': State)
    requires Safe(c, s) && j in s.workers && s.workers[j].host == h && !Harmless(s.workers[j].pc, spec)
    requires DeclaredExactly(s.world.releases, h, spec)
    ensures Exec(c, s, ls) == Some(s') && Ran(s, s', j, ls) && !DeclaredExactly(s'.world.releases, h, spec)
  {
    var pc := s.workers[j].pc;
    if pc.Prune? {
      var n :| n in pc.todo && n in spec.companions && n !in pc.spec.companions;
      ls, s' := MayPrune(c, s, j);
      assert !Owned(s'.world.releases, h, n);
    } else {
      ls, s' := MayList(c, s, j);
      if n :| n in Remaining(pc) && n !in spec.companions {
        assert Owned(s'.world.releases, h, n);
      } else {
        var n :| n in spec.companions && n !in pc.spec.companions;
        assert Owned(s.world.releases, h, n);
        var more;
        more, s' := ListsAndPrunes(c, s', j, n);
        assert !Owned(s'.world.releases, h, n);
        ls := ExtendRun(c, s, ls, more, s', j);
      }
    }
  }

  lemma ListsAndPrunes(c: Config, s: State, j: nat, n: string) returns (ls: seq<Label>, s': State)
    requires j in s.workers && s.workers[j].pc.ListStale? && n !in s.workers[j].pc.spec.companions
    requires Owned(s.world.releases, s.workers[j].host, n)
    ensures Exec(c, s, ls) == Some(s') && Ran(s, s', j, ls)
    ensures ReleaseKey(s.workers[j].host, n) !in s'.world.releases
  {
    var owned, l, m := ListsStale(c, s, j, s.workers[j].pc.spec);
    var rest;
    rest, s' := MayPrune(c, m, j);
    Then(c, s, l, m, rest, s');
    ls := [l] + rest;
  }

  lemma ExtendRun(c: Config, s: State, a: seq<Label>, b: seq<Label>, s': State, j: nat) returns (ls: seq<Label>)
    requires Exec(c, s, a).Some? && Exec(c, Exec(c, s, a).value, b) == Some(s')
    requires Ran(s, Exec(c, s, a).value, j, a) && Ran(Exec(c, s, a).value, s', j, b)
    ensures Exec(c, s, ls) == Some(s') && Ran(s, s', j, ls)
  {
    ls := a + b;
    ExecAppend(c, s, a, b);
  }

  // ---------------------------------------------------------------- main results

  /** The host's release stays what its spec says, exactly. A release rendered from the current inputs stays so in
      every later run that leaves the inputs alone, if and only if no worker of the host has an install of the host's
      release from another spec ahead. */
  lemma HostStaysCurrentIff(c: Config, s: State, h: Key, spec: HostSpec, cfg: string)
    requires Alone(c, s, h, spec, cfg) && HostCurrent(s.world, h, spec)
    ensures NoOtherRender(s, h, spec)
       <==> forall ls, s' :: InputsAlone(h, OwnNames(h, spec), ls) && Exec(c, s, ls) == Some(s')
                             ==> HostCurrent(s'.world, h, spec)
  {
    if NoOtherRender(s, h, spec) {
      forall ls, s' | InputsAlone(h, OwnNames(h, spec), ls) && Exec(c, s, ls) == Some(s')
        ensures HostCurrent(s'.world, h, spec)
      {
        HostStaysCurrent(c, s, ls, s', h, spec, cfg);
      }
    } else {
      var j :| j in s.workers && s.workers[j].host == h
               && (s.workers[j].pc.BuildClient? || s.workers[j].pc.InstallHost?) && s.workers[j].pc.spec != spec;
      var ls, s' := RendersOther(c, s, j, h, spec);
    }
  }

  /** And so do its companions. Where the releases labelled for the host are those its spec declares, they stay so in
      every later run that leaves the inputs alone, if and only if no worker of the host has the install of an
      undeclared companion ahead, or a list or prune that takes a declared one. */
  lemma CompanionsStayDeclaredIff(c: Config, s: State, h: Key, spec: HostSpec, cfg: string)
    requires Alone(c, s, h, spec, cfg) && DeclaredExactly(s.world.releases, h, spec)
    ensures NoStaleWork(s, h, spec)
       <==> forall ls, s' :: InputsAlone(h, OwnNames(h, spec), ls) && Exec(c, s, ls) == Some(s')
                             ==> DeclaredExactly(s'.world.releases, h, spec)
  {
    if NoStaleWork(s, h, spec) {
      forall ls, s' | InputsAlone(h, OwnNames(h, spec), ls) && Exec(c, s, ls) == Some(s')
        ensures DeclaredExactly(s'.world.releases, h, spec)
      {
        CompanionsStayDeclared(c, s, ls, s', h, spec, cfg);
      }
    } else {
      var j :| j in s.workers && s.workers[j].host == h && !Harmless(s.workers[j].pc, spec);
      var ls, s' := BreaksDeclared(c, s, j, h, spec);
    }
  }
}
