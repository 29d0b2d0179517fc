/** Runs of the protocol, put together from shorter ones: a launch, a worker that gets its slot, a Helm pass
    in which nothing fails, and a status write. */
module HelmRuns {
  import opened Wrappers
  import opened HelmOperations
  import opened HostStatus
  import opened HelmProtocol
  import opened HelmSafety
  import opened HelmPass
  import opened HelmUniqueness
  import HelmTeardown

  lemma Then(c: Config, s: State, l: Label, m: State, ls: seq<Label>, s': State)
    requires Next(c, s, l) == Some(m) && Exec(c, m, ls) == Some(s')
    ensures Exec(c, s, [l] + ls) == Some(s')
  {
    ExecCons(c, s, l, ls);
  }

  lemma Nothing(c: Config, s: State)
    ensures Exec(c, s, []) == Some(s)
  {
  }

  /** No call fails, and the controller does not restart. */
  predicate Smooth(ls: seq<Label>) {
    forall l :: l in ls ==>
      !l.Restart? && (l.WorkerStep? ==> !l.o.Failed?) && (l.ReconcileStep? ==> !l.o.Failed?)
  }

  /** Steps of reconciles, none of which fails. */
  predicate Reconciling(ls: seq<Label>) {
    forall l :: l in ls ==> l.ReconcileStep? && !l.o.Failed?
  }

  /** Steps of workers, none of which fails. */
  predicate Steady(ls: seq<Label>) {
    forall l :: l in ls ==> l.WorkerStep? && !l.o.Failed?
  }

  // ---------------------------------------------------------------- one worker, nothing failing

  /** The run moved worker `id` and nothing that other goroutines look at, except the slots and the releases. */
  ghost predicate OnlyWorker(s: State, s': State, id: nat, pc: WorkerPc, slot: bool) {
    && id in s.workers && s'.workers == s.workers[id := s.workers[id].(pc := pc, slot := slot)]
    && s'.reconciles == s.reconciles && s'.nextCtx == s.nextCtx
    && s'.world.server == s.world.server && s'.world.configuration == s.world.configuration
    && s'.world.active == s.world.active
  }

  lemma OnlyWorkerTwice(s: State, m: State, s': State, id: nat, pc: WorkerPc, slot: bool, pc': WorkerPc, slot': bool)
    requires OnlyWorker(s, m, id, pc, slot) && OnlyWorker(m, s', id, pc', slot')
    ensures OnlyWorker(s, s', id, pc', slot')
  {
  }

  /** The releases of `h` were rendered from `spec` under the current configuration. */
  predicate RenderedFrom(s: World, h: Key, spec: HostSpec) {
    h in s.rendered && s.rendered[h] == Inputs(spec, s.configuration)
  }

  lemma InstallsHost(c: Config, s: State, id: nat, spec: HostSpec) returns (ls: seq<Label>, s': State)
    requires id in s.workers && s.workers[id].pc == BuildClient(spec)
    ensures Steady(ls)
    ensures Exec(c, s, ls) == Some(s')
    ensures OnlyWorker(s, s', id, InstallCompanion(spec, 0), s.workers[id].slot)
    ensures s'.world.releases == Installed(s.world.releases, s.workers[id].host, spec.companions[..0])
    ensures RenderedFrom(s'.world, s.workers[id].host, spec) && s'.world.tokens == s.world.tokens
    ensures s'.world.clients == s.world.clients + {s.workers[id].host}
  {
    var l := WorkerStep(id, Done);
    var m := Next(c, s, l).value;
    s' := Next(c, m, l).value;
    InstalledNone(s.world.releases, s.workers[id].host, spec.companions);
    Nothing(c, s');
    Then(c, m, l, s', [], s');
    Then(c, s, l, m, [l] + [], s');
    ls := [l] + ([l] + []);
  }

  lemma InstallsOne(c: Config, s: State, id: nat, spec: HostSpec, n: nat, m0: Releases) returns (m: State)
    requires id in s.workers && s.workers[id].pc == InstallCompanion(spec, n) && n < |spec.companions|
    requires s.world.releases == Installed(m0, s.workers[id].host, spec.companions[..n])
    requires RenderedFrom(s.world, s.workers[id].host, spec)
    ensures Next(c, s, WorkerStep(id, Done)) == Some(m)
    ensures OnlyWorker(s, m, id, InstallCompanion(spec, n + 1), s.workers[id].slot)
    ensures m.world.releases == Installed(m0, s.workers[id].host, spec.companions[..n + 1])
    ensures RenderedFrom(m.world, s.workers[id].host, spec) && m.world.tokens == s.world.tokens
  {
    m := Next(c, s, WorkerStep(id, Done)).value;
    InstalledStep(m0, s.workers[id].host, spec.companions, n);
  }

  lemma {:induction false} InstallsRest(c: Config, s: State, id: nat, spec: HostSpec, n: nat, m0: Releases)
    returns (ls: seq<Label>, s': State)
    requires id in s.workers && s.workers[id].pc == InstallCompanion(spec, n) && n <= |spec.companions|
    requires s.world.releases == Installed(m0, s.workers[id].host, spec.companions[..n])
    requires RenderedFrom(s.world, s.workers[id].host, spec)
    ensures Steady(ls)
    ensures Exec(c, s, ls) == Some(s')
    ensures OnlyWorker(s, s', id, ReleaseSlot(spec), s.workers[id].slot)
    ensures s'.world.releases == Installed(m0, s.workers[id].host, spec.companions)
    ensures RenderedFrom(s'.world, s.workers[id].host, spec) && s'.world.tokens == s.world.tokens
    decreases |spec.companions| - n
  {
    var l := WorkerStep(id, Done);
    if n == |spec.companions| {
      assert spec.companions[..n] == spec.companions;
      s' := Next(c, s, l).value;
      Nothing(c, s');
      Then(c, s, l, s', [], s');
      ls := [l] + [];
    } else {
      var m := InstallsOne(c, s, id, spec, n, m0);
      var rest;
      rest, s' := InstallsRest(c, m, id, spec, n + 1, m0);
      OnlyWorkerTwice(s, m, s', id, InstallCompanion(spec, n + 1), s.workers[id].slot,
                      ReleaseSlot(spec), s.workers[id].slot);
      Then(c, s, l, m, rest, s');
      ls := [l] + rest;
    }
  }

  lemma GivesSlotBack(c: Config, s: State, id: nat, spec: HostSpec) returns (s': State)
    requires Safe(c, s) && id in s.workers && s.workers[id].pc == ReleaseSlot(spec)
    ensures Next(c, s, WorkerStep(id, Done)) == Some(s')
    ensures OnlyWorker(s, s', id, ListStale(spec), false)
    ensures s'.world.releases == s.world.releases && s'.world.rendered == s.world.rendered
  {
    if s.workers[id].slot {
      SubsetCardinality({id}, Holders(s));
    }
    s' := Next(c, s, WorkerStep(id, Done)).value;
  }

  lemma InstallsUnderSlot(c: Config, s: State, id: nat, spec: HostSpec) returns (ls: seq<Label>, s': State)
    requires Safe(c, s) && id in s.workers && s.workers[id].pc == BuildClient(spec)
    ensures Steady(ls)
    ensures Exec(c, s, ls) == Some(s') && Safe(c, s')
    ensures OnlyWorker(s, s', id, ReleaseSlot(spec), s.workers[id].slot)
    ensures s'.world.releases == Installed(s.world.releases, s.workers[id].host, spec.companions)
    ensures RenderedFrom(s'.world, s.workers[id].host, spec)
  {
    var slot := s.workers[id].slot;
    var first, m := InstallsHost(c, s, id, spec);
    var second;
    second, s' := InstallsRest(c, m, id, spec, 0, s.world.releases);
    OnlyWorkerTwice(s, m, s', id, InstallCompanion(spec, 0), slot, ReleaseSlot(spec), slot);
    ls := first + second;
    ExecAppend(c, s, first, second);
    SafeAlways(c, s, ls, s');
  }

  /** From its client to its prune. */
  lemma InstallsAll(c: Config, s: State, id: nat, spec: HostSpec) returns (ls: seq<Label>, s': State)
    requires Safe(c, s) && id in s.workers && s.workers[id].pc == BuildClient(spec)
    ensures Steady(ls)
    ensures Exec(c, s, ls) == Some(s') && Safe(c, s')
    ensures OnlyWorker(s, s', id, ListStale(spec), false)
    ensures s'.world.releases == Installed(s.world.releases, s.workers[id].host, spec.companions)
    ensures RenderedFrom(s'.world, s.workers[id].host, spec)
  {
    var install, m := InstallsUnderSlot(c, s, id, spec);
    s' := GivesSlotBack(c, m, id, spec);
    OnlyWorkerTwice(s, m, s', id, ReleaseSlot(spec), s.workers[id].slot, ListStale(spec), false);
    var l := WorkerStep(id, Done);
    Nothing(c, s');
    Then(c, m, l, s', [], s');
    ls := install + ([l] + []);
    ExecAppend(c, s, install, [l] + []);
    SafeAlways(c, m, [l] + [], s');
  }

  lemma {:induction false} PrunesRest(
    c: Config, s: State, id: nat, spec: HostSpec, owned: seq<string>, i: nat, m1: Releases)
    returns (ls: seq<Label>, s': State)
    requires id in s.workers && i <= |owned| && s.workers[id].pc == Prune(spec, owned[i..])
    requires s.world.releases == Pruned(m1, s.workers[id].host, spec.companions, owned[..i])
    ensures Steady(ls)
    ensures Exec(c, s, ls) == Some(s')
    ensures OnlyWorker(s, s', id, ReadStatus(None), s.workers[id].slot)
    ensures s'.world.releases == Pruned(m1, s.workers[id].host, spec.companions, owned)
    ensures s'.world.rendered == s.world.rendered
    decreases |owned| - i
  {
    var l := WorkerStep(id, Done);
    var m := Next(c, s, l).value;
    if i == |owned| {
      assert owned[..i] == owned;
      s' := m;
      Nothing(c, s');
      Then(c, s, l, s', [], s');
      ls := [l] + [];
    } else {
      assert owned[i..][0] == owned[i] && owned[i..][1..] == owned[i + 1..];
      PrunedStep(m1, s.workers[id].host, spec.companions, owned, i);
      var rest;
      rest, s' := PrunesRest(c, m, id, spec, owned, i + 1, m1);
      Then(c, s, l, m, rest, s');
      ls := [l] + rest;
    }
  }

  lemma ListsStale(c: Config, s: State, id: nat, spec: HostSpec) returns (owned: seq<string>, l: Label, m: State)
    requires id in s.workers && s.workers[id].pc == ListStale(spec)
    ensures l == WorkerStep(id, Listed(owned)) && Next(c, s, l) == Some(m)
    ensures ListsOwned(s.world.releases, s.workers[id].host, owned)
    ensures m == s.(workers := s.workers[id := s.workers[id].(pc := Prune(spec, owned))])
  {
    owned := HelmTeardown.OwnedAsSeq(s.world.releases, s.workers[id].host);
    l := WorkerStep(id, Listed(owned));
    m := Next(c, s, l).value;
  }

  /** From its prune to its status write. */
  lemma PrunesAll(c: Config, s: State, id: nat, spec: HostSpec, m0: Releases) returns (ls: seq<Label>, s': State)
    requires id in s.workers && s.workers[id].pc == ListStale(spec)
    requires s.world.releases == Installed(m0, s.workers[id].host, spec.companions)
    ensures Steady(ls)
    ensures Exec(c, s, ls) == Some(s')
    ensures OnlyWorker(s, s', id, ReadStatus(None), s.workers[id].slot)
    ensures s'.world.releases == Converged(m0, s.workers[id].host, spec.companions)
    ensures s'.world.rendered == s.world.rendered
  {
    var h := s.workers[id].host;
    var owned, l, m := ListsStale(c, s, id, spec);
    assert owned[0..] == owned;
    assert Pruned(s.world.releases, h, spec.companions, owned[..0]) == s.world.releases;
    var rest;
    rest, s' := PrunesRest(c, m, id, spec, owned, 0, s.world.releases);
    PrunedConverges(m0, h, spec.companions, owned);
    Then(c, s, l, m, rest, s');
    ls := [l] + rest;
  }

  /** A whole Helm pass in which nothing fails: the protocol's steps leave the store that the pass on mutable
      objects (HelmPass.RunPass) leaves. */
  lemma RunsThrough(c: Config, s: State, id: nat, spec: HostSpec) returns (ls: seq<Label>, s': State)
    requires Safe(c, s) && id in s.workers && s.workers[id].pc == BuildClient(spec)
    ensures Steady(ls)
    ensures Exec(c, s, ls) == Some(s') && Safe(c, s')
    ensures OnlyWorker(s, s', id, ReadStatus(None), false)
    ensures s'.world.releases == Converged(s.world.releases, s.workers[id].host, spec.companions)
    ensures RenderedFrom(s'.world, s.workers[id].host, spec)
  {
    var first, m := InstallsAll(c, s, id, spec);
    var second;
    second, s' := PrunesAll(c, m, id, spec, s.world.releases);
    OnlyWorkerTwice(s, m, s', id, ListStale(spec), false, ReadStatus(None), false);
    ls := first + second;
    ExecAppend(c, s, first, second);
    SafeAlways(c, s, ls, s');
  }

  /** The same pass, whose list call fails: it has installed everything, and holds no slot. */
  lemma FailsLate(c: Config, s: State, id: nat, spec: HostSpec, message: string) returns (ls: seq<Label>, s': State)
    requires Safe(c, s) && id in s.workers && s.workers[id].pc == BuildClient(spec)
    ensures Exec(c, s, ls) == Some(s') && Safe(c, s')
    ensures OnlyWorker(s, s', id, ReadStatus(Some(message)), false)
  {
    var first, m := InstallsAll(c, s, id, spec);
    var l;
    l, s' := ListFails(c, m, id, spec, message);
    OnlyWorkerTwice(s, m, s', id, ListStale(spec), false, ReadStatus(Some(message)), false);
    Nothing(c, s');
    Then(c, m, l, s', [], s');
    ls := first + ([l] + []);
    ExecAppend(c, s, first, [l] + []);
  }

  lemma ListFails(c: Config, s: State, id: nat, spec: HostSpec, message: string) returns (l: Label, s': State)
    requires Safe(c, s) && id in s.workers && s.workers[id].pc == ListStale(spec)
    ensures Next(c, s, l) == Some(s') && Safe(c, s')
    ensures OnlyWorker(s, s', id, ReadStatus(Some(message)), s.workers[id].slot)
  {
    l := WorkerStep(id, Failed(message, false));
    s' := Next(c, s, l).value;
    StepKeepsSafe(c, s, l, s');
  }

  // ---------------------------------------------------------------- queueing

  predicate SlotFree(c: Config, s: World) {
    c.concurrency <= 0 || s.tokens < c.concurrency
  }

  /** Where a started worker waits before its re-read. */
  predicate Queued(c: Config, pc: WorkerPc) {
    (pc.FirstRead? && c.hasFactory) || pc.AwaitSlot? || pc.ReRead?
  }

  function QueueRank(pc: WorkerPc): nat {
    match pc
    case FirstRead => 3
    case AwaitSlot => 2
    case ReRead => 1
    case _ => 0
  }

  /** With a slot free, a queued worker reaches its client with the spec the host has now. */
  lemma {:induction false} ReachesClient(c: Config, s: State, id: nat) returns (ls: seq<Label>, s': State)
    requires Safe(c, s) && id in s.workers && Queued(c, s.workers[id].pc)
    requires s.workers[id].pc.ReRead? || SlotFree(c, s.world)
    requires s.workers[id].host in s.world.server && !s.world.server[s.workers[id].host].deleting
    ensures Steady(ls)
    ensures Exec(c, s, ls) == Some(s') && Safe(c, s')
    ensures OnlyWorker(
              s, s', id, BuildClient(s.world.server[s.workers[id].host].spec), c.concurrency > 0)
    ensures s'.world.releases == s.world.releases && s'.world.rendered == s.world.rendered
    decreases QueueRank(s.workers[id].pc)
  {
    var l := WorkerStep(id, Done);
    var m := QueueStep(c, s, id);
    var rest := [];
    if s.workers[id].pc.ReRead? {
      s' := m;
      Nothing(c, s');
    } else {
      rest, s' := ReachesClient(c, m, id);
      OnlyWorkerTwice(s, m, s', id, m.workers[id].pc, m.workers[id].slot, s'.workers[id].pc, s'.workers[id].slot);
    }
    Then(c, s, l, m, rest, s');
    ls := [l] + rest;
  }

  lemma QueueStep(c: Config, s: State, id: nat) returns (m: State)
    requires Safe(c, s) && id in s.workers && Queued(c, s.workers[id].pc)
    requires s.workers[id].pc.ReRead? || SlotFree(c, s.world)
    requires s.workers[id].host in s.world.server && !s.world.server[s.workers[id].host].deleting
    ensures Next(c, s, WorkerStep(id, Done)) == Some(m) && Safe(c, m)
    ensures var w := s.workers[id];
            && OnlyWorker(s, m, id, m.workers[id].pc, m.workers[id].slot)
            && m.world.releases == s.world.releases && m.world.rendered == s.world.rendered
            && (if w.pc.ReRead?
                then m.workers[id].pc == BuildClient(s.world.server[w.host].spec)
                     && m.workers[id].slot == (c.concurrency > 0)
                else Queued(c, m.workers[id].pc) && QueueRank(m.workers[id].pc) < QueueRank(w.pc)
                     && (m.workers[id].pc.ReRead? || SlotFree(c, m.world)))
  {
    m := Next(c, s, WorkerStep(id, Done)).value;
    StepKeepsSafe(c, s, WorkerStep(id, Done), m);
  }

  /** The run moved worker `id` only, and it touched neither the API server nor a release. */
  ghost predicate Aside(s: State, s': State, id: nat) {
    && s'.reconciles == s.reconciles && s'.nextCtx == s.nextCtx
    && s'.world == s.world.(active := s'.world.active, tokens := s'.world.tokens)
    && s'.workers - {id} == s.workers - {id}
  }

  lemma GivesUpStep(c: Config, s: State, id: nat) returns (m: State)
    requires Safe(c, s) && id in s.workers && s.workers[id].slot && Live(s.workers[id].pc)
    ensures Next(c, s, WorkerStep(id, Failed("", false))) == Some(m) && Safe(c, m)
    ensures Aside(s, m, id)
    ensures id in m.workers && Distance(m.workers[id].pc) < Distance(s.workers[id].pc)
    ensures m.world.tokens == s.world.tokens - if m.workers[id].slot then 0 else 1
  {
    SubsetCardinality({id}, Holders(s));
    var r := FailingStep(c, s.world, s.workers[id]);
    var l := WorkerStep(id, Failed("", false));
    m := CommitWorker(s, id, r);
    WorkerEffect(c, s.world, s.workers[id], Failed("", false), r);
    FailingTouchesNothing(c, s.world, s.workers[id], r);
    StepKeepsSafe(c, s, l, m);
  }

  lemma FailingTouchesNothing(c: Config, s: World, w: Worker, r: WorkerResult)
    requires WorkerNext(c, s, w, Failed("", false)) == Some(r) && w.slot && SlotAt(c, w)
    ensures r.world == s.(active := r.world.active, tokens := r.world.tokens)
  {
    if w.pc.InstallCompanion? && w.pc.next < |w.pc.spec.companions| {
      assert r.world == s;
    }
  }

  /** A worker that holds a slot can always give it back, without touching anything else. */
  lemma {:induction false} FreesSlot(c: Config, s: State, id: nat) returns (ls: seq<Label>, s': State)
    requires Safe(c, s) && id in s.workers && s.workers[id].slot
    ensures Exec(c, s, ls) == Some(s') && Safe(c, s') && Aside(s, s', id)
    ensures s'.world.tokens == s.world.tokens - 1
    ensures forall l :: l in ls ==> l.WorkerStep?
    decreases Distance(s.workers[id].pc)
  {
    var rest, m;
    if Live(s.workers[id].pc) {
      m := GivesUpStep(c, s, id);
    } else {
      SubsetCardinality({id}, Holders(s));
      m := Next(c, s, WorkerStep(id, Failed("", false))).value;
      StepKeepsSafe(c, s, WorkerStep(id, Failed("", false)), m);
    }
    if id in m.workers && m.workers[id].slot {
      rest, s' := FreesSlot(c, m, id);
    } else {
      rest, s' := [], m;
      Nothing(c, m);
    }
    ls := [WorkerStep(id, Failed("", false))] + rest;
    Then(c, s, WorkerStep(id, Failed("", false)), m, rest, s');
  }

  lemma OtherFreesSlot(c: Config, s: State, id: nat) returns (ls: seq<Label>, m: State)
    requires Safe(c, s) && id in s.workers && !s.workers[id].slot && s.world.tokens > 0
    ensures Exec(c, s, ls) == Some(m) && Safe(c, m)
    ensures m.world == s.world.(active := m.world.active, tokens := s.world.tokens - 1)
    ensures id in m.workers && m.workers[id] == s.workers[id] && m.reconciles == s.reconciles
    ensures forall l :: l in ls ==> l.WorkerStep?
  {
    assert Holders(s) != {};
    var j :| j in Holders(s);
    ls, m := FreesSlot(c, s, j);
    assert id in s.workers - {j};
    assert id in m.workers - {j} && (m.workers - {j})[id] == (s.workers - {j})[id];
  }

  /** So a queued worker can always reach its client: a slot is free, or another worker gives one back. */
  lemma MayReachClient(c: Config, s: State, id: nat) returns (ls: seq<Label>, s': State)
    requires Safe(c, s) && id in s.workers && Queued(c, s.workers[id].pc)
    requires s.workers[id].host in s.world.server && !s.world.server[s.workers[id].host].deleting
    ensures Exec(c, s, ls) == Some(s') && Safe(c, s')
    ensures id in s'.workers
    ensures s'.workers[id] == s.workers[id].(
              pc := BuildClient(s.world.server[s.workers[id].host].spec), slot := c.concurrency > 0)
    ensures s'.reconciles == s.reconciles && s'.world.configuration == s.world.configuration
    ensures s'.world.server == s.world.server
    ensures s'.world.releases == s.world.releases && s'.world.rendered == s.world.rendered
    ensures forall l :: l in ls ==> l.WorkerStep?
  {
    var first, m := [], s;
    Nothing(c, s);
    if !s.workers[id].pc.ReRead? && !SlotFree(c, s.world) {
      assert Holders(s) != {};
      first, m := OtherFreesSlot(c, s, id);
    }
    var second;
    second, s' := ReachesClient(c, m, id);
    ls := first + second;
    ExecAppend(c, s, first, second);
  }

  // ---------------------------------------------------------------- launches and status writes

  /** A reconcile of `h` will launch a worker: nothing says that the work is under way or done. */
  predicate WillLaunch(c: Config, s: State, h: Key) {
    && h in s.world.server && !s.world.server[h].deleting && s.world.server[h].finalizer && h !in s.reconciles
    && var a, hash := s.world.server[h].attributes, c.hashOf(s.world.server[h].spec, s.world.configuration);
       !UpToDate(a, hash) && !IsActive(s.world.active, h, hash)
  }

  /** What the reconcile of `h` keeps in memory when it launches. */
  function Launching(c: Config, s: State, h: Key): HostObject
    requires h in s.world.server
  {
    var obj := s.world.server[h];
    var hash := c.hashOf(obj.spec, s.world.configuration);
    obj.(attributes := MarkInProgress(obj.attributes, hash, c.formatInt(obj.generation), c.controllerId))
  }

  /** From its start to its claim of the active map. */
  lemma Decides(c: Config, s: State, h: Key) returns (ls: seq<Label>, s': State)
    requires Safe(c, s) && WillLaunch(c, s, h)
    ensures Reconciling(ls)
    ensures Exec(c, s, ls) == Some(s') && Decided(c, s, s', h)
  {
    var first, m := ReadsHost(c, s, h);
    var second;
    second, s' := RecordsLaunch(c, m, h, s.world.server[h]);
    ls := first + second;
    ExecAppend(c, s, first, second);
    assert s'.reconciles == s.reconciles[h := s'.reconciles[h]];
  }

  lemma RecordsLaunch(c: Config, s: State, h: Key, obj: HostObject) returns (ls: seq<Label>, s': State)
    requires h in s.world.server && s.world.server[h] == obj && h in s.reconciles
    requires var hash := c.hashOf(obj.spec, s.world.configuration);
             && s.reconciles[h] == HelmCheck(obj, obj.attributes, hash)
             && !UpToDate(obj.attributes, hash) && !IsActive(s.world.active, h, hash)
    ensures Reconciling(ls)
    ensures Exec(c, s, ls) == Some(s')
    ensures var hash := c.hashOf(obj.spec, s.world.configuration);
            && s'.reconciles == s.reconciles[h := TrySet(Launching(c, s, h), hash, s.nextCtx)]
            && s'.workers == s.workers[s.nextCtx := Worker(h, hash, false, false, Prepared)]
    ensures s'.nextCtx == s.nextCtx + 1
    ensures s'.world == s.world.(server := s.world.server[h := Launching(c, s, h)])
  {
    var l := ReconcileStep(h, Done);
    var hash := c.hashOf(obj.spec, s.world.configuration);
    var m := Next(c, s, l).value;
    assert m == s.(reconciles := s.reconciles[h := PatchProgress(Launching(c, s, h), obj.attributes, hash)]);
    s' := Next(c, m, l).value;
    DiffRoundTrip(obj.attributes, Launching(c, s, h).attributes);
    Nothing(c, s');
    Then(c, m, l, s', [], s');
    Then(c, s, l, m, [l] + [], s');
    ls := [l] + ([l] + []);
  }

  lemma ReadsHost(c: Config, s: State, h: Key) returns (ls: seq<Label>, m: State)
    requires WillLaunch(c, s, h)
    ensures Reconciling(ls)
    ensures Exec(c, s, ls) == Some(m)
    ensures var obj := s.world.server[h];
            m == s.(reconciles := s.reconciles[
                      h := HelmCheck(obj, obj.attributes, c.hashOf(obj.spec, s.world.configuration))])
  {
    var obj := s.world.server[h];
    var l, resolve := ReconcileStep(h, Done), ReconcileStep(h, Resolved(obj.attributes));
    var m1 := Next(c, s, l).value;
    var m2 := Next(c, m1, resolve).value;
    assert m2 == s.(reconciles := s.reconciles[h := HelmRead(obj)]);
    var m3 := Next(c, m2, l).value;
    assert m3 == s.(reconciles := s.reconciles[h := HelmHash(obj, obj.attributes)]);
    m := Next(c, m3, l).value;
    Nothing(c, m);
    Then(c, m3, l, m, [], m);
    Then(c, m2, l, m3, [l] + [], m);
    Then(c, m1, resolve, m2, [l] + ([l] + []), m);
    Then(c, s, l, m1, [resolve] + ([l] + ([l] + [])), m);
    ls := [l] + ([resolve] + ([l] + ([l] + [])));
  }

  /** The same workers, some of them cancelled. */
  ghost predicate OthersCancelled(s: State, s': State) {
    forall i :: i in s.workers ==>
      i in s'.workers && s'.workers[i] == s.workers[i].(cancelled := s'.workers[i].cancelled)
  }

  /** The state after the claim of the active map. */
  ghost predicate Claimed(s: State, m: State, h: Key)
    requires h in s.reconciles && s.reconciles[h].TrySet?
  {
    var r := s.reconciles[h];
    && m.world == s.world.(active := s.world.active[h := HelmOperation(r.ctx, r.hash)])
    && m.reconciles == s.reconciles[h := Launch(r.mem, r.hash, r.ctx)]
    && r.ctx in s.workers && r.ctx in m.workers && m.workers[r.ctx] == s.workers[r.ctx]
    && OthersCancelled(s, m) && m.workers.Keys == s.workers.Keys && m.nextCtx == s.nextCtx
    && SupersededCancelled(s, m, h)
  }

  /** The worker whose operation was active is cancelled. */
  predicate SupersededCancelled(s: State, s': State, h: Key) {
    h in s.world.active && s.world.active[h].ctx in s.workers ==>
      s.world.active[h].ctx in s'.workers && s'.workers[s.world.active[h].ctx].cancelled
  }

  lemma ClaimsFree(c: Config, s: State, h: Key) returns (ls: seq<Label>, m: State)
    requires Safe(c, s) && h in s.reconciles && s.reconciles[h].TrySet? && h !in s.world.active
    ensures Reconciling(ls)
    ensures Exec(c, s, ls) == Some(m) && Claimed(s, m, h)
  {
    var l := ReconcileStep(h, Done);
    m := Next(c, s, l).value;
    Nothing(c, m);
    Then(c, s, l, m, [], m);
    ls := [l] + [];
  }

  /** The claim that supersedes an operation. */
  lemma ClaimsBusy(c: Config, s: State, h: Key) returns (ls: seq<Label>, m: State)
    requires Safe(c, s) && h in s.reconciles && s.reconciles[h].TrySet?
    requires h in s.world.active && s.world.active[h].hash != s.reconciles[h].hash
    ensures Reconciling(ls)
    ensures Exec(c, s, ls) == Some(m) && Claimed(s, m, h)
  {
    var l, r := ReconcileStep(h, Done), s.reconciles[h];
    var m1 := FindsBusy(c, s, h);
    var m2 := Cancels(c, m1, h);
    m := Sets(c, m2, h);
    Nothing(c, m);
    Then(c, m2, l, m, [], m);
    Then(c, m1, l, m2, [l] + [], m);
    Then(c, s, l, m1, [l] + ([l] + []), m);
    ls := [l] + ([l] + ([l] + []));
  }

  lemma FindsBusy(c: Config, s: State, h: Key) returns (m: State)
    requires Safe(c, s) && h in s.reconciles && s.reconciles[h].TrySet?
    requires h in s.world.active && s.world.active[h].hash != s.reconciles[h].hash
    ensures Next(c, s, ReconcileStep(h, Done)) == Some(m)
    ensures var r := s.reconciles[h];
            && m == s.(reconciles := s.reconciles[h := Replace(r.mem, r.hash, r.ctx, s.world.active[h])])
            && r.ctx in s.workers && s.world.active[h].ctx in s.workers && s.world.active[h].ctx != r.ctx
  {
    assert EntryLive(s, h);
    m := Next(c, s, ReconcileStep(h, Done)).value;
  }

  lemma Cancels(c: Config, s: State, h: Key) returns (m: State)
    requires h in s.reconciles && s.reconciles[h].Replace?
    ensures Next(c, s, ReconcileStep(h, Done)) == Some(m)
    ensures var r := s.reconciles[h];
            && m.world == s.world && m.nextCtx == s.nextCtx
            && m.reconciles == s.reconciles[h := SetEntry(r.mem, r.hash, r.ctx)]
            && OthersCancelled(s, m) && m.workers.Keys == s.workers.Keys
            && (r.superseded.ctx != r.ctx && r.ctx in s.workers ==> m.workers[r.ctx] == s.workers[r.ctx])
            && (r.superseded.ctx in s.workers ==> m.workers[r.superseded.ctx].cancelled)
  {
    m := Next(c, s, ReconcileStep(h, Done)).value;
  }

  lemma Sets(c: Config, s: State, h: Key) returns (m: State)
    requires h in s.reconciles && s.reconciles[h].SetEntry?
    ensures Next(c, s, ReconcileStep(h, Done)) == Some(m)
    ensures var r := s.reconciles[h];
            && m.world == s.world.(active := s.world.active[h := HelmOperation(r.ctx, r.hash)])
            && m.nextCtx == s.nextCtx && m.workers == s.workers
            && m.reconciles == s.reconciles[h := Launch(r.mem, r.hash, r.ctx)]
  {
    m := Next(c, s, ReconcileStep(h, Done)).value;
  }

  /** The go statement, and the end of a reconcile whose deferred write has nothing to say. */
  lemma Starts(c: Config, s: State, h: Key) returns (ls: seq<Label>, s': State)
    requires Safe(c, s) && h in s.reconciles && s.reconciles[h].Launch? && h in s.world.server
    requires s.reconciles[h].mem.attributes == s.world.server[h].attributes
    ensures Reconciling(ls)
    ensures Exec(c, s, ls) == Some(s') && Started(s, s', h)
  {
    var l := ReconcileStep(h, Done);
    var m := Next(c, s, l).value;
    assert m.reconciles == s.reconciles[h := DeferredRead(s.reconciles[h].mem)];
    var rest;
    rest, s' := DefersNothing(c, m, h);
    assert s'.reconciles == s.reconciles - {h};
    Then(c, s, l, m, rest, s');
    ls := [l] + rest;
  }

  lemma DefersNothing(c: Config, s: State, h: Key) returns (ls: seq<Label>, s': State)
    requires h in s.reconciles && s.reconciles[h].DeferredRead? && h in s.world.server
    requires s.reconciles[h].mem.attributes == s.world.server[h].attributes
    ensures Reconciling(ls)
    ensures Exec(c, s, ls) == Some(s') && s' == s.(reconciles := s.reconciles - {h})
  {
    var l, mem := ReconcileStep(h, Done), s.reconciles[h].mem;
    var n := s.(reconciles := s.reconciles[h := DeferredWrite(mem, mem.attributes)]);
    assert Next(c, s, l) == Some(n);
    NothingToDefer(mem.attributes);
    s' := Next(c, n, l).value;
    assert s'.world.server == s.world.server;
    assert s'.reconciles == s.reconciles - {h};
    Nothing(c, s');
    Then(c, n, l, s', [], s');
    Then(c, s, l, n, [l] + [], s');
    ls := [l] + ([l] + []);
  }

  lemma NothingToDefer(a: Attributes)
    ensures Apply(DeferredPatch(a, a), a) == a
  {
    assert Overlay(a, a) == a;
    DiffRoundTrip(a, a);
  }

  ghost predicate Started(s: State, s': State, h: Key)
    requires h in s.reconciles && s.reconciles[h].Launch?
  {
    var ctx := s.reconciles[h].ctx;
    && s'.world == s.world && s'.nextCtx == s.nextCtx && s'.reconciles == s.reconciles - {h}
    && ctx in s.workers && s'.workers == s.workers[ctx := s.workers[ctx].(pc := FirstRead)]
  }

  /** The state after a whole launch: its worker is the next context, and a superseded one is cancelled. */
  ghost predicate Launched(c: Config, s: State, s': State, h: Key)
    requires h in s.world.server
  {
    var hash := c.hashOf(s.world.server[h].spec, s.world.configuration);
    && s.nextCtx in s'.workers && s'.workers[s.nextCtx] == Worker(h, hash, false, false, FirstRead)
    && s'.world == s.world.(server := s.world.server[h := Launching(c, s, h)],
                            active := s.world.active[h := HelmOperation(s.nextCtx, hash)])
    && OthersCancelled(s, s') && s'.workers.Keys == s.workers.Keys + {s.nextCtx}
    && SupersededCancelled(s, s', h) && s'.reconciles == s.reconciles
  }

  ghost predicate Decided(c: Config, s: State, m: State, h: Key)
    requires h in s.world.server
  {
    var hash := c.hashOf(s.world.server[h].spec, s.world.configuration);
    && m.reconciles == s.reconciles[h := TrySet(Launching(c, s, h), hash, s.nextCtx)]
    && m.workers == s.workers[s.nextCtx := Worker(h, hash, false, false, Prepared)]
    && m.world == s.world.(server := s.world.server[h := Launching(c, s, h)])
  }

  lemma LaunchComposes(c: Config, s: State, m: State, n: State, s': State, h: Key)
    requires Safe(c, s) && h in s.world.server && h !in s.reconciles
    requires Decided(c, s, m, h) && Claimed(m, n, h) && Started(n, s', h)
    ensures Launched(c, s, s', h)
  {
    assert s.nextCtx !in s.workers;
    assert s'.reconciles == s.reconciles;
    assert h in s.world.active ==> EntryLive(s, h);
    forall i | i in s.workers
      ensures i in s'.workers && s'.workers[i] == s.workers[i].(cancelled := s'.workers[i].cancelled)
    {
      assert m.workers[i] == s.workers[i];
    }
  }

  lemma Launches(c: Config, s: State, h: Key) returns (ls: seq<Label>, s': State)
    requires Safe(c, s) && WillLaunch(c, s, h)
    ensures Reconciling(ls)
    ensures Exec(c, s, ls) == Some(s') && Safe(c, s') && Launched(c, s, s', h)
  {
    var first, m := Decides(c, s, h);
    SafeAlways(c, s, first, m);
    var second, n;
    if h in m.world.active {
      second, n := ClaimsBusy(c, m, h);
    } else {
      second, n := ClaimsFree(c, m, h);
    }
    ExecAppend(c, s, first, second);
    SafeAlways(c, m, second, n);
    var third;
    third, s' := Starts(c, n, h);
    ls := first + second + third;
    ExecAppend(c, s, first + second, third);
    SafeAlways(c, n, third, s');
    LaunchComposes(c, s, m, n, s', h);
  }

  /** The read and the write of a status, with whatever happens in between. */
  lemma ReadsStatus(c: Config, s: State, id: nat) returns (l: Label, s': State)
    requires Safe(c, s) && id in s.workers && s.workers[id].pc.ReadStatus? && !s.workers[id].cancelled
    requires s.workers[id].host in s.world.server
    ensures l == WorkerStep(id, Done) && Next(c, s, l) == Some(s') && Safe(c, s')
    ensures s' == s.(workers := s.workers[id := s.workers[id].(
                       pc := WriteStatus(s.workers[id].pc.err, s.world.server[s.workers[id].host].attributes))])
  {
    l := WorkerStep(id, Done);
    s' := Next(c, s, l).value;
    StepKeepsSafe(c, s, l, s');
  }

  lemma WritesStatus(c: Config, s: State, id: nat, now: string) returns (l: Label, s': State)
    requires Safe(c, s) && id in s.workers && s.workers[id].pc.WriteStatus? && s.workers[id].host in s.world.server
    ensures l == WorkerStep(id, At(now)) && Next(c, s, l) == Some(s') && Safe(c, s')
    ensures var w := s.workers[id];
            && s'.workers == s.workers[id := w.(pc := Clear)] && s'.reconciles == s.reconciles
            && s'.world == Patched(s.world, w.host, WorkerPatch(w.pc.base, w.pc.err, w.hash, c.controllerId, now))
  {
    l := WorkerStep(id, At(now));
    s' := Next(c, s, l).value;
    StepKeepsSafe(c, s, l, s');
  }

  /** A status read and write with nothing in between: the outcome stands as it is. */
  lemma Records(c: Config, s: State, id: nat, now: string) returns (ls: seq<Label>, s': State)
    requires Safe(c, s) && id in s.workers && s.workers[id].pc.ReadStatus? && !s.workers[id].cancelled
    requires s.workers[id].host in s.world.server
    ensures Steady(ls)
    ensures Exec(c, s, ls) == Some(s') && Safe(c, s')
    ensures var w := s.workers[id];
            var obj := s.world.server[w.host];
            && s'.world == s.world.(server := s.world.server[w.host := obj.(
                 attributes := MarkOutcome(obj.attributes, w.pc.err, w.hash, c.controllerId, now))])
            && s'.workers == s.workers[id := w.(pc := Clear)] && s'.reconciles == s.reconciles
  {
    var w := s.workers[id];
    var a := s.world.server[w.host].attributes;
    var l, at, m;
    l, m := ReadsStatus(c, s, id);
    at, s' := WritesStatus(c, m, id, now);
    DiffRoundTrip(a, MarkOutcome(a, w.pc.err, w.hash, c.controllerId, now));
    Nothing(c, s');
    Then(c, m, at, s', [], s');
    Then(c, s, l, m, [at] + [], s');
    ls := [l] + ([at] + []);
  }

  /** The last steps of a worker: it clears its own entry, and gives back a slot that it still holds. */
  lemma Finishes(c: Config, s: State, id: nat) returns (ls: seq<Label>, s': State)
    requires Safe(c, s) && id in s.workers && s.workers[id].pc.Clear?
    ensures Steady(ls) && Exec(c, s, ls) == Some(s') && Safe(c, s')
    ensures s'.workers == s.workers - {id} && s'.reconciles == s.reconciles
    ensures s'.world == s.world.(
              active := ClearEntry(s.world.active, s.workers[id].host, s.workers[id].hash), tokens := s'.world.tokens)
  {
    var l := WorkerStep(id, Done);
    var m := Next(c, s, l).value;
    StepKeepsSafe(c, s, l, m);
    if m.workers[id].slot {
      SubsetCardinality({id}, Holders(m));
    }
    s' := Next(c, m, l).value;
    StepKeepsSafe(c, m, l, s');
    assert s'.workers == s.workers - {id};
    Nothing(c, s');
    Then(c, m, l, s', [], s');
    Then(c, s, l, m, [l] + [], s');
    ls := [l] + ([l] + []);
  }

  /** An edit of the spec, as a run. */
  lemma Edits(c: Config, s: State, h: Key, spec: HostSpec) returns (m: State)
    requires Safe(c, s) && h in s.world.server
    ensures Exec(c, s, [EditSpec(h, spec)]) == Some(m) && Safe(c, m)
    ensures var obj := s.world.server[h];
            m == s.(world := s.world.(
                      server := s.world.server[h := obj.(spec := spec, generation := obj.generation + 1)]))
  {
    m := Next(c, s, EditSpec(h, spec)).value;
    StepKeepsSafe(c, s, EditSpec(h, spec), m);
    Nothing(c, m);
    Then(c, s, EditSpec(h, spec), m, [], m);
    assert [EditSpec(h, spec)] + [] == [EditSpec(h, spec)];
  }
}
