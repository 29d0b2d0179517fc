/** The asynchronous Helm release protocol as a transition system.

    Every host has at most one running reconcile; any number of detached workers run beside it. Each
    lock section, API call and Helm call is one atomic step, so every interleaving of them is a run. */
module HelmProtocol {
  import opened Wrappers
  import opened HelmOperations
  import opened HostStatus

  // ---------------------------------------------------------------- data

  /** What a host's spec contributes to Helm: its values, and the names of its companion charts. */
  datatype HostSpec = HostSpec(values: string, companions: seq<string>)

  datatype HostObject = HostObject(
    spec: HostSpec, generation: nat, deleting: bool, finalizer: bool, attributes: Attributes)

  /** The Helm release store: the value of the companion-of label of every existing release. */
  type Releases = map<Key, Option<string>>

  /** What a release is rendered from. */
  datatype Inputs = Inputs(spec: HostSpec, configuration: string)

  /** Where a detached worker stands. `Prepared` is a context whose goroutine has not started. */
  datatype WorkerPc =
    | Prepared
    | FirstRead
    | AwaitSlot
    | ReRead
    | BuildClient(spec: HostSpec)
    | InstallHost(spec: HostSpec)
    | InstallCompanion(spec: HostSpec, next: nat)
    | ReleaseSlot(spec: HostSpec)
    | ListStale(spec: HostSpec)
    | Prune(spec: HostSpec, todo: seq<string>)
    | ReadStatus(err: Option<string>)
    | WriteStatus(err: Option<string>, base: Attributes)
    | Clear
    | DeferredRelease

  datatype Worker = Worker(host: Key, hash: string, cancelled: bool, slot: bool, pc: WorkerPc)

  /** Where the reconcile of a host stands, with its in-memory copy of the host. */
  datatype Reconcile =
    | Loaded(mem: HostObject)
    | HelmRead(mem: HostObject)
    | HelmHash(mem: HostObject, latest: Attributes)
    | HelmCheck(mem: HostObject, latest: Attributes, hash: string)
    | PatchProgress(mem: HostObject, latest: Attributes, hash: string)
    | TrySet(mem: HostObject, hash: string, ctx: nat)
    | Replace(mem: HostObject, hash: string, ctx: nat, superseded: HelmOperation)
    | SetEntry(mem: HostObject, hash: string, ctx: nat)
    | Launch(mem: HostObject, hash: string, ctx: nat)
    | GetClient(mem: HostObject)
    | ForgetOperation(mem: HostObject)
    | CancelOperation(mem: HostObject, op: HelmOperation)
    | UninstallHost(mem: HostObject)
    | ListOwned(mem: HostObject, failed: bool)
    | Uninstall(mem: HostObject, todo: seq<string>, failed: bool)
    | DropClient(mem: HostObject)
    | RemoveFinalizer(mem: HostObject)
    | DeferredRead(mem: HostObject)
    | DeferredWrite(mem: HostObject, latest: Attributes)

  datatype Config = Config(
    concurrency: int, hasFactory: bool, controllerId: string,
    hashOf: (HostSpec, string) -> string, formatInt: nat -> string)

  /** What every goroutine can touch: the API server, the Helm release store (with what each release was last
      rendered from), and the reconciler's own memory under its mutex (active operations, channel tokens,
      cached clients). */
  datatype World = World(
    server: map<Key, HostObject>,
    configuration: string,
    releases: Releases,
    rendered: map<Key, Inputs>,
    active: Active,
    tokens: nat,
    clients: set<Key>)

  datatype State = State(
    world: World,
    workers: map<nat, Worker>,
    nextCtx: nat,
    reconciles: map<Key, Reconcile>)

  /** What the environment answers to the call a step makes. A Helm call that fails may or may not
      have taken effect. */
  datatype Outcome =
    | Done
    | Failed(message: string, applied: bool)
    | Listed(names: seq<string>)
    | Resolved(attributes: Attributes)
    | Backoff
    | At(now: string)

  datatype Label =
    | WorkerStep(id: nat, o: Outcome)
    | ReconcileStep(host: Key, o: Outcome)
    | CreateHost(host: Key, spec: HostSpec)
    | EditSpec(host: Key, spec: HostSpec)
    | RequestDelete(host: Key)
    | Configure(configuration: string)
    | Restart

  /** A freshly started controller, in front of any server and any release store. */
  ghost predicate Init(s: State) {
    && s.workers == map[] && s.reconciles == map[]
    && s.world.active == map[] && s.world.tokens == 0 && s.world.clients == {}
    && forall h :: h in s.world.server && s.world.server[h].deleting ==> s.world.server[h].finalizer
  }

  // ---------------------------------------------------------------- the release store

  function ReleaseKey(host: Key, name: string): Key {
    Key(host.ns, name)
  }

  /** InstallOrUpgrade: the release is present and its labels are merged in. */
  function Install(m: Releases, k: Key, owner: Option<string>): Releases {
    if owner.None? && k in m then m else m[k := owner]
  }

  function Remove(m: Releases, k: Key): Releases {
    m - {k}
  }

  predicate Owned(m: Releases, host: Key, name: string) {
    ReleaseKey(host, name) in m && m[ReleaseKey(host, name)] == Some(host.name)
  }

  /** An exact answer of ListReleases for the host's owner label. */
  predicate ListsOwned(m: Releases, host: Key, names: seq<string>) {
    && (forall n :: n in names ==> Owned(m, host, n))
    && (forall k :: k in m && k.ns == host.ns && m[k] == Some(host.name) ==> k.name in names)
  }

  /** The declared names that are not owned, each once, in declared order. */
  function Missing(declared: seq<string>, seen: seq<string>): (r: seq<string>)
    ensures forall n :: n in declared ==> n in seen || n in r
  {
    if declared == [] then []
    else if declared[0] in seen then Missing(declared[1..], seen)
    else [declared[0]] + Missing(declared[1..], seen + [declared[0]])
  }

  // ---------------------------------------------------------------- workers

  /** The worker has not yet cleared its map entry; after that only its deferred release is left. */
  predicate Live(pc: WorkerPc) {
    !pc.DeferredRelease?
  }

  /** The part of a worker between the re-read of its host and its status write. */
  predicate HelmPhase(pc: WorkerPc) {
    pc.BuildClient? || pc.InstallHost? || pc.InstallCompanion? || pc.ReleaseSlot? || pc.ListStale? || pc.Prune?
  }

  /** The worker still has an InstallOrUpgrade ahead of it. */
  predicate MayInstall(pc: WorkerPc) {
    pc.BuildClient? || pc.InstallHost? || (pc.InstallCompanion? && pc.next < |pc.spec.companions|)
  }

  /** The worker may be inside an InstallOrUpgrade call. */
  predicate Rendering(pc: WorkerPc) {
    pc.InstallHost? || pc.InstallCompanion?
  }

  /** The world after a worker's step, and the worker itself unless it ended. */
  datatype WorkerResult = WorkerResult(world: World, worker: Option<Worker>)

  function Move(s: World, w: Worker, pc: WorkerPc): Option<WorkerResult> {
    Some(WorkerResult(s, Some(w.(pc := pc))))
  }

  /** An InstallOrUpgrade that takes effect; values are built from the spec and the configuration of the moment. */
  function Rendered(s: World, k: Key, owner: Option<string>, spec: HostSpec): World {
    s.(releases := Install(s.releases, k, owner), rendered := s.rendered[k := Inputs(spec, s.configuration)])
  }

  /** A worker up to its re-read: waiting for a render slot, then looking at its host again. */
  function QueueNext(c: Config, s: World, w: Worker, o: Outcome): Option<WorkerResult> {
    match w.pc
    case FirstRead =>
      if w.host !in s.server || o.Failed? then Move(s, w, Clear)
      else if !c.hasFactory then Move(s, w, ReadStatus(Some("HelmClientFactory is nil")))
      else Move(s, w, AwaitSlot)
    case AwaitSlot =>
      if c.concurrency <= 0 then Move(s, w, ReRead)
      else if o.Failed? then (if w.cancelled then Move(s, w, Clear) else None)
      else if s.tokens < c.concurrency then Move(s.(tokens := s.tokens + 1), w.(slot := true), ReRead)
      else None
    case ReRead =>
      if w.host !in s.server || o.Failed? || s.server[w.host].deleting then Move(s, w, Clear)
      else Move(s, w, BuildClient(s.server[w.host].spec))
    case _ => None
  }

  /** A worker from its re-read to the end of its Helm calls. */
  function HelmNext(s: World, w: Worker, o: Outcome): Option<WorkerResult> {
    match w.pc
    case BuildClient(spec) =>
      if o.Failed? then Move(s, w, ReadStatus(Some(o.message)))
      else Move(s.(clients := s.clients + {w.host}), w, InstallHost(spec))
    case InstallHost(spec) =>
      var installed := Rendered(s, w.host, None, spec);
      if o.Failed? then Move(if o.applied then installed else s, w, ReadStatus(Some(o.message)))
      else Move(installed, w, InstallCompanion(spec, 0))
    case InstallCompanion(spec, next) =>
      if next >= |spec.companions| then Move(s, w, ReleaseSlot(spec))
      else
        var k := ReleaseKey(w.host, spec.companions[next]);
        var installed := Rendered(s, k, Some(w.host.name), spec);
        if o.Failed? then Move(if o.applied then installed else s, w, ReadStatus(Some(o.message)))
        else Move(installed, w, InstallCompanion(spec, next + 1))
    case ReleaseSlot(spec) =>
      if !w.slot then Move(s, w, ListStale(spec))
      else if s.tokens == 0 then None
      else Move(s.(tokens := s.tokens - 1), w.(slot := false), ListStale(spec))
    case ListStale(spec) =>
      if o.Failed? then Move(s, w, ReadStatus(Some(o.message)))
      else if o.Listed? && ListsOwned(s.releases, w.host, o.names) then Move(s, w, Prune(spec, o.names))
      else None
    case Prune(spec, todo) =>
      if todo == [] then Move(s, w, ReadStatus(None))
      else if todo[0] in spec.companions then Move(s, w, Prune(spec, todo[1..]))
      else
        var removed := s.(releases := Remove(s.releases, ReleaseKey(w.host, todo[0])));
        if o.Failed? then Move(if o.applied then removed else s, w, ReadStatus(Some(o.message)))
        else Move(removed, w, Prune(spec, todo[1..]))
    case _ => None
  }

  /** A worker from its status write to its end. A cancelled worker cannot send its patch any more; one that was
      cancelled while its patch was on its way may still see it land. */
  function FinishNext(c: Config, s: World, w: Worker, o: Outcome): Option<WorkerResult> {
    match w.pc
    case ReadStatus(err) =>
      if w.host !in s.server || o.Failed? || w.cancelled then Move(s, w, Clear)
      else Move(s, w, WriteStatus(err, s.server[w.host].attributes))
    case WriteStatus(err, base) =>
      if w.host !in s.server || o.Failed? then Move(s, w, Clear)
      else if o.At? then Move(Patched(s, w.host, WorkerPatch(base, err, w.hash, c.controllerId, o.now)), w, Clear)
      else None
    case Clear => Move(s.(active := ClearEntry(s.active, w.host, w.hash)), w, DeferredRelease)
    case DeferredRelease =>
      if !w.slot then Some(WorkerResult(s, None))
      else if s.tokens == 0 then None
      else Some(WorkerResult(s.(tokens := s.tokens - 1), None))
    case _ => None
  }

  /** One step of a worker; None while the step is not possible. */
  function WorkerNext(c: Config, s: World, w: Worker, o: Outcome): Option<WorkerResult> {
    if HelmPhase(w.pc) then HelmNext(s, w, o)
    else if w.pc.ReadStatus? || w.pc.WriteStatus? || w.pc.Clear? || w.pc.DeferredRelease? then FinishNext(c, s, w, o)
    else QueueNext(c, s, w, o)
  }

  /** A status patch as the API server applies it: to its current copy. */
  function Patched(s: World, h: Key, p: Patch): World
    requires h in s.server
  {
    s.(server := s.server[h := s.server[h].(attributes := Apply(p, s.server[h].attributes))])
  }

  // ---------------------------------------------------------------- reconciles

  /** What a reconcile step does to worker contexts: WithCancel, the go statement, or a cancel. */
  datatype ContextAction = NoAction | Create(hash: string) | Start(ctx: nat) | Cancel(ctx: nat) | Discard(ctx: nat)

  /** The world after a reconcile's step, the reconcile itself unless it returned, and its effect on contexts. */
  datatype ReconcileResult = ReconcileResult(world: World, reconcile: Option<Reconcile>, action: ContextAction)

  function Goto(s: World, r: Reconcile): Option<ReconcileResult> {
    Some(ReconcileResult(s, Some(r), NoAction))
  }

  function GotoWith(s: World, r: Reconcile, action: ContextAction): Option<ReconcileResult> {
    Some(ReconcileResult(s, Some(r), action))
  }

  function Return(s: World): Option<ReconcileResult> {
    Some(ReconcileResult(s, None, NoAction))
  }

  function Lookup(a: Attributes, k: string): string {
    if k in a then a[k] else ""
  }

  /** The three early answers of reconcileHelmReleases. */
  predicate StillWorking(active: Active, h: Key, latest: Attributes, hash: string) {
    Lookup(latest, HELM_STATUS) == IN_PROGRESS && IsActive(active, h, hash)
  }

  predicate UpToDate(latest: Attributes, hash: string) {
    Lookup(latest, HELM_STATUS) == COMPLETED && Lookup(latest, HELM_HASH) == hash
  }

  predicate MayBackOff(latest: Attributes, hash: string) {
    && Lookup(latest, HELM_STATUS) == FAILED && Lookup(latest, HELM_HASH) == hash
    && Lookup(latest, HELM_LAST_ATTEMPT) != ""
  }

  /** The part of a reconcile that decides on a launch and records it on the host. */
  function DecideNext(c: Config, s: World, unused: nat, h: Key, r: Reconcile, o: Outcome): Option<ReconcileResult> {
    match r
    case HelmRead(mem) =>
      if h !in s.server || o.Failed? then Goto(s, DeferredRead(mem))
      else Goto(s, HelmHash(mem.(generation := s.server[h].generation), s.server[h].attributes))
    case HelmHash(mem, latest) =>
      if o.Failed? then Goto(s, DeferredRead(mem))
      else Goto(s, HelmCheck(mem, latest, c.hashOf(mem.spec, s.configuration)))
    case HelmCheck(mem, latest, hash) =>
      if StillWorking(s.active, h, latest, hash) || UpToDate(latest, hash) || (MayBackOff(latest, hash) && o.Backoff?)
      then Goto(s, DeferredRead(mem))
      else
        var marked := MarkInProgress(mem.attributes, hash, c.formatInt(mem.generation), c.controllerId);
        Goto(s, PatchProgress(mem.(attributes := marked), latest, hash))
    case PatchProgress(mem, latest, hash) =>
      if h !in s.server || o.Failed? then Goto(s, DeferredRead(mem))
      else GotoWith(Patched(s, h, Diff(latest, mem.attributes)), TrySet(mem, hash, unused), Create(hash))
    case _ => None
  }

  /** The part of a reconcile that claims the active map and starts the worker. */
  function LaunchNext(s: World, h: Key, r: Reconcile): Option<ReconcileResult> {
    match r
    case TrySet(mem, hash, ctx) =>
      if h !in s.active then Goto(s.(active := s.active[h := HelmOperation(ctx, hash)]), Launch(mem, hash, ctx))
      else if s.active[h].hash == hash then GotoWith(s, DeferredRead(mem), Discard(ctx))
      else Goto(s, Replace(mem, hash, ctx, s.active[h]))
    case Replace(mem, hash, ctx, superseded) => GotoWith(s, SetEntry(mem, hash, ctx), Cancel(superseded.ctx))
    case SetEntry(mem, hash, ctx) =>
      Goto(s.(active := s.active[h := HelmOperation(ctx, hash)]), Launch(mem, hash, ctx))
    case Launch(mem, hash, ctx) => GotoWith(s, DeferredRead(mem), Start(ctx))
    case _ => None
  }

  /** The part of a reconcile that tears the host down, once its internal resources are gone. */
  function TeardownNext(s: World, h: Key, r: Reconcile, o: Outcome): Option<ReconcileResult> {
    match r
    case GetClient(mem) =>
      if o.Failed? then Goto(s, DeferredRead(mem))
      else Goto(s.(clients := s.clients + {h}), ForgetOperation(mem))
    case ForgetOperation(mem) =>
      if h !in s.active then Goto(s, UninstallHost(mem))
      else Goto(s.(active := s.active - {h}), CancelOperation(mem, s.active[h]))
    case CancelOperation(mem, op) => GotoWith(s, UninstallHost(mem), Cancel(op.ctx))
    case UninstallHost(mem) =>
      var removed := s.(releases := Remove(s.releases, h));
      if o.Failed? then Goto(if o.applied then removed else s, ListOwned(mem, true))
      else Goto(removed, ListOwned(mem, false))
    case ListOwned(mem, failed) =>
      if o.Failed? then Goto(s, DeferredRead(mem))
      else if o.Listed? && ListsOwned(s.releases, h, o.names) then
        Goto(s, Uninstall(mem, o.names + Missing(mem.spec.companions, o.names), failed))
      else None
    case Uninstall(mem, todo, failed) =>
      if todo == [] then Goto(s, if failed then DeferredRead(mem) else DropClient(mem))
      else
        var removed := s.(releases := Remove(s.releases, ReleaseKey(h, todo[0])));
        if o.Failed? then Goto(if o.applied then removed else s, Uninstall(mem, todo[1..], true))
        else Goto(removed, Uninstall(mem, todo[1..], failed))
    case DropClient(mem) => Goto(s.(clients := s.clients - {h}), RemoveFinalizer(mem))
    case RemoveFinalizer(mem) =>
      if h !in s.server || o.Failed? then Goto(s, DeferredRead(mem))
      else if s.server[h].deleting then Goto(s.(server := s.server - {h}), DeferredRead(mem.(finalizer := false)))
      else None
    case _ => None
  }

  /** The first and last parts of a reconcile. */
  function FrameNext(s: World, h: Key, r: Reconcile, o: Outcome): Option<ReconcileResult> {
    match r
    case Loaded(mem) =>
      if o.Failed? then Goto(s, DeferredRead(mem))
      else if mem.deleting then Goto(s, if mem.finalizer then GetClient(mem) else DeferredRead(mem))
      else if !mem.finalizer then
        if h in s.server && !s.server[h].deleting then
          Goto(s.(server := s.server[h := s.server[h].(finalizer := true)]), DeferredRead(mem.(finalizer := true)))
        else None
      else if o.Resolved? && SameHelmAttributes(o.attributes, mem.attributes) then
        Goto(s, HelmRead(mem.(attributes := o.attributes)))
      else None
    case DeferredRead(mem) =>
      if h !in s.server || o.Failed? then Return(s)
      else Goto(s, DeferredWrite(mem, s.server[h].attributes))
    case DeferredWrite(mem, latest) =>
      if h !in s.server || o.Failed? then Return(s)
      else Return(Patched(s, h, DeferredPatch(mem.attributes, latest)))
    case _ => None
  }

  /** Resolving references, translations and extensions leaves the Helm attributes in memory alone. */
  predicate SameHelmAttributes(a: Attributes, b: Attributes) {
    forall k :: k in a.Keys + b.Keys && HelmKey(k) ==> k in a && k in b && a[k] == b[k]
  }

  /** A launch is under way: a context exists whose goroutine has not started. */
  predicate Pending(r: Reconcile) {
    r.TrySet? || r.Replace? || r.SetEntry? || r.Launch?
  }

  predicate Deciding(r: Reconcile) {
    r.HelmRead? || r.HelmHash? || r.HelmCheck? || r.PatchProgress?
  }

  predicate Framing(r: Reconcile) {
    r.Loaded? || r.DeferredRead? || r.DeferredWrite?
  }

  /** One step of the reconcile `r` of host `h`; `unused` is the next context. */
  function ReconcileNext(c: Config, s: World, unused: nat, h: Key, r: Reconcile, o: Outcome): Option<ReconcileResult> {
    if Framing(r) then FrameNext(s, h, r, o)
    else if Deciding(r) then DecideNext(c, s, unused, h, r, o)
    else if Pending(r) then LaunchNext(s, h, r)
    else TeardownNext(s, h, r, o)
  }

  /** The workers after an action of the reconcile of `h`. */
  function Act(workers: map<nat, Worker>, unused: nat, h: Key, action: ContextAction): map<nat, Worker> {
    match action
    case NoAction => workers
    case Create(hash) => workers[unused := Worker(h, hash, false, false, Prepared)]
    case Start(ctx) => if ctx in workers then workers[ctx := workers[ctx].(pc := FirstRead)] else workers
    case Cancel(ctx) => if ctx in workers then workers[ctx := workers[ctx].(cancelled := true)] else workers
    case Discard(ctx) => workers - {ctx}
  }

  // ---------------------------------------------------------------- runs

  /** Users: hosts are created, edited and deleted, and the cluster configuration changes. */
  function EnvironmentNext(s: World, l: Label): Option<World> {
    match l
    case CreateHost(h, spec) =>
      if h in s.server then None else Some(s.(server := s.server[h := HostObject(spec, 1, false, false, map[])]))
    case EditSpec(h, spec) =>
      if h !in s.server then None
      else
        var obj := s.server[h];
        Some(s.(server := s.server[h := obj.(spec := spec, generation := obj.generation + 1)]))
    case RequestDelete(h) =>
      if h !in s.server then None
      else if s.server[h].finalizer then Some(s.(server := s.server[h := s.server[h].(deleting := true)]))
      else Some(s.(server := s.server - {h}))
    case Configure(configuration) => Some(s.(configuration := configuration))
    case _ => None
  }

  function CommitWorker(s: State, id: nat, r: WorkerResult): State {
    s.(world := r.world, workers := if r.worker.Some? then s.workers[id := r.worker.value] else s.workers - {id})
  }

  function CommitReconcile(s: State, h: Key, r: ReconcileResult): State {
    State(r.world, Act(s.workers, s.nextCtx, h, r.action), if r.action.Create? then s.nextCtx + 1 else s.nextCtx,
          if r.reconcile.Some? then s.reconciles[h := r.reconcile.value] else s.reconciles - {h})
  }

  function Next(c: Config, s: State, l: Label): Option<State> {
    match l
    case WorkerStep(id, o) =>
      if id !in s.workers then None
      else
        var r := WorkerNext(c, s.world, s.workers[id], o);
        if r.None? then None else Some(CommitWorker(s, id, r.value))
    case ReconcileStep(h, o) =>
      if h !in s.reconciles then
        if h in s.world.server then Some(s.(reconciles := s.reconciles[h := Loaded(s.world.server[h])])) else None
      else
        var r := ReconcileNext(c, s.world, s.nextCtx, h, s.reconciles[h], o);
        if r.None? then None else Some(CommitReconcile(s, h, r.value))
    case Restart => // everything that lives in memory is lost
      Some(s.(world := s.world.(active := map[], tokens := 0, clients := {}), workers := map[], reconciles := map[]))
    case _ =>
      var r := EnvironmentNext(s.world, l);
      if r.None? then None else Some(s.(world := r.value))
  }

  /** The state after the steps `ls`; None when one of them is not possible. */
  function Exec(c: Config, s: State, ls: seq<Label>): Option<State>
    decreases |ls|
  {
    if ls == [] then Some(s)
    else
      match Next(c, s, ls[0])
      case None => None
      case Some(s') => Exec(c, s', ls[1..])
  }

  lemma ExecCons(c: Config, s: State, l: Label, ls: seq<Label>)
    ensures Exec(c, s, [l] + ls) == match Next(c, s, l) case None => None case Some(m) => Exec(c, m, ls)
  {
    assert ([l] + ls)[1..] == ls;
  }

  lemma {:induction false} ExecAppend(c: Config, s: State, a: seq<Label>, b: seq<Label>)
    ensures Exec(c, s, a + b) == match Exec(c, s, a) case None => None case Some(m) => Exec(c, m, b)
    decreases |a|
  {
    if a == [] {
      assert a + b == b;
    } else {
      assert (a + b)[1..] == a[1..] + b;
      match Next(c, s, a[0])
      case None =>
      case Some(s') => ExecAppend(c, s', a[1..], b);
    }
  }
}
