/** What the recorded status says about the release: when "up to date" and "completed" can be believed. */
module HelmUpToDate {
  import opened Wrappers
  import opened HelmOperations
  import opened HostStatus
  import opened HelmProtocol
  import opened HelmSafety
  import opened HelmPass
  import opened HelmRuns

  // ---------------------------------------------------------------- the deferred write

  /** The deferred write of a reconcile, in any state: it leaves the stored Helm attributes alone exactly when every
      one that it holds, and that was absent from its own fetch, is stored with that very value. */
  lemma DeferredWriteKeepsHelmIff(c: Config, s: State, h: Key, s': State)
    requires h in s.reconciles && s.reconciles[h].DeferredWrite? && h in s.world.server
    requires Next(c, s, ReconcileStep(h, Done)) == Some(s')
    ensures h in s'.world.server
    ensures var mem, latest := s.reconciles[h].mem.attributes, s.reconciles[h].latest;
            var a := s.world.server[h].attributes;
            (SameHelm(s'.world.server[h].attributes, a)
             <==> forall k :: k in mem && HelmKey(k) && k !in latest ==> k in a && a[k] == mem[k])
  {
    var mem, latest := s.reconciles[h].mem.attributes, s.reconciles[h].latest;
    var a := s.world.server[h].attributes;
    var p := DeferredPatch(mem, latest);
    HelmPartOfPatch(mem, latest);
    assert s'.world.server[h].attributes == Apply(p, a);
    if k :| k in mem && HelmKey(k) && k !in latest && !(k in a && a[k] == mem[k]) {
      assert k in Apply(p, a) && Apply(p, a)[k] == mem[k];
    }
  }

  lemma HelmPartOfPatch(mem: Attributes, latest: Attributes)
    ensures forall k :: HelmKey(k) ==> (k in DeferredPatch(mem, latest) <==> k in mem && k !in latest)
    ensures forall k :: HelmKey(k) && k in DeferredPatch(mem, latest) ==> DeferredPatch(mem, latest)[k] == Some(mem[k])
  {
  }

  // ---------------------------------------------------------------- the worker's write

  /** The success a worker writes is recorded under its own hash exactly when the status and the hash are still
      stored where its patch does not name them: a patch names only what differs from the copy the worker read. */
  lemma SuccessIsRecordedIff(c: Config, s: State, id: nat, now: string, s': State)
    requires id in s.workers && s.workers[id].pc.WriteStatus? && s.workers[id].pc.err == None
    requires s.workers[id].host in s.world.server && Next(c, s, WorkerStep(id, At(now))) == Some(s')
    ensures s.workers[id].host in s'.world.server
    ensures var w := s.workers[id];
            var a, b := s.world.server[w.host].attributes, s'.world.server[w.host].attributes;
            (UpToDate(b, w.hash)
             <==> (Lookup(w.pc.base, HELM_STATUS) == COMPLETED ==> Lookup(a, HELM_STATUS) == COMPLETED)
                  && (HELM_HASH in w.pc.base && w.pc.base[HELM_HASH] == w.hash ==> Lookup(a, HELM_HASH) == w.hash))
  {
    var w := s.workers[id];
    var p := WorkerPatch(w.pc.base, None, w.hash, c.controllerId, now);
    SuccessPatch(w.pc.base, w.hash, c.controllerId, now);
    assert s'.world.server[w.host].attributes == Apply(p, s.world.server[w.host].attributes);
  }

  lemma SuccessPatch(base: Attributes, hash: string, owner: string, now: string)
    ensures var p := WorkerPatch(base, None, hash, owner, now);
            && (if Lookup(base, HELM_STATUS) == COMPLETED then HELM_STATUS !in p
                else HELM_STATUS in p && p[HELM_STATUS] == Some(COMPLETED))
            && (if HELM_HASH in base && base[HELM_HASH] == hash then HELM_HASH !in p
                else HELM_HASH in p && p[HELM_HASH] == Some(hash))
            && forall k :: k in p ==> HelmKey(k)
  {
    assert |COMPLETED| == 9;
    assert |HELM_STATUS| == 19 && |HELM_HASH| == 17 && |HELM_ERROR| == 18;
    assert |HELM_OWNER| == 18 && |HELM_LAST_ATTEMPT| == 25;
  }

  // ---------------------------------------------------------------- runs from a fresh controller

  lemma SlotsFree(c: Config, s: State)
    requires Safe(c, s) && forall id :: id in s.workers ==> !s.workers[id].slot
    ensures SlotFree(c, s.world)
  {
    assert Holders(s) == {};
  }

  /** A queued worker's pass up to its status, while no slot is taken. */
  lemma PassesAlone(c: Config, s: State, id: nat) returns (ls: seq<Label>, s': State)
    requires Safe(c, s) && id in s.workers && Queued(c, s.workers[id].pc)
    requires forall i :: i in s.workers ==> !s.workers[i].slot
    requires s.workers[id].host in s.world.server && !s.world.server[s.workers[id].host].deleting
    ensures Steady(ls) && Exec(c, s, ls) == Some(s') && Safe(c, s')
    ensures OnlyWorker(s, s', id, ReadStatus(None), false)
    ensures var h, spec := s.workers[id].host, s.world.server[s.workers[id].host].spec;
            RenderedFrom(s'.world, h, spec) && s'.world.releases == Converged(s.world.releases, h, spec.companions)
  {
    SlotsFree(c, s);
    var spec := s.world.server[s.workers[id].host].spec;
    var reach, m := ReachesClient(c, s, id);
    var pass;
    pass, s' := RunsThrough(c, m, id, spec);
    OnlyWorkerTwice(s, m, s', id, BuildClient(spec), c.concurrency > 0, ReadStatus(None), false);
    ls := reach + pass;
    ExecAppend(c, s, reach, pass);
  }

  /** The same, with a list call that fails. */
  lemma FailsAlone(c: Config, s: State, id: nat, message: string) returns (ls: seq<Label>, s': State)
    requires Safe(c, s) && id in s.workers && Queued(c, s.workers[id].pc)
    requires forall i :: i in s.workers ==> !s.workers[i].slot
    requires s.workers[id].host in s.world.server && !s.world.server[s.workers[id].host].deleting
    ensures Exec(c, s, ls) == Some(s') && Safe(c, s')
    ensures OnlyWorker(s, s', id, ReadStatus(Some(message)), false)
  {
    SlotsFree(c, s);
    var spec := s.world.server[s.workers[id].host].spec;
    var reach, m := ReachesClient(c, s, id);
    var pass;
    pass, s' := FailsLate(c, m, id, spec, message);
    OnlyWorkerTwice(s, m, s', id, BuildClient(spec), c.concurrency > 0, ReadStatus(Some(message)), false);
    ls := reach + pass;
    ExecAppend(c, s, reach, pass);
  }

  /** A host whose only worker was launched for what is in its spec, about to read or write a status. */
  ghost predicate OneLaunched(c: Config, s: State, h: Key, id: nat) {
    && Safe(c, s) && c.hasFactory
    && h in s.world.server && !s.world.server[h].deleting && s.world.server[h].finalizer && h !in s.reconciles
    && s.workers.Keys == {id} && s.workers[id].host == h && !s.workers[id].slot
    && h in s.world.active && s.world.active[h].hash == s.workers[id].hash
    && s.workers[id].hash == c.hashOf(s.world.server[h].spec, s.world.configuration)
    && Lookup(s.world.server[h].attributes, HELM_STATUS) == IN_PROGRESS
    && Lookup(s.world.server[h].attributes, HELM_HASH) == s.workers[id].hash
    && HELM_HASH in s.world.server[h].attributes && HELM_ERROR !in s.world.server[h].attributes
    && !s.workers[id].cancelled
  }

  lemma FirstLaunch(c: Config, s0: State, h: Key) returns (ls: seq<Label>, s: State)
    requires Init(s0) && c.hasFactory && WillLaunch(c, s0, h)
    ensures Smooth(ls) && Exec(c, s0, ls) == Some(s) && OneLaunched(c, s, h, s0.nextCtx)
    ensures s.workers[s0.nextCtx].pc.FirstRead? && !s.workers[s0.nextCtx].cancelled
    ensures s.world.server[h].spec == s0.world.server[h].spec && s.world.configuration == s0.world.configuration
  {
    InitSafe(c, s0);
    ls, s := Launches(c, s0, h);
    MarkedInProgress(s0.world.server[h].attributes, c.hashOf(s0.world.server[h].spec, s0.world.configuration),
                     c.formatInt(s0.world.server[h].generation), c.controllerId);
  }

  /** After an edit to a spec of another hash and the launch that follows: the first worker goes on, cancelled. */
  ghost predicate Superseded(c: Config, s: State, s': State, h: Key, id: nat, other: HostSpec)
    requires id in s.workers
  {
    var hash := c.hashOf(other, s.world.configuration);
    && Safe(c, s') && s.nextCtx != id && s'.workers.Keys == {id, s.nextCtx}
    && s'.workers[s.nextCtx] == Worker(h, hash, false, false, FirstRead)
    && s'.workers[id] == s.workers[id].(cancelled := true)
    && s'.reconciles == s.reconciles && s'.world.configuration == s.world.configuration
    && s'.world.rendered == s.world.rendered && s'.world.releases == s.world.releases
    && h in s'.world.server && !s'.world.server[h].deleting && s'.world.server[h].finalizer
    && s'.world.server[h].spec == other
    && Lookup(s'.world.server[h].attributes, HELM_STATUS) == IN_PROGRESS
    && Lookup(s'.world.server[h].attributes, HELM_HASH) == hash
  }

  lemma LaunchSupersedes(c: Config, s: State, m: State, s': State, h: Key, id: nat, other: HostSpec)
    requires OneLaunched(c, s, h, id) && Safe(c, s') && id < s.nextCtx
    requires var obj := s.world.server[h];
             m == s.(world := s.world.(
                       server := s.world.server[h := obj.(spec := other, generation := obj.generation + 1)]))
    requires Launched(c, m, s', h)
    ensures Superseded(c, s, s', h, id, other)
  {
    assert EntryLive(s, h);
    MarkedInProgress(m.world.server[h].attributes, c.hashOf(other, s.world.configuration),
                     c.formatInt(m.world.server[h].generation), c.controllerId);
  }

  lemma MarkedInProgress(a: Attributes, hash: string, generation: string, owner: string)
    ensures var b := MarkInProgress(a, hash, generation, owner);
            && Lookup(b, HELM_STATUS) == IN_PROGRESS && HELM_HASH in b && b[HELM_HASH] == hash && HELM_ERROR !in b
  {
    assert |HELM_STATUS| == 19 && |HELM_HASH| == 17 && |HELM_ERROR| == 18;
    assert |HELM_OWNER| == 18 && |HELM_LAST_ATTEMPT| == 25 && |HELM_GENERATION| == 23;
  }

  lemma SecondLaunch(c: Config, s: State, h: Key, id: nat, other: HostSpec) returns (ls: seq<Label>, s': State)
    requires OneLaunched(c, s, h, id) && c.hashOf(other, s.world.configuration) != s.workers[id].hash
    ensures Smooth(ls) && Exec(c, s, ls) == Some(s') && Superseded(c, s, s', h, id, other)
  {
    var m := Edits(c, s, h, other);
    EditedWillLaunch(c, s, m, h, id, other);
    var launch;
    launch, s' := Launches(c, m, h);
    ls := [EditSpec(h, other)] + launch;
    ExecAppend(c, s, [EditSpec(h, other)], launch);
    LaunchSupersedes(c, s, m, s', h, id, other);
  }

  lemma EditedWillLaunch(c: Config, s: State, m: State, h: Key, id: nat, other: HostSpec)
    requires OneLaunched(c, s, h, id) && c.hashOf(other, s.world.configuration) != s.workers[id].hash
    requires var obj := s.world.server[h];
             m == s.(world := s.world.(
                       server := s.world.server[h := obj.(spec := other, generation := obj.generation + 1)]))
    ensures WillLaunch(c, m, h) && id < s.nextCtx
  {
    assert id in s.workers;
    assert |IN_PROGRESS| == 11 && |COMPLETED| == 9;
  }

  /** The status write of a superseded worker that read the status before the launch that superseded it: it records
      its success, and leaves the hash of that launch. */
  lemma TornWrite(base: Attributes, a: Attributes, hash: string, owner: string, now: string)
    requires Lookup(base, HELM_STATUS) == IN_PROGRESS && HELM_HASH in base && base[HELM_HASH] == hash
    ensures var b := Apply(WorkerPatch(base, None, hash, owner, now), a);
            Lookup(b, HELM_STATUS) == COMPLETED && Lookup(b, HELM_HASH) == Lookup(a, HELM_HASH)
  {
    assert |IN_PROGRESS| == 11 && |COMPLETED| == 9;
    SuccessPatch(base, hash, owner, now);
  }

  /** "Up to date" can be wrong for good. For every configuration, every host that is about to be launched and every
      spec of another hash, there is a run that ends, with no worker left, in a host recorded as completed under the
      hash of its current inputs, while its release was rendered from the earlier ones. */
  lemma UpToDateCanBeWrong(c: Config, s0: State, h: Key, other: HostSpec) returns (ls: seq<Label>, s': State)
    requires Init(s0) && c.hasFactory && WillLaunch(c, s0, h)
    requires c.hashOf(other, s0.world.configuration) != c.hashOf(s0.world.server[h].spec, s0.world.configuration)
    ensures Exec(c, s0, ls) == Some(s') && s'.workers == map[]
    ensures h in s'.world.server && s'.world.server[h].spec == other
    ensures UpToDate(s'.world.server[h].attributes, c.hashOf(other, s'.world.configuration))
    ensures RenderedFrom(s'.world, h, s0.world.server[h].spec)
    ensures c.hashOf(other, s'.world.configuration)
            != c.hashOf(s0.world.server[h].spec, s'.world.configuration)
  {
    var first, s := ReadsBeforeEdit(c, s0, h);
    var second;
    second, s' := WritesAfterEdit(c, s, h, s0.nextCtx, other);
    ls := first + second;
    ExecAppend(c, s0, first, second);
  }

  /** From a fresh controller to a worker that has installed, and has read the status it will patch. */
  lemma ReadsBeforeEdit(c: Config, s0: State, h: Key) returns (ls: seq<Label>, s: State)
    requires Init(s0) && c.hasFactory && WillLaunch(c, s0, h)
    ensures Exec(c, s0, ls) == Some(s) && OneLaunched(c, s, h, s0.nextCtx)
    ensures s.workers[s0.nextCtx].pc == WriteStatus(None, s.world.server[h].attributes)
    ensures s.world.server[h].spec == s0.world.server[h].spec && s.world.configuration == s0.world.configuration
    ensures RenderedFrom(s.world, h, s0.world.server[h].spec)
  {
    var id := s0.nextCtx;
    var first, s1 := FirstLaunch(c, s0, h);
    var pass, s2 := PassesAlone(c, s1, id);
    var read;
    read, s := ReadsStatus(c, s2, id);
    Nothing(c, s);
    Then(c, s2, read, s, [], s);
    ExecAppend(c, s1, pass, [read] + []);
    ls := first + (pass + ([read] + []));
    ExecAppend(c, s0, first, pass + ([read] + []));
  }

  lemma WritesAfterEdit(c: Config, s: State, h: Key, id: nat, other: HostSpec) returns (ls: seq<Label>, s': State)
    requires OneLaunched(c, s, h, id) && c.hashOf(other, s.world.configuration) != s.workers[id].hash
    requires s.workers[id].pc == WriteStatus(None, s.world.server[h].attributes)
    ensures Exec(c, s, ls) == Some(s') && s'.workers == map[]
    ensures s'.world.configuration == s.world.configuration && s'.world.rendered == s.world.rendered
    ensures h in s'.world.server && s'.world.server[h].spec == other
    ensures UpToDate(s'.world.server[h].attributes, c.hashOf(other, s'.world.configuration))
  {
    var w := s.workers[id];
    var second, s1 := SecondLaunch(c, s, h, id, other);
    var write, s2 := WritesStatus(c, s1, id, "");
    TornWrite(w.pc.base, s1.world.server[h].attributes, w.hash, c.controllerId, "");
    s' := Restarts(c, s2);
    Then(c, s1, write, s2, [Restart], s');
    ls := second + ([write] + [Restart]);
    ExecAppend(c, s, second, [write] + [Restart]);
  }

  lemma Restarts(c: Config, s: State) returns (s': State)
    ensures Exec(c, s, [Restart]) == Some(s')
    ensures s'.workers == map[] && s'.world == s.world.(active := map[], tokens := 0, clients := {})
  {
    s' := Next(c, s, Restart).value;
    Nothing(c, s');
    Then(c, s, Restart, s', [], s');
    assert [Restart] + [] == [Restart];
  }

  // ---------------------------------------------------------------- a stale error comes back

  /** From a fresh controller to a worker that has failed, and whose patch is on its way. */
  lemma FailsBeforeEdit(c: Config, s0: State, h: Key, message: string) returns (ls: seq<Label>, s: State)
    requires Init(s0) && c.hasFactory && WillLaunch(c, s0, h)
    ensures Exec(c, s0, ls) == Some(s) && OneLaunched(c, s, h, s0.nextCtx)
    ensures s.workers[s0.nextCtx].pc == WriteStatus(Some(message), s.world.server[h].attributes)
    ensures HELM_ERROR !in s.world.server[h].attributes
    ensures s.world.server[h].spec == s0.world.server[h].spec && s.world.configuration == s0.world.configuration
  {
    var id := s0.nextCtx;
    var first, s1 := FirstLaunch(c, s0, h);
    var fails, s2 := FailsAlone(c, s1, id, message);
    var read;
    read, s := ReadsStatus(c, s2, id);
    Nothing(c, s);
    Then(c, s2, read, s, [], s);
    ExecAppend(c, s1, fails, [read] + []);
    ls := first + (fails + ([read] + []));
    ExecAppend(c, s0, first, fails + ([read] + []));
  }

  /** A host with the error of a superseded worker recorded, and that worker's successor still queued. */
  ghost predicate ErrorRecorded(c: Config, s: State, h: Key, done: nat, message: string) {
    && Safe(c, s) && c.hasFactory && done in s.workers && (forall i :: i in s.workers ==> !s.workers[i].slot)
    && h in s.world.server && !s.world.server[h].deleting && h !in s.reconciles
    && s.workers[done] == Worker(
         h, c.hashOf(s.world.server[h].spec, s.world.configuration), false, false, FirstRead)
    && HELM_ERROR in s.world.server[h].attributes && s.world.server[h].attributes[HELM_ERROR] == message
  }

  /** The edit and the launch that follow cancel the worker; its patch lands nevertheless. */
  lemma ErrorLands(c: Config, s: State, h: Key, id: nat, other: HostSpec, message: string)
    returns (ls: seq<Label>, s': State)
    requires OneLaunched(c, s, h, id) && c.hashOf(other, s.world.configuration) != s.workers[id].hash
    requires s.workers[id].pc == WriteStatus(Some(message), s.world.server[h].attributes)
    requires HELM_ERROR !in s.world.server[h].attributes
    ensures Exec(c, s, ls) == Some(s') && ErrorRecorded(c, s', h, s.nextCtx, message)
  {
    var second, m := SecondLaunch(c, s, h, id, other);
    var write;
    write, s' := FailureLands(c, m, h, id, s.nextCtx, message);
    Nothing(c, s');
    Then(c, m, write, s', [], s');
    ls := second + ([write] + []);
    ExecAppend(c, s, second, [write] + []);
  }

  lemma FailureLands(c: Config, s: State, h: Key, id: nat, done: nat, message: string) returns (l: Label, s': State)
    requires Safe(c, s) && c.hasFactory && id != done && s.workers.Keys == {id, done} && h !in s.reconciles
    requires h in s.world.server && !s.world.server[h].deleting
    requires s.workers[id].host == h && !s.workers[id].slot && s.workers[id].pc.WriteStatus?
    requires s.workers[id].pc.err == Some(message) && HELM_ERROR !in s.workers[id].pc.base
    requires s.workers[done] == Worker(
               h, c.hashOf(s.world.server[h].spec, s.world.configuration), false, false, FirstRead)
    ensures Next(c, s, l) == Some(s') && ErrorRecorded(c, s', h, done, message)
  {
    var w := s.workers[id];
    l, s' := WritesStatus(c, s, id, "");
    FailurePatchNamesError(w.pc.base, s.world.server[h].attributes, message, w.hash, c.controllerId, "");
  }

  lemma FailurePatchNamesError(
    base: Attributes, a: Attributes, message: string, hash: string, owner: string, now: string)
    requires HELM_ERROR !in base
    ensures var b := Apply(WorkerPatch(base, Some(message), hash, owner, now), a);
            HELM_ERROR in b && b[HELM_ERROR] == message
  {
    FailureKeepsMessage(base, message, hash, owner, now);
  }

  /** A reconcile starts with the error in memory, and the successor records its success. */
  lemma ReconcileHoldsError(c: Config, s: State, h: Key, done: nat, message: string)
    returns (ls: seq<Label>, s': State, mem: HostObject)
    requires ErrorRecorded(c, s, h, done, message)
    ensures Exec(c, s, ls) == Some(s') && Safe(c, s')
    ensures h in s'.reconciles && s'.reconciles[h] == Loaded(mem)
    ensures HELM_ERROR in mem.attributes && mem.attributes[HELM_ERROR] == message
    ensures h in s'.world.server
    ensures s'.world.server[h] == mem.(
              attributes := MarkOutcome(mem.attributes, None, s.workers[done].hash, c.controllerId, ""))
    ensures mem.spec == s.world.server[h].spec && s'.world.configuration == s.world.configuration
  {
    mem := s.world.server[h];
    var load := ReconcileStep(h, Done);
    var s1 := s.(reconciles := s.reconciles[h := Loaded(mem)]);
    assert Next(c, s, load) == Some(s1);
    StepKeepsSafe(c, s, load, s1);
    var pass, s2 := PassesAlone(c, s1, done);
    var success;
    success, s' := Records(c, s2, done, "");
    ExecAppend(c, s1, pass, success);
    Then(c, s, load, s1, pass + success, s');
    ls := [load] + (pass + success);
  }

  lemma FailureKeepsMessage(a: Attributes, message: string, hash: string, owner: string, now: string)
    ensures var b := MarkOutcome(a, Some(message), hash, owner, now);
            HELM_ERROR in b && b[HELM_ERROR] == message
  {
    assert |HELM_ERROR| == 18 && |HELM_HASH| == 17 && |HELM_LAST_ATTEMPT| == 25;
    assert HELM_ERROR[13] == 'e' && HELM_OWNER[13] == 'o';
  }

  /** A reconcile that fails early: only its deferred block is left. */
  lemma DefersOnly(c: Config, s: State, h: Key, mem: HostObject) returns (ls: seq<Label>, s': State)
    requires h in s.reconciles && s.reconciles[h] == Loaded(mem) && h in s.world.server
    ensures Exec(c, s, ls) == Some(s')
    ensures s'.world == Patched(s.world, h, DeferredPatch(mem.attributes, s.world.server[h].attributes))
  {
    var l, fails := ReconcileStep(h, Done), ReconcileStep(h, Failed("", false));
    var m := s.(reconciles := s.reconciles[h := DeferredRead(mem)]);
    assert Next(c, s, fails) == Some(m);
    var n := m.(reconciles := m.reconciles[h := DeferredWrite(mem, s.world.server[h].attributes)]);
    assert Next(c, m, l) == Some(n);
    s' := Next(c, n, l).value;
    Nothing(c, s');
    Then(c, n, l, s', [], s');
    Then(c, m, l, n, [l] + [], s');
    Then(c, s, fails, m, [l] + ([l] + []), s');
    ls := [fails] + ([l] + ([l] + []));
  }

  /** The stale error is real. For every configuration, host about to be launched, spec of another hash and message
      there is a run from a fresh controller that ends in a host that is up to date for its current inputs, with the
      error of a superseded worker beside the status "completed". */
  lemma StaleErrorIsReachable(c: Config, s0: State, h: Key, other: HostSpec, message: string)
    returns (ls: seq<Label>, s': State)
    requires Init(s0) && c.hasFactory && WillLaunch(c, s0, h)
    requires c.hashOf(other, s0.world.configuration) != c.hashOf(s0.world.server[h].spec, s0.world.configuration)
    ensures Exec(c, s0, ls) == Some(s') && h in s'.world.server
    ensures var a := s'.world.server[h].attributes;
            && UpToDate(a, c.hashOf(s'.world.server[h].spec, s'.world.configuration))
            && HELM_ERROR in a && a[HELM_ERROR] == message
  {
    var first, s1 := FailsBeforeEdit(c, s0, h, message);
    var second, s2 := ErrorLands(c, s1, h, s0.nextCtx, other, message);
    var third;
    third, s' := ErrorComesBack(c, s2, h, s1.nextCtx, message);
    ExecAppend(c, s1, second, third);
    ls := first + (second + third);
    ExecAppend(c, s0, first, second + third);
  }

  lemma ErrorComesBack(c: Config, s: State, h: Key, done: nat, message: string) returns (ls: seq<Label>, s': State)
    requires ErrorRecorded(c, s, h, done, message)
    ensures Exec(c, s, ls) == Some(s') && h in s'.world.server
    ensures var a := s'.world.server[h].attributes;
            && UpToDate(a, c.hashOf(s'.world.server[h].spec, s'.world.configuration))
            && HELM_ERROR in a && a[HELM_ERROR] == message
  {
    var first, m, mem := ReconcileHoldsError(c, s, h, done, message);
    var second;
    second, s' := DefersOnly(c, m, h, mem);
    StaleOutcome(mem.attributes, s.workers[done].hash, c.controllerId);
    ls := first + second;
    ExecAppend(c, s, first, second);
  }

  lemma StaleOutcome(mem: Attributes, hash: string, owner: string)
    requires HELM_ERROR in mem
    ensures var done := MarkOutcome(mem, None, hash, owner, "");
            var a := Apply(DeferredPatch(mem, done), done);
            UpToDate(a, hash) && HELM_ERROR in a && a[HELM_ERROR] == mem[HELM_ERROR]
  {
    StaleErrorComesBack(mem, hash, owner);
    HashStays(mem, hash, owner);
  }

  lemma HashStays(mem: Attributes, hash: string, owner: string)
    ensures var done := MarkOutcome(mem, None, hash, owner, "");
            Lookup(Apply(DeferredPatch(mem, done), done), HELM_HASH) == hash
  {
    var done := MarkOutcome(mem, None, hash, owner, "");
    HelmPartOfPatch(mem, done);
    assert |HELM_HASH| == 17 && |HELM_OWNER| == 18;
    assert HelmKey(HELM_HASH) && HELM_HASH in done && done[HELM_HASH] == hash;
  }
}
