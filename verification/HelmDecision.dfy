/** What a reconcile decides about the Helm releases of its host: when it launches a worker, and when it does not. */
module HelmDecision {
  import opened Wrappers
  import opened HelmOperations
  import opened HostStatus
  import opened HelmProtocol
  import opened HelmSafety
  import opened HelmRuns
  import opened HelmRender
  import HelmTeardown

  /** Reading a missing attribute gives the empty string. */
  predicate Reads(a: Attributes, k: string, v: string) {
    (if k in a then a[k] else "") == v
  }

  /** The reconcile of `h` stands where it stood. */
  predicate Waited(s: State, s': State, h: Key) {
    h in s.reconciles && h in s'.reconciles && s'.reconciles[h] == s.reconciles[h]
  }

  /** The three answers that need no launch, in terms of what the API server had and of the active map: the work is
      under way here, it is done, or it failed a moment ago. */
  predicate NothingToDo(a: Attributes, hash: string, active: Active, h: Key, backoff: bool) {
    || (Reads(a, "helm.release.status", "in_progress") && h in active && active[h].hash == hash)
    || (Reads(a, "helm.release.status", "completed") && Reads(a, "helm.release.hash", hash))
    || (Reads(a, "helm.release.status", "failed") && Reads(a, "helm.release.hash", hash)
        && !Reads(a, "helm.release.last-attempt", "") && backoff)
  }

  /** The decision, exactly, whatever else runs between its steps. It is made on the copy fetched from the API server,
      the hash of the reconcile's own spec under the configuration of the moment, and the active map at the end. */
  lemma DecisionIff(
    c: Config, h: Key, read: State, got: State, hashing: State, hashed: State, checking: State, o: Outcome,
    decided: State)
    requires h in read.reconciles && read.reconciles[h].HelmRead? && h in read.world.server
    requires Next(c, read, ReconcileStep(h, Done)) == Some(got) && Waited(got, hashing, h)
    requires Next(c, hashing, ReconcileStep(h, Done)) == Some(hashed) && Waited(hashed, checking, h)
    requires Next(c, checking, ReconcileStep(h, o)) == Some(decided)
    ensures h in decided.reconciles && decided.world == checking.world && decided.workers == checking.workers
    ensures var hash := c.hashOf(read.reconciles[h].mem.spec, hashing.world.configuration);
            && (decided.reconciles[h].DeferredRead?
                <==> NothingToDo(read.world.server[h].attributes, hash, checking.world.active, h, o.Backoff?))
            && (decided.reconciles[h].DeferredRead? || decided.reconciles[h].PatchProgress?)
            && (decided.reconciles[h].PatchProgress? ==>
                  && Has(decided.reconciles[h].mem.attributes, "helm.release.hash", hash)
                  && Has(decided.reconciles[h].mem.attributes, "helm.release.generation",
                         c.formatInt(read.world.server[h].generation)))
  {
    var hash := c.hashOf(read.reconciles[h].mem.spec, hashing.world.configuration);
    var generation := c.formatInt(read.world.server[h].generation);
    LaunchInWords(read.reconciles[h].mem.attributes, hash, generation, c.controllerId);
  }

  /** A read or a hash that fails decides nothing: the reconcile only has its deferred block left. */
  lemma FailureDecidesNothing(c: Config, s: State, h: Key, o: Outcome, s': State)
    requires h in s.reconciles && (s.reconciles[h].HelmRead? || s.reconciles[h].HelmHash?)
    requires o.Failed? || (s.reconciles[h].HelmRead? && h !in s.world.server)
    requires Next(c, s, ReconcileStep(h, o)) == Some(s')
    ensures s' == s.(reconciles := s.reconciles[h := DeferredRead(s.reconciles[h].mem)])
  {
  }

  /** What a launch records, exactly, and that it does so before it creates a context: whatever else runs between its
      steps, each attribute stands if and only if the fetched copy lacked it or the API server still has it; and where
      the patch fails there is no launch. */
  lemma LaunchIsRecordedIff(
    c: Config, h: Key, checking: State, decided: State, patching: State, o: Outcome, patched: State, o': Outcome)
    requires h in checking.reconciles && checking.reconciles[h].HelmCheck?
    requires Next(c, checking, ReconcileStep(h, o)) == Some(decided)
    requires h in decided.reconciles && decided.reconciles[h].PatchProgress? && Waited(decided, patching, h)
    requires Next(c, patching, ReconcileStep(h, o')) == Some(patched)
    ensures h !in patching.world.server || o'.Failed? ==>
              patched.world == patching.world && patched.workers == patching.workers
              && h in patched.reconciles && patched.reconciles[h].DeferredRead?
    ensures h in patching.world.server && !o'.Failed? ==>
              var r, latest := checking.reconciles[h], checking.reconciles[h].latest;
              && patched.workers
                 == patching.workers[patching.nextCtx := Worker(h, r.hash, false, false, Prepared)]
              && h in patched.world.server
              && var a, b := patching.world.server[h].attributes, patched.world.server[h].attributes;
                 && StandsIff(latest, a, b, "helm.release.status", "in_progress")
                 && StandsIff(latest, a, b, "helm.release.hash", r.hash)
                 && StandsIff(latest, a, b, "helm.release.generation", c.formatInt(r.mem.generation))
                 && StandsIff(latest, a, b, "helm.release.owner", c.controllerId)
                 && GoneIff(latest, a, b, "helm.release.error")
                 && GoneIff(latest, a, b, "helm.release.last-attempt")
  {
    if h in patching.world.server && !o'.Failed? {
      var r := checking.reconciles[h];
      var target := MarkInProgress(r.mem.attributes, r.hash, c.formatInt(r.mem.generation), c.controllerId);
      var a := patching.world.server[h].attributes;
      LaunchInWords(r.mem.attributes, r.hash, c.formatInt(r.mem.generation), c.controllerId);
      assert patched.world.server[h].attributes == Apply(Diff(r.latest, target), a);
      PatchedKey(r.latest, target, a, "helm.release.status");
      PatchedKey(r.latest, target, a, "helm.release.hash");
      PatchedKey(r.latest, target, a, "helm.release.generation");
      PatchedKey(r.latest, target, a, "helm.release.owner");
      PatchedKey(r.latest, target, a, "helm.release.error");
      PatchedKey(r.latest, target, a, "helm.release.last-attempt");
    }
  }

  /** The claim, exactly, whatever else runs before it: an operation of the same hash is left alone, and then the
      context just made is thrown away and nobody is cancelled; a free map is claimed; and an operation of another hash
      is cancelled and replaced, with whatever others do between the two lock sections. */
  lemma ClaimIff(
    c: Config, h: Key, s: State, s1: State, replacing: State, s2: State, setting: State, s3: State)
    requires h in s.reconciles && s.reconciles[h].TrySet? && Next(c, s, ReconcileStep(h, Done)) == Some(s1)
    requires s1.reconciles[h].Replace? ==>
               && Waited(s1, replacing, h) && Next(c, replacing, ReconcileStep(h, Done)) == Some(s2)
               && Waited(s2, setting, h) && Next(c, setting, ReconcileStep(h, Done)) == Some(s3)
    ensures var r, active := s.reconciles[h], s.world.active;
            if h in active && active[h].hash == r.hash then
              && s1.world == s.world && s1.workers == s.workers - {r.ctx} && s1.reconciles[h].DeferredRead?
            else if h !in active then
              && s1.world.active == active[h := HelmOperation(r.ctx, r.hash)] && s1.workers == s.workers
              && s1.reconciles[h].Launch? && s1.reconciles[h].ctx == r.ctx
            else
              && s1.world == s.world && s1.workers == s.workers && s1.reconciles[h].Replace?
              && (active[h].ctx in replacing.workers ==>
                    active[h].ctx in s2.workers && s2.workers[active[h].ctx].cancelled)
              && (forall id :: id in replacing.workers && id != active[h].ctx ==>
                    id in s2.workers && s2.workers[id] == replacing.workers[id])
              && s3.world.active == setting.world.active[h := HelmOperation(r.ctx, r.hash)]
              && s3.reconciles[h].Launch? && s3.reconciles[h].ctx == r.ctx
  {
    var r, active := s.reconciles[h], s.world.active;
    if h in active && active[h].hash != r.hash {
      assert replacing.reconciles[h] == Replace(r.mem, r.hash, r.ctx, active[h]);
      assert setting.reconciles[h] == SetEntry(r.mem, r.hash, r.ctx);
    }
  }

  // ---------------------------------------------------------------- a settled host is left alone

  ghost predicate NoWorkerOf(s: State, h: Key) {
    forall id :: id in s.workers ==> s.workers[id].host != h
  }

  /** What the reconcile of a host at rest holds in memory. */
  ghost predicate HoldsSame(r: Reconcile, spec: HostSpec, hash: string, a: Attributes) {
    && SameHelm(r.mem.attributes, a)
    && match r
       case Loaded(mem) => mem.spec == spec
       case HelmRead(mem) => mem.spec == spec
       case HelmHash(mem, latest) => mem.spec == spec && SameHelm(latest, a)
       case HelmCheck(_, latest, hashed) => SameHelm(latest, a) && hashed == hash
       case PatchProgress(_, _, _) => false
       case DeferredWrite(_, latest) => SameHelm(latest, a)
       case _ => !Pending(r)
  }

  ghost predicate AtRest(c: Config, s: State, h: Key, spec: HostSpec, cfg: string, a: Attributes) {
    && s.world.configuration == cfg && NoWorkerOf(s, h)
    && (h in s.world.server ==> s.world.server[h].spec == spec && SameHelm(s.world.server[h].attributes, a))
    && (h in s.reconciles ==> HoldsSame(s.reconciles[h], spec, c.hashOf(spec, cfg), a))
  }

  predicate SameHost(s: World, s': World, h: Key) {
    (h in s'.server <==> h in s.server) && (h in s.server ==> s'.server[h] == s.server[h])
  }

  lemma OtherFinishLeavesHost(c: Config, s: World, w: Worker, o: Outcome, r: WorkerResult, h: Key)
    requires FinishNext(c, s, w, o) == Some(r) && w.host != h
    ensures SameHost(s, r.world, h) && r.world.configuration == s.configuration
    ensures r.worker.Some? ==> r.worker.value.host == w.host
  {
  }

  lemma OtherWorkerLeavesHost(c: Config, s: World, w: Worker, o: Outcome, r: WorkerResult, h: Key)
    requires WorkerNext(c, s, w, o) == Some(r) && w.host != h
    ensures SameHost(s, r.world, h) && r.world.configuration == s.configuration
    ensures r.worker.Some? ==> r.worker.value.host == w.host
  {
    if HelmPhase(w.pc) {
      HelmTeardown.HelmTouches(s, w, o, r);
    } else if w.pc.ReadStatus? || w.pc.WriteStatus? || w.pc.Clear? || w.pc.DeferredRelease? {
      OtherFinishLeavesHost(c, s, w, o, r, h);
    } else {
      HelmTeardown.QueueTouches(c, s, w, o, r);
    }
  }

  lemma OtherReconcileLeavesHost(
    c: Config, s: World, unused: nat, g: Key, r: Reconcile, o: Outcome, res: ReconcileResult, h: Key)
    requires ReconcileNext(c, s, unused, g, r, o) == Some(res) && g != h
    ensures SameHost(s, res.world, h)
  {
    if Framing(r) {
      OtherFrameLeavesHost(s, g, r, o, res, h);
    } else if Deciding(r) {
      OtherDecisionLeavesHost(c, s, unused, g, r, o, res, h);
    } else if !Pending(r) {
      OtherTeardownLeavesHost(s, g, r, o, res, h);
    }
  }

  lemma OtherFrameLeavesHost(s: World, g: Key, r: Reconcile, o: Outcome, res: ReconcileResult, h: Key)
    requires FrameNext(s, g, r, o) == Some(res) && g != h
    ensures SameHost(s, res.world, h)
  {
  }

  lemma OtherDecisionLeavesHost(
    c: Config, s: World, unused: nat, g: Key, r: Reconcile, o: Outcome, res: ReconcileResult, h: Key)
    requires DecideNext(c, s, unused, g, r, o) == Some(res) && g != h
    ensures SameHost(s, res.world, h)
  {
  }

  lemma OtherTeardownLeavesHost(s: World, g: Key, r: Reconcile, o: Outcome, res: ReconcileResult, h: Key)
    requires TeardownNext(s, g, r, o) == Some(res) && g != h
    ensures SameHost(s, res.world, h)
  {
  }

  /** The host's own reconcile, from its start to its decision: there is nothing to do. */
  lemma OwnDecisionRests(
    c: Config, s: World, unused: nat, h: Key, r: Reconcile, o: Outcome, res: ReconcileResult, spec: HostSpec,
    a: Attributes)
    requires Deciding(r) && DecideNext(c, s, unused, h, r, o) == Some(res)
    requires HoldsSame(r, spec, c.hashOf(spec, s.configuration), a)
    requires h in s.server ==> SameHelm(s.server[h].attributes, a)
    requires Has(a, "helm.release.status", "completed")
    requires Reads(a, "helm.release.hash", c.hashOf(spec, s.configuration))
    ensures res.world == s && res.action == NoAction
    ensures res.reconcile.Some? && HoldsSame(res.reconcile.value, spec, c.hashOf(spec, s.configuration), a)
  {
    assert HelmKey(HELM_STATUS) && HelmKey(HELM_HASH);
  }

  lemma OwnFrameRests(s: World, h: Key, r: Reconcile, o: Outcome, res: ReconcileResult, spec: HostSpec, hash: string,
                      a: Attributes)
    requires Framing(r) && FrameNext(s, h, r, o) == Some(res) && HoldsSame(r, spec, hash, a)
    requires h in s.server ==> s.server[h].spec == spec && SameHelm(s.server[h].attributes, a)
    ensures h in res.world.server ==>
              res.world.server[h].spec == spec && SameHelm(res.world.server[h].attributes, a)
    ensures res.world.configuration == s.configuration && res.action == NoAction
    ensures res.reconcile.Some? ==> HoldsSame(res.reconcile.value, spec, hash, a)
  {
    if r.DeferredWrite? && h in s.server {
      DeferredKeepsHelmIff(r.mem.attributes, r.latest);
      assert SameHelm(Apply(DeferredPatch(r.mem.attributes, r.latest), s.server[h].attributes), s.server[h].attributes);
    }
  }

  lemma OwnTeardownRests(s: World, h: Key, r: Reconcile, o: Outcome, res: ReconcileResult, spec: HostSpec, hash: string,
                         a: Attributes)
    requires TeardownNext(s, h, r, o) == Some(res) && HoldsSame(r, spec, hash, a)
    requires h in s.server ==> s.server[h].spec == spec && SameHelm(s.server[h].attributes, a)
    ensures h in res.world.server ==>
              res.world.server[h].spec == spec && SameHelm(res.world.server[h].attributes, a)
    ensures res.world.configuration == s.configuration && !res.action.Create?
    ensures res.reconcile.Some? ==> HoldsSame(res.reconcile.value, spec, hash, a)
  {
  }

  lemma ReconcileKeepsRest(
    c: Config, s: State, g: Key, o: Outcome, s': State, h: Key, spec: HostSpec, cfg: string, a: Attributes)
    requires AtRest(c, s, h, spec, cfg, a) && g in s.reconciles && Next(c, s, ReconcileStep(g, o)) == Some(s')
    requires Has(a, "helm.release.status", "completed") && Reads(a, "helm.release.hash", c.hashOf(spec, cfg))
    ensures AtRest(c, s', h, spec, cfg, a)
  {
    var r := s.reconciles[g];
    var res := ReconcileNext(c, s.world, s.nextCtx, g, r, o).value;
    if g != h {
      OtherReconcileLeavesHost(c, s.world, s.nextCtx, g, r, o, res, h);
      ReconcileKeepsSpecs(c, s.world, s.nextCtx, g, r, o, res);
    } else if Framing(r) {
      OwnFrameRests(s.world, h, r, o, res, spec, c.hashOf(spec, cfg), a);
    } else if Deciding(r) {
      OwnDecisionRests(c, s.world, s.nextCtx, h, r, o, res, spec, a);
    } else {
      OwnTeardownRests(s.world, h, r, o, res, spec, c.hashOf(spec, cfg), a);
    }
    CommitKeepsHosts(s, g, res, h);
  }

  /** A reconcile's step gives `h` a worker only by creating a context for it. */
  lemma CommitKeepsHosts(s: State, g: Key, res: ReconcileResult, h: Key)
    requires NoWorkerOf(s, h) && (g == h ==> !res.action.Create?)
    ensures NoWorkerOf(CommitReconcile(s, g, res), h)
  {
  }

  lemma StepKeepsRest(c: Config, s: State, l: Label, s': State, h: Key, spec: HostSpec, cfg: string, a: Attributes)
    requires AtRest(c, s, h, spec, cfg, a) && InputsUntouched(h, [l]) && Next(c, s, l) == Some(s')
    requires Has(a, "helm.release.status", "completed") && Reads(a, "helm.release.hash", c.hashOf(spec, cfg))
    ensures AtRest(c, s', h, spec, cfg, a)
  {
    assert l in [l];
    match l
    case WorkerStep(id, o) =>
      OtherWorkerLeavesHost(
        c, s.world, s.workers[id], o, WorkerNext(c, s.world, s.workers[id], o).value, h);
    case ReconcileStep(g, o) =>
      if g in s.reconciles {
        ReconcileKeepsRest(c, s, g, o, s', h, spec, cfg, a);
      }
    case _ =>
  }

  lemma {:induction false} RestLasts(
    c: Config, s: State, ls: seq<Label>, s': State, h: Key, spec: HostSpec, cfg: string, a: Attributes)
    requires AtRest(c, s, h, spec, cfg, a) && InputsUntouched(h, ls) && Exec(c, s, ls) == Some(s')
    requires Has(a, "helm.release.status", "completed") && Reads(a, "helm.release.hash", c.hashOf(spec, cfg))
    ensures AtRest(c, s', h, spec, cfg, a)
    decreases |ls|
  {
    if ls != [] {
      var m := Next(c, s, ls[0]).value;
      assert ls[0] in ls;
      StepKeepsRest(c, s, ls[0], m, h, spec, cfg, a);
      RestLasts(c, m, ls[1..], s', h, spec, cfg, a);
    }
  }

  /** A settled host is left alone. Without a worker or a running reconcile, a host that is completed under the hash of
      its current inputs gets no worker in any later run that leaves those inputs alone, whatever else happens (even its
      deletion), and its Helm attributes stay as they are for as long as it is there. */
  lemma SettledIsLeftAlone(c: Config, s: State, ls: seq<Label>, s': State, h: Key)
    requires h in s.world.server && h !in s.reconciles && NoWorkerOf(s, h)
    requires Has(s.world.server[h].attributes, "helm.release.status", "completed")
    requires Reads(s.world.server[h].attributes, "helm.release.hash",
                   c.hashOf(s.world.server[h].spec, s.world.configuration))
    requires InputsUntouched(h, ls) && Exec(c, s, ls) == Some(s')
    ensures NoWorkerOf(s', h)
    ensures h in s'.world.server ==> SameHelm(s'.world.server[h].attributes, s.world.server[h].attributes)
  {
    RestLasts(c, s, ls, s', h, s.world.server[h].spec, s.world.configuration, s.world.server[h].attributes);
  }

  lemma UnsettledLaunches(c: Config, s: State, h: Key) returns (ls: seq<Label>, s': State)
    requires Safe(c, s) && h !in s.reconciles && NoWorkerOf(s, h)
    requires h in s.world.server && !s.world.server[h].deleting && s.world.server[h].finalizer
    requires !UpToDate(s.world.server[h].attributes, c.hashOf(s.world.server[h].spec, s.world.configuration))
    ensures InputsUntouched(h, ls) && Exec(c, s, ls) == Some(s') && !NoWorkerOf(s', h)
  {
    assert h in s.world.active ==> EntryLive(s, h);
    ls, s' := Launches(c, s, h);
    assert s'.workers[s.nextCtx].host == h;
  }

  /** And only such a host: one that is not completed under its current hash may be launched. */
  lemma SettledIff(c: Config, s: State, h: Key)
    requires Safe(c, s) && h !in s.reconciles && NoWorkerOf(s, h)
    requires h in s.world.server && !s.world.server[h].deleting && s.world.server[h].finalizer
    ensures (&& Has(s.world.server[h].attributes, "helm.release.status", "completed")
             && Reads(s.world.server[h].attributes, "helm.release.hash",
                      c.hashOf(s.world.server[h].spec, s.world.configuration)))
            <==> forall ls, s' :: InputsUntouched(h, ls) && Exec(c, s, ls) == Some(s') ==> NoWorkerOf(s', h)
  {
    var a, hash := s.world.server[h].attributes, c.hashOf(s.world.server[h].spec, s.world.configuration);
    if Has(a, "helm.release.status", "completed") && Reads(a, "helm.release.hash", hash) {
      forall ls, s' | InputsUntouched(h, ls) && Exec(c, s, ls) == Some(s')
        ensures NoWorkerOf(s', h)
      {
        SettledIsLeftAlone(c, s, ls, s', h);
      }
    } else {
      var ls, s' := UnsettledLaunches(c, s, h);
    }
  }
}
